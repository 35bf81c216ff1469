/**
 * The earlier single-tree documenter (analysis.py): an object is classified as
 * module, class, function or something else, and documented together with the
 * members that belong to it. Objects form a finite tree.
 */
module Analysis {
  import opened Wrappers
  import opened Inspect
  import opened Selection

  /** What `inspect.ismodule`, `isclass` and `isfunction` decide, tried in that order. */
  datatype Kind = ModuleKind | ClassKind | FunctionKind | OtherKind

  /**
   * A Python object: its kind, `__name__`, `__module__` (`None` when the object
   * has no such attribute; an instance reports its class's), docstring as
   * `inspect.getdoc` returns it, signature as `inspect.signature` returns it,
   * and `__dict__` in insertion order.
   */
  datatype PyObj = PyObj(
    kind: Kind,
    name: string,
    declaredIn: Option<string>,
    doc: Option<string>,
    sig: Signature,
    dict: seq<(string, PyObj)>)

  datatype Meta =
    | ModuleMeta(children: seq<Entry>)
    | ClassMeta(sig: Signature, children: seq<Entry>)
    | FunctionMeta(sig: Signature)

  /** The documentation of one object. */
  datatype Entry = Entry(name: string, docstring: Option<string>, meta: Meta)

  // ----- sizes, for termination ----------------------------------------------------

  function Size(o: PyObj): nat {
    1 + DictSize(o.dict)
  }

  function DictSize(d: seq<(string, PyObj)>): nat {
    if d == [] then 0
    else
      var last := d[|d| - 1];
      assert d decreases to last;
      DictSize(d[..|d| - 1]) + Size(last.1)
  }

  function ListSize(objs: seq<PyObj>): nat {
    if objs == [] then 0 else ListSize(objs[..|objs| - 1]) + Size(objs[|objs| - 1])
  }

  lemma ListSizeAppend(objs: seq<PyObj>, o: PyObj)
    ensures ListSize(objs + [o]) == ListSize(objs) + Size(o)
  {
    assert (objs + [o])[..|objs|] == objs;
  }

  // ----- get_members ---------------------------------------------------------------

  /** Keys of `__dict__` that are never members of a class or other object. */
  const Banned: set<string> := {"__dict__", "__weakref__"}

  predicate NotBanned(e: (string, PyObj)) {
    e.0 !in Banned
  }

  /** Holds of an entry whose value has a `__module__` equal to `name`. */
  function DeclaredIn(name: string): ((string, PyObj)) -> bool {
    (e: (string, PyObj)) => e.1.declaredIn == Some(name)
  }

  /** The values of the entries of `d` that `keep` accepts, in order. */
  function Values(d: seq<(string, PyObj)>, keep: ((string, PyObj)) -> bool): seq<PyObj> {
    if d == [] then []
    else
      var last := d[|d| - 1];
      Values(d[..|d| - 1], keep) + (if keep(last) then [last.1] else [])
  }

  /** Filtering a `__dict__` never yields more object than it holds. */
  lemma {:induction false} ValuesSize(d: seq<(string, PyObj)>, keep: ((string, PyObj)) -> bool)
    ensures ListSize(Values(d, keep)) <= DictSize(d)
  {
    if d != [] {
      var init := d[..|d| - 1];
      var last := d[|d| - 1];
      ValuesSize(init, keep);
      assert DictSize(d) == DictSize(init) + Size(last.1);
      if keep(last) {
        assert Values(d, keep) == Values(init, keep) + [last.1];
        ListSizeAppend(Values(init, keep), last.1);
      } else {
        assert Values(d, keep) == Values(init, keep);
      }
    }
  }

  lemma {:induction false} ValuesExact(d: seq<(string, PyObj)>, keep: ((string, PyObj)) -> bool)
    ensures var idx := Selected(d, keep);
      |Values(d, keep)| == |idx| && forall j :: 0 <= j < |idx| ==> Values(d, keep)[j] == d[idx[j]].1
  {
    if d != [] {
      var init := d[..|d| - 1];
      ValuesExact(init, keep);
      var idx0 := Selected(init, keep);
      var last := d[|d| - 1];
      assert Selected(d, keep) == idx0 + (if keep(last) then [|d| - 1] else []);
      assert Values(d, keep) == Values(init, keep) + (if keep(last) then [last.1] else []);
      assert forall j :: 0 <= j < |idx0| ==> d[idx0[j]] == init[idx0[j]];
    }
  }

  /** The filter `get_members` applies to an object's `__dict__`. */
  function MemberFilter(obj: PyObj): ((string, PyObj)) -> bool {
    if obj.kind == ModuleKind then DeclaredIn(obj.name) else NotBanned
  }

  /**
   * `get_members`: of a module, the values declared in that module; of anything
   * else, the values whose key is not banned.
   */
  function GetMembers(obj: PyObj): (r: seq<PyObj>)
    ensures ListSize(r) < Size(obj)
  {
    ValuesSize(obj.dict, MemberFilter(obj));
    Values(obj.dict, MemberFilter(obj))
  }

  /**
   * On a module, `get_members` yields, in dictionary order, exactly the values
   * whose `__module__` is the module's name; values without one are left out.
   */
  lemma GetMembersOfModule(obj: PyObj)
    requires obj.kind == ModuleKind
    ensures var idx := Selected(obj.dict, DeclaredIn(obj.name));
      && |GetMembers(obj)| == |idx|
      && (forall j :: 0 <= j < |idx| ==> GetMembers(obj)[j] == obj.dict[idx[j]].1)
      && (forall j :: 0 <= j < |idx| ==> obj.dict[idx[j]].1.declaredIn == Some(obj.name))
      && (forall i :: 0 <= i < |obj.dict| && obj.dict[i].1.declaredIn == Some(obj.name) ==> i in idx)
  {
    ValuesExact(obj.dict, DeclaredIn(obj.name));
    var idx := Selected(obj.dict, DeclaredIn(obj.name));
    assert forall j :: 0 <= j < |idx| ==> DeclaredIn(obj.name)(obj.dict[idx[j]]);
    assert forall i :: 0 <= i < |obj.dict| && obj.dict[i].1.declaredIn == Some(obj.name) ==> DeclaredIn(obj.name)(obj.dict[i]);
  }

  /**
   * On anything but a module, `get_members` yields, in dictionary order, every
   * value whose key is neither `__dict__` nor `__weakref__`.
   */
  lemma GetMembersOfOther(obj: PyObj)
    requires obj.kind != ModuleKind
    ensures var idx := Selected(obj.dict, NotBanned);
      && |GetMembers(obj)| == |idx|
      && (forall j :: 0 <= j < |idx| ==> GetMembers(obj)[j] == obj.dict[idx[j]].1)
      && (forall j :: 0 <= j < |idx| ==> obj.dict[idx[j]].0 !in Banned)
      && (forall i :: 0 <= i < |obj.dict| && obj.dict[i].0 !in Banned ==> i in idx)
  {
    ValuesExact(obj.dict, NotBanned);
  }

  // ----- document, document_all ------------------------------------------------------

  /**
   * `document`: a module or class is documented with its documented members, a
   * function with its signature only; any other object gives `None`.
   */
  function Document(obj: PyObj): (r: Option<Entry>)
    ensures r.None? <==> obj.kind == OtherKind
    ensures r.Some? ==> r.value.name == obj.name && r.value.docstring == obj.doc
    ensures r.Some? ==>
      && (r.value.meta.ModuleMeta? <==> obj.kind == ModuleKind)
      && (r.value.meta.ClassMeta? <==> obj.kind == ClassKind)
      && (r.value.meta.FunctionMeta? <==> obj.kind == FunctionKind)
    ensures r.Some? && !r.value.meta.ModuleMeta? ==> r.value.meta.sig == obj.sig
    ensures r.Some? && !r.value.meta.FunctionMeta? ==> |r.value.meta.children| <= |GetMembers(obj)|
    decreases Size(obj), 0
  {
    match obj.kind
    case ModuleKind => Some(Entry(obj.name, obj.doc, ModuleMeta(DocumentAll(GetMembers(obj)))))
    case ClassKind => Some(Entry(obj.name, obj.doc, ClassMeta(obj.sig, DocumentAll(GetMembers(obj)))))
    case FunctionKind => Some(Entry(obj.name, obj.doc, FunctionMeta(obj.sig)))
    case OtherKind => None
  }

  /** `document_all`: the documentation of each object, leaving out the `None`s. */
  function DocumentAll(objs: seq<PyObj>): (r: seq<Entry>)
    ensures |r| <= |objs|
    decreases ListSize(objs), 1
  {
    if objs == [] then []
    else
      DocumentAll(objs[..|objs| - 1]) +
        (match Document(objs[|objs| - 1]) case Some(e) => [e] case None => [])
  }

  predicate Documentable(o: PyObj) {
    o.kind != OtherKind
  }

  /**
   * `document_all` keeps, in input order, the documentation of exactly the
   * objects that are modules, classes or functions.
   */
  lemma {:induction false} DocumentAllExact(objs: seq<PyObj>)
    ensures var idx := Selected(objs, Documentable);
      && |DocumentAll(objs)| == |idx|
      && forall j :: 0 <= j < |idx| ==> Some(DocumentAll(objs)[j]) == Document(objs[idx[j]])
  {
    if objs != [] {
      var init := objs[..|objs| - 1];
      DocumentAllExact(init);
      var idx0 := Selected(init, Documentable);
      assert forall j :: 0 <= j < |idx0| ==> objs[idx0[j]] == init[idx0[j]];
    }
  }

  /** Holds of an entry that `get_members` keeps and `document` documents. */
  function DocumentedMember(keep: ((string, PyObj)) -> bool): ((string, PyObj)) -> bool {
    (e: (string, PyObj)) => keep(e) && Documentable(e.1)
  }

  lemma {:induction false} DocumentValues(d: seq<(string, PyObj)>, keep: ((string, PyObj)) -> bool)
    ensures var idx := Selected(d, DocumentedMember(keep));
      && |DocumentAll(Values(d, keep))| == |idx|
      && forall j :: 0 <= j < |idx| ==> Some(DocumentAll(Values(d, keep))[j]) == Document(d[idx[j]].1)
  {
    if d != [] {
      var init := d[..|d| - 1];
      DocumentValues(init, keep);
      var idx0 := Selected(init, DocumentedMember(keep));
      assert forall j :: 0 <= j < |idx0| ==> d[idx0[j]] == init[idx0[j]];
      var last := d[|d| - 1];
      var vs := Values(init, keep);
      if keep(last) {
        assert Values(d, keep) == vs + [last.1];
        assert (vs + [last.1])[..|vs|] == vs;
        assert DocumentAll(vs + [last.1])
            == DocumentAll(vs) + (match Document(last.1) case Some(e) => [e] case None => []);
      } else {
        assert Values(d, keep) == vs;
        assert !DocumentedMember(keep)(last);
        assert Selected(d, DocumentedMember(keep)) == idx0;
      }
    }
  }

  /**
   * The children of a documented module or class are, in dictionary order, the
   * documentation of exactly those members that `get_members` keeps and that are
   * modules, classes or functions.
   */
  lemma DocumentedChildren(obj: PyObj)
    requires obj.kind == ModuleKind || obj.kind == ClassKind
    ensures var children := Document(obj).value.meta.children;
      var idx := Selected(obj.dict, DocumentedMember(MemberFilter(obj)));
      && |children| == |idx|
      && forall j :: 0 <= j < |idx| ==> Some(children[j]) == Document(obj.dict[idx[j]].1)
  {
    DocumentValues(obj.dict, MemberFilter(obj));
  }

}
