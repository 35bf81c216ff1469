/**
 * The records the registry builder produces (registry.py) and the functions that
 * document a module's or class's members. Python objects met during reflection
 * are modelled by `Member`, `ClassObj`, `FunctionObj` and `ModuleObj`; modules
 * refer to one another by `ModuleId`, since the import graph may have cycles.
 */
module Registry {
  import opened Wrappers
  import opened Inspect
  import opened Selection

  // ----- reflected objects ---------------------------------------------------

  /** The identity of a loaded module object. */
  type ModuleId = nat

  /** A value bound in a `__dict__`, classified as `inspect` would. */
  datatype Member =
    | MModule(id: ModuleId)
    | MClass(cls: ClassObj)
    | MFunction(fn: FunctionObj)
    | MOther

  /** A class: its signature, docstring and own `__dict__`, in insertion order. */
  datatype ClassObj = ClassObj(sig: Signature, doc: Option<string>, members: seq<(string, Member)>)

  /** A function: its signature, docstring and the module `inspect.getmodule` reports, if any. */
  datatype FunctionObj = FunctionObj(sig: Signature, doc: Option<string>, origin: Option<ModuleId>)

  /**
   * A module object: `__file__` (absent for built-in modules), `__name__`,
   * `__package__`, `__doc__`, and the rest of its `__dict__` in insertion order.
   */
  datatype ModuleObj = ModuleObj(
    file: Option<string>,
    name: string,
    package: Option<string>,
    doc: Option<string>,
    members: seq<(string, Member)>)

  // ----- documentation records -------------------------------------------------

  datatype Function = Function(sig: Signature, doc: Option<string>)

  datatype Class = Class(sig: Signature, doc: Option<string>, classes: seq<Class>, functions: seq<Function>)

  datatype Module = Module(
    name: string,
    abspath: string,
    package: Option<string>,
    doc: Option<string>,
    classes: seq<Class>,
    functions: seq<Function>)

  datatype Registry = Registry(abspath: string, modules: seq<Module>)

  // ----- documenting members ---------------------------------------------------

  /** Members that are never inspected on classes or modules. */
  const BannedMembers: set<string> := {"__builtin__", "__dict__", "__weakref__"}

  predicate IsFunctionEntry(e: (string, Member)) {
    e.0 !in BannedMembers && e.1.MFunction?
  }

  predicate IsClassEntry(e: (string, Member)) {
    e.0 !in BannedMembers && e.1.MClass?
  }

  /** `document_function`: a function's record carries its signature and docstring. */
  function DocumentFunction(f: FunctionObj): (r: Function)
    ensures r.sig == f.sig && r.doc == f.doc
  {
    Function(f.sig, f.doc)
  }

  /** The documented functions of a `__dict__`, in dictionary order. */
  function MemberFunctions(d: seq<(string, Member)>): (r: seq<Function>)
    ensures |r| <= |d|
  {
    if d == [] then []
    else
      var last := d[|d| - 1];
      MemberFunctions(d[..|d| - 1]) + (if IsFunctionEntry(last) then [DocumentFunction(last.1.fn)] else [])
  }

  /** A class's documentation, its nested classes documented recursively. */
  function DocumentClass(c: ClassObj): (r: Class)
    ensures r.sig == c.sig && r.doc == c.doc
    ensures r.classes == MemberClasses(c.members) && r.functions == MemberFunctions(c.members)
    ensures |r.classes| + |r.functions| <= |c.members|
    decreases c, 1
  {
    MemberCountsBound(c.members);
    Class(c.sig, c.doc, MemberClasses(c.members), MemberFunctions(c.members))
  }

  /** The documented classes of a `__dict__`, in dictionary order. */
  function MemberClasses(d: seq<(string, Member)>): (r: seq<Class>)
    ensures |r| <= |d|
    decreases d, 0
  {
    if d == [] then []
    else
      var last := d[|d| - 1];
      assert d decreases to last;
      MemberClasses(d[..|d| - 1]) + (if IsClassEntry(last) then [DocumentClass(last.1.cls)] else [])
  }

  /** The class and function records of a `__dict__` together are never more than its entries. */
  lemma {:induction false} MemberCountsBound(d: seq<(string, Member)>)
    ensures |MemberClasses(d)| + |MemberFunctions(d)| <= |d|
    decreases d, 2
  {
    if d != [] {
      MemberCountsBound(d[..|d| - 1]);
    }
  }

  /**
   * `document_member_functions` keeps, in dictionary order, exactly the entries
   * whose key is not banned and whose value is a function, one record each.
   */
  lemma {:induction false} MemberFunctionsExact(d: seq<(string, Member)>)
    ensures var idx := Selected(d, IsFunctionEntry);
      |MemberFunctions(d)| == |idx| &&
      forall j :: 0 <= j < |idx| ==> MemberFunctions(d)[j] == DocumentFunction(d[idx[j]].1.fn)
  {
    if d != [] {
      var init := d[..|d| - 1];
      MemberFunctionsExact(init);
      var idx0 := Selected(init, IsFunctionEntry);
      assert forall j :: 0 <= j < |idx0| ==> d[idx0[j]] == init[idx0[j]];
    }
  }

  /** The same for `document_member_classes`, with classes documented recursively. */
  lemma {:induction false} MemberClassesExact(d: seq<(string, Member)>)
    ensures var idx := Selected(d, IsClassEntry);
      |MemberClasses(d)| == |idx| &&
      forall j :: 0 <= j < |idx| ==> MemberClasses(d)[j] == DocumentClass(d[idx[j]].1.cls)
  {
    if d != [] {
      var init := d[..|d| - 1];
      MemberClassesExact(init);
      var idx0 := Selected(init, IsClassEntry);
      assert forall j :: 0 <= j < |idx0| ==> d[idx0[j]] == init[idx0[j]];
    }
  }

  /** `document_member_functions`: the loop that appends one record per function member. */
  method DocumentMemberFunctions(d: seq<(string, Member)>) returns (funcs: seq<Function>)
    ensures funcs == MemberFunctions(d)
  {
    funcs := [];
    for i := 0 to |d|
      invariant funcs == MemberFunctions(d[..i])
    {
      var (name, obj) := d[i];
      if name !in BannedMembers && obj.MFunction? {
        funcs := funcs + [DocumentFunction(obj.fn)];
      }
      assert d[..i + 1][..i] == d[..i];
    }
    assert d[..|d|] == d;
  }

  /** `document_member_classes`: the loop that appends one record per class member. */
  method DocumentMemberClasses(d: seq<(string, Member)>) returns (classes: seq<Class>)
    ensures classes == MemberClasses(d)
  {
    classes := [];
    for i := 0 to |d|
      invariant classes == MemberClasses(d[..i])
    {
      var (name, obj) := d[i];
      if name !in BannedMembers && obj.MClass? {
        classes := classes + [DocumentClass(obj.cls)];
      }
      assert d[..i + 1][..i] == d[..i];
    }
    assert d[..|d|] == d;
  }

  /**
   * `document_module`: a module record from its `__dict__`; an empty or missing
   * `__package__` becomes `None`.
   */
  function DocumentModule(abspath: string, data: ModuleObj): (r: Module)
    ensures r.name == data.name && r.abspath == abspath && r.doc == data.doc
    ensures r.package != Some("")
    ensures r.package.None? <==> (data.package.None? || data.package == Some(""))
    ensures r.package.Some? ==> r.package == data.package
    ensures r.classes == MemberClasses(data.members) && r.functions == MemberFunctions(data.members)
    ensures |r.classes| + |r.functions| <= |data.members|
  {
    MemberCountsBound(data.members);
    Module(
      data.name,
      abspath,
      if data.package == Some("") then None else data.package,
      data.doc,
      MemberClasses(data.members),
      MemberFunctions(data.members))
  }

  /**
   * A class record's nested classes and functions are, in dictionary order, the
   * records of exactly its non-banned class and function entries.
   */
  lemma ClassRecordMembers(c: ClassObj)
    ensures var r := DocumentClass(c);
      var ci := Selected(c.members, IsClassEntry);
      var fi := Selected(c.members, IsFunctionEntry);
      && |r.classes| == |ci| && (forall j :: 0 <= j < |ci| ==> r.classes[j] == DocumentClass(c.members[ci[j]].1.cls))
      && |r.functions| == |fi| && (forall j :: 0 <= j < |fi| ==> r.functions[j] == DocumentFunction(c.members[fi[j]].1.fn))
  {
    MemberClassesExact(c.members);
    MemberFunctionsExact(c.members);
  }

  /** The same for a module record and the module's `__dict__`. */
  lemma ModuleRecordMembers(abspath: string, data: ModuleObj)
    ensures var r := DocumentModule(abspath, data);
      var ci := Selected(data.members, IsClassEntry);
      var fi := Selected(data.members, IsFunctionEntry);
      && |r.classes| == |ci| && (forall j :: 0 <= j < |ci| ==> r.classes[j] == DocumentClass(data.members[ci[j]].1.cls))
      && |r.functions| == |fi| && (forall j :: 0 <= j < |fi| ==> r.functions[j] == DocumentFunction(data.members[fi[j]].1.fn))
  {
    MemberClassesExact(data.members);
    MemberFunctionsExact(data.members);
  }

  // ----- reference edges ---------------------------------------------------------

  /**
   * A member refers to a module when it is that module (a direct import) or a
   * function whose defining module is that module (a wildcard re-export).
   */
  predicate PointsTo(v: Member, id: ModuleId) {
    v == MModule(id) || (v.MFunction? && v.fn.origin == Some(id))
  }

  /** Adds the module a member refers to, if any, unless it is already present. */
  function AddReference(refs: seq<ModuleId>, v: Member): seq<ModuleId> {
    match v
    case MModule(id) => if id in refs then refs else refs + [id]
    case MFunction(f) => if f.origin.Some? && f.origin.value !in refs then refs + [f.origin.value] else refs
    case _ => refs
  }

  /**
   * The modules a `__dict__` refers to, each once, in the order they are first
   * met. Python collects them into a set; this model fixes first-seen order.
   */
  function References(d: seq<(string, Member)>): (r: seq<ModuleId>)
    ensures forall j, k :: 0 <= j < k < |r| ==> r[j] != r[k]
  {
    if d == [] then []
    else AddReference(References(d[..|d| - 1]), d[|d| - 1].1)
  }

  /** A module is among the references exactly when some member points to it. */
  lemma {:induction false} ReferencesExact(d: seq<(string, Member)>)
    ensures forall id :: id in References(d) <==> exists i :: 0 <= i < |d| && PointsTo(d[i].1, id)
  {
    if d != [] {
      var init := d[..|d| - 1];
      ReferencesExact(init);
      assert forall i :: 0 <= i < |init| ==> init[i] == d[i];
    }
  }

  /** `referenced_modules`: the loop that collects the modules a `__dict__` refers to. */
  method ReferencedModules(d: seq<(string, Member)>) returns (refs: seq<ModuleId>)
    ensures refs == References(d)
  {
    refs := [];
    for i := 0 to |d|
      invariant refs == References(d[..i])
    {
      var obj := d[i].1;
      if obj.MModule? {
        if obj.id !in refs {
          refs := refs + [obj.id];
        }
      } else if obj.MFunction? {
        var guess := obj.fn.origin;
        if guess.Some? && guess.value !in refs {
          refs := refs + [guess.value];
        }
      }
      assert d[..i + 1][..i] == d[..i];
    }
    assert d[..|d|] == d;
  }

}
