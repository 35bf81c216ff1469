/** Which positions of a sequence an order-preserving filter keeps. */
module Selection {

  /** The positions of `s` whose element satisfies `keep`, in increasing order. */
  function Selected<T>(s: seq<T>, keep: T -> bool): (idx: seq<nat>)
    ensures forall j :: 0 <= j < |idx| ==> idx[j] < |s| && keep(s[idx[j]])
    ensures forall j, k :: 0 <= j < k < |idx| ==> idx[j] < idx[k]
    ensures forall i :: 0 <= i < |s| && keep(s[i]) ==> i in idx
    ensures |idx| <= |s|
  {
    if s == [] then []
    else
      var init := Selected(s[..|s| - 1], keep);
      init + (if keep(s[|s| - 1]) then [|s| - 1] else [])
  }

}
