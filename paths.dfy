/**
 * The three path-string operations the registry builder applies to POSIX paths
 * (`os.path.dirname`, `os.path.basename`, `os.path.splitext`), with '/' as the
 * separator and '.' as the extension separator.
 */
module Paths {

  /** The last index of `c` in `s`, or -1 when `s` has none (`str.rfind`). */
  function RFind(s: string, c: char): (i: int)
    ensures -1 <= i < |s|
    ensures i >= 0 ==> s[i] == c
    ensures forall k :: i < k < |s| ==> s[k] != c
  {
    if s == [] then -1
    else if s[|s| - 1] == c then |s| - 1
    else RFind(s[..|s| - 1], c)
  }

  predicate AllSlashes(s: string) {
    forall k :: 0 <= k < |s| ==> s[k] == '/'
  }

  /** `s` without its trailing run of '/' (`str.rstrip('/')`). */
  function RStripSlashes(s: string): (r: string)
    ensures r <= s
    ensures r == [] || r[|r| - 1] != '/'
    ensures AllSlashes(s[|r|..])
  {
    if s == [] || s[|s| - 1] != '/' then s
    else RStripSlashes(s[..|s| - 1])
  }

  /**
   * `os.path.dirname`: everything up to the last '/', with trailing slashes
   * removed unless the head consists of slashes only.
   */
  function Dirname(p: string): (r: string)
    ensures r <= p
    ensures '/' !in p ==> r == []
    ensures '/' in p ==> r != []
    // only the last component and the slashes just before it are dropped
    ensures |r| <= RFind(p, '/') + 1
    ensures forall k :: |r| <= k <= RFind(p, '/') ==> p[k] == '/'
    // and every such slash is dropped, unless the head is slashes only
    ensures AllSlashes(p[..RFind(p, '/') + 1]) ==> r == p[..RFind(p, '/') + 1]
    ensures !AllSlashes(p[..RFind(p, '/') + 1]) ==> r[|r| - 1] != '/'
  {
    var i := RFind(p, '/') + 1;
    var head := p[..i];
    if head != [] && !AllSlashes(head) then RStripSlashes(head) else head
  }

  /** `os.path.basename`: everything after the last '/'. */
  function Basename(p: string): (r: string)
    ensures '/' !in r
    ensures |r| <= |p| && p[|p| - |r|..] == r
    ensures |r| == |p| || p[|p| - |r| - 1] == '/'
    ensures Dirname(p) <= p[..|p| - |r|]
  {
    p[RFind(p, '/') + 1..]
  }

  /**
   * `os.path.splitext`: splits off the extension, the part from the last '.'
   * of the final path component, unless that component is only dots before it
   * (so a hidden file such as ".profile" has no extension).
   */
  function Splitext(p: string): (r: (string, string))
    ensures r.0 + r.1 == p
    ensures r.1 == [] || (r.1[0] == '.' && '/' !in r.1 && '.' !in r.1[1..])
    // an extension is split off exactly when the last component has a '.' after a non-dot
    ensures r.1 != [] <==> exists k, i :: RFind(p, '/') < k < i < |p| && p[k] != '.' && p[i] == '.'
  {
    var sepIndex := RFind(p, '/');
    var dotIndex := RFind(p, '.');
    DotAfterNonDot(p);
    if dotIndex > sepIndex && exists k | sepIndex + 1 <= k < dotIndex :: p[k] != '.' then
      (p[..dotIndex], p[dotIndex..])
    else
      (p, [])
  }

  /**
   * The last component of `p` has a '.' after a non-dot character exactly when
   * its last '.' comes after the last '/' with a non-dot between them.
   */
  lemma DotAfterNonDot(p: string)
    ensures (exists k, i :: RFind(p, '/') < k < i < |p| && p[k] != '.' && p[i] == '.')
        <==> (RFind(p, '.') > RFind(p, '/') && exists k | RFind(p, '/') + 1 <= k < RFind(p, '.') :: p[k] != '.')
  {
    var sepIndex, dotIndex := RFind(p, '/'), RFind(p, '.');
    if k, i :| sepIndex < k < i < |p| && p[k] != '.' && p[i] == '.' {
      assert i <= dotIndex;
      assert sepIndex + 1 <= k < dotIndex && p[k] != '.';
    }
    if dotIndex > sepIndex && exists k | sepIndex + 1 <= k < dotIndex :: p[k] != '.' {
      var k :| sepIndex + 1 <= k < dotIndex && p[k] != '.';
      assert sepIndex < k < dotIndex < |p| && p[k] != '.' && p[dotIndex] == '.';
    }
  }

  /** The name `load` gives the root module: its file's base name without extension. */
  function RootName(rootAbspath: string): (r: string)
    ensures '/' !in r
    ensures r <= Basename(rootAbspath)
    ensures r + Splitext(Basename(rootAbspath)).1 == Basename(rootAbspath)
  {
    Splitext(Basename(rootAbspath)).0
  }

}
