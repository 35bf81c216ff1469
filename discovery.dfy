/**
 * Module discovery (`find_modules`) and the entry point `load` of registry.py.
 * The loaded modules form a finite world of module objects; `abs` stands for
 * `os.path.abspath`.
 */
module Discovery {
  import opened Wrappers
  import opened Paths
  import opened Registry

  type World = map<ModuleId, ModuleObj>

  /** Every module a `__dict__` refers to is a module of the world. */
  predicate RefsIn(d: seq<(string, Member)>, world: World) {
    forall id :: id in References(d) ==> id in world
  }

  /** The world is closed under reference edges. */
  predicate Closed(world: World) {
    forall id :: id in world ==> RefsIn(world[id].members, world)
  }

  /** A world in which a root `__dict__`'s references can all be followed. */
  predicate WellFormed(world: World, root: ModuleObj) {
    Closed(world) && RefsIn(root.members, world)
  }

  /** Every absolute path a module of the world can have. */
  function Universe(world: World, abs: string -> string): set<string> {
    set id | id in world && world[id].file.Some? :: abs(world[id].file.value)
  }

  /** The variables the loop of `find_modules` updates. */
  datatype Progress = Progress(queue: seq<ModuleId>, known: set<string>, mods: seq<Module>)

  predicate Queued(world: World, s: Progress) {
    forall id :: id in s.queue ==> id in world
  }

  /**
   * One iteration of the loop: pop the last queued module; drop it if it has no
   * `__file__` or its absolute path is known; otherwise record the path, and,
   * when the path starts with `rootDir`, document the module and queue its
   * references.
   */
  function Step(world: World, abs: string -> string, rootDir: string, s: Progress): Progress
    requires Closed(world) && Queued(world, s) && s.queue != []
  {
    var obj := world[s.queue[|s.queue| - 1]];
    var rest := s.queue[..|s.queue| - 1];
    if obj.file.None? then s.(queue := rest)
    else
      var p := abs(obj.file.value);
      if p in s.known then s.(queue := rest)
      else if !(rootDir <= p) then Progress(rest, s.known + {p}, s.mods)
      else Progress(rest + References(obj.members), s.known + {p}, s.mods + [DocumentModule(p, obj)])
  }

  /**
   * An iteration either only pops the queue, or records a path that was not
   * known, in which case it outputs at most one module and that module has the
   * recorded path, which starts with `rootDir`.
   */
  lemma StepFacts(world: World, abs: string -> string, rootDir: string, s: Progress)
    requires Closed(world) && Queued(world, s) && s.queue != []
    ensures var t := Step(world, abs, rootDir, s);
      && Queued(world, t)
      && s.mods <= t.mods && |t.mods| <= |s.mods| + 1
      && (t.known == s.known ==> t.queue == s.queue[..|s.queue| - 1] && t.mods == s.mods)
      && (t.known != s.known ==>
            exists p :: p in Universe(world, abs) && p !in s.known && t.known == s.known + {p}
                        && (|t.mods| == |s.mods| + 1 ==> t.mods[|s.mods|].abspath == p && rootDir <= p))
  {
    var obj := world[s.queue[|s.queue| - 1]];
    if obj.file.Some? {
      var p := abs(obj.file.value);
      assert p in Universe(world, abs);
    }
  }

  /** Recording a path that was not known shrinks the set of paths still unknown. */
  lemma UnknownShrinks(u: set<string>, known: set<string>, p: string)
    requires p in u && p !in known
    ensures |u - (known + {p})| < |u - known|
  {
    assert u - known == (u - (known + {p})) + {p};
  }

  /** The rest of the loop of `find_modules`, run from the given variables to the final ones. */
  function Walk(world: World, abs: string -> string, rootDir: string, s: Progress): Progress
    requires Closed(world) && Queued(world, s)
    decreases |Universe(world, abs) - s.known|, |s.queue|
  {
    if s.queue == [] then s
    else
      var t := Step(world, abs, rootDir, s);
      StepFacts(world, abs, rootDir, s);
      assert t.known == s.known || |Universe(world, abs) - t.known| < |Universe(world, abs) - s.known| by {
        if t.known != s.known {
          var p :| p in Universe(world, abs) && p !in s.known && t.known == s.known + {p};
          UnknownShrinks(Universe(world, abs), s.known, p);
        }
      }
      Walk(world, abs, rootDir, t)
  }

  /** `set(root_abspath)`: the set of the root path's characters, as written. */
  function SeedAsWritten(rootAbspath: string): set<string> {
    set c | c in rootAbspath :: [c]
  }

  /** The as-written seed holds one-character strings only, so it misses every longer path. */
  lemma SeedAsWrittenOnlyCharacters(rootAbspath: string, p: string)
    requires |p| != 1
    ensures p !in SeedAsWritten(rootAbspath)
  {
  }

  /** The evidently intended seed: the root path itself. */
  function SeedIntended(rootAbspath: string): set<string> {
    {rootAbspath}
  }

  /**
   * The loop's variables on entry: the root's references queued, the seed
   * known, and the root documented under `rootName`.
   */
  function Start(rootName: string, root: ModuleObj, rootAbspath: string, seed: set<string>): Progress {
    Progress(References(root.members), seed, [DocumentModule(rootAbspath, root.(name := rootName))])
  }

  /**
   * `find_modules` with a given initial set of known paths: document the root
   * under `rootName`, then walk from its references, filtering by the root's
   * directory.
   */
  function Discover(world: World, abs: string -> string, rootName: string, root: ModuleObj,
                    rootAbspath: string, seed: set<string>): seq<Module>
    requires WellFormed(world, root)
  {
    Walk(world, abs, Dirname(rootAbspath), Start(rootName, root, rootAbspath, seed)).mods
  }

  /**
   * The walk only appends to what was already output, and every module it adds
   * has a path that was not known when the walk began, that starts with
   * `rootDir`, and that differs from the path of every other module it adds.
   */
  lemma {:induction false} WalkAddsFreshPaths(world: World, abs: string -> string, rootDir: string, s: Progress)
    requires Closed(world) && Queued(world, s)
    ensures var r := Walk(world, abs, rootDir, s).mods;
      && s.mods <= r
      && (forall j :: |s.mods| <= j < |r| ==> r[j].abspath !in s.known && rootDir <= r[j].abspath)
      && (forall j, k :: |s.mods| <= j < k < |r| ==> r[j].abspath != r[k].abspath)
    decreases |Universe(world, abs) - s.known|, |s.queue|
  {
    if s.queue != [] {
      var t := Step(world, abs, rootDir, s);
      StepFacts(world, abs, rootDir, s);
      if t.known == s.known {
        WalkAddsFreshPaths(world, abs, rootDir, t);
      } else {
        var p :| p in Universe(world, abs) && p !in s.known && t.known == s.known + {p}
                 && (|t.mods| == |s.mods| + 1 ==> t.mods[|s.mods|].abspath == p && rootDir <= p);
        UnknownShrinks(Universe(world, abs), s.known, p);
        WalkAddsFreshPaths(world, abs, rootDir, t);
        var r := Walk(world, abs, rootDir, t).mods;
        if |t.mods| == |s.mods| + 1 {
          assert r[|s.mods|] == t.mods[|s.mods|];
        }
      }
    }
  }

  /** `find_modules` as written: the root path seeds `known` as a set of characters. */
  method FindModules(world: World, abs: string -> string, rootName: string, root: ModuleObj,
                     rootAbspath: string) returns (mods: seq<Module>)
    requires WellFormed(world, root)
    ensures mods == Discover(world, abs, rootName, root, rootAbspath, SeedAsWritten(rootAbspath))
  {
    var data := root.(name := rootName);
    var queue := ReferencedModules(data.members);
    var known := SeedAsWritten(rootAbspath);
    mods := [DocumentModule(rootAbspath, data)];
    var rootDir := Dirname(rootAbspath);
    while |queue| > 0
      invariant Queued(world, Progress(queue, known, mods))
      invariant Walk(world, abs, rootDir, Progress(queue, known, mods)).mods
             == Discover(world, abs, rootName, root, rootAbspath, SeedAsWritten(rootAbspath))
      decreases |Universe(world, abs) - known|, |queue|
    {
      ghost var before := Progress(queue, known, mods);
      var obj := world[queue[|queue| - 1]];
      queue := queue[..|queue| - 1];
      if obj.file.None? {
        continue;
      }
      var p := abs(obj.file.value);
      if p in known {
        continue;
      }
      assert p in Universe(world, abs);
      UnknownShrinks(Universe(world, abs), known, p);
      known := known + {p};
      if !(rootDir <= p) {
        continue;
      }
      var refs := ReferencedModules(obj.members);
      mods := mods + [DocumentModule(p, obj)];
      queue := queue + refs;
      assert Progress(queue, known, mods) == Step(world, abs, rootDir, before);
    }
  }

  /**
   * The output of `find_modules` is never empty and starts with the root,
   * documented under `rootName`; every module lies under the root's directory;
   * every later module has a path outside the seed, and their paths are
   * pairwise distinct.
   */
  lemma DiscoverShape(world: World, abs: string -> string, rootName: string, root: ModuleObj,
                      rootAbspath: string, seed: set<string>)
    requires WellFormed(world, root)
    ensures var r := Discover(world, abs, rootName, root, rootAbspath, seed);
      && |r| >= 1
      && r[0] == DocumentModule(rootAbspath, root.(name := rootName))
      && r[0].name == rootName && r[0].abspath == rootAbspath
      && (forall j :: 0 <= j < |r| ==> Dirname(rootAbspath) <= r[j].abspath)
      && (forall j :: 1 <= j < |r| ==> r[j].abspath !in seed)
      && (forall j, k :: 1 <= j < k < |r| ==> r[j].abspath != r[k].abspath)
  {
    var s := Start(rootName, root, rootAbspath, seed);
    WalkAddsFreshPaths(world, abs, Dirname(rootAbspath), s);
    var r := Walk(world, abs, Dirname(rootAbspath), s).mods;
    assert r[0] == s.mods[0];
  }

  /** With the root path itself as the seed, no path is documented twice. */
  lemma IntendedPathsUnique(world: World, abs: string -> string, rootName: string, root: ModuleObj,
                            rootAbspath: string)
    requires WellFormed(world, root)
    ensures var r := Discover(world, abs, rootName, root, rootAbspath, SeedIntended(rootAbspath));
      forall j, k :: 0 <= j < k < |r| ==> r[j].abspath != r[k].abspath
  {
    DiscoverShape(world, abs, rootName, root, rootAbspath, SeedIntended(rootAbspath));
  }

  // ----- which modules are documented ------------------------------------------------

  /**
   * A module the walk expands once its path is recorded: it has a `__file__`, its
   * absolute path starts with `rootDir`, and that path is not in the seed.
   */
  predicate Expands(world: World, abs: string -> string, rootDir: string, seed: set<string>, id: ModuleId)
    requires id in world
  {
    world[id].file.Some? && rootDir <= abs(world[id].file.value) && abs(world[id].file.value) !in seed
  }

  /**
   * An import chain from the root: `c[0]` is one of the root's references
   * `start`, and every later module is referenced by the one before it, which is
   * expanded.
   */
  predicate Chain(world: World, abs: string -> string, rootDir: string, seed: set<string>,
                  start: seq<ModuleId>, c: seq<ModuleId>)
  {
    && c != [] && c[0] in start
    && (forall i :: 0 <= i < |c| ==> c[i] in world)
    && (forall i :: 0 <= i < |c| - 1 ==>
          Expands(world, abs, rootDir, seed, c[i]) && c[i + 1] in References(world[c[i]].members))
  }

  /** The modules some import chain from the root ends at. */
  ghost predicate Reachable(world: World, abs: string -> string, rootDir: string, seed: set<string>,
                      start: seq<ModuleId>, id: ModuleId)
  {
    exists c :: Chain(world, abs, rootDir, seed, start, c) && c[|c| - 1] == id
  }

  /** The modules `find_modules` should document besides the root: reachable and expanded. */
  ghost predicate InProject(world: World, abs: string -> string, rootDir: string, seed: set<string>,
                      start: seq<ModuleId>, id: ModuleId)
  {
    id in world && Reachable(world, abs, rootDir, seed, start, id) && Expands(world, abs, rootDir, seed, id)
  }

  /** Distinct modules of the world have distinct absolute paths. */
  predicate PathsDistinct(world: World, abs: string -> string) {
    forall a, b ::
      (a in world && b in world && world[a].file.Some? && world[b].file.Some? &&
       abs(world[a].file.value) == abs(world[b].file.value)) ==> a == b
  }

  /** `m` is the documentation of an in-project module, under that module's path. */
  ghost predicate DocumentsInProject(world: World, abs: string -> string, rootDir: string, seed: set<string>,
                                     start: seq<ModuleId>, m: Module)
  {
    exists id :: InProject(world, abs, rootDir, seed, start, id)
                 && m == DocumentModule(abs(world[id].file.value), world[id])
  }

  /** A reference of an expanded module on a chain extends the chain. */
  lemma ChainExtends(world: World, abs: string -> string, rootDir: string, seed: set<string>,
                     start: seq<ModuleId>, c: seq<ModuleId>, x: ModuleId)
    requires Closed(world) && Chain(world, abs, rootDir, seed, start, c)
    requires Expands(world, abs, rootDir, seed, c[|c| - 1]) && x in References(world[c[|c| - 1]].members)
    ensures Chain(world, abs, rootDir, seed, start, c + [x])
    ensures Reachable(world, abs, rootDir, seed, start, x)
  {
    var d := c + [x];
    assert forall i :: 0 <= i < |c| ==> d[i] == c[i];
    assert d[|d| - 1] == x;
  }

  /**
   * What the loop keeps true of the modules it has seen so far: everything
   * queued is reachable, and every module output after the root documents an
   * in-project module.
   */
  ghost predicate SoundSoFar(world: World, abs: string -> string, rootDir: string, seed: set<string>,
                       start: seq<ModuleId>, s: Progress)
  {
    && seed <= s.known
    && (forall x :: x in s.queue ==> Reachable(world, abs, rootDir, seed, start, x))
    && (forall j :: 1 <= j < |s.mods| ==> DocumentsInProject(world, abs, rootDir, seed, start, s.mods[j]))
  }

  /** A root reference is reachable by a chain of one. */
  lemma StartReachable(world: World, abs: string -> string, rootDir: string, seed: set<string>,
                       start: seq<ModuleId>, x: ModuleId)
    requires x in start && x in world
    ensures Reachable(world, abs, rootDir, seed, start, x)
  {
    assert Chain(world, abs, rootDir, seed, start, [x]) && [x][0] == x;
  }

  /** An iteration queues only reachable modules. */
  lemma StepQueuesReachable(world: World, abs: string -> string, rootDir: string, seed: set<string>,
                            start: seq<ModuleId>, s: Progress)
    requires Closed(world) && Queued(world, s) && s.queue != []
    requires forall x :: x in s.queue ==> Reachable(world, abs, rootDir, seed, start, x)
    requires seed <= s.known
    ensures var t := Step(world, abs, rootDir, s);
      forall x :: x in t.queue ==> Reachable(world, abs, rootDir, seed, start, x)
  {
    var id := s.queue[|s.queue| - 1];
    var rest := s.queue[..|s.queue| - 1];
    assert s.queue == rest + [id];
    var obj := world[id];
    if obj.file.Some? && abs(obj.file.value) !in s.known && rootDir <= abs(obj.file.value) {
      assert Reachable(world, abs, rootDir, seed, start, id);
      var c :| Chain(world, abs, rootDir, seed, start, c) && c[|c| - 1] == id;
      forall x | x in References(obj.members)
        ensures Reachable(world, abs, rootDir, seed, start, x)
      {
        ChainExtends(world, abs, rootDir, seed, start, c, x);
      }
    }
  }

  /** An iteration outputs only the documentation of an in-project module. */
  lemma StepOutputsInProject(world: World, abs: string -> string, rootDir: string, seed: set<string>,
                             start: seq<ModuleId>, s: Progress)
    requires Closed(world) && Queued(world, s) && s.queue != []
    requires SoundSoFar(world, abs, rootDir, seed, start, s)
    ensures var t := Step(world, abs, rootDir, s);
      forall j :: 1 <= j < |t.mods| ==> DocumentsInProject(world, abs, rootDir, seed, start, t.mods[j])
  {
    var t := Step(world, abs, rootDir, s);
    var id := s.queue[|s.queue| - 1];
    StepFacts(world, abs, rootDir, s);
    forall j | 1 <= j < |t.mods|
      ensures DocumentsInProject(world, abs, rootDir, seed, start, t.mods[j])
    {
      if j < |s.mods| {
        assert t.mods[j] == s.mods[j];
      } else {
        assert world[id].file.Some? && abs(world[id].file.value) !in s.known && rootDir <= abs(world[id].file.value);
        assert InProject(world, abs, rootDir, seed, start, id);
        assert t.mods[j] == DocumentModule(abs(world[id].file.value), world[id]);
      }
    }
  }

  /** Running the loop to the end keeps `SoundSoFar`. */
  lemma {:induction false} WalkSound(world: World, abs: string -> string, rootDir: string, seed: set<string>,
                                     start: seq<ModuleId>, s: Progress)
    requires Closed(world) && Queued(world, s)
    requires SoundSoFar(world, abs, rootDir, seed, start, s)
    ensures SoundSoFar(world, abs, rootDir, seed, start, Walk(world, abs, rootDir, s))
    decreases |Universe(world, abs) - s.known|, |s.queue|
  {
    if s.queue != [] {
      var t := Step(world, abs, rootDir, s);
      StepFacts(world, abs, rootDir, s);
      StepQueuesReachable(world, abs, rootDir, seed, start, s);
      StepOutputsInProject(world, abs, rootDir, seed, start, s);
      if t.known != s.known {
        var p :| p in Universe(world, abs) && p !in s.known && t.known == s.known + {p};
        UnknownShrinks(Universe(world, abs), s.known, p);
      }
      WalkSound(world, abs, rootDir, seed, start, t);
    }
  }

  /** A module is dealt with: still queued, without a file, or with its path recorded. */
  predicate Covered(world: World, abs: string -> string, s: Progress, x: ModuleId)
    requires x in world
  {
    x in s.queue || world[x].file.None? || abs(world[x].file.value) in s.known
  }

  /**
   * What the loop keeps true towards completeness: every root reference is dealt
   * with, and every expanded module whose path is recorded has been output and
   * has all its references dealt with.
   */
  predicate CompleteSoFar(world: World, abs: string -> string, rootDir: string, seed: set<string>,
                          start: seq<ModuleId>, s: Progress)
  {
    && seed <= s.known && s.mods != []
    && (forall x :: x in start ==> x in world && Covered(world, abs, s, x))
    && (forall id :: id in world && Expands(world, abs, rootDir, seed, id) && abs(world[id].file.value) in s.known ==>
          && (forall x :: x in References(world[id].members) ==> x in world && Covered(world, abs, s, x))
          && exists j :: 1 <= j < |s.mods| && s.mods[j].abspath == abs(world[id].file.value))
  }

  /** A module once dealt with stays dealt with. */
  lemma StepKeepsCovered(world: World, abs: string -> string, rootDir: string, s: Progress, x: ModuleId)
    requires Closed(world) && Queued(world, s) && s.queue != []
    requires x in world && Covered(world, abs, s, x)
    ensures Covered(world, abs, Step(world, abs, rootDir, s), x)
  {
    var rest := s.queue[..|s.queue| - 1];
    assert s.queue == rest + [s.queue[|s.queue| - 1]];
  }

  /** An iteration keeps `CompleteSoFar`, given that distinct modules have distinct paths. */
  lemma StepComplete(world: World, abs: string -> string, rootDir: string, seed: set<string>,
                     start: seq<ModuleId>, s: Progress)
    requires Closed(world) && Queued(world, s) && s.queue != [] && PathsDistinct(world, abs)
    requires CompleteSoFar(world, abs, rootDir, seed, start, s)
    ensures CompleteSoFar(world, abs, rootDir, seed, start, Step(world, abs, rootDir, s))
  {
    var t := Step(world, abs, rootDir, s);
    var id0 := s.queue[|s.queue| - 1];
    StepFacts(world, abs, rootDir, s);
    forall x | x in start
      ensures x in world && Covered(world, abs, t, x)
    {
      StepKeepsCovered(world, abs, rootDir, s, x);
    }
    forall id | id in world && Expands(world, abs, rootDir, seed, id) && abs(world[id].file.value) in t.known
      ensures forall x :: x in References(world[id].members) ==> x in world && Covered(world, abs, t, x)
      ensures exists j :: 1 <= j < |t.mods| && t.mods[j].abspath == abs(world[id].file.value)
    {
      var p := abs(world[id].file.value);
      if p in s.known {
        forall x | x in References(world[id].members)
          ensures x in world && Covered(world, abs, t, x)
        {
          StepKeepsCovered(world, abs, rootDir, s, x);
        }
        var j :| 1 <= j < |s.mods| && s.mods[j].abspath == p;
        assert t.mods[j] == s.mods[j];
      } else {
        // `p` is the path recorded now, so `id` is the module just popped
        assert world[id0].file.Some? && abs(world[id0].file.value) == p;
        assert id == id0;
        var rest := s.queue[..|s.queue| - 1];
        assert t.queue == rest + References(world[id].members);
        assert t.mods[|s.mods|].abspath == p;
      }
    }
  }

  /** Running the loop to the end keeps `CompleteSoFar` and empties the queue. */
  lemma {:induction false} WalkComplete(world: World, abs: string -> string, rootDir: string, seed: set<string>,
                                        start: seq<ModuleId>, s: Progress)
    requires Closed(world) && Queued(world, s) && PathsDistinct(world, abs)
    requires CompleteSoFar(world, abs, rootDir, seed, start, s)
    ensures Walk(world, abs, rootDir, s).queue == []
    ensures CompleteSoFar(world, abs, rootDir, seed, start, Walk(world, abs, rootDir, s))
    decreases |Universe(world, abs) - s.known|, |s.queue|
  {
    if s.queue != [] {
      var t := Step(world, abs, rootDir, s);
      StepFacts(world, abs, rootDir, s);
      StepComplete(world, abs, rootDir, seed, start, s);
      if t.known != s.known {
        var p :| p in Universe(world, abs) && p !in s.known && t.known == s.known + {p};
        UnknownShrinks(Universe(world, abs), s.known, p);
      }
      WalkComplete(world, abs, rootDir, seed, start, t);
    }
  }

  /** Once the queue is empty, every module on a chain has no file or a recorded path. */
  lemma {:induction false} ChainRecorded(world: World, abs: string -> string, rootDir: string, seed: set<string>,
                                         start: seq<ModuleId>, t: Progress, c: seq<ModuleId>, i: nat)
    requires t.queue == [] && CompleteSoFar(world, abs, rootDir, seed, start, t)
    requires Chain(world, abs, rootDir, seed, start, c) && i < |c|
    ensures world[c[i]].file.None? || abs(world[c[i]].file.value) in t.known
  {
    if i > 0 {
      ChainRecorded(world, abs, rootDir, seed, start, t, c, i - 1);
      assert c[i] in References(world[c[i - 1]].members);
    }
  }

  /** On entry only root references are queued, and only the root is output. */
  lemma StartSound(world: World, abs: string -> string, rootName: string, root: ModuleObj,
                   rootAbspath: string, seed: set<string>)
    requires WellFormed(world, root)
    ensures SoundSoFar(world, abs, Dirname(rootAbspath), seed, References(root.members),
                       Start(rootName, root, rootAbspath, seed))
  {
    var rootDir, start := Dirname(rootAbspath), References(root.members);
    forall x | x in start
      ensures Reachable(world, abs, rootDir, seed, start, x)
    {
      StartReachable(world, abs, rootDir, seed, start, x);
    }
  }

  /**
   * Every module `find_modules` outputs after the root documents a module
   * reachable from the root along imports of expanded modules, whose path starts
   * with the root's directory and is outside the seed.
   */
  lemma DiscoverSound(world: World, abs: string -> string, rootName: string, root: ModuleObj,
                      rootAbspath: string, seed: set<string>)
    requires WellFormed(world, root)
    ensures var r := Discover(world, abs, rootName, root, rootAbspath, seed);
      forall j :: 1 <= j < |r| ==>
        DocumentsInProject(world, abs, Dirname(rootAbspath), seed, References(root.members), r[j])
  {
    StartSound(world, abs, rootName, root, rootAbspath, seed);
    WalkSound(world, abs, Dirname(rootAbspath), seed, References(root.members), Start(rootName, root, rootAbspath, seed));
  }

  /** On entry every root reference is queued and no expanded path is recorded. */
  lemma StartComplete(world: World, abs: string -> string, rootName: string, root: ModuleObj,
                      rootAbspath: string, seed: set<string>)
    requires WellFormed(world, root)
    ensures CompleteSoFar(world, abs, Dirname(rootAbspath), seed, References(root.members),
                          Start(rootName, root, rootAbspath, seed))
  {
  }

  /**
   * After the loop, an in-project module is documented: its path was recorded,
   * so some output has that path, and as outputs document in-project modules and
   * paths are distinct, that output documents this very module.
   */
  lemma InProjectDocumented(world: World, abs: string -> string, rootDir: string, seed: set<string>,
                            start: seq<ModuleId>, t: Progress, id: ModuleId)
    requires PathsDistinct(world, abs)
    requires t.queue == [] && CompleteSoFar(world, abs, rootDir, seed, start, t)
    requires forall j :: 1 <= j < |t.mods| ==> DocumentsInProject(world, abs, rootDir, seed, start, t.mods[j])
    requires InProject(world, abs, rootDir, seed, start, id)
    ensures exists j :: 1 <= j < |t.mods| && t.mods[j] == DocumentModule(abs(world[id].file.value), world[id])
  {
    var p := abs(world[id].file.value);
    var c :| Chain(world, abs, rootDir, seed, start, c) && c[|c| - 1] == id;
    ChainRecorded(world, abs, rootDir, seed, start, t, c, |c| - 1);
    var j :| 1 <= j < |t.mods| && t.mods[j].abspath == p;
    var other :| InProject(world, abs, rootDir, seed, start, other)
                 && t.mods[j] == DocumentModule(abs(world[other].file.value), world[other]);
    assert other == id;
  }

  /**
   * Conversely, when distinct modules have distinct paths, every in-project
   * module is documented: the loop misses nothing the root reaches in the project.
   */
  lemma DiscoverComplete(world: World, abs: string -> string, rootName: string, root: ModuleObj,
                         rootAbspath: string, seed: set<string>)
    requires WellFormed(world, root) && PathsDistinct(world, abs)
    ensures var r := Discover(world, abs, rootName, root, rootAbspath, seed);
      forall id :: InProject(world, abs, Dirname(rootAbspath), seed, References(root.members), id) ==>
        exists j :: 1 <= j < |r| && r[j] == DocumentModule(abs(world[id].file.value), world[id])
  {
    var rootDir, start := Dirname(rootAbspath), References(root.members);
    var s := Start(rootName, root, rootAbspath, seed);
    StartComplete(world, abs, rootName, root, rootAbspath, seed);
    WalkComplete(world, abs, rootDir, seed, start, s);
    DiscoverSound(world, abs, rootName, root, rootAbspath, seed);
    var t := Walk(world, abs, rootDir, s);
    assert t.mods == Discover(world, abs, rootName, root, rootAbspath, seed);
    assert forall j :: 1 <= j < |t.mods| ==> DocumentsInProject(world, abs, rootDir, seed, start, t.mods[j]);
    forall id | InProject(world, abs, rootDir, seed, start, id)
      ensures exists j :: 1 <= j < |t.mods| && t.mods[j] == DocumentModule(abs(world[id].file.value), world[id])
    {
      InProjectDocumented(world, abs, rootDir, seed, start, t, id);
    }
  }

  // ----- a two-module cycle: /p/r.py imports m, /p/m.py imports r ---------------------

  const CycleWorld: World := map[
    0 := ModuleObj(Some("/p/m.py"), "m", Some(""), None, [("r", MModule(1))]),
    1 := ModuleObj(Some("/p/r.py"), "r", Some(""), None, [("m", MModule(0))])
  ]

  /** `os.path.abspath` on paths that are already absolute and normalised. */
  const Unchanged: string -> string := s => s

  /** The `__dict__` that running /p/r.py as a script leaves behind. */
  const CycleRoot: ModuleObj := ModuleObj(Some("/p/r.py"), "<run_path>", Some(""), None, [("m", MModule(0))])

  lemma CycleWellFormed()
    ensures WellFormed(CycleWorld, CycleRoot)
    ensures Dirname("/p/r.py") == "/p"
  {
    assert References([("r", MModule(1))]) == [1];
    assert References([("m", MModule(0))]) == [0];
    var p := "/p/r.py";
    assert p[2] == '/' && p[3] == 'r' && p[4] == '.' && p[5] == 'p' && p[6] == 'y';
    assert RFind(p, '/') == 2;
    assert p[..3] == "/p/" && "/p/"[1] == 'p';
    assert RStripSlashes("/p/") == RStripSlashes("/p") == "/p";
  }

  /** One iteration of the loop, as seen by the rest of the walk. */
  lemma WalkUnfold(world: World, abs: string -> string, rootDir: string, s: Progress)
    requires Closed(world) && Queued(world, s) && s.queue != []
    ensures Queued(world, Step(world, abs, rootDir, s))
    ensures Walk(world, abs, rootDir, s) == Walk(world, abs, rootDir, Step(world, abs, rootDir, s))
  {
    StepFacts(world, abs, rootDir, s);
  }

  /** The loop's variables on entry, for the cycle and a given seed. */
  function CycleStart(seed: set<string>): Progress {
    Progress([0], seed, [DocumentModule("/p/r.py", CycleRoot.(name := "r"))])
  }

  lemma CycleFromStart(seed: set<string>)
    ensures WellFormed(CycleWorld, CycleRoot) && Queued(CycleWorld, CycleStart(seed))
    ensures Discover(CycleWorld, Unchanged, "r", CycleRoot, "/p/r.py", seed)
         == Walk(CycleWorld, Unchanged, "/p", CycleStart(seed)).mods
  {
    CycleWellFormed();
    assert References(CycleRoot.members) == [0];
    assert Start("r", CycleRoot, "/p/r.py", seed) == CycleStart(seed);
  }

  /** Popping an unknown module of the cycle documents it and queues its one import. */
  lemma CycleVisit(s: Progress, id: ModuleId)
    requires id in CycleWorld && s.queue == [id]
    requires CycleWorld[id].file.value !in s.known
    ensures Closed(CycleWorld) && Queued(CycleWorld, s)
    ensures var t := Step(CycleWorld, Unchanged, "/p", s);
      && t.queue == [1 - id] && t.known == s.known + {CycleWorld[id].file.value}
      && |t.mods| == |s.mods| + 1 && t.mods[..|s.mods|] == s.mods
      && t.mods[|s.mods|].abspath == CycleWorld[id].file.value
  {
    CycleWellFormed();
    assert "/p" <= "/p/m.py" && "/p" <= "/p/r.py";
  }

  /** Popping a module of the cycle whose path is known changes nothing else. */
  lemma CycleSkip(s: Progress, id: ModuleId)
    requires id in CycleWorld && s.queue == [id]
    requires CycleWorld[id].file.value in s.known
    ensures Closed(CycleWorld) && Queued(CycleWorld, s)
    ensures Step(CycleWorld, Unchanged, "/p", s) == s.(queue := [])
  {
    CycleWellFormed();
  }

  /**
   * As written, the root is not in `known`, so when a module it imports imports
   * it back, the root file is documented a second time.
   */
  lemma RootDocumentedTwiceAsWritten()
    ensures WellFormed(CycleWorld, CycleRoot)
    ensures var r := Discover(CycleWorld, Unchanged, "r", CycleRoot, "/p/r.py", SeedAsWritten("/p/r.py"));
      |r| == 3 && r[0].abspath == "/p/r.py" && r[1].abspath == "/p/m.py" && r[2].abspath == "/p/r.py"
  {
    var seed := SeedAsWritten("/p/r.py");
    SeedAsWrittenOnlyCharacters("/p/r.py", "/p/m.py");
    SeedAsWrittenOnlyCharacters("/p/r.py", "/p/r.py");
    CycleFromStart(seed);
    var s0 := CycleStart(seed);
    // pop m: unknown, inside /p, documented; its import of r is queued
    CycleVisit(s0, 0);
    var s1 := Step(CycleWorld, Unchanged, "/p", s0);
    WalkUnfold(CycleWorld, Unchanged, "/p", s0);
    // pop r: its path is not in the seed, so it is documented again
    CycleVisit(s1, 1);
    var s2 := Step(CycleWorld, Unchanged, "/p", s1);
    WalkUnfold(CycleWorld, Unchanged, "/p", s1);
    assert s2.mods[..|s1.mods|] == s1.mods;
    // pop m again: known by now
    CycleSkip(s2, 0);
    WalkUnfold(CycleWorld, Unchanged, "/p", s2);
  }

  /** With the intended seed the same cycle documents each file once. */
  lemma CycleDocumentedOnceIntended()
    ensures WellFormed(CycleWorld, CycleRoot)
    ensures var r := Discover(CycleWorld, Unchanged, "r", CycleRoot, "/p/r.py", SeedIntended("/p/r.py"));
      |r| == 2 && r[0].abspath == "/p/r.py" && r[1].abspath == "/p/m.py"
  {
    var seed := SeedIntended("/p/r.py");
    CycleFromStart(seed);
    var s0 := CycleStart(seed);
    CycleVisit(s0, 0);
    var s1 := Step(CycleWorld, Unchanged, "/p", s0);
    WalkUnfold(CycleWorld, Unchanged, "/p", s0);
    CycleSkip(s1, 1);
    WalkUnfold(CycleWorld, Unchanged, "/p", s1);
  }

  // ----- load ------------------------------------------------------------------------

  /** Python's truth value of an optional string: `None` and `""` are false. */
  predicate Truthy(s: Option<string>) {
    s.Some? && s.value != ""
  }

  /**
   * `load`: the project path is the root's directory unless a non-empty project
   * path is given; the root is documented under its file's base name without
   * extension; modules are discovered from the root (with the intended seed).
   */
  function Load(world: World, abs: string -> string, rootRelpath: string, projectRelpath: Option<string>,
                root: ModuleObj): (r: Registry)
    requires WellFormed(world, root)
    ensures r.abspath == if Truthy(projectRelpath) then abs(projectRelpath.value) else Dirname(abs(rootRelpath))
    ensures |r.modules| >= 1
    ensures r.modules[0].name == RootName(abs(rootRelpath)) && r.modules[0].abspath == abs(rootRelpath)
    ensures forall j :: 0 <= j < |r.modules| ==> Dirname(abs(rootRelpath)) <= r.modules[j].abspath
    ensures forall j, k :: 0 <= j < k < |r.modules| ==> r.modules[j].abspath != r.modules[k].abspath
    // the later modules are exactly the in-project modules the root reaches
    ensures forall j :: 1 <= j < |r.modules| ==>
      DocumentsInProject(world, abs, Dirname(abs(rootRelpath)), SeedIntended(abs(rootRelpath)),
                         References(root.members), r.modules[j])
    ensures PathsDistinct(world, abs) ==>
      forall id :: InProject(world, abs, Dirname(abs(rootRelpath)), SeedIntended(abs(rootRelpath)),
                             References(root.members), id) ==>
        exists j :: 1 <= j < |r.modules| && r.modules[j] == DocumentModule(abs(world[id].file.value), world[id])
  {
    var rootAbspath := abs(rootRelpath);
    var projectAbspath := if !Truthy(projectRelpath) then Dirname(rootAbspath) else abs(projectRelpath.value);
    var rootName := RootName(rootAbspath);
    var modules := Discover(world, abs, rootName, root, rootAbspath, SeedIntended(rootAbspath));
    DiscoverShape(world, abs, rootName, root, rootAbspath, SeedIntended(rootAbspath));
    IntendedPathsUnique(world, abs, rootName, root, rootAbspath);
    DiscoverSound(world, abs, rootName, root, rootAbspath, SeedIntended(rootAbspath));
    assert PathsDistinct(world, abs) ==>
      forall id :: InProject(world, abs, Dirname(rootAbspath), SeedIntended(rootAbspath), References(root.members), id) ==>
        exists j :: 1 <= j < |modules| && modules[j] == DocumentModule(abs(world[id].file.value), world[id])
    by {
      if PathsDistinct(world, abs) {
        DiscoverComplete(world, abs, rootName, root, rootAbspath, SeedIntended(rootAbspath));
      }
    }
    Registry(projectAbspath, modules)
  }

  /** The project path given to `load` plays no part in which modules are documented. */
  lemma LoadIgnoresProject(world: World, abs: string -> string, rootRelpath: string,
                           project1: Option<string>, project2: Option<string>, root: ModuleObj)
    requires WellFormed(world, root)
    ensures Load(world, abs, rootRelpath, project1, root).modules == Load(world, abs, rootRelpath, project2, root).modules
  {
  }

}
