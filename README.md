# gautodoc registry builder, modelled in Dafny

gautodoc generates documentation for a Python program. Its builder starts from a
root script and follows the script's imports, module by module. It documents the
classes and functions of every module that lives in the root's directory, and
collects the results into a `Registry`. This project models that builder
(registry.py) and the earlier single-tree documenter (analysis.py). It proves
what they guarantee.

Files and modules:

- `wrappers.dfy`: `Wrappers.Option`, which models Python's `Optional`. It also
  holds `Inspect.Signature`, an opaque token for what `inspect.signature` returns.
- `selection.dfy`: `Selection.Selected`, the increasing list of positions that an
  order-preserving filter keeps. The exactness lemmas below are stated against it.
- `paths.dfy`: `os.path.dirname`, `basename` and `splitext` on POSIX paths,
  written as string functions.
- `registry.dfy`: the objects seen during reflection and the records built from
  them (`Function`, `Class`, `Module`, `Registry`). Also the member
  documenters, `document_module`, and the reference edges of
  `referenced_modules`.
- `discovery.dfy`: `find_modules` and `load`. Modules live in a finite world
  (`map<ModuleId, ModuleObj>`), because imports can form cycles. `abs` is a
  parameter that stands for `os.path.abspath`.
- `analysis.dfy`: `get_members`, `document` and `document_all` over a finite
  tree of objects.

The Python loops stay loops: the `for` loops of `document_member_functions`,
`document_member_classes` and `referenced_modules`, and the `while` loop of
`find_modules`. Each loop method is proved equal to a
recursive specification function (`MemberFunctions`, `MemberClasses`,
`References`, `Walk`/`Discover`). The source's guarantees are then proved as
lemmas about those functions. `Step` is one iteration of the `find_modules`
loop. `Walk` runs that loop to the end, and it terminates because every
iteration either shrinks the queue or records a path that was not yet known,
out of a finite set of paths.

The model follows the code as written:

- The project filter tests whether the module's absolute path starts with
  `dirname(root_abspath)`, as a plain string. The project path given to `load`
  is never used for the filter; `load` only stores it in `Registry.abspath`.
  Because the test is on strings, a root directory `/proj` also admits
  `/proj2/x.py`.
- The visited set starts as `set(root_abspath)`, not as `{root_abspath}`
  (see Findings).

## Model

| member | source | states |
|---|---|---|
| `Paths.Dirname` | registry.py:113 | `os.path.dirname`: the result is a prefix of the path, empty exactly when the path has no '/'. It is the path up to its last '/', with only the trailing run of slashes before the last component dropped, and none dropped when that head is slashes only. |
| `Paths.Basename` | registry.py:155 | `os.path.basename`: the result is the whole tail after the last '/'. It contains no '/' and is either the whole path or preceded by a '/'. The dirname is a prefix of what precedes it. |
| `Paths.Splitext` | registry.py:155 | `os.path.splitext`: joining root and extension gives back the path. The extension is non-empty exactly when the last path component has a '.' somewhere after a character other than '.'. A non-empty extension is one '.' followed by no further '.' or '/', so it starts at the last '.'. |
| `Paths.RootName` | registry.py:155 | `root_name`: the root file's base name with exactly its extension (as `splitext` finds it) removed: appending that extension gives back the base name. It contains no '/'. |
| `Registry.DocumentFunction` | registry.py:47-51 | A function record carries the function's signature and docstring. |
| `Registry.MemberFunctionsExact` | registry.py:53-59 | `document_member_functions` returns one record for exactly the non-banned function entries of the `__dict__`, in dictionary order. |
| `Registry.DocumentMemberFunctions` | registry.py:53-59 | The appending `for` loop returns exactly `MemberFunctions` of the dictionary. |
| `Registry.MemberClassesExact` | registry.py:69-75 | `document_member_classes` returns one recursively documented record for exactly the non-banned class entries, in dictionary order. |
| `Registry.DocumentMemberClasses` | registry.py:69-75 | The appending `for` loop returns exactly `MemberClasses` of the dictionary. |
| `Registry.MemberCountsBound` | registry.py:53-75 | The class records and function records of one dictionary together are never more than its entries. |
| `Registry.DocumentClass` | registry.py:61-67 | A class record keeps the class's signature and docstring. Its `classes` and `functions` are what `document_member_classes` and `document_member_functions` return for its `__dict__`. |
| `Registry.ClassRecordMembers` | registry.py:61-75 | A class record's nested classes and functions are, in dictionary order, the records of exactly its non-banned class and function entries. |
| `Registry.DocumentModule` | registry.py:77-86 | Name, abspath and doc are copied unchanged. A falsy `__package__` (`None` or `''`) becomes `None`, so the package is never `''`. A truthy one is kept. `classes` and `functions` are what the member documenters return for the module's dictionary. |
| `Registry.ModuleRecordMembers` | registry.py:77-86 | A module record's classes and functions are, in dictionary order, the records of exactly its non-banned class and function entries. |
| `Registry.References` | registry.py:88-101 | The referenced modules contain no duplicates, as a Python set does. |
| `Registry.ReferencesExact` | registry.py:88-101 | A module is referenced exactly when some entry is that module (direct import) or is a function whose `getmodule` origin is that module (wildcard import). |
| `Registry.ReferencedModules` | registry.py:88-101 | The collecting `for` loop returns exactly `References` of the dictionary. |
| `Discovery.StepFacts` | registry.py:115-135 | One iteration either only pops the last queued module (no `__file__`, or path already known) and outputs nothing, or records one new path from the finite universe. It outputs at most one module, and that module has the new path and lies under the root directory. |
| `Discovery.WalkAddsFreshPaths` | registry.py:115-135 | The loop only appends. Every module it appends has a path that was not known when the loop started and that starts with the root directory. The appended paths are pairwise distinct. |
| `Discovery.FindModules` | registry.py:103-137 | The `while` loop, as written, returns exactly `Discover` with the seed `set(root_abspath)`. Its `decreases` clause is the termination argument: unknown paths, then queue length. |
| `Discovery.DiscoverShape` | registry.py:105-134 | For any seed, the output is never empty. `mods[0]` is the root documented under `root_name` at `root_abspath`. Every entry lies under `dirname(root_abspath)`. Every later entry's path is outside the seed, and the later paths are pairwise distinct. |
| `Discovery.DiscoverSound` | registry.py:103-137 | For any seed, every module output after the root documents, under its own path, an in-project module reachable from the root. In-project means that the module has a `__file__` whose absolute path starts with the root's directory and is outside the seed. Reachable means that a chain of references leads from the root to it, and every module along the chain is in-project. |
| `Discovery.DiscoverComplete` | registry.py:103-137 | Conversely, when distinct modules of the world have distinct absolute paths, every such reachable, in-project module outside the seed is documented in the output after the root. |
| `Discovery.SeedAsWrittenOnlyCharacters` | registry.py:110 | `set(root_abspath)` holds only one-character strings, so it never contains the root path, or any path longer than one character. |
| `Discovery.RootDocumentedTwiceAsWritten` | registry.py:110 | As written: root `/p/r.py` imports `/p/m.py`, which imports the root back. The output is `/p/r.py`, `/p/m.py`, `/p/r.py`, so the root is documented twice. |
| `Discovery.IntendedPathsUnique` | registry.py:110-126 | Seeded with `{root_abspath}`, no absolute path appears twice in the output, the root included. |
| `Discovery.CycleDocumentedOnceIntended` | registry.py:110 | With that seed, the two-module cycle yields exactly `/p/r.py`, then `/p/m.py`. |
| `Discovery.Load` | registry.py:139-163 | The project path is `dirname(abspath(root))` when the project argument is falsy, and `abspath(project)` otherwise. The first module is the root, at `abspath(root)` and named `root_name`. Every module lies under the root's directory. With the corrected seed `{root_abspath}` no path repeats (as written it can, see Findings). Every later module documents a module the root reaches through in-project imports. When distinct modules have distinct paths, every such module is documented. |
| `Discovery.LoadIgnoresProject` | registry.py:150-158 | The project path given to `load` has no effect on which modules are documented. |
| `Analysis.GetMembersOfModule` | analysis.py:79-87 | On a module, `get_members` yields, in dictionary order, exactly the values whose `__module__` equals the module's `__name__`. Values without `__module__` are excluded. |
| `Analysis.GetMembersOfOther` | analysis.py:72-93 | On anything else, `get_members` yields, in dictionary order, exactly the values whose key is neither `__dict__` nor `__weakref__`. |
| `Analysis.Document` | analysis.py:100-124 | Returns `None` exactly for objects that are not a module, class or function. Otherwise the name is `__name__` and the docstring is `getdoc`. The meta variant matches the kind. Classes and functions carry their signature. Children are never more than the members. |
| `Analysis.DocumentAll` | analysis.py:97-98 | The result is never longer than the input. |
| `Analysis.DocumentAllExact` | analysis.py:97-98 | `document_all` keeps, in input order, the entries of exactly those objects `document` accepts, and drops exactly the `None`s. An `Entry` is always truthy. |
| `Analysis.DocumentedChildren` | analysis.py:106-112 | A module's or class's children are, in dictionary order, the entries of exactly those members that `get_members` keeps and that are modules, classes or functions. |

## Left out

- Loading code: `runpy.run_path` (registry.py:105) and the `importlib` loader of analysis.py:20-44 run arbitrary code. The root script's `__dict__` and the world of imported modules are parameters instead.
- `os.path.abspath` depends on the working directory. It is the parameter `abs`.
- `inspect.signature` and `inspect.getdoc` are opaque fields of each object, and `inspect.getmodule` is the `origin` field of a function. Failures of these calls, such as `ValueError` from `signature` on a builtin, are not modelled.
- Iteration order of the set in `referenced_modules` is unspecified in Python. The model fixes first-seen order. Apart from "root first", no stated property depends on that order.
- Python exceptions are not modelled. This covers a missing `__name__`/`__package__`/`__doc__` key, and a `__file__` that exists but is `None`. In the model, `file` is absent only when the module has no `__file__` attribute.
- Cyclic class nesting (a class reachable from its own `__dict__`) makes `document_class` and `document` recurse until Python raises `RecursionError`. Objects here are finite trees, so such input cannot be expressed.
- `Discovery.DiscoverComplete`: completeness is proved only for worlds where distinct module objects have distinct absolute paths. When two objects share a path, only the first one popped is expanded, so a module reachable only through the other one's imports can be missed.
- `Discovery.Load`: uses the corrected seed `{root_abspath}` (see Findings). The code as written is `Discovery.FindModules`.
- `Analysis.Document`: the `Signature` is opaque, so parameter lists, return annotations and their serialized form are not modelled. No serializer exists in the modelled source (gbuild.py calls a `dumps` that `Registry` does not define).
- `analyze` (analysis.py:128-129) only loads a file and calls `document`.
- gbuild.py (output-directory staging and file writes), gconfig.py (JSON configuration), gdoc.py (command-line parsing), common.py (`error_exit`, and the frozen-dataclass decorator, which the datatypes here replace), template/modules/gdoc.mjs (browser rendering) and the `__main__` block of registry.py are not part of this model.
- `BannedMembers` lists `__builtin__`. Module dictionaries actually hold `__builtins__`, so that entry never matches. The constant is kept exactly as written.

## Findings

| source | as written | input that shows it | evidently intended | confidence | as-written member | corrected member |
|---|---|---|---|---|---|---|
| registry.py:110 | `known = set(root_abspath)` seeds the visited set with the root path's characters, so the root path itself is never marked visited | root `/p/r.py` imports `m` (`/p/m.py`), and `m` imports the root module back; the output is `/p/r.py`, `/p/m.py`, `/p/r.py` | seed with `{root_abspath}`, so that each file is documented once | high; not executed | `Discovery.RootDocumentedTwiceAsWritten` | `Discovery.IntendedPathsUnique` |
