# piehook hook registry in Dafny

This project models piehook's hook registry `HookManager`. It keeps callables ("hooks") under string ids, each with a priority and a registration index. It runs them in priority order and imports hook modules found by a file-name suffix. The project also models two small string rules of the command line. Properties of the model are proved.

Files:

- `ordering.dfy` (module `Ordering`): the stored entry `(priority, index, func)` and the order `run` invokes entries in. `run` uses `sorted(..., reverse=True)`, which orders the entries by descending `(priority, index)`. The model computes that order with an insertion sort (`RunOrder`). `Ordering.RunOrderIsUnique` shows that every sort into descending order gives the same sequence.
- `discovery.dfy` (module `Discovery`): the pure parts of `import_hooks`:
  - the file-name test;
  - the dotted module name built from a relative path;
  - the names a scan imports for the first time.
- `registry.dfy` (module `Hooks`): `class HookManager` with the fields `hooks` (`_hooks`), `nextIndex` (`_index`) and `importedHooks` (`imported_hooks`). Its methods `Add`, `Run`, `Remove` and `ImportHooks` update these fields in place. It also has an `events` field, an in-order trace of what the manager does outside itself: log lines, hook calls and module imports. The scan of `import_hooks` is specified by the function `ScanAll`, a fold of one scan step (`ImportStep`) over the hook-file names met. `ScanAllClosedForm` then proves what such a scan records, imports and traces. `Valid()` is the registry invariant: every stored index is below the counter, and no index is stored twice under any ids.
- `cli.dfy` (module `Cli`): the hooks-file name rule of `create` and the suffix default of `run`.
- `scenarios.dfy` (module `Scenarios`): concrete runs of the class.

The model follows the code of piehook/hooks.py:

- **Ties run newest first.** `run` sorts the `(priority, index, func)` tuples with `reverse=True`. So A@0, B@5, C@0 run as B, C, A, and not in registration order (B, A, C). `Scenarios.TieBreakScenario` proves this example.
- **Docstring.** The docstring of `add` (piehook/hooks.py:70) says lower priorities run first. The code runs higher priorities first, and the model follows the code.
- **No async path.** hooks.py has no asynchronous path.

A few representation choices:

- **Storage.** Entries are stored as a sequence with the new entry appended, instead of a `heapq` heap. `remove` rebuilds the list by filtering, so the source does not keep a heap either. `run` always sorts fully, and `Ordering.RunOrderIgnoresStorageOrder` proves that the run order depends only on which entries are stored.
- **Module import.** `importlib.import_module(name)` runs the module's top-level code. The model takes its effect as a parameter `load: string -> seq<Registration<F>>`: the `add` calls that importing `name` makes on this manager, which `LoadModule` replays through `Add`. A hooks file written by `create` (piehook/cli.py:43-45) registers on the module-level singleton `hooks` (piehook/hooks.py:115). Its calls reach the manager running `import_hooks` only when that manager is the singleton, as in `RunCommand.handle` (piehook/cli.py:61-63). For a module that registers on another manager, `load(name)` is empty.
- **Directory walk.** The walk of `os.walk(root_path)` is an input: one `WalkedDir(path, files)` per directory, in walk order. `path` holds the directory's segments relative to the root.
- **Separator.** `os.sep` is `/`.

## Model

| member | source | states |
|---|---|---|
| Ordering.RunOrder | piehook/hooks.py:58 | the run order holds exactly the stored entries (same multiset, same length) |
| Ordering.Callables | piehook/hooks.py:58 | the i-th callable invoked is the callable of the i-th entry in run order |
| Ordering.RunOrderIsDescending | piehook/hooks.py:58 | with distinct indices, the run order is strictly descending: higher priority first, and on equal priority the higher (later) index first |
| Ordering.NewestRunsFirstAmongEquals | piehook/hooks.py:58 | an entry with the highest index runs after all entries of higher priority and before all other entries of equal or lower priority |
| Ordering.RunOrderIsUnique | piehook/hooks.py:58 | two sequences in run order holding the same entries are equal, so the sort is fully determined |
| Ordering.RunOrderIgnoresStorageOrder | piehook/hooks.py:58 | any two storages of the same entries with distinct indices give the same run order, so a heap or a filtered list behave alike |
| Ordering.RunInvokesEachEntryOnce | piehook/hooks.py:58-62 | a run invokes each stored entry exactly once: same multiset of callables, as many calls as entries |
| Discovery.FileCandidates | piehook/hooks.py:104-106 | a name is derived from a directory's files exactly when some file there passes `FileMatches` (the test `file.endswith(suffix + ".py")`, hooks.py:105) and `ModuleName` (the `mod_name` expression of hooks.py:106: relative path, separators replaced, last three characters dropped) gives the name |
| Discovery.Candidates | piehook/hooks.py:103-106 | the names met by a scan are exactly the names derived from the hook files of some walked directory |
| Discovery.ReplaceSep | piehook/hooks.py:106 | every separator becomes a dot and every other character is kept |
| Discovery.DropLast3 | piehook/hooks.py:106 | `[:-3]` removes exactly the last three characters, or gives "" for shorter strings |
| Discovery.FileMatchesIff | piehook/hooks.py:105 | `FileMatches` (the file-name test) holds exactly when its name is a stem followed by the suffix and ".py" |
| Discovery.ModuleNameIsDottedPath | piehook/hooks.py:106 | `ModuleName`, the `mod_name` of a hook file, is its directory segments and its stem joined by dots, and that name plus ".py" is the relative path with separators replaced |
| Discovery.FreshImports | piehook/hooks.py:107-110 | a scan imports a name exactly when it met the name and the name was not imported before, and never imports a name twice |
| Discovery.RescanImportsNothing | piehook/hooks.py:108 | a scan that meets only names imported before imports nothing, so a repeated scan is a no-op |
| Discovery.FreshImportsGrowSeenByOne | piehook/hooks.py:107-112 | the recorded set grows by exactly one name per import |
| Hooks.Without | piehook/hooks.py:89 | the kept entries are entries of the id whose callable differs from the removed one, and every such entry is kept |
| Hooks.WithoutAppend | piehook/hooks.py:89 | filtering distributes over concatenation, so the kept entries stay in their relative order |
| Hooks.WithoutAbsent | piehook/hooks.py:89 | removing a callable that is not stored changes nothing |
| Hooks.WithoutIdempotent | piehook/hooks.py:89 | removing the same callable twice equals removing it once |
| Hooks.RemovedNeverRuns | piehook/hooks.py:89 | after `remove(id, f)`, a run of `id` never invokes `f` and still invokes every other stored callable |
| Hooks.AddEntryWellIndexed | piehook/hooks.py:76-77 | `AddEntry` (the push of `(priority, _index, func)` onto the id's list) followed by moving the counter on: stamping a new entry with the counter and moving the counter on keeps every index unique and below the counter |
| Hooks.AddEntryOnlyTouchesItsId | piehook/hooks.py:76 | `AddEntry`, the storage change of one `add`, appends one entry `(priority, old counter, func)` to its own id and leaves every other id's entries unchanged |
| Hooks.TouchWellIndexed | piehook/hooks.py:58 | reading a missing id through the defaultdict keeps the invariant |
| Hooks.WithoutWellIndexed | piehook/hooks.py:89 | filtering one id's entries keeps the invariant |
| Hooks.RunOrderOfRegistry | piehook/hooks.py:58 | in a registry that keeps its invariant, every id runs in strictly descending (priority, index) order, whatever order its entries are stored in |
| Hooks.LatestAddedRunsFirstAmongEquals | piehook/hooks.py:58 | the hook just added runs after every hook of higher priority and before every other hook of equal or lower priority |
| Hooks.CallEvents | piehook/hooks.py:61-62 | the i-th call event invokes the i-th callable |
| Hooks.ImportTrace | piehook/hooks.py:109-112 | each imported name leaves an import event followed by a log line with count 1 |
| Hooks.ScanSkip | piehook/hooks.py:108 | meeting a name that is already recorded leaves the scan's state unchanged |
| Hooks.ScanImport | piehook/hooks.py:108-112 | meeting a new name runs its registrations, records it, and appends its import and log line |
| Hooks.ScanAllAppend | piehook/hooks.py:103-104 | for `ScanAll`, the fold of `ImportStep` over the names met: scanning two runs of names one after the other equals scanning them joined, so the walk can be scanned directory by directory |
| Hooks.ScanAllClosedForm | piehook/hooks.py:103-112 | after `ScanAll` (one `ImportStep` per hook file met: skip a recorded name, else import, record and log it), exactly the names met are recorded; only names met for the first time are imported, once each and in order; their registrations get consecutive indices; the trace holds one import and one count-1 log line per import |
| Hooks.ImportedSummary | piehook/hooks.py:103-112 | a scan meeting only recorded names leaves the hooks, the counter and the trace unchanged |
| Hooks.HookManager.constructor | piehook/hooks.py:22-24 | a new manager has no hooks, counter 0 and nothing imported |
| Hooks.HookManager.Add | piehook/hooks.py:75-79 | stores `(priority, old counter, func)` under `id`, adds 1 to the counter, returns `func`, changes nothing else and keeps the invariant |
| Hooks.InvokeEach | piehook/hooks.py:61-62 | the call loop invokes the callables one after another, in order |
| Hooks.HookManager.Run | piehook/hooks.py:58-62 | invokes the callables of the id in run order, logs their count (the number stored), stores an empty list for an unknown id, and changes nothing else |
| Hooks.KeepOthers | piehook/hooks.py:89 | the loop of the comprehension yields exactly the filtered entries |
| Hooks.HookManager.Remove | piehook/hooks.py:89 | the id's entries become the filtered list, and the counter, the other ids, the imports and the trace are unchanged |
| Hooks.HookManager.AddEach | piehook/hooks.py:75-79 | the `add` calls of a module's top-level code, in order, leave the storage as `AddAll` (one `AddEntry` per call, stamped with consecutive counter values) and keep the invariant |
| Hooks.HookManager.LoadModule | piehook/hooks.py:109 | importing a module runs its registrations in order through `add` and records the import |
| Hooks.HookManager.ImportOnce | piehook/hooks.py:107-112 | the new state is `ImportStep` of the old one, the body of the inner loop of hooks.py:107-112: a name recorded before changes nothing; a new name is imported, recorded, and logged with a count of 1, since the recorded set grows by exactly one |
| Hooks.HookManager.ImportFromDir | piehook/hooks.py:104-112 | the files of one directory move the state by `ScanAll`, the fold of the scan steps of their hook-file names, in file order |
| Hooks.HookManager.ImportHooks | piehook/hooks.py:103-112 | the state is `ScanAll` (the nested loops of hooks.py:103-112 as a fold of `ImportStep`) over all hook files in walk order; the recorded names grow by exactly the names met; only first-time names are imported, once each and in scan order; a scan meeting only recorded names changes nothing |
| Cli.NormaliseHooksFileName | piehook/cli.py:30-34 | the result starts with the given name, contains `_hooks` (`Contains` is Python's `in`, cli.py:30) and ends with `.py` |
| Cli.NormaliseHooksFileNameCases | piehook/cli.py:30-34 | the name is kept exactly when it contains `_hooks` and ends with `.py`; a name without `_hooks` becomes `name + "_hooks.py"`; one with `_hooks` but no `.py` gets `.py` |
| Cli.NormaliseHooksFileNameIdempotent | piehook/cli.py:30-34 | normalising a normalised name changes nothing |
| Cli.CreatedFileMissedByDefaultScan | piehook/cli.py:30-34 | a name containing `_hooks` but ending in neither `_hooks` nor `.py` gets only `.py`, and the default suffix test rejects the result |
| Cli.CreatedFileMissedExample | piehook/cli.py:30-34 | `greeting_hooks_v2` yields a file the default scan does not import |
| Cli.DiscoverableHooksFileName | piehook/cli.py:30-34 | corrected rule: the result starts with the given name and passes the default suffix test |
| Cli.DiscoverableAgreesWithoutHooks | piehook/cli.py:30-31 | the corrected rule agrees with the written one on names without `_hooks` |
| Cli.DiscoverableAgreesOnHooksEnding | piehook/cli.py:30-34 | the corrected rule agrees with the written one on names ending in `_hooks` or `_hooks.py` |
| Cli.DiscoverableHooksFileNameIdempotent | piehook/cli.py:30-34 | the corrected rule is idempotent |
| Cli.EffectiveSuffix | piehook/cli.py:60 | an absent or empty `--suffix` gives `_hooks`; any other value is used as given; the suffix is never empty |
| Scenarios.TieBreakScenario | piehook/hooks.py:58 | A@0, B@5, C@0 added in that order run as B, C, A |
| Scenarios.TieBreakOrder | piehook/hooks.py:58 | the entries A@0 (index 0), B@5 (index 1), C@0 (index 2) run as B, C, A |
| Scenarios.RemoveScenario | piehook/hooks.py:89 | a hook removed before the run is not invoked |
| Scenarios.UnknownIdScenario | piehook/hooks.py:58-59 | running an unknown id on a new manager invokes nothing, logs a count of 0 as the only event, and leaves the id stored with no hooks |

## Left out

- Logging setup and `set_verbose` (piehook/hooks.py:26-47): these only configure the logger. The two `info` lines are modelled as trace events, without timestamps or levels.
- The default root path through `sys.modules['__main__']` (piehook/hooks.py:99-101), and the traversal of `os.walk`: both are filesystem I/O. The walk is an input sequence.
- Failures of `importlib.import_module`: when an import raises, the source leaves the name unrecorded and propagates the error. The model has every import succeed.
- Python's module cache: if a hook module was already imported elsewhere in the process, `import_module` does not run its top-level code again. The model always replays `load(name)` on a first import by the manager.
- Hook modules whose top-level code calls `import_hooks` or `remove`: `load` covers only `add` calls.
- Exceptions raised by hooks, which would end `run` early. The arguments passed to hooks are also left out: `Run` returns and records the callables in call order.
- Hook bodies are opaque: a hook that calls `add`, `remove` or `run` from inside `run` would change `_index`, `_hooks` or the log in the source. `Hooks.HookManager.Run`'s "changes nothing else" holds for hooks that do not call back into the manager.
- The `heapq` layout of each list: storage is a sequence, justified by `Ordering.RunOrderIgnoresStorageOrder`.
- Windows paths: `os.sep` is fixed to `/`.
- The module-level singleton `hooks = HookManager()` (piehook/hooks.py:115): every scenario builds its own manager.
- `verbose` in the constructor: it only sets log levels.
- The argparse wiring, directory creation and file writing of piehook/cli.py: these are I/O and library glue. Only the two string rules are modelled.
- Callables are compared by `==` on the type parameter `F`. Identity and `__eq__` overrides are not distinguished.

## Findings

| source | as written | input that shows it | evidently intended | confidence | as-written member | corrected member |
|---|---|---|---|---|---|---|
| piehook/cli.py:30-34 | `_hooks` is appended only when the name contains no `_hooks` anywhere, and otherwise only `.py` is added | `greeting_hooks_v2` becomes `greeting_hooks_v2.py`, which `run` with the default suffix `_hooks` never imports | the file `create` writes is one the default `run` discovers, i.e. it ends in `_hooks.py` | medium, not executed | Cli.CreatedFileMissedExample | Cli.DiscoverableHooksFileName |
