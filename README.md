# jeefo_bundler: module resolution and the incremental cache, in Dafny

This project models the core of `jeefo_bundler`, a small incremental JavaScript
bundler. It has two parts.

- **Resolution** (`src/module.js`). A specifier starting with `.` is looked up under
  each include directory in turn. Any other specifier is looked up as
  `node_modules/<spec>` under each package root whose allow-list admits it. Under a
  root, the path itself is tried first, then `.js`, `.json`, `/index.js`,
  `/index.json`. The first existing regular file wins. Its path relative to the
  winning root, with `\` turned into `/` on win32, is the module's cache key. If
  nothing is found, the error has code `ENOINT`.
- **The cache engine** (`src/index.js`). `JeefoBundler` keeps a store (`db.json`)
  that maps each cache key to the mtime of its last refresh and its declared
  dependencies. It has these operations:
  - `is_updated` decides staleness by exact mtime equality.
  - `get_module` serves a fresh module's cached body. For a stale module it reads
    the source, hands it to the `file_updated` hook, and saves the result.
  - `save_module` writes the body, updates one store record, and writes the store.
  - `bundle` joins the cached bodies of the store's `.js` keys, in store order, with
    a blank line between them.
  - `clear` unlinks the cached files and the store, then removes the directories
    left empty, in post-order.

Layout, one module per file:

| module | file | what |
|---|---|---|
| `Wrappers` | wrappers.dfy | `Option`, `Result`, `Prepend` |
| `Paths` | paths.dfy | `path.resolve`, `path.join`, `path.relative`, `path.dirname`, `~/` expansion |
| `Store` | store.dfy | the store: an insertion-ordered map of records |
| `FileSystem` | filesystem.dfy | an abstract filesystem: files with content and mtime, plus directories |
| `Resolver` | resolver.dfy | the search functions and the `JeefoBundlerModule` class with its two static searches |
| `ResolverProperties` | resolver_properties.dfy | search-order lemmas |
| `Config` | config.dfy | the constructor's validation and path expansion |
| `EmptyDirs` | empty_dirs.dfy | `remove_empty_dirs` and its closed form |
| `Engine` | engine.dfy | each cache operation as a function from engine state to engine state |
| `EngineProperties` | engine_properties.dfy | lemmas about those functions |
| `BundlerClass` | bundler.dfy | the `JeefoBundler` class |

The engine state is the in-memory store (absent until first loaded), the filesystem,
and a ghost log of `file_updated` calls and writes. The logged writes are the
body-cache file, the store file, and the bundle.

Each cache operation of `BundlerClass.Bundler` (`LoadDb`, `CreateModule`, `IsUpdated`,
`SaveModule`, `GetModule`, `Bundle`, `Clear`) is proved to leave the object in exactly the
state that the matching `Engine` function gives, and to return the same outcome.
`Bundler.Create`, the constructor, has no `Engine` counterpart: it is proved to hold
exactly the settings `Config.Configure` computes.
The `Engine` functions then carry the properties, as lemmas. An operation that fails
part-way returns the state it left behind, because the source does not roll back.

Modelling choices:

- Clocks, the operating system and the hooks are parameters.
  - `now` is the mtime a write gives.
  - `win32` stands for `os.platform() === "win32"`.
  - `Env` holds `$HOME` and the working directory.
  - The listeners of `file_updated`, `bundle` and `before_write` are functions.
- The source's call to the missing `resolve_path` is replaced by a resolved `create_module`.
  - `is_updated` recurses into a module's declared dependencies through `this.resolve_path`. `JeefoBundler` defines no such method (src/index.js:154).
  - The model resolves each dependency with `create_module` and loads its stat (`Engine.DependencyState`).
  - A module built this way has no dependencies of its own, so the recursion is one level deep. A dependency cycle cannot arise.
  - The code as written is kept beside it, as `Engine.StalenessAsWritten`. See Findings.
- `packages.find(p => pkg_path.startsWith(p))` returns the first matching string, and
  the root is consulted when that string is truthy. An empty entry `""` matches every
  path, so a root is skipped exactly when the FIRST allow-list entry that matches is
  `""`: `["", "@jeefo"]` skips it for `@jeefo/x`, `["@jeefo", ""]` does not. This is
  modelled as written (`Resolver.Eligible`, `ResolverProperties.EligibleIffFirstMatchNonEmpty`).
- Include directories, package roots and `output_dir` get the `~/` expansion.
  `cache_dir` does not, as in the code (src/index.js:106). `~/x` there is taken
  relative to the working directory.
- For a bare specifier, the not-found error names the `node_modules/`-prefixed path,
  not the specifier.

## Model

| member | source | states |
|---|---|---|
| `Resolver.NotFoundError` | src/module.js:32-37 | reference definition of `throw_not_found`: a `NotFound` error with code `ENOINT` and a message naming the path; characterised by `Resolver.NotFoundCarriesPath` |
| `Resolver.NotFoundCarriesPath` | src/module.js:32-37 | the not-found error has code `ENOINT` and its message contains the path looked up |
| `Resolver.Candidates` | src/module.js:23 | under one root, the resolved path is tried first, then the four suffixes in their fixed order |
| `Resolver.FirstFileFrom` | src/module.js:75-84 | the index found is a regular file and no earlier candidate is; with no index, no candidate is a file |
| `Resolver.RootHit` | src/module.js:74-84 | reference definition of the search under one root: the first of the candidates that is a regular file, or none; characterised by `ResolverProperties.RootHitIsFirstCandidate`, and `Resolver.TryRoot` is proved equal to it |
| `Resolver.LookupPaths` | src/module.js:91-96 | a `node_modules/` specifier is looked up verbatim with the prefix stripped for package matching; any other is looked up as `node_modules/<spec>` |
| `Resolver.FindPackage` | src/module.js:97-100 | the entry `find` returns is the FIRST listed prefix of the package path, every entry before it failing to match; with none returned, no entry is a prefix |
| `Resolver.Eligible` | src/module.js:100 | reference definition: a root is consulted when `find` returns a non-empty (truthy) entry; characterised by `ResolverProperties.EligibleIffFirstMatchNonEmpty` |
| `Resolver.EligibleRoots` | src/module.js:99-100 | reference definition: the root dirs of the eligible package roots, in configuration order; characterised by `ResolverProperties.EligibleRootsMembers` and `EligibleRootsAppend` |
| `Resolver.SearchRoots` | src/module.js:73-85 | reference definition of the outer loop of both searches: the first root, in order, whose candidates contain a file; characterised by `ResolverProperties.SearchRootsNone`, `SearchRootsFirstHit` and `LaterRootsIgnored` |
| `Resolver.LocateRemote` | src/module.js:72-88 | reference definition of `from_remote_filepath`: the search over the include directories, or the not-found error for the specifier; `Resolver.FromRemoteFilepath` is proved equal to it |
| `Resolver.LocateNodeModule` | src/module.js:90-116 | reference definition of `from_node_module`: the search over the eligible roots with the prefixed lookup path, or the not-found error for that path; `Resolver.FromNodeModule` is proved equal to it |
| `Resolver.MakeModulePath` | src/module.js:44-60 | reference definition of `this.path`: the key is the path relative to the root, with `\` turned into `/` on win32, and both directories are dirnames; characterised by `ResolverProperties.RemoteKeyOfCandidate` and `RemoteKeyIsPortable` |
| `Resolver.BundlerModule.constructor` | src/module.js:40-62 | the module's root, local and remote paths are computed from the file and the root; dependencies start empty; nothing is loaded |
| `Resolver.BundlerModule.LoadStat` | src/module.js:64-66 | the mtime becomes the file's mtime; a failed stat leaves the module unchanged and reports the error |
| `Resolver.BundlerModule.LoadContent` | src/module.js:68-70 | the content becomes the file's text; a failed read leaves the module unchanged |
| `Resolver.TryRoot` | src/module.js:74-84 | the loop over the path and its suffixes returns the first candidate that is a file, or none |
| `Resolver.FromRemoteFilepath` | src/module.js:72-88 | the nested loops return a fresh, unloaded module for the first include directory with a hit, or fail with the not-found error for the specifier |
| `Resolver.FromNodeModule` | src/module.js:90-116 | ineligible roots are skipped; the module comes from the first eligible root with a hit; failure names the prefixed path |
| `ResolverProperties.SearchRootsNone` | src/module.js:73-87 | the search finds nothing exactly when no root yields a file |
| `ResolverProperties.SearchRootsFirstHit` | src/module.js:73-85 | the winning root is the first root with a hit; every earlier root had none |
| `ResolverProperties.LaterRootsIgnored` | src/module.js:73-85 | once a root yields a file, the roots after it do not influence the result |
| `ResolverProperties.SuffixPriority` | src/module.js:23 | when `x` is not a file and `x.js` is, `x.js` wins, whatever `x.json` is |
| `ResolverProperties.RootHitIsFirstCandidate` | src/module.js:74-83 | a root's hit is an existing file: the resolved path, or it with the first existing suffix |
| `ResolverProperties.LocateRemoteSound` | src/module.js:72-85 | a resolved module is an existing file, a candidate under its root, and that root is an include directory |
| `ResolverProperties.LocateRemoteNotFound` | src/module.js:87 | with no root holding a candidate, including no roots at all, resolution fails naming the specifier |
| `ResolverProperties.BareNotFoundNamesPrefixedPath` | src/module.js:95-115 | a bare specifier that no root admits fails naming `node_modules/<spec>` |
| `ResolverProperties.NoEligibleRoots` | src/module.js:99-100 | when no root admits the package path, no root is searched |
| `ResolverProperties.EligibleRootsMembers` | src/module.js:99-100 | a root dir is searched exactly when some package root with that dir is eligible |
| `ResolverProperties.EligibleRootsAppend` | src/module.js:99-100 | the eligible roots of a concatenation are those of the first part followed by those of the second, so configuration order is kept |
| `ResolverProperties.EligibleIffAllowListed` | src/module.js:97-100 | a root is searched only if some allow-listed prefix matches; without an empty entry, exactly then |
| `ResolverProperties.EligibleIffFirstMatchNonEmpty` | src/module.js:97-100 | a root is consulted exactly when the first allow-list entry that is a prefix of the package path is non-empty |
| `ResolverProperties.FirstMatchDecidesExample` | src/module.js:97-100 | `["", "@jeefo"]` skips the root for `@jeefo/x`, while `["@jeefo", ""]` admits it |
| `ResolverProperties.EmptyAllowListEntrySkipsRoot` | src/module.js:100 | an allow-list holding only `""` matches every path yet admits none |
| `ResolverProperties.RemoteKeyOfCandidate` | src/module.js:44-47 | in the model, where `path.resolve` only concatenates, the cache key of a hit is the specifier as written plus the suffix that matched; the source also drops a leading `./`, which the model keeps (see Left out) |
| `ResolverProperties.RemoteKeyIsPortable` | src/module.js:44-60 | on win32 no cache key contains `\`; elsewhere it is the relative path unchanged; the directories are the dirnames |
| `Paths.ResolveAgainst` | src/module.js:74 | an absolute path is kept; a relative one lands under the base |
| `Paths.Relative` | src/module.js:44 | reference definition of `path.relative` for a path inside the root: the part after `root/`; characterised by `Paths.RelativeOfJoin` |
| `Paths.RelativeOfJoin` | src/module.js:44 | the path relative to a root, of a path joined under it, is the joined part |
| `Paths.ReplaceBackslashes` | src/module.js:46 | every `\` becomes `/`, all else is kept, and none is left |
| `Paths.NormalizeWithoutBackslash` | src/module.js:45-47 | a key without `\` is left unchanged by the win32 normalisation, and by the identity elsewhere |
| `Paths.Dirname` | src/module.js:54-58 | reference definition of `path.dirname`: everything before the last `/`; characterised by `Paths.DirnameOfJoin` |
| `Paths.DirnameOfJoin` | src/index.js:182 | for a relative key joined under a directory, the dirname is that directory when the key has no `/`, and the key's own dirname joined under it when the key is nested, such as `src/module.js` |
| `Paths.ExpandHome` | src/index.js:75-77 | reference definition of the `~/` shorthand; characterised by `Config.HomeShorthand` |
| `Paths.JoinInjective` | src/index.js:247 | distinct keys have distinct cache paths |
| `Store.Put` | src/index.js:192 | the key maps to the new record; every other key and record is unchanged; a new key goes last, an old one keeps its place |
| `Store.PutKeepsOrder` | src/index.js:192 | the old key order is a prefix of the new one |
| `FileSystem.Stat` | src/module.js:65 | a stat succeeds exactly on a regular file and gives its mtime |
| `FileSystem.ReadText` | src/index.js:171 | a read succeeds exactly on a text file and gives its content |
| `FileSystem.WriteFile` | src/index.js:184 | a write fails on a directory; otherwise it sets that file alone |
| `FileSystem.EnsureDir` | src/index.js:183 | the directory and its ancestors exist afterwards unless a file is in the way; files are untouched |
| `FileSystem.Unlink` | src/index.js:248 | unlink removes exactly one regular file and fails on anything else |
| `Config.Configure` | src/index.js:59-117 | include dirs are expanded and must all be directories, or the first that is not is rejected; roots and output dir are expanded; cache dir is resolved; the store is `<cache_dir>/db.json` |
| `Config.IncludeDirs` | src/index.js:72-85 | reference definition of the include-dir loop: each dir expanded, the first non-directory rejected; characterised by `Config.IncludeDirsChecked` |
| `Config.IncludeDirsChecked` | src/index.js:72-85 | accepted include dirs are the expanded ones, all directories; a rejection names the first that is not, all before it being directories |
| `Config.HomeShorthand` | src/index.js:75-78 | `~/x` becomes `$HOME/x` whatever the working directory |
| `Config.CacheDirNotExpanded` | src/index.js:106 | the cache dir gets no `~/` expansion |
| `EmptyDirs.RemoveEmptyDirs` | src/index.js:44-56 | the post-order walk removes exactly the directories at or below the start with no file below them, and keeps the filesystem well formed |
| `EmptyDirs.Pruned` | src/index.js:44-56 | the closed form of the walk: the filesystem minus the directories at or below the start with no file below them; `EmptyDirs.RemoveEmptyDirs` is proved equal to it |
| `EmptyDirs.PrunedLeavesNoEmptyDir` | src/index.js:44-56 | afterwards no directory at or below the start is empty, not even one that held only empty directories |
| `EmptyDirs.PrunedKeepsFilesAndTheirDirs` | src/index.js:44-56 | files are never touched and a directory with a file below it stays |
| `EmptyDirs.UnlinkKeepsWellFormed` | src/index.js:246-250 | unlinking a file keeps every remaining entry's ancestors present |
| `EmptyDirs.ParentIsDirectory` | src/index.js:250-251 | the directory holding the store file is a directory when the walk starts |
| `Engine.DependencyState` | src/index.js:153-155 | a dependency resolves exactly when `create_module` finds it and its file can be stat'ed; its key is the resolved cache key, its mtime the file's current mtime, and it has no dependencies of its own; a resolution failure is passed on |
| `Engine.LoadDb` | src/index.js:119-128 | reference definition of `load_db`; characterised by `EngineProperties.LoadDbLazy` and `LoadDbFromDisk`, and `BundlerClass.Bundler.LoadDb` is proved equal to it |
| `Engine.CreateModule` | src/index.js:135-141 | reference definition of `create_module`: a leading `.` selects the include dirs, anything else `node_modules`; characterised by `EngineProperties.CreateModuleSound` and `CreateModuleNotFound` |
| `Engine.Staleness` | src/index.js:147-157 | reference definition of the decision of `is_updated`; characterised by `EngineProperties.IsUpdatedIff` |
| `Engine.DependenciesStaleness` | src/index.js:152-157 | reference definition of the dependency loop; characterised by `EngineProperties.DependenciesFreshIff` and `DependenciesStaleIff` |
| `Engine.DependencyVerdict` | src/index.js:154-155 | reference definition of one turn of the loop: the resolved dependency judged as `is_updated` judges a module; characterised by `EngineProperties.DependencyJudgedByRecord` |
| `Engine.StalenessAsWritten` | src/index.js:147-157 | the decision as written, where the loop's first call is to the undefined `resolve_path`; compared with `Engine.Staleness` by `EngineProperties.ResolvePathMissing` |
| `Engine.IsUpdated` | src/index.js:143-158 | reference definition of `is_updated`: load the store, then decide; `BundlerClass.Bundler.IsUpdated` is proved equal to it |
| `Engine.RecordFor` | src/index.js:188-191 | reference definition of the record `save_module` stores: the mtime, with `dependencies` only when the list is non-empty; characterised by `EngineProperties.SaveModuleEffect` |
| `Engine.CachePath` | src/index.js:181 | reference definition of `path.join(cache_dir, key)`, the place of a module's cached body; characterised by `Paths.JoinInjective` and `EngineProperties.CachePathIsNotStorePath` |
| `Engine.SaveModule` | src/index.js:178-196 | reference definition of `save_module`; characterised by `EngineProperties.SaveModuleEffect`, `SaveModuleStore`, `SaveModuleBody` and `FreshAfterSave` |
| `Engine.GetModule` | src/index.js:160-176 | reference definition of `get_module`; characterised by `EngineProperties.GetModuleFresh`, `GetModuleStale`, `GetModuleLeavesModuleFresh` and `SecondGetModuleServesCache` |
| `Engine.Refresh` | src/index.js:163-167 | reference definition of the stale branch: read the source, call the hook, save; characterised by `EngineProperties.RefreshEffect` |
| `Engine.ServeCached` | src/index.js:168-172 | reference definition of the fresh branch: read the cached body; characterised by `EngineProperties.GetModuleFresh` |
| `Engine.Bundle` | src/index.js:198-235 | reference definition of `bundle`; characterised by `EngineProperties.BundleEffect`, `BundleSucceeds` and `BundleExample` |
| `Engine.JsKeys` | src/index.js:200 | reference definition of the filter of `bundle`: the store keys ending in `.js`, in store order; characterised by `EngineProperties.JsKeysMembers` and `JsKeysAppend` |
| `Engine.ReadEntries` | src/index.js:212-222 | reference definition of the entry loop of `bundle`: each key's cached body through the listener, in order, the first unreadable body aborting; characterised by `EngineProperties.ReadEntriesContents`, and `BundlerClass.ReadBodies` is proved equal to it |
| `Engine.JoinWith` | src/index.js:228 | reference definition of `Array.prototype.join`: the parts with the separator between neighbours; characterised by `EngineProperties.JoinWithAppend` |
| `Engine.UnlinkKeys` | src/index.js:246-249 | reference definition of the unlink loop of `clear`; characterised by `EngineProperties.UnlinkKeysEffect` and `UnlinkKeysCompletes` |
| `Engine.Clear` | src/index.js:242-253 | reference definition of `clear`; characterised by `EngineProperties.ClearEffect`, `ClearSucceedsIff` and `ClearWithoutCacheDir` |
| `EngineProperties.LoadDbLazy` | src/index.js:119-128 | the store is loaded once and kept; loading changes no file; a second load changes nothing |
| `EngineProperties.LoadDbFromDisk` | src/index.js:121-125 | with nothing loaded: the store file's map, an empty store when there is no such file |
| `EngineProperties.CreateModuleSound` | src/index.js:135-141 | a leading `.` resolves under an include dir, anything else under an eligible package root; the module is an existing file keyed by its relative path |
| `EngineProperties.CreateModuleNotFound` | src/index.js:135-141 | an unresolvable specifier fails with `ENOINT`, naming the specifier or its prefixed form |
| `EngineProperties.DependencyJudgedByRecord` | src/index.js:147-155 | a dependency that cannot be resolved or stat'ed aborts with that error; a resolved one is stale exactly when it has no record or a different mtime |
| `EngineProperties.DependencyPropagation` | src/index.js:147-156 | for a module whose own record matches and whose only dependency is `b`: stale exactly when `b`'s file has no record or its current mtime differs from `b`'s record, so touching only `b` makes the module stale |
| `EngineProperties.DependenciesStep` | src/index.js:153-156 | one turn of the loop: a stale dependency answers `true`, a fresh one passes on, an error aborts |
| `EngineProperties.DependenciesFreshIff` | src/index.js:152-157 | the loop answers fresh exactly when every dependency resolves and is fresh |
| `EngineProperties.FirstStaleDependency` | src/index.js:153-155 | a `true` answer comes from a stale dependency with only fresh ones before it |
| `EngineProperties.StaleDependencyDecides` | src/index.js:153-155 | a stale dependency after only fresh ones makes the answer `true` |
| `EngineProperties.DependenciesStaleIff` | src/index.js:152-157 | the loop answers `true` exactly when some dependency is stale and all before it are fresh |
| `EngineProperties.IsUpdatedIff` | src/index.js:143-158 | stale exactly when there is no record, the mtime differs in either direction, or a dependency is stale; fresh exactly otherwise |
| `EngineProperties.IsUpdatedNeedsMtime` | src/index.js:150 | a recorded module whose mtime was never loaded makes `is_updated` throw a `TypeError` |
| `EngineProperties.ResolvePathMissing` | src/index.js:152-157 | as written, an unchanged module with a dependency throws where the resolved decision does not; with no dependency both agree |
| `EngineProperties.DependenciesNeverMissResolvePath` | src/index.js:154 | resolving dependencies can fail to find or stat one, never for a missing method |
| `EngineProperties.CachePathIsNotStorePath` | src/index.js:107 | only the key `db.json` shares its cache path with the store file |
| `EngineProperties.SaveModuleEffect` | src/index.js:178-196 | the body is at `cache_dir/key` and the store at `db_path`; one record is set, with dependencies only when non-empty; no other file changes; two writes are logged |
| `EngineProperties.SaveModuleStore` | src/index.js:187-194 | with the store loaded, a save sets that key's record on it and logs the body write then the store write, whatever the key |
| `EngineProperties.SaveModuleBody` | src/index.js:180-184 | the body lands at `cache_dir/key` for every key other than `db.json` |
| `EngineProperties.FreshAfterSave` | src/index.js:178-196 | after a save the module with that mtime is fresh |
| `EngineProperties.GetModuleFresh` | src/index.js:168-172 | a fresh module comes back with its cached body and nothing is written |
| `EngineProperties.GetModuleStale` | src/index.js:163-167 | a stale module's source goes to `file_updated` before the body and store writes; what the hook left is returned and saved |
| `EngineProperties.StaleIsRefresh` | src/index.js:161-167 | when the check says stale, `get_module` continues from the state the check left: the store loaded, files and log unchanged |
| `EngineProperties.RefreshEffect` | src/index.js:164-167 | a successful refresh returns what the hook left, records it, writes its body, and logs the hook before both writes |
| `EngineProperties.GetModuleLeavesModuleFresh` | src/index.js:160-176 | after either branch, that module is fresh |
| `EngineProperties.SecondGetModuleServesCache` | src/index.js:160-176 | asking again serves the body the first call left, with no write |
| `EngineProperties.JsKeysMembers` | src/index.js:200 | exactly the store keys ending in `.js` are bundled |
| `EngineProperties.JsKeysAppend` | src/index.js:200 | the filter keeps store order |
| `EngineProperties.ReadEntriesContents` | src/index.js:212-222 | the entries are the bodies of exactly those keys, in order, through the listener; any unreadable body fails |
| `EngineProperties.JoinWithAppend` | src/index.js:228 | the separator stands between neighbours only |
| `EngineProperties.BundleEffect` | src/index.js:198-235 | `output_dir/name` gets `before_write` of the joined entries; the store and every other file are unchanged |
| `EngineProperties.BundleSucceeds` | src/index.js:198-235 | when the store loads, every body reads and the output location is free, `bundle` succeeds and writes exactly the output file |
| `EngineProperties.BundleExample` | src/index.js:198-235 | bodies `1`, `x`, `2` under keys `a.js`, `b.json`, `c.js` bundle to `1\n\n2` |
| `EngineProperties.UnlinkKeysEffect` | src/index.js:246-249 | the unlink loop removes only cached bodies; when it completes, exactly those of the keys |
| `EngineProperties.UnlinkKeysCompletes` | src/index.js:246-249 | with distinct keys whose bodies all exist, the loop completes |
| `EngineProperties.ClearWithoutCacheDir` | src/index.js:243 | `clear` without a cache dir changes nothing |
| `EngineProperties.ClearEffect` | src/index.js:242-253 | every cached body and the store file go and no other file; the store is dropped from memory; exactly the emptied directories are pruned |
| `EngineProperties.ClearSucceedsIff` | src/index.js:245-250 | `clear` succeeds exactly when every body and the store file exist and no key is `db.json` |
| `BundlerClass.ReadBodies` | src/index.js:212-222 | the `bundle` loop computes exactly the entries `ReadEntries` specifies |
| `BundlerClass.Bundler.constructor` | src/index.js:105-112 | the bundler starts with settings fixed and no store loaded |
| `BundlerClass.Bundler.Create` | src/index.js:59-117 | the constructor rejects exactly when an include dir is not a directory, naming the first; otherwise a fresh bundler with nothing loaded whose name, cache dir, store path `<cache_dir>/db.json`, expanded output dir, expanded and checked include dirs, expanded package roots with their allow-lists, and platform flag are those the configuration gives; with a non-empty working directory the settings are valid |
| `BundlerClass.Bundler.LoadDb` | src/index.js:119-128 | the method leaves the state and result `Engine.LoadDb` gives |
| `BundlerClass.Bundler.CreateModule` | src/index.js:135-141 | a fresh unloaded module at the path `Engine.CreateModule` gives, or its error |
| `BundlerClass.Bundler.IsUpdated` | src/index.js:143-158 | the recursive method with its dependency loop gives the state and answer of `Engine.IsUpdated` |
| `BundlerClass.Bundler.SaveModule` | src/index.js:178-196 | the method gives the state and result of `Engine.SaveModule` |
| `BundlerClass.Bundler.GetModule` | src/index.js:160-176 | a fresh module object holding the value `Engine.GetModule` returns, and its new state |
| `BundlerClass.Bundler.Bundle` | src/index.js:198-235 | the method gives the state and result of `Engine.Bundle` |
| `BundlerClass.Bundler.Clear` | src/index.js:242-253 | the unlink loop and the walk give the state and result of `Engine.Clear` |

## Left out

- `close_db` (src/index.js:130-133) is left out. Its timer drops the in-memory store three seconds after the last use. The model keeps a store once loaded, until `clear`.
- Console output is left out: `stdout` progress, colours, `readline`, `string_format` and the percentage (src/index.js:203-225, 238-239).
- The emitter mechanics are left out.
  - `file_updated` and `before_write` are awaited in the source.
  - `bundle` is not awaited (src/index.js:217). The model applies its listener to each entry before the join.
  - The `file_updated` listener is modelled as replacing the content and the dependency list; it cannot change anything else.
- JSON is left out. The store file holds the store value itself, not its text, and a text file in its place reads as a serialisation error.
- Store key order is insertion order. Integer-like keys, which JavaScript would list first, are not modelled.
- `Date` and `toISOString` are left out. mtimes are integers in milliseconds.
- Promise-returning constructors, `async`, concurrency and the `require.main` demo block are left out.
- Paths are concatenated, not normalised. `.`, `..` and repeated separators in specifiers or keys are not collapsed as `path.join` and `path.resolve` would collapse them.
  - Every relative key keeps its leading `./`. The source turns `./a` found as `a.js` into key `a.js` (src/module.js:74, 44); the model gives `./a.js`, and `ResolverProperties.RemoteKeyOfCandidate` states that model key.
  - As a consequence, resolution in the model never yields the bare key `db.json`. In the source, `get_module("./db.json")` from an include root gets key `db.json`, and the store write (src/index.js:194) overwrites its cached body. A second, fresh `get_module` then returns the store's JSON text (src/index.js:171). `EngineProperties.CachePathIsNotStorePath`, `SaveModuleEffect`, `SaveModuleBody`, `ClearSucceedsIff` and `SecondGetModuleServesCache` treat the key `db.json` as a separate case, which only keys not produced by resolution reach in the model.
- The store file holds a structured value, so the model's `ReadText` fails on it, where `fs.readFile` on `db.json` returns its JSON text.
- The model's `WriteFile` does not fail on a missing parent directory. In the source, every write is preceded by `ensure_dir` of that parent.
- The constructor's `assert`s on field types are left out. Dafny's types enforce them.
- `packages.concat()`, the copy of each allow-list, is left out. Values are not shared in the model.
- The `dependencies` array the hook sets is shared with the store record in the source. Values are not shared in the model.
- The model has no `readdir` order. `EmptyDirs.RemoveEmptyDirs` visits entries in an arbitrary order, so its result is proved for every order.
- `BundlerClass.Bundler.Clear` requires a well-formed filesystem: every ancestor of an entry is a directory and paths are canonical. A real filesystem always is; the model's writes alone do not keep it so.
- `BundlerClass.Bundler.SaveModule` requires the module's content and mtime to be loaded. `save_module` on a module that was never loaded, a `TypeError` in the source, is not modelled; `get_module` always loads both first.
- `EngineProperties.SecondGetModuleServesCache` assumes the first call's writes did not change how the specifier resolves or its mtime. It also assumes the key is not `db.json`, whose body the store file overwrites.

## Findings

| source | as written | input that shows it | evidently intended | confidence | as-written member | corrected member |
|---|---|---|---|---|---|---|
| src/index.js:154 | the dependency loop of `is_updated` calls `this.resolve_path(dep)`, which `JeefoBundler` does not define | `is_updated` on a module whose record has its mtime and whose `dependencies` is `["./a"]`: it throws `TypeError` | resolve each dependency as `create_module` does, load its stat, and recurse | not executed; only a direct caller can reach it, since `get_module` passes modules with no dependencies | `EngineProperties.ResolvePathMissing` | `EngineProperties.DependenciesStaleIff` |
