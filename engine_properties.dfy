/** What the cache engine of src/index.js guarantees, stated over the engine's functions. */
module EngineProperties {
  import opened Wrappers
  import opened Paths
  import opened Store
  import opened FileSystem
  import opened Resolver
  import opened ResolverProperties
  import opened Config
  import opened EmptyDirs
  import opened Engine

  // ---------------------------------------------------------------- load_db

  /** Loading touches neither files nor log, keeps what it returns, and a second load changes nothing. */
  lemma LoadDbLazy(s: Settings, st: EngineState)
    ensures var l := LoadDb(s, st);
            && l.state.fs == st.fs && l.state.log == st.log
            && (l.out.Success? ==> l.state.db == Some(l.out.value) && LoadDb(s, l.state) == l)
            && (l.out.Failure? ==> l.state == st)
            && (st.db.Some? ==> l == Step(st, Success(st.db.value)))
  {
  }

  /** With nothing loaded: the store file's map, an empty store when there is no such file, an error otherwise. */
  lemma LoadDbFromDisk(s: Settings, st: EngineState)
    requires st.db.None?
    ensures s.dbPath !in st.fs.files ==> LoadDb(s, st).out == Success(Empty)
    ensures s.dbPath in st.fs.files && st.fs.files[s.dbPath].data.Json? ==>
              LoadDb(s, st).out == Success(st.fs.files[s.dbPath].data.db)
    ensures s.dbPath in st.fs.files && st.fs.files[s.dbPath].data.Text? ==>
              LoadDb(s, st).out == Failure(SerializationError(s.dbPath))
  {
  }

  // ---------------------------------------------------------- create_module

  /**
   * A specifier starting with `.` resolves under an include directory, any other under
   * an eligible package root with the `node_modules/` lookup path; either way the module
   * is an existing file and its key is its path relative to the winning root.
   */
  lemma CreateModuleSound(s: Settings, fs: FS, spec: string)
    requires CreateModule(s, fs, spec).Success?
    ensures var p := CreateModule(s, fs, spec).value;
            && IsFile(fs, p.localFilepath)
            && p.remoteFilepath == NormalizeSeparators(Relative(p.rootDirectory, p.localFilepath), s.win32)
            && (|spec| > 0 && spec[0] == '.' ==>
                  p.rootDirectory in s.includeDirectories &&
                  p.localFilepath in Candidates(ResolveAgainst(p.rootDirectory, spec)))
            && (!(|spec| > 0 && spec[0] == '.') ==>
                  p.rootDirectory in EligibleRoots(s.nodeModules, LookupPaths(spec).1) &&
                  p.localFilepath in Candidates(ResolveAgainst(p.rootDirectory, LookupPaths(spec).0)))
  {
    if |spec| > 0 && spec[0] == '.' {
      LocateRemoteSound(fs, s.includeDirectories, spec);
    } else {
      var (filepath, pkgPath) := LookupPaths(spec);
      LocateRemoteSound(fs, EligibleRoots(s.nodeModules, pkgPath), filepath);
    }
  }

  /** An unresolvable specifier fails with code `ENOINT`, naming the path that was looked up. */
  lemma CreateModuleNotFound(s: Settings, fs: FS, spec: string)
    requires CreateModule(s, fs, spec).Failure?
    ensures |spec| > 0 && spec[0] == '.' ==> CreateModule(s, fs, spec).error == NotFoundError(spec)
    ensures !(|spec| > 0 && spec[0] == '.') ==> CreateModule(s, fs, spec).error == NotFoundError(LookupPaths(spec).0)
    ensures CreateModule(s, fs, spec).error.code == NotFoundCode
  {
  }

  // ------------------------------------------------------------- is_updated

  /** A declared dependency resolves and its stored record, if any, has the same mtime. */
  predicate DependencyFresh(db: Db, s: Settings, fs: FS, dep: string) {
    DependencyVerdict(db, s, fs, dep) == Success(false)
  }

  /** A declared dependency resolves and has no record, or one with another mtime. */
  predicate DependencyStale(db: Db, s: Settings, fs: FS, dep: string) {
    DependencyVerdict(db, s, fs, dep) == Success(true)
  }

  /** A resolved dependency, having no dependencies of its own, is judged by its record alone. */
  lemma DependencyJudgedByRecord(db: Db, s: Settings, fs: FS, dep: string)
    ensures var d := DependencyState(s, fs, dep);
            && (d.Failure? ==> DependencyVerdict(db, s, fs, dep) == Failure(d.error))
            && (d.Success? ==>
                  var key := d.value.key;
                  DependencyVerdict(db, s, fs, dep) == Success(key !in db.records || d.value.mtime.value != db.records[key].mtime))
  {
    var d := DependencyState(s, fs, dep);
    if d.Success? {
      assert d.value.dependencies == [] && DependenciesStaleness(db, s, fs, []) == Success(false);
    }
  }

  /**
   * A module whose own record still matches is judged by its dependency: touching only
   * the dependency's file (so its mtime no longer matches its record) makes the module stale.
   */
  lemma DependencyPropagation(db: Db, s: Settings, fs: FS, m: ModuleState, b: string)
    requires m.key in db.records && m.mtime == Some(db.records[m.key].mtime) && m.dependencies == [b]
    requires CreateModule(s, fs, b).Success? && IsFile(fs, CreateModule(s, fs, b).value.localFilepath)
    ensures var p := CreateModule(s, fs, b).value;
            var t := fs.files[p.localFilepath].mtime;
            Staleness(db, s, fs, m) == Success(p.remoteFilepath !in db.records || db.records[p.remoteFilepath].mtime != t)
  {
    DependencyJudgedByRecord(db, s, fs, b);
    assert m.dependencies[1..] == [];
  }

  /** One turn of the dependency loop: a stale dependency answers, a fresh one passes, anything else fails. */
  lemma DependenciesStep(db: Db, s: Settings, fs: FS, deps: seq<string>)
    requires deps != []
    ensures DependencyStale(db, s, fs, deps[0]) ==> DependenciesStaleness(db, s, fs, deps) == Success(true)
    ensures DependencyFresh(db, s, fs, deps[0]) ==>
              DependenciesStaleness(db, s, fs, deps) == DependenciesStaleness(db, s, fs, deps[1..])
    ensures !DependencyStale(db, s, fs, deps[0]) && !DependencyFresh(db, s, fs, deps[0]) ==>
              DependenciesStaleness(db, s, fs, deps).Failure?
  {
  }

  /** The dependency loop answers `false` exactly when every dependency resolves and is fresh. */
  lemma {:induction false} DependenciesFreshIff(db: Db, s: Settings, fs: FS, deps: seq<string>)
    ensures DependenciesStaleness(db, s, fs, deps) == Success(false) <==>
            forall i :: 0 <= i < |deps| ==> DependencyFresh(db, s, fs, deps[i])
  {
    if deps != [] {
      DependenciesStep(db, s, fs, deps);
      DependenciesFreshIff(db, s, fs, deps[1..]);
      assert forall i :: 0 < i < |deps| ==> deps[i] == deps[1..][i - 1];
    }
  }

  /** The dependency that made the loop answer `true`: stale, with every one before it fresh. */
  lemma FirstStaleDependency(db: Db, s: Settings, fs: FS, deps: seq<string>) returns (i: nat)
    requires DependenciesStaleness(db, s, fs, deps) == Success(true)
    ensures i < |deps| && DependencyStale(db, s, fs, deps[i])
    ensures forall j :: 0 <= j < i ==> DependencyFresh(db, s, fs, deps[j])
  {
    i := 0;
    assert deps[0..] == deps;
    while true
      invariant i < |deps| && DependenciesStaleness(db, s, fs, deps[i..]) == Success(true)
      invariant forall j :: 0 <= j < i ==> DependencyFresh(db, s, fs, deps[j])
      decreases |deps| - i
    {
      var rest := deps[i..];
      DependenciesStep(db, s, fs, rest);
      assert rest[0] == deps[i];
      if DependencyStale(db, s, fs, deps[i]) {
        return;
      }
      assert DependencyFresh(db, s, fs, deps[i]);
      assert rest[1..] == deps[i + 1..];
      i := i + 1;
    }
  }

  /** A stale dependency preceded only by fresh ones makes the loop answer `true`. */
  lemma {:induction false} StaleDependencyDecides(db: Db, s: Settings, fs: FS, deps: seq<string>, i: nat)
    requires i < |deps| && DependencyStale(db, s, fs, deps[i])
    requires forall j :: 0 <= j < i ==> DependencyFresh(db, s, fs, deps[j])
    ensures DependenciesStaleness(db, s, fs, deps) == Success(true)
  {
    DependenciesStep(db, s, fs, deps);
    if i > 0 {
      var tail := deps[1..];
      assert DependencyFresh(db, s, fs, deps[0]);
      assert tail[i - 1] == deps[i];
      forall j | 0 <= j < i - 1 ensures DependencyFresh(db, s, fs, tail[j]) {
        assert tail[j] == deps[j + 1];
      }
      StaleDependencyDecides(db, s, fs, tail, i - 1);
    }
  }

  /** The dependency loop answers `true` exactly when some dependency is stale and all before it are fresh. */
  lemma DependenciesStaleIff(db: Db, s: Settings, fs: FS, deps: seq<string>)
    ensures DependenciesStaleness(db, s, fs, deps) == Success(true) <==>
            exists i :: 0 <= i < |deps| && DependencyStale(db, s, fs, deps[i]) &&
                        forall j :: 0 <= j < i ==> DependencyFresh(db, s, fs, deps[j])
  {
    if DependenciesStaleness(db, s, fs, deps) == Success(true) {
      var i := FirstStaleDependency(db, s, fs, deps);
    }
    if exists i :: 0 <= i < |deps| && DependencyStale(db, s, fs, deps[i]) &&
                   forall j :: 0 <= j < i ==> DependencyFresh(db, s, fs, deps[j]) {
      var i :| 0 <= i < |deps| && DependencyStale(db, s, fs, deps[i]) &&
               forall j :: 0 <= j < i ==> DependencyFresh(db, s, fs, deps[j]);
      StaleDependencyDecides(db, s, fs, deps, i);
    }
  }

  /**
   * `is_updated` against a loaded store: stale when there is no record, when the mtime
   * differs from the recorded one in either direction (exact equality, not `<=`), or when
   * some dependency is stale; fresh exactly when none of these holds.
   */
  lemma IsUpdatedIff(s: Settings, st: EngineState, m: ModuleState, db: Db)
    requires LoadDb(s, st).out == Success(db) && m.mtime.Some?
    ensures IsUpdated(s, st, m).state == LoadDb(s, st).state
    ensures IsUpdated(s, st, m).out == Success(true) <==>
            || m.key !in db.records
            || m.mtime.value != db.records[m.key].mtime
            || exists i :: 0 <= i < |m.dependencies| && DependencyStale(db, s, st.fs, m.dependencies[i]) &&
                           forall j :: 0 <= j < i ==> DependencyFresh(db, s, st.fs, m.dependencies[j])
    ensures IsUpdated(s, st, m).out == Success(false) <==>
            && m.key in db.records
            && m.mtime.value == db.records[m.key].mtime
            && forall i :: 0 <= i < |m.dependencies| ==> DependencyFresh(db, s, st.fs, m.dependencies[i])
  {
    DependenciesStaleIff(db, s, st.fs, m.dependencies);
    DependenciesFreshIff(db, s, st.fs, m.dependencies);
  }

  /** A module whose mtime was never loaded cannot be compared once a record exists. */
  lemma IsUpdatedNeedsMtime(s: Settings, st: EngineState, m: ModuleState, db: Db)
    requires LoadDb(s, st).out == Success(db) && m.mtime.None? && m.key in db.records
    ensures IsUpdated(s, st, m).out.Failure? && IsUpdated(s, st, m).out.error.TypeError?
  {
  }

  /**
   * As written, a module that is unchanged but declares a dependency makes `is_updated`
   * throw; with no dependency the written and the resolved decision agree.
   */
  lemma ResolvePathMissing(db: Db, s: Settings, fs: FS, m: ModuleState)
    ensures m.key in db.records && m.mtime == Some(db.records[m.key].mtime) && m.dependencies != [] ==>
              StalenessAsWritten(db, m) == Failure(TypeError(ResolvePathUndefined)) &&
              Staleness(db, s, fs, m) != StalenessAsWritten(db, m)
    ensures m.dependencies == [] ==> StalenessAsWritten(db, m) == Staleness(db, s, fs, m)
  {
    DependenciesNeverMissResolvePath(db, s, fs, m.dependencies);
  }

  /** Resolving dependencies through `create_module` can fail to resolve or stat, never for a missing method. */
  lemma {:induction false} DependenciesNeverMissResolvePath(db: Db, s: Settings, fs: FS, deps: seq<string>)
    ensures DependenciesStaleness(db, s, fs, deps) != Failure(TypeError(ResolvePathUndefined))
  {
    if deps != [] {
      var d := DependencyState(s, fs, deps[0]);
      if d.Failure? {
        if CreateModule(s, fs, deps[0]).Failure? {
          assert d.error.NotFound?;
        } else {
          assert d.error.IoError?;
        }
      } else {
        DependenciesNeverMissResolvePath(db, s, fs, deps[1..]);
        assert Staleness(db, s, fs, d.value).Success?;
      }
    }
  }

  // ------------------------------------------------------------ save_module

  lemma CachePathIsNotStorePath(s: Settings, key: Path)
    requires ValidSettings(s) && key != DbFileName
    ensures CachePath(s, key) != s.dbPath
  {
    if CachePath(s, key) == s.dbPath {
      assert s.dbPath == Join(s.cacheDir, DbFileName);
      JoinInjective(s.cacheDir, key, DbFileName);
    }
  }

  /**
   * A successful save leaves the body at `cache_dir/key` and the store at `db_path`; the
   * store is the one loaded before with exactly one record set, the record holding
   * `dependencies` only when the list is non-empty; no other file changes.
   */
  lemma SaveModuleEffect(s: Settings, st: EngineState, key: Path, content: string, mtime: int,
                         deps: seq<string>, now: int)
    requires ValidSettings(s) && key != DbFileName
    requires SaveModule(s, st, key, content, mtime, deps, now).out.Success?
    ensures var st' := SaveModule(s, st, key, content, mtime, deps, now).state;
            var path := CachePath(s, key);
            && LoadDb(s, st).out.Success?
            && st'.db == Some(Put(LoadDb(s, st).out.value, key, RecordFor(mtime, deps)))
            && st'.db.value.records[key].mtime == mtime
            && (st'.db.value.records[key].dependencies.Some? <==> |deps| > 0)
            && st'.fs.files[path] == File(Text(content), now)
            && st'.fs.files[s.dbPath] == File(Json(st'.db.value), now)
            && (forall p :: p != path && p != s.dbPath ==>
                  (p in st'.fs.files <==> p in st.fs.files) &&
                  (p in st.fs.files ==> st'.fs.files[p] == st.fs.files[p]))
            && st'.fs.dirs == st.fs.dirs + DirChain(Dirname(path))
            && st'.log == st.log + [Wrote(path), Wrote(s.dbPath)]
  {
    CachePathIsNotStorePath(s, key);
    var path := CachePath(s, key);
    var fs1 := EnsureDir(st.fs, Dirname(path)).value;
    var fs2 := WriteFile(fs1, path, Text(content), now).value;
    assert (s.dbPath in fs2.files) == (s.dbPath in st.fs.files);
    assert s.dbPath in fs2.files ==> fs2.files[s.dbPath] == st.fs.files[s.dbPath];
    assert LoadDb(s, EngineState(st.db, fs2, st.log + [Wrote(path)])).out == LoadDb(s, st).out;
  }

  /** A successful save leaves the body at the module's cache path, unless the store file took that path. */
  lemma SaveModuleBody(s: Settings, st: EngineState, key: Path, content: string, mtime: int,
                       deps: seq<string>, now: int)
    requires ValidSettings(s) && key != DbFileName
    requires SaveModule(s, st, key, content, mtime, deps, now).out.Success?
    ensures SaveModule(s, st, key, content, mtime, deps, now).state.fs.files[CachePath(s, key)] == File(Text(content), now)
  {
    CachePathIsNotStorePath(s, key);
  }

  /** With the store already loaded, a save records the module and logs both writes, whatever the key. */
  lemma SaveModuleStore(s: Settings, st: EngineState, key: Path, content: string, mtime: int,
                        deps: seq<string>, now: int)
    requires st.db.Some?
    requires SaveModule(s, st, key, content, mtime, deps, now).out.Success?
    ensures var st' := SaveModule(s, st, key, content, mtime, deps, now).state;
            && st'.db == Some(Put(st.db.value, key, RecordFor(mtime, deps)))
            && st'.log == st.log + [Wrote(CachePath(s, key)), Wrote(s.dbPath)]
  {
  }

  /** After a save, the saved module with that mtime is no longer stale. */
  lemma FreshAfterSave(s: Settings, st: EngineState, key: Path, content: string, mtime: int,
                       deps: seq<string>, now: int)
    requires SaveModule(s, st, key, content, mtime, deps, now).out.Success?
    ensures var st' := SaveModule(s, st, key, content, mtime, deps, now).state;
            IsUpdated(s, st', ModuleState(key, Some(mtime), [])) == Step(st', Success(false))
  {
    var path := CachePath(s, key);
    var fs1 := EnsureDir(st.fs, Dirname(path)).value;
    var fs2 := WriteFile(fs1, path, Text(content), now).value;
    var loaded := LoadDb(s, EngineState(st.db, fs2, st.log + [Wrote(path)]));
    var db' := Put(loaded.out.value, key, RecordFor(mtime, deps));
    assert SaveModule(s, st, key, content, mtime, deps, now).state.db == Some(db');
    assert db'.records[key].mtime == mtime;
    var st' := SaveModule(s, st, key, content, mtime, deps, now).state;
    assert LoadDb(s, st') == Step(st', Success(db'));
    assert DependenciesStaleness(db', s, st'.fs, []) == Success(false);
    assert Staleness(db', s, st'.fs, ModuleState(key, Some(mtime), [])) == Success(false);
  }

  // ------------------------------------------------------------- get_module

  /** A fresh module is served from its cached body, and nothing is written or logged. */
  lemma GetModuleFresh(s: Settings, st: EngineState, spec: string, hook: ModuleValue -> HookUpdate,
                       now: int, p: ModulePath, mtime: int)
    requires CreateModule(s, st.fs, spec) == Success(p)
    requires Stat(st.fs, p.localFilepath) == Success(mtime)
    requires IsUpdated(s, st, ModuleState(p.remoteFilepath, Some(mtime), [])).out == Success(false)
    ensures var g := GetModule(s, st, spec, hook, now);
            var cached := ReadText(st.fs, CachePath(s, p.remoteFilepath));
            && g.state.fs == st.fs && g.state.log == st.log
            && (g.out.Success? <==> cached.Success?)
            && (g.out.Success? ==> g.out.value == ModuleValue(p, mtime, cached.value, []))
  {
    var l := LoadDb(s, st);
    LoadDbLazy(s, st);
  }

  /**
   * A stale module is read from its source, handed to `file_updated`, and then saved:
   * the log shows the hook before both writes, and the module returned is what the hook left.
   */
  lemma GetModuleStale(s: Settings, st: EngineState, spec: string, hook: ModuleValue -> HookUpdate,
                       now: int, p: ModulePath, mtime: int)
    requires ValidSettings(s)
    requires CreateModule(s, st.fs, spec) == Success(p)
    requires Stat(st.fs, p.localFilepath) == Success(mtime)
    requires IsUpdated(s, st, ModuleState(p.remoteFilepath, Some(mtime), [])).out == Success(true)
    requires GetModule(s, st, spec, hook, now).out.Success?
    ensures var g := GetModule(s, st, spec, hook, now);
            var key := p.remoteFilepath;
            var source := ReadText(st.fs, p.localFilepath);
            && source.Success?
            && var u := hook(ModuleValue(p, mtime, source.value, []));
               && g.out.value == ModuleValue(p, mtime, u.content, u.dependencies)
               && g.state.log == st.log + [FileUpdated(key), Wrote(CachePath(s, key)), Wrote(s.dbPath)]
               && g.state.db.Some? && g.state.db.value.records[key] == RecordFor(mtime, u.dependencies)
               && (key != DbFileName ==> g.state.fs.files[CachePath(s, key)] == File(Text(u.content), now))
  {
    var st1 := StaleIsRefresh(s, st, spec, hook, now, p, mtime);
    RefreshEffect(s, st1, p, mtime, hook, now);
  }

  /** When the check says stale, `get_module` is the refresh of the state the check left: the store loaded. */
  lemma StaleIsRefresh(s: Settings, st: EngineState, spec: string, hook: ModuleValue -> HookUpdate,
                       now: int, p: ModulePath, mtime: int) returns (st1: EngineState)
    requires CreateModule(s, st.fs, spec) == Success(p)
    requires Stat(st.fs, p.localFilepath) == Success(mtime)
    requires IsUpdated(s, st, ModuleState(p.remoteFilepath, Some(mtime), [])).out == Success(true)
    ensures st1.db.Some? && st1.fs == st.fs && st1.log == st.log
    ensures GetModule(s, st, spec, hook, now) == Refresh(s, st1, p, mtime, hook, now)
  {
    LoadDbLazy(s, st);
    st1 := LoadDb(s, st).state;
  }

  /** A successful refresh returns what the hook left, records it, and logs the hook before both writes. */
  lemma RefreshEffect(s: Settings, st: EngineState, p: ModulePath, mtime: int, hook: ModuleValue -> HookUpdate, now: int)
    requires ValidSettings(s) && st.db.Some?
    requires Refresh(s, st, p, mtime, hook, now).out.Success?
    ensures var g := Refresh(s, st, p, mtime, hook, now);
            var key := p.remoteFilepath;
            var source := ReadText(st.fs, p.localFilepath);
            && source.Success?
            && var u := hook(ModuleValue(p, mtime, source.value, []));
               && g.out.value == ModuleValue(p, mtime, u.content, u.dependencies)
               && g.state.log == st.log + [FileUpdated(key), Wrote(CachePath(s, key)), Wrote(s.dbPath)]
               && g.state.db.Some? && g.state.db.value.records[key] == RecordFor(mtime, u.dependencies)
               && (key != DbFileName ==> g.state.fs.files[CachePath(s, key)] == File(Text(u.content), now))
  {
    var key := p.remoteFilepath;
    var source := ReadText(st.fs, p.localFilepath);
    var u := hook(ModuleValue(p, mtime, source.value, []));
    var pre := st.(log := st.log + [FileUpdated(key)]);
    SaveModuleStore(s, pre, key, u.content, mtime, u.dependencies, now);
    assert pre.log + [Wrote(CachePath(s, key)), Wrote(s.dbPath)]
        == st.log + [FileUpdated(key), Wrote(CachePath(s, key)), Wrote(s.dbPath)];
    if key != DbFileName {
      SaveModuleBody(s, pre, key, u.content, mtime, u.dependencies, now);
    }
  }

  /** Whichever branch it took, a successful `get_module` leaves that module fresh. */
  lemma GetModuleLeavesModuleFresh(s: Settings, st: EngineState, spec: string, hook: ModuleValue -> HookUpdate, now: int)
    requires GetModule(s, st, spec, hook, now).out.Success?
    ensures var g := GetModule(s, st, spec, hook, now);
            var v := g.out.value;
            IsUpdated(s, g.state, ModuleState(v.path.remoteFilepath, Some(v.mtime), [])) == Step(g.state, Success(false))
  {
    var p := CreateModule(s, st.fs, spec).value;
    var mtime := Stat(st.fs, p.localFilepath).value;
    var m := ModuleState(p.remoteFilepath, Some(mtime), []);
    LoadDbLazy(s, st);
    if IsUpdated(s, st, m).out == Success(true) {
      var st1 := LoadDb(s, st).state;
      var source := ReadText(st1.fs, p.localFilepath);
      var u := hook(ModuleValue(p, mtime, source.value, []));
      FreshAfterSave(s, st1.(log := st1.log + [FileUpdated(p.remoteFilepath)]),
                     p.remoteFilepath, u.content, mtime, u.dependencies, now);
    }
  }

  /**
   * Asking again for the same module, when the writes of the first call did not change
   * how it resolves or its mtime, serves the body the first call left, without any write.
   */
  lemma SecondGetModuleServesCache(s: Settings, st: EngineState, spec: string, hook: ModuleValue -> HookUpdate,
                                   hook2: ModuleValue -> HookUpdate, now: int, now2: int)
    requires ValidSettings(s)
    requires GetModule(s, st, spec, hook, now).out.Success?
    requires var g := GetModule(s, st, spec, hook, now);
             && CreateModule(s, g.state.fs, spec) == CreateModule(s, st.fs, spec)
             && Stat(g.state.fs, g.out.value.path.localFilepath) == Stat(st.fs, g.out.value.path.localFilepath)
             && g.out.value.path.remoteFilepath != DbFileName
    ensures var g := GetModule(s, st, spec, hook, now);
            var v := g.out.value;
            GetModule(s, g.state, spec, hook2, now2) == Step(g.state, Success(ModuleValue(v.path, v.mtime, v.content, [])))
  {
    var p := CreateModule(s, st.fs, spec).value;
    var mtime := Stat(st.fs, p.localFilepath).value;
    var m := ModuleState(p.remoteFilepath, Some(mtime), []);
    GetModuleLeavesModuleFresh(s, st, spec, hook, now);
    LoadDbLazy(s, st);
    if IsUpdated(s, st, m).out == Success(true) {
      GetModuleStale(s, st, spec, hook, now, p, mtime);
    } else {
      GetModuleFresh(s, st, spec, hook, now, p, mtime);
    }
  }

  // ----------------------------------------------------------------- bundle

  /** Exactly the keys ending in `.js` are bundled. */
  lemma {:induction false} JsKeysMembers(keys: seq<Path>, x: Path)
    ensures x in JsKeys(keys) <==> x in keys && EndsWith(x, ".js")
  {
    if keys != [] {
      JsKeysMembers(keys[1..], x);
      assert keys == [keys[0]] + keys[1..];
    }
  }

  /** Filtering keeps store order: the keys of a prefix come before those of the rest. */
  lemma {:induction false} JsKeysAppend(a: seq<Path>, b: seq<Path>)
    ensures JsKeys(a + b) == JsKeys(a) + JsKeys(b)
  {
    if a != [] {
      assert (a + b)[0] == a[0];
      assert (a + b)[1..] == a[1..] + b;
      JsKeysAppend(a[1..], b);
    } else {
      assert a + b == b;
    }
  }

  /** The entries are the bodies of the given keys, in order, each through the listener; any unreadable body fails. */
  lemma {:induction false} ReadEntriesContents(fs: FS, s: Settings, keys: seq<Path>, onEntry: (Path, string) -> string)
    ensures ReadEntries(fs, s, keys, onEntry).Success? <==>
            forall i :: 0 <= i < |keys| ==> ReadText(fs, CachePath(s, keys[i])).Success?
    ensures ReadEntries(fs, s, keys, onEntry).Success? ==>
            var r := ReadEntries(fs, s, keys, onEntry).value;
            |r| == |keys| &&
            forall i :: 0 <= i < |keys| ==> r[i] == onEntry(keys[i], ReadText(fs, CachePath(s, keys[i])).value)
  {
    if keys != [] {
      ReadEntriesContents(fs, s, keys[1..], onEntry);
      assert forall i :: 0 < i < |keys| ==> keys[i] == keys[1..][i - 1];
    }
  }

  /** `join` puts the separator between neighbours only. */
  lemma {:induction false} JoinWithAppend(parts: seq<string>, p: string, sep: string)
    requires parts != []
    ensures JoinWith(parts + [p], sep) == JoinWith(parts, sep) + sep + p
  {
    if |parts| == 1 {
      assert (parts + [p])[1..] == [p];
    } else {
      assert (parts + [p])[1..] == parts[1..] + [p];
      JoinWithAppend(parts[1..], p, sep);
    }
  }

  /**
   * A successful bundle writes `output_dir/name` with `before_write` applied to the joined
   * entries of the store's `.js` keys; the store, the other files and the cache are unchanged.
   */
  lemma BundleEffect(s: Settings, st: EngineState, onEntry: (Path, string) -> string,
                     beforeWrite: string -> string, now: int)
    requires Bundle(s, st, onEntry, beforeWrite, now).out.Success?
    ensures var b := Bundle(s, st, onEntry, beforeWrite, now).state;
            var loaded := LoadDb(s, st);
            var entries := ReadEntries(st.fs, s, JsKeys(loaded.out.value.keys), onEntry);
            && loaded.out.Success? && entries.Success?
            && b.fs.files == st.fs.files[OutputPath(s) := File(Text(beforeWrite(JoinWith(entries.value, BundleSeparator))), now)]
    ensures var b := Bundle(s, st, onEntry, beforeWrite, now).state;
            && b.fs.dirs == st.fs.dirs + DirChain(s.outputDir)
            && b.db == LoadDb(s, st).state.db
            && b.log == st.log + [Wrote(OutputPath(s))]
  {
    LoadDbLazy(s, st);
  }

  /** `bundle` succeeds when the store loads, every body reads, and the output location is free. */
  lemma BundleSucceeds(s: Settings, st: EngineState, onEntry: (Path, string) -> string,
                       beforeWrite: string -> string, now: int, entries: seq<string>)
    requires LoadDb(s, st).out.Success?
    requires ReadEntries(st.fs, s, JsKeys(LoadDb(s, st).out.value.keys), onEntry) == Success(entries)
    requires EnsureDir(st.fs, s.outputDir).Success?
    requires OutputPath(s) !in st.fs.dirs + DirChain(s.outputDir)
    ensures var b := Bundle(s, st, onEntry, beforeWrite, now);
            && b.out.Success?
            && b.state.fs.files == st.fs.files[OutputPath(s) := File(Text(beforeWrite(JoinWith(entries, BundleSeparator))), now)]
  {
    LoadDbLazy(s, st);
  }

  function KeepBody(key: Path, body: string): string { body }

  function KeepContent(content: string): string { content }

  function ExampleSettings(): Settings {
    Settings("app.js", "/c", "/c/db.json", "/out", [], [], false)
  }

  function ExampleStore(): Db {
    var m := OrderedMap(["a.js", "b.json", "c.js"],
                        map["a.js" := Record(1, None), "b.json" := Record(2, None), "c.js" := Record(3, None)]);
    assert m.Valid();
    m
  }

  function ExampleFs(): FS {
    FS(map["/c/a.js" := File(Text("1"), 1), "/c/b.json" := File(Text("x"), 2),
           "/c/c.js" := File(Text("2"), 3), "/c/db.json" := File(Json(ExampleStore()), 4)], {"/c"})
  }

  /** The `.js` keys of the example store, in store order. */
  lemma ExampleJsKeys()
    ensures JsKeys(ExampleStore().keys) == ["a.js", "c.js"]
  {
    var keys := ExampleStore().keys;
    assert EndsWith("a.js", ".js") && !EndsWith("b.json", ".js") && EndsWith("c.js", ".js");
    assert keys[1..] == ["b.json", "c.js"] && keys[1..][1..] == ["c.js"] && keys[1..][1..][1..] == [];
  }

  /** The entries the example bundles: the bodies of `a.js` and `c.js`. */
  lemma ExampleEntries()
    ensures ReadEntries(ExampleFs(), ExampleSettings(), ["a.js", "c.js"], KeepBody) == Success(["1", "2"])
  {
    var s := ExampleSettings();
    var fs := ExampleFs();
    assert CachePath(s, "a.js") == "/c/a.js" && CachePath(s, "c.js") == "/c/c.js";
    assert ["a.js", "c.js"][1..] == ["c.js"] && ["c.js"][1..] == [];
    assert ReadText(fs, "/c/c.js") == Success("2") && ReadText(fs, "/c/a.js") == Success("1");
    assert ReadEntries(fs, s, [], KeepBody) == Success([]);
    var one := ReadEntries(fs, s, ["c.js"], KeepBody);
    assert one.Success? && one.value == ["2"];
    var two := ReadEntries(fs, s, ["a.js", "c.js"], KeepBody);
    assert two.Success? && two.value == ["1"] + ["2"];
    assert ["1"] + ["2"] == ["1", "2"];
  }

  /** The example's store is read from its store file. */
  lemma ExampleLoads()
    ensures LoadDb(ExampleSettings(), EngineState(None, ExampleFs(), [])).out == Success(ExampleStore())
  {
    assert IsFile(ExampleFs(), "/c/db.json");
  }

  /** The example's output directory can be created: it is a single new directory. */
  lemma ExampleOutputDir()
    ensures DirChain("/out") == {"/out"} && EnsureDir(ExampleFs(), "/out").Success?
  {
    var p: Path := "/out";
    forall q | q in DirChain(p) ensures q == p {
      var i :| 0 < i <= |p| && (i == |p| || p[i] == '/') && q == p[..i];
      assert i == |p|;
    }
    assert p[..|p|] == p && p in DirChain(p);
    assert p !in ExampleFs().files;
  }

  /** The cached bodies of the `.js` keys, in store order, one blank line apart; other keys are skipped. */
  lemma BundleExample()
    ensures var b := Bundle(ExampleSettings(), EngineState(None, ExampleFs(), []), KeepBody, KeepContent, 5);
            b.out.Success? && "/out/app.js" in b.state.fs.files &&
            b.state.fs.files["/out/app.js"] == File(Text("1\n\n2"), 5)
  {
    var s := ExampleSettings();
    var fs := ExampleFs();
    var st := EngineState(None, fs, []);
    ExampleLoads();
    ExampleJsKeys();
    ExampleEntries();
    ExampleOutputDir();
    assert OutputPath(s) == "/out/app.js" && DirChain(s.outputDir) == {"/out"};
    BundleSucceeds(s, st, KeepBody, KeepContent, 5, ["1", "2"]);
    assert JoinWith(["1", "2"], BundleSeparator) == "1\n\n2";
  }

  // ------------------------------------------------------------------ clear

  function CachePaths(s: Settings, keys: seq<Path>): set<Path> {
    set k | k in keys :: CachePath(s, k)
  }

  /** The unlink loop only removes cached bodies; when it completes, it removed exactly those of `keys`. */
  lemma {:induction false} UnlinkKeysEffect(fs: FS, s: Settings, keys: seq<Path>)
    decreases |keys|
    ensures var u := UnlinkKeys(fs, s, keys);
            && u.fs.dirs == fs.dirs
            && u.fs.files.Keys <= fs.files.Keys
            && (forall p :: p in u.fs.files ==> u.fs.files[p] == fs.files[p])
            && (u.err.None? ==> u.fs.files.Keys == fs.files.Keys - CachePaths(s, keys))
            && (u.err.None? ==> forall i :: 0 <= i < |keys| ==> CachePath(s, keys[i]) in fs.files)
  {
    if keys != [] {
      match Unlink(fs, CachePath(s, keys[0]))
      case Failure(_) =>
      case Success(fs1) =>
        UnlinkKeysEffect(fs1, s, keys[1..]);
        assert CachePaths(s, keys) == {CachePath(s, keys[0])} + CachePaths(s, keys[1..]) by {
          assert forall k :: k in keys <==> k == keys[0] || k in keys[1..];
        }
        if UnlinkKeys(fs1, s, keys[1..]).err.None? {
          forall i | 0 < i < |keys| ensures CachePath(s, keys[i]) in fs.files {
            assert keys[i] == keys[1..][i - 1];
          }
        }
    }
  }

  /** With distinct keys whose bodies all exist, the unlink loop completes. */
  lemma {:induction false} UnlinkKeysCompletes(fs: FS, s: Settings, keys: seq<Path>)
    requires forall i, j :: 0 <= i < j < |keys| ==> keys[i] != keys[j]
    requires forall i :: 0 <= i < |keys| ==> CachePath(s, keys[i]) in fs.files
    ensures UnlinkKeys(fs, s, keys).err.None?
    decreases |keys|
  {
    if keys != [] {
      var fs1 := Unlink(fs, CachePath(s, keys[0])).value;
      forall i | 0 <= i < |keys[1..]| ensures CachePath(s, keys[1..][i]) in fs1.files {
        assert keys[1..][i] == keys[i + 1];
        if CachePath(s, keys[i + 1]) == CachePath(s, keys[0]) {
          JoinInjective(s.cacheDir, keys[i + 1], keys[0]);
        }
      }
      UnlinkKeysCompletes(fs1, s, keys[1..]);
    }
  }

  /** `clear` on an absent cache dir changes nothing. */
  lemma ClearWithoutCacheDir(s: Settings, st: EngineState)
    requires !Exists(st.fs, s.cacheDir)
    ensures Clear(s, st) == Step(st, Success(()))
  {
  }

  /**
   * A successful `clear` removes every cached body and the store file and no other file,
   * drops the store from memory, and prunes exactly the directories at or below the cache
   * dir that are left with no file below them.
   */
  lemma ClearEffect(s: Settings, st: EngineState)
    requires Exists(st.fs, s.cacheDir) && Clear(s, st).out.Success?
    ensures var c := Clear(s, st).state;
            && LoadDb(s, st).out.Success?
            && c.db == None && c.log == st.log
            && c.fs.files.Keys == st.fs.files.Keys - CachePaths(s, LoadDb(s, st).out.value.keys) - {s.dbPath}
            && (forall p :: p in c.fs.files ==> c.fs.files[p] == st.fs.files[p])
            && (forall x :: x in c.fs.dirs <==>
                  x in st.fs.dirs && !((x == s.cacheDir || Under(x, s.cacheDir)) && NoFileBelow(c.fs.files, x)))
  {
    LoadDbLazy(s, st);
    var st1 := LoadDb(s, st).state;
    UnlinkKeysEffect(st1.fs, s, LoadDb(s, st).out.value.keys);
  }

  /**
   * Once the store has loaded, `clear` succeeds exactly when every key's body and the
   * store file exist and no key is the store's own file name (that file would be
   * unlinked twice).
   */
  lemma ClearSucceedsIff(s: Settings, st: EngineState)
    requires ValidSettings(s) && Exists(st.fs, s.cacheDir) && LoadDb(s, st).out.Success?
    ensures var keys := LoadDb(s, st).out.value.keys;
            Clear(s, st).out.Success? <==>
              && (forall i :: 0 <= i < |keys| ==> CachePath(s, keys[i]) in st.fs.files)
              && s.dbPath in st.fs.files
              && DbFileName !in keys
  {
    LoadDbLazy(s, st);
    var st1 := LoadDb(s, st).state;
    var keys := LoadDb(s, st).out.value.keys;
    UnlinkKeysEffect(st1.fs, s, keys);
    assert s.dbPath == CachePath(s, DbFileName);
    if (forall i :: 0 <= i < |keys| ==> CachePath(s, keys[i]) in st.fs.files) {
      UnlinkKeysCompletes(st1.fs, s, keys);
    }
    if DbFileName in keys {
      assert s.dbPath in CachePaths(s, keys);
    } else {
      if s.dbPath in CachePaths(s, keys) {
        var k :| k in keys && CachePath(s, k) == s.dbPath;
        JoinInjective(s.cacheDir, k, DbFileName);
      }
    }
  }
}
