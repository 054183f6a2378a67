/**
 * `JeefoBundler` (src/index.js) as an object: the settings the constructor fixes, the
 * lazily loaded store `db`, and the filesystem the operations change in place. Each
 * method leaves the object in the state, and returns the outcome, that the matching
 * function of the engine specifies; the ghost `log` records hook calls and writes.
 */
module BundlerClass {
  import opened Wrappers
  import opened Paths
  import opened Store
  import opened FileSystem
  import opened Resolver
  import opened Config
  import opened EmptyDirs
  import opened Engine
  import opened EngineProperties

  /** What `is_updated` reads of a module object. */
  ghost function Snapshot(m: BundlerModule): ModuleState
    reads m
  {
    ModuleState(m.path.remoteFilepath, m.mtime, m.dependencies)
  }

  /** The module object carries exactly the value `v`: loaded mtime and content, dependency list. */
  ghost predicate Holds(m: BundlerModule, v: ModuleValue)
    reads m
  {
    m.path == v.path && m.mtime == Some(v.mtime) && m.content == Some(v.content) && m.dependencies == v.dependencies
  }

  /** The loop of `bundle`: each cached body in turn through the listener, pushed in order. */
  method ReadBodies(fs: FS, s: Settings, jsPaths: seq<Path>, onEntry: (Path, string) -> string)
    returns (r: Result<seq<string>, Error>)
    ensures r == ReadEntries(fs, s, jsPaths, onEntry)
  {
    var contents: seq<string> := [];
    assert jsPaths[0..] == jsPaths;
    PrependEmpty(ReadEntries(fs, s, jsPaths, onEntry));
    for i := 0 to |jsPaths|
      invariant ReadEntries(fs, s, jsPaths, onEntry) == Prepend(contents, ReadEntries(fs, s, jsPaths[i..], onEntry))
    {
      assert jsPaths[i..][0] == jsPaths[i] && jsPaths[i..][1..] == jsPaths[i + 1..];
      var body := ReadText(fs, CachePath(s, jsPaths[i]));
      if body.Failure? {
        return Failure(body.error);
      }
      var entry := onEntry(jsPaths[i], body.value);
      PrependTwice(contents, [entry], ReadEntries(fs, s, jsPaths[i + 1..], onEntry));
      contents := contents + [entry];
    }
    assert jsPaths[|jsPaths|..] == [] && contents + [] == contents;
    return Success(contents);
  }

  class Bundler {
    const settings: Settings
    var db: Option<Db>
    var fs: FS
    ghost var log: seq<Event>

    ghost function State(): EngineState
      reads this
    {
      EngineState(db, fs, log)
    }

    /** Nothing loaded yet, nothing logged. */
    constructor (settings: Settings, fs: FS)
      ensures this.settings == settings && State() == EngineState(None, fs, [])
    {
      this.settings := settings;
      db := None;
      this.fs := fs;
      log := [];
    }

    /**
     * `new JeefoBundler(config)`: validate and expand the configuration, or reject it. The new
     * object holds the settings `Config.Configure` computes.
     */
    static method Create(config: BundlerConfig, env: Env, fs: FS) returns (r: Result<Bundler, ConfigError>)
      ensures r.Failure? <==> IncludeDirs(config.includeDirs.GetOr([]), env, fs).Failure?
      ensures r.Failure? ==> r.error == IncludeDirs(config.includeDirs.GetOr([]), env, fs).error
      ensures r.Success? ==> fresh(r.value) && r.value.State() == EngineState(None, fs, [])
      ensures r.Success? ==>
        var st := r.value.settings;
        var cacheDir := ResolveAgainst(env.cwd, config.cacheDir);
        var nodeModules := config.nodeModules.GetOr([]);
        && st.name == config.name
        && st.cacheDir == cacheDir
        && st.dbPath == cacheDir + "/" + DbFileName
        && st.outputDir == ExpandDir(config.outputDir, env)
        && st.includeDirectories == IncludeDirs(config.includeDirs.GetOr([]), env, fs).value
        && |st.nodeModules| == |nodeModules|
        && (forall i :: 0 <= i < |nodeModules| ==>
              st.nodeModules[i] == PackageRoot(ExpandDir(nodeModules[i].rootDir, env), nodeModules[i].packages))
        && st.win32 == env.win32
      ensures r.Success? && env.cwd != "" ==> ValidSettings(r.value.settings)
    {
      var configured := Configure(config, env, fs);
      if configured.Failure? {
        return Failure(configured.error);
      }
      var b := new Bundler(configured.value, fs);
      return Success(b);
    }

    /** `load_db`. */
    method LoadDb() returns (r: Result<Db, Error>)
      modifies this
      ensures Step(State(), r) == Engine.LoadDb(settings, old(State()))
    {
      if db.None? {
        if IsFile(fs, settings.dbPath) {
          match fs.files[settings.dbPath].data
          case Json(d) =>
            db := Some(d);
          case Text(_) =>
            return Failure(SerializationError(settings.dbPath));
        } else {
          db := Some(Empty);
        }
      }
      return Success(db.value);
    }

    /** `create_module`: a fresh module object, nothing loaded into it yet. */
    method CreateModule(spec: string) returns (r: Result<BundlerModule, Error>)
      ensures match Engine.CreateModule(settings, fs, spec)
              case Success(p) => r.Success? && fresh(r.value) && Unloaded(r.value, p)
              case Failure(e) => r == Failure(e)
    {
      if |spec| > 0 && spec[0] == '.' {
        r := FromRemoteFilepath(spec, settings.includeDirectories, fs, settings.win32);
      } else {
        r := FromNodeModule(spec, settings.nodeModules, fs, settings.win32);
      }
    }

    /** `is_updated`: the loop over the module's dependencies recurses into each one. */
    method IsUpdated(m: BundlerModule) returns (r: Result<bool, Error>)
      modifies this
      ensures Step(State(), r) == Engine.IsUpdated(settings, old(State()), Snapshot(m))
      decreases |m.dependencies|
    {
      var loaded := LoadDb();
      if loaded.Failure? {
        return Failure(loaded.error);
      }
      var db := loaded.value;
      var key := m.path.remoteFilepath;
      if key !in db.records {
        return Success(true);
      }
      if m.mtime.None? {
        return Failure(TypeError(MtimeUndefined));
      }
      if m.mtime.value != db.records[key].mtime {
        return Success(true);
      }
      ghost var here := State();
      var deps := m.dependencies;
      for i := 0 to |deps|
        invariant State() == here && this.db == Some(db)
        invariant DependenciesStaleness(db, settings, fs, deps) == DependenciesStaleness(db, settings, fs, deps[i..])
      {
        assert deps[i..][0] == deps[i] && deps[i..][1..] == deps[i + 1..];
        var dep := CreateModule(deps[i]);
        if dep.Failure? {
          return Failure(dep.error);
        }
        var err := dep.value.LoadStat(fs);
        if err.Some? {
          return Failure(err.value);
        }
        assert Snapshot(dep.value) == DependencyState(settings, fs, deps[i]).value;
        var stale := IsUpdated(dep.value);
        if stale.Failure? {
          return Failure(stale.error);
        }
        if stale.value {
          return Success(true);
        }
      }
      assert deps[|deps|..] == [];
      return Success(false);
    }

    /** `save_module`: for a module whose content and mtime have been loaded. */
    method SaveModule(m: BundlerModule, now: int) returns (r: Result<(), Error>)
      requires m.content.Some? && m.mtime.Some?
      modifies this
      ensures Step(State(), r) ==
              Engine.SaveModule(settings, old(State()), m.path.remoteFilepath, m.content.value,
                                m.mtime.value, m.dependencies, now)
    {
      var key := m.path.remoteFilepath;
      var filepath := CachePath(settings, key);
      var made := EnsureDir(fs, Dirname(filepath));
      if made.Failure? {
        return Failure(made.error);
      }
      fs := made.value;
      var written := WriteFile(fs, filepath, Text(m.content.value), now);
      if written.Failure? {
        return Failure(written.error);
      }
      fs := written.value;
      log := log + [Wrote(filepath)];
      var loaded := LoadDb();
      if loaded.Failure? {
        return Failure(loaded.error);
      }
      var updated := Put(loaded.value, key, RecordFor(m.mtime.value, m.dependencies));
      db := Some(updated);
      var saved := WriteFile(fs, settings.dbPath, Json(updated), now);
      if saved.Failure? {
        return Failure(saved.error);
      }
      fs := saved.value;
      log := log + [Wrote(settings.dbPath)];
      return Success(());
    }

    /** `get_module`: the `file_updated` listener may replace the module's content and dependencies. */
    method GetModule(spec: string, fileUpdated: ModuleValue -> HookUpdate, now: int)
      returns (r: Result<BundlerModule, Error>)
      modifies this
      ensures var g := Engine.GetModule(settings, old(State()), spec, fileUpdated, now);
              && State() == g.state
              && (r.Success? <==> g.out.Success?)
              && (r.Success? ==> fresh(r.value) && Holds(r.value, g.out.value))
              && (r.Failure? ==> r.error == g.out.error)
    {
      var created := CreateModule(spec);
      if created.Failure? {
        return Failure(created.error);
      }
      var m := created.value;
      var err := m.LoadStat(fs);
      if err.Some? {
        return Failure(err.value);
      }
      var stale := IsUpdated(m);
      if stale.Failure? {
        return Failure(stale.error);
      }
      if stale.value {
        err := m.LoadContent(fs);
        if err.Some? {
          return Failure(err.value);
        }
        var u := fileUpdated(ModuleValue(m.path, m.mtime.value, m.content.value, m.dependencies));
        log := log + [FileUpdated(m.path.remoteFilepath)];
        m.content := Some(u.content);
        m.dependencies := u.dependencies;
        var saved := SaveModule(m, now);
        if saved.Failure? {
          return Failure(saved.error);
        }
      } else {
        var cached := ReadText(fs, CachePath(settings, m.path.remoteFilepath));
        if cached.Failure? {
          return Failure(cached.error);
        }
        m.content := Some(cached.value);
      }
      return Success(m);
    }

    /** `bundle`: the `bundle` listener sees each cached body, `before_write` the joined result. */
    method Bundle(onEntry: (Path, string) -> string, beforeWrite: string -> string, now: int)
      returns (r: Result<(), Error>)
      modifies this
      ensures Step(State(), r) == Engine.Bundle(settings, old(State()), onEntry, beforeWrite, now)
    {
      var loaded := LoadDb();
      if loaded.Failure? {
        return Failure(loaded.error);
      }
      var jsPaths := JsKeys(loaded.value.keys);
      var read := ReadBodies(fs, settings, jsPaths, onEntry);
      if read.Failure? {
        return Failure(read.error);
      }
      var contents := read.value;
      var content := beforeWrite(JoinWith(contents, BundleSeparator));
      var made := EnsureDir(fs, settings.outputDir);
      if made.Failure? {
        return Failure(made.error);
      }
      fs := made.value;
      var written := WriteFile(fs, OutputPath(settings), Text(content), now);
      if written.Failure? {
        return Failure(written.error);
      }
      fs := written.value;
      log := log + [Wrote(OutputPath(settings))];
      return Success(());
    }

    /** `clear`: unlink each cached body and the store, prune empty directories, drop the store. */
    method Clear() returns (r: Result<(), Error>)
      requires ValidSettings(settings) && WellFormed(fs)
      modifies this
      ensures Step(State(), r) == Engine.Clear(settings, old(State()))
    {
      if !Exists(fs, settings.cacheDir) {
        return Success(());
      }
      var loaded := LoadDb();
      if loaded.Failure? {
        return Failure(loaded.error);
      }
      var paths := loaded.value.keys;
      ghost var start := fs;
      assert paths[0..] == paths;
      for i := 0 to |paths|
        invariant UnlinkKeys(start, settings, paths) == UnlinkKeys(fs, settings, paths[i..])
        invariant WellFormed(fs) && db == Some(loaded.value) && log == old(log)
      {
        assert paths[i..][0] == paths[i] && paths[i..][1..] == paths[i + 1..];
        var filepath := CachePath(settings, paths[i]);
        var removed := Unlink(fs, filepath);
        if removed.Failure? {
          return Failure(removed.error);
        }
        UnlinkKeepsWellFormed(fs, filepath);
        fs := removed.value;
      }
      assert paths[|paths|..] == [];
      var removed := Unlink(fs, settings.dbPath);
      if removed.Failure? {
        return Failure(removed.error);
      }
      UnlinkKeepsWellFormed(fs, settings.dbPath);
      ParentIsDirectory(fs, settings.dbPath, settings.cacheDir);
      fs := removed.value;
      fs := RemoveEmptyDirs(fs, settings.cacheDir);
      db := None;
      return Success(());
    }
  }
}
