/**
 * The cache engine of src/index.js, as functions from one engine state to the next.
 * The state is the in-memory store (`this.db`, absent until first loaded and again
 * after `clear`), the filesystem, and the ordered log of hook calls and writes.
 * Every operation returns the state it leaves behind even when it fails part-way,
 * because nothing is rolled back.
 */
module Engine {
  import opened Wrappers
  import opened Paths
  import opened Store
  import opened FileSystem
  import opened Resolver
  import opened Config
  import opened EmptyDirs

  /** What an observer sees, in order: `file_updated` calls and file writes. */
  datatype Event = FileUpdated(key: Path) | Wrote(path: Path)

  datatype EngineState = EngineState(db: Option<Db>, fs: FS, log: seq<Event>)

  /** The state an operation leaves and what it returns. */
  datatype Step<T> = Step(state: EngineState, out: Result<T, Error>)

  /** A module as `get_module` hands it back. */
  datatype ModuleValue = ModuleValue(path: ModulePath, mtime: int, content: string, dependencies: seq<string>)

  /** What a `file_updated` listener leaves on the module it was given. */
  datatype HookUpdate = HookUpdate(content: string, dependencies: seq<string>)

  /** What `is_updated` reads of a module: its cache key, its loaded mtime, its dependency list. */
  datatype ModuleState = ModuleState(key: Path, mtime: Option<int>, dependencies: seq<string>)

  /** The settings the constructor produces always put the store inside a non-empty cache dir. */
  predicate ValidSettings(s: Settings) {
    s.cacheDir != "" && s.dbPath == s.cacheDir + "/" + DbFileName
  }

  /** `load_db`: only when nothing is loaded; a missing store file gives an empty store. */
  function LoadDb(s: Settings, st: EngineState): Step<Db> {
    if st.db.Some? then Step(st, Success(st.db.value))
    else if IsFile(st.fs, s.dbPath) then
      match st.fs.files[s.dbPath].data
      case Json(d) => Step(st.(db := Some(d)), Success(d))
      case Text(_) => Step(st, Failure(SerializationError(s.dbPath)))
    else Step(st.(db := Some(Empty)), Success(Empty))
  }

  /** `create_module`: a leading `.` selects the include directories, anything else `node_modules`. */
  function CreateModule(s: Settings, fs: FS, spec: string): Result<ModulePath, Error> {
    var located := if |spec| > 0 && spec[0] == '.'
                   then LocateRemote(fs, s.includeDirectories, spec)
                   else LocateNodeModule(fs, s.nodeModules, spec);
    match located
    case Success(h) => Success(MakeModulePath(h.file, h.root, s.win32))
    case Failure(e) => Failure(e)
  }

  /** A declared dependency as `is_updated` sees it: resolved, stat loaded, no dependencies of its own. */
  function DependencyState(s: Settings, fs: FS, dep: string): (r: Result<ModuleState, Error>)
    ensures r.Success? ==> r.value.dependencies == [] && r.value.mtime.Some?
    ensures r.Success? <==> CreateModule(s, fs, dep).Success? && IsFile(fs, CreateModule(s, fs, dep).value.localFilepath)
    ensures r.Success? ==> var p := CreateModule(s, fs, dep).value;
                           r.value.key == p.remoteFilepath && r.value.mtime == Some(fs.files[p.localFilepath].mtime)
    ensures CreateModule(s, fs, dep).Failure? ==> r == Failure(CreateModule(s, fs, dep).error)
  {
    match CreateModule(s, fs, dep)
    case Failure(e) => Failure(e)
    case Success(p) =>
      match Stat(fs, p.localFilepath)
      case Failure(e) => Failure(e)
      case Success(t) => Success(ModuleState(p.remoteFilepath, Some(t), []))
  }

  /** The `TypeError` raised when a module's mtime was never loaded. */
  const MtimeUndefined: string := "Cannot read property 'getTime' of undefined"

  /** The `TypeError` raised by the call to a method the class does not define. */
  const ResolvePathUndefined: string := "this.resolve_path is not a function"

  /**
   * The staleness decision against a loaded store: no record, or a record whose mtime
   * differs in either direction, or a stale declared dependency. A module whose mtime
   * was never loaded cannot be compared (`module.mtime.getTime()` throws).
   */
  function Staleness(db: Db, s: Settings, fs: FS, m: ModuleState): Result<bool, Error>
    decreases |m.dependencies|, 2
  {
    if m.key !in db.records then Success(true)
    else if m.mtime.None? then Failure(TypeError(MtimeUndefined))
    else if m.mtime.value != db.records[m.key].mtime then Success(true)
    else DependenciesStaleness(db, s, fs, m.dependencies)
  }

  /**
   * The staleness decision exactly as written: the dependency loop starts by calling
   * `this.resolve_path(dep)`, which `JeefoBundler` does not define, so any dependency fails.
   */
  function StalenessAsWritten(db: Db, m: ModuleState): Result<bool, Error> {
    if m.key !in db.records then Success(true)
    else if m.mtime.None? then Failure(TypeError(MtimeUndefined))
    else if m.mtime.value != db.records[m.key].mtime then Success(true)
    else if m.dependencies != [] then Failure(TypeError(ResolvePathUndefined))
    else Success(false)
  }

  /** The dependency loop: the first stale dependency answers `true`; an error aborts. */
  function DependenciesStaleness(db: Db, s: Settings, fs: FS, deps: seq<string>): Result<bool, Error>
    decreases |deps|, 1
  {
    if deps == [] then Success(false)
    else match DependencyVerdict(db, s, fs, deps[0])
      case Failure(e) => Failure(e)
      case Success(stale) => if stale then Success(true) else DependenciesStaleness(db, s, fs, deps[1..])
  }

  /** One dependency: resolved, its stat loaded, then judged as `is_updated` judges a module. */
  function DependencyVerdict(db: Db, s: Settings, fs: FS, dep: string): Result<bool, Error>
    decreases 1, 0
  {
    match DependencyState(s, fs, dep)
    case Failure(e) => Failure(e)
    case Success(d) => Staleness(db, s, fs, d)
  }

  /** `is_updated`: loads the store, then decides. */
  function IsUpdated(s: Settings, st: EngineState, m: ModuleState): Step<bool> {
    var loaded := LoadDb(s, st);
    match loaded.out
    case Failure(e) => Step(loaded.state, Failure(e))
    case Success(db) => Step(loaded.state, Staleness(db, s, loaded.state.fs, m))
  }

  /** The record `save_module` stores: `dependencies` only when the list is non-empty. */
  function RecordFor(mtime: int, deps: seq<string>): Record {
    Record(mtime, if |deps| > 0 then Some(deps) else None)
  }

  /** Where a module's cached body lives. */
  function CachePath(s: Settings, key: Path): Path {
    Join(s.cacheDir, key)
  }

  /** `save_module`: write the body, then update one record and write the whole store. */
  function SaveModule(s: Settings, st: EngineState, key: Path, content: string, mtime: int,
                      deps: seq<string>, now: int): Step<()>
  {
    var filepath := CachePath(s, key);
    match EnsureDir(st.fs, Dirname(filepath))
    case Failure(e) => Step(st, Failure(e))
    case Success(fs1) =>
      match WriteFile(fs1, filepath, Text(content), now)
      case Failure(e) => Step(st.(fs := fs1), Failure(e))
      case Success(fs2) =>
        var loaded := LoadDb(s, EngineState(st.db, fs2, st.log + [Wrote(filepath)]));
        match loaded.out
        case Failure(e) => Step(loaded.state, Failure(e))
        case Success(db) =>
          var db' := Put(db, key, RecordFor(mtime, deps));
          match WriteFile(loaded.state.fs, s.dbPath, Json(db'), now)
          case Failure(e) => Step(loaded.state.(db := Some(db')), Failure(e))
          case Success(fs3) => Step(EngineState(Some(db'), fs3, loaded.state.log + [Wrote(s.dbPath)]), Success(()))
  }

  /**
   * `get_module`: resolve, stat, decide; a stale module is read from its source, shown to
   * `file_updated` and saved, a fresh one is served from the cache without any write.
   */
  function GetModule(s: Settings, st: EngineState, spec: string, fileUpdated: ModuleValue -> HookUpdate,
                     now: int): Step<ModuleValue>
  {
    match CreateModule(s, st.fs, spec)
    case Failure(e) => Step(st, Failure(e))
    case Success(p) =>
      match Stat(st.fs, p.localFilepath)
      case Failure(e) => Step(st, Failure(e))
      case Success(mtime) =>
        var checked := IsUpdated(s, st, ModuleState(p.remoteFilepath, Some(mtime), []));
        match checked.out
        case Failure(e) => Step(checked.state, Failure(e))
        case Success(stale) =>
          if stale then Refresh(s, checked.state, p, mtime, fileUpdated, now)
          else ServeCached(s, checked.state, p, mtime)
  }

  /** The stale branch of `get_module`: read the source, hand it to `file_updated`, save what it left. */
  function Refresh(s: Settings, st: EngineState, p: ModulePath, mtime: int, fileUpdated: ModuleValue -> HookUpdate,
                   now: int): Step<ModuleValue>
  {
    match ReadText(st.fs, p.localFilepath)
    case Failure(e) => Step(st, Failure(e))
    case Success(source) =>
      var u := fileUpdated(ModuleValue(p, mtime, source, []));
      var saved := SaveModule(s, st.(log := st.log + [FileUpdated(p.remoteFilepath)]),
                              p.remoteFilepath, u.content, mtime, u.dependencies, now);
      match saved.out
      case Failure(e) => Step(saved.state, Failure(e))
      case Success(_) => Step(saved.state, Success(ModuleValue(p, mtime, u.content, u.dependencies)))
  }

  /** The fresh branch of `get_module`: the cached body. */
  function ServeCached(s: Settings, st: EngineState, p: ModulePath, mtime: int): Step<ModuleValue> {
    match ReadText(st.fs, CachePath(s, p.remoteFilepath))
    case Failure(e) => Step(st, Failure(e))
    case Success(cached) => Step(st, Success(ModuleValue(p, mtime, cached, [])))
  }

  /** The keys that end in `.js`, in store order. */
  function JsKeys(keys: seq<Path>): seq<Path> {
    if keys == [] then []
    else (if EndsWith(keys[0], ".js") then [keys[0]] else []) + JsKeys(keys[1..])
  }

  /** Each cached body in turn, as the `bundle` listener leaves it; the first unreadable one aborts. */
  function ReadEntries(fs: FS, s: Settings, keys: seq<Path>, onEntry: (Path, string) -> string)
    : Result<seq<string>, Error>
  {
    if keys == [] then Success([])
    else match ReadText(fs, CachePath(s, keys[0]))
      case Failure(e) => Failure(e)
      case Success(body) =>
        match ReadEntries(fs, s, keys[1..], onEntry)
        case Failure(e) => Failure(e)
        case Success(rest) => Success([onEntry(keys[0], body)] + rest)
  }

  /** `Array.prototype.join(sep)`. */
  function JoinWith(parts: seq<string>, sep: string): string {
    if parts == [] then ""
    else if |parts| == 1 then parts[0]
    else parts[0] + sep + JoinWith(parts[1..], sep)
  }

  const BundleSeparator: string := "\n\n"

  function OutputPath(s: Settings): Path {
    s.outputDir + "/" + s.name
  }

  /** `bundle`: the cached `.js` bodies joined by a blank line, passed through `before_write`, written out. */
  function Bundle(s: Settings, st: EngineState, onEntry: (Path, string) -> string,
                  beforeWrite: string -> string, now: int): Step<()>
  {
    var loaded := LoadDb(s, st);
    var st1 := loaded.state;
    match loaded.out
    case Failure(e) => Step(st1, Failure(e))
    case Success(db) =>
      match ReadEntries(st1.fs, s, JsKeys(db.keys), onEntry)
      case Failure(e) => Step(st1, Failure(e))
      case Success(entries) =>
        var content := beforeWrite(JoinWith(entries, BundleSeparator));
        match EnsureDir(st1.fs, s.outputDir)
        case Failure(e) => Step(st1, Failure(e))
        case Success(fs1) =>
          match WriteFile(fs1, OutputPath(s), Text(content), now)
          case Failure(e) => Step(st1.(fs := fs1), Failure(e))
          case Success(fs2) => Step(EngineState(st1.db, fs2, st1.log + [Wrote(OutputPath(s))]), Success(()))
  }

  /** The unlink loop of `clear`: the filesystem it leaves, and the error that stopped it. */
  datatype Partial = Partial(fs: FS, err: Option<Error>)

  function UnlinkKeys(fs: FS, s: Settings, keys: seq<Path>): Partial
    decreases |keys|
  {
    if keys == [] then Partial(fs, None)
    else match Unlink(fs, CachePath(s, keys[0]))
      case Failure(e) => Partial(fs, Some(e))
      case Success(fs1) => UnlinkKeys(fs1, s, keys[1..])
  }

  /**
   * `clear`: nothing when the cache dir does not exist; otherwise every cached body and
   * the store file are unlinked, empty directories are pruned, and the store is dropped.
   */
  ghost function Clear(s: Settings, st: EngineState): Step<()> {
    if !Exists(st.fs, s.cacheDir) then Step(st, Success(()))
    else
      var loaded := LoadDb(s, st);
      var st1 := loaded.state;
      match loaded.out
      case Failure(e) => Step(st1, Failure(e))
      case Success(db) =>
        var unlinked := UnlinkKeys(st1.fs, s, db.keys);
        if unlinked.err.Some? then Step(st1.(fs := unlinked.fs), Failure(unlinked.err.value))
        else match Unlink(unlinked.fs, s.dbPath)
          case Failure(e) => Step(st1.(fs := unlinked.fs), Failure(e))
          case Success(fs2) => Step(EngineState(None, Pruned(fs2, s.cacheDir), st1.log), Success(()))
  }
}
