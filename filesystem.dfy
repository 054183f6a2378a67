/**
 * An abstract, in-memory stand-in for the `@jeefo/fs` helpers: a map of regular files
 * (content and modification time in milliseconds) and a set of directories. The store
 * file holds the ordered map itself rather than its JSON text.
 */
module FileSystem {
  import opened Wrappers
  import opened Paths
  import opened Store

  datatype Data = Text(text: string) | Json(db: Db)

  datatype File = File(data: Data, mtime: int)

  datatype FS = FS(files: map<Path, File>, dirs: set<Path>)

  /** The failures the core can surface, each tagged as the source tags it. */
  datatype Error =
    | NotFound(code: string, message: string)   // resolution failure, code "ENOINT"
    | IoError(code: string, path: Path)          // a failing filesystem call
    | SerializationError(path: Path)             // a store file that is not a store
    | TypeError(message: string)                 // a property read on something never loaded

  predicate IsFile(fs: FS, p: Path) {
    p in fs.files
  }

  predicate IsDirectory(fs: FS, p: Path) {
    p in fs.dirs
  }

  predicate Exists(fs: FS, p: Path) {
    p in fs.files || p in fs.dirs
  }

  /** `fs.stat(p).mtime`. */
  function Stat(fs: FS, p: Path): (r: Result<int, Error>)
    ensures r.Success? <==> p in fs.files
    ensures r.Success? ==> r.value == fs.files[p].mtime
  {
    if p in fs.files then Success(fs.files[p].mtime) else Failure(IoError("ENOENT", p))
  }

  /** `fs.readFile(p, "utf8")`. */
  function ReadText(fs: FS, p: Path): (r: Result<string, Error>)
    ensures r.Success? <==> p in fs.files && fs.files[p].data.Text?
    ensures r.Success? ==> r.value == fs.files[p].data.text
  {
    if p in fs.files then
      match fs.files[p].data
      case Text(t) => Success(t)
      case Json(_) => Failure(SerializationError(p))
    else if p in fs.dirs then Failure(IoError("EISDIR", p))
    else Failure(IoError("ENOENT", p))
  }

  /** `fs.writeFile(p, ...)` (and `fs.save_json`): the file gets the data and the clock's time. */
  function WriteFile(fs: FS, p: Path, data: Data, now: int): (r: Result<FS, Error>)
    ensures r.Success? <==> p !in fs.dirs
    ensures r.Success? ==> r.value == FS(fs.files[p := File(data, now)], fs.dirs)
  {
    if p in fs.dirs then Failure(IoError("EISDIR", p))
    else Success(FS(fs.files[p := File(data, now)], fs.dirs))
  }

  /** `p` and each of its prefixes that ends just before a `/`. */
  function DirChain(p: Path): set<Path> {
    set i | 0 < i <= |p| && (i == |p| || p[i] == '/') :: p[..i]
  }

  /** `fs.ensure_dir(p)`: creates `p` and its missing ancestors; a file in the way fails. */
  function EnsureDir(fs: FS, p: Path): (r: Result<FS, Error>)
    ensures r.Success? <==> (forall q :: q in DirChain(p) ==> q !in fs.files)
    ensures r.Success? ==> r.value.files == fs.files && r.value.dirs == fs.dirs + DirChain(p)
  {
    if exists q :: q in DirChain(p) && q in fs.files then Failure(IoError("ENOTDIR", p))
    else Success(FS(fs.files, fs.dirs + DirChain(p)))
  }

  /** `fs.unlink(p)`: only a regular file can be unlinked. */
  function Unlink(fs: FS, p: Path): (r: Result<FS, Error>)
    ensures r.Success? <==> p in fs.files
    ensures r.Success? ==> r.value == FS(fs.files - {p}, fs.dirs)
  {
    if p in fs.files then Success(FS(fs.files - {p}, fs.dirs))
    else if p in fs.dirs then Failure(IoError("EISDIR", p))
    else Failure(IoError("ENOENT", p))
  }
}
