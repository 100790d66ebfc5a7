/**
 * An abstract filesystem standing in for the tokio file operations the upload
 * handler calls: `File::create`, writing bytes, and `fs::remove_file`.
 * Paths are compared as strings, exactly as the handler formats them.
 */
module Storage {
  import opened Base

  /** Failures a filesystem call can report. */
  datatype IoError =
    | NotFound      // parent directory or file missing
    | IsADirectory  // the path names a directory
    | StorageFull   // not enough free space for the bytes written
    | Other         // an error raised by the request body stream

  /**
   * Regular files with their contents, the set of existing directories, and
   * the number of bytes still free on the device.
   */
  datatype FileSystem = FileSystem(files: map<string, seq<byte>>, dirs: set<string>, free: nat)

  /** Outcome of one filesystem call together with the filesystem after it. */
  datatype IoStep = IoStep(result: Result<Unit, IoError>, fs: FileSystem)

  /** Contents of the file at `p`, if there is one. */
  function Lookup(fs: FileSystem, p: string): Option<seq<byte>>
  {
    if p in fs.files then Some(fs.files[p]) else None
  }

  /** The directory part of `p`: everything before its last `/` ("" when there is none). */
  function ParentDir(p: string): (d: string)
    ensures |d| < |p| || p == d == ""
    ensures d == p[..|d|]
    ensures |d| < |p| ==> p[|d|] == '/' || (d == "" && forall i :: 0 <= i < |p| ==> p[i] != '/')
    ensures forall i :: |d| < i < |p| ==> p[i] != '/'
  {
    if |p| == 0 then ""
    else if p[|p| - 1] == '/' then p[..|p| - 1]
    else ParentDir(p[..|p| - 1])
  }

  /** `File::create` succeeds when the parent directory exists and `p` is not a directory. */
  predicate CanCreate(fs: FileSystem, p: string)
  {
    ParentDir(p) in fs.dirs && p !in fs.dirs
  }

  /** Every file lies in an existing directory and is not itself a directory. */
  predicate Valid(fs: FileSystem)
  {
    forall p :: p in fs.files ==> CanCreate(fs, p)
  }

  /**
   * `File::create`: makes `p` an empty file, truncating (and so freeing) any
   * previous contents; fails without effect when `p` cannot be created.
   */
  function Create(fs: FileSystem, p: string): (s: IoStep)
    ensures s.result.Ok? <==> CanCreate(fs, p)
    ensures s.result.Ok? ==> Lookup(s.fs, p) == Some([])
    ensures s.result.Ok? ==> s.fs.free == fs.free + (if p in fs.files then |fs.files[p]| else 0)
    ensures s.result.Err? ==> s.fs == fs
    ensures s.fs.dirs == fs.dirs
    ensures fs.files.Keys <= s.fs.files.Keys
    ensures Valid(fs) ==> Valid(s.fs)
    ensures forall q :: q != p ==> Lookup(s.fs, q) == Lookup(fs, q)
  {
    if ParentDir(p) !in fs.dirs then IoStep(Err(NotFound), fs)
    else if p in fs.dirs then IoStep(Err(IsADirectory), fs)
    else
      var released := if p in fs.files then |fs.files[p]| else 0;
      IoStep(Ok(Unit), fs.(files := fs.files[p := []], free := fs.free + released))
  }

  /**
   * Appends `data` to the existing file `p`; fails without effect when the
   * device has fewer than `|data|` free bytes.
   */
  function Append(fs: FileSystem, p: string, data: seq<byte>): (s: IoStep)
    requires p in fs.files
    ensures s.result.Ok? <==> |data| <= fs.free
    ensures s.result.Ok? ==> Lookup(s.fs, p) == Some(fs.files[p] + data)
    ensures s.result.Err? ==> s.fs == fs
    ensures s.fs.dirs == fs.dirs
    ensures s.fs.files.Keys == fs.files.Keys
    ensures forall q :: q != p ==> Lookup(s.fs, q) == Lookup(fs, q)
  {
    if |data| > fs.free then IoStep(Err(StorageFull), fs)
    else IoStep(Ok(Unit), fs.(files := fs.files[p := fs.files[p] + data], free := fs.free - |data|))
  }

  /** `fs::remove_file`: deletes the file `p`, failing with `NotFound` when there is none. */
  function RemoveFile(fs: FileSystem, p: string): (s: IoStep)
    ensures s.result.Ok? <==> p in fs.files
    ensures s.result.Err? ==> s == IoStep(Err(NotFound), fs)
    ensures Lookup(s.fs, p).None?
    ensures s.fs.dirs == fs.dirs
    ensures Valid(fs) ==> Valid(s.fs)
    ensures forall q :: q != p ==> Lookup(s.fs, q) == Lookup(fs, q)
  {
    if p in fs.files then IoStep(Ok(Unit), fs.(files := fs.files - {p}, free := fs.free + |fs.files[p]|))
    else IoStep(Err(NotFound), fs)
  }
}
