/**
 * The upload handler: reads the `relative_path` field, then writes every
 * following file part under `{root}/{relative_path}/`, and on any failure
 * removes the files it recorded and reports a typed error.
 */
module UploadHandler {
  import opened Base
  import opened Multipart
  import opened Storage
  import FileNameValidator

  /** Required name of the first field. */
  const RelativePathField: string := "relative_path"

  const ExpectedRelativePathMessage: string := "Expected field name 'relative_path'"
  const NoFilesMessage: string := "No files were in the multipart form"

  /**
   * What an unexpected error wraps. Its display is the outermost context the
   * handler attached, or the transport's own message.
   */
  datatype Cause =
    | Transport(message: string)
    | NoFieldName
    | TextUnavailable
    | NoFileName
    | SaveFailed(io: IoError)
    | CleanupFailed(io: IoError)

  /** `UploadError`: a client mistake, or anything else. */
  datatype UploadError = ValidationError(message: string) | UnexpectedError(cause: Cause)

  function CauseMessage(c: Cause): string
  {
    match c
    case Transport(m) => m
    case NoFieldName => "No field name"
    case TextUnavailable => "Failed to get text"
    case NoFileName => "Failed to get file name"
    case SaveFailed(_) => "Failed to save file"
    case CleanupFailed(_) => "Cleanup failed"
  }

  /** `UploadError::to_string`. */
  function Display(e: UploadError): string
  {
    match e
    case ValidationError(m) => m
    case UnexpectedError(c) => CauseMessage(c)
  }

  /** An HTTP response: status code and body text. */
  datatype Response = Response(status: nat, body: string)

  const StatusOk: nat := 200
  const StatusBadRequest: nat := 400
  const StatusInternalServerError: nat := 500

  /**
   * `IntoResponse for UploadError`: validation errors are the client's fault
   * (400), everything else is the server's (500); the body is the error's
   * display, which for a validation error is its message.
   */
  function IntoResponse(e: UploadError): (r: Response)
    ensures r.status == 400 <==> e.ValidationError?
    ensures r.status == 500 <==> e.UnexpectedError?
    ensures r.body == Display(e)
    ensures e.ValidationError? ==> r.body == e.message
  {
    var status := match e
      case UnexpectedError(_) => StatusInternalServerError
      case ValidationError(_) => StatusBadRequest;
    Response(status, Display(e))
  }

  /** The response for the handler's `Result<(), UploadError>`; `()` is an empty 200. */
  function Respond(r: Result<Unit, UploadError>): (resp: Response)
    ensures resp.status == 200 <==> r.Ok?
    ensures r.Ok? ==> resp.body == ""
    ensures r.Err? ==> resp == IntoResponse(r.error)
  {
    match r
    case Ok(_) => Response(StatusOk, "")
    case Err(e) => IntoResponse(e)
  }

  /** `get_multipart_field`: the next part, `None` at the end, or the transport error. */
  function NextField(items: seq<Item>): (r: Result<Option<Part>, UploadError>)
    ensures r == Ok(None) <==> |items| == 0
    ensures r.Ok? && r.value.Some? ==> |items| > 0 && items[0] == Field(r.value.value)
    ensures r.Err? ==> |items| > 0 && items[0].TransportError?
                       && r.error == UnexpectedError(Transport(items[0].message))
  {
    if |items| == 0 then Ok(None)
    else match items[0]
      case Field(p) => Ok(Some(p))
      case TransportError(m) => Err(UnexpectedError(Transport(m)))
  }

  /** `a` is the start of `b`. */
  predicate IsPrefix(a: seq<byte>, b: seq<byte>)
  {
    |a| <= |b| && a == b[..|a|]
  }

  /** `after` is `before` followed by a prefix of the bytes of `body`. */
  predicate ExtendsWithPrefix(before: seq<byte>, after: seq<byte>, body: seq<Chunk>)
  {
    |before| <= |after| && after[..|before|] == before && IsPrefix(after[|before|..], Concat(body))
  }

  /**
   * `tokio::io::copy` from a part's body into the open file `path`: appends
   * each chunk in turn, stopping at a read failure or when the device is
   * full. It completes exactly when the body is intact and fits in the free
   * space; in every case the file holds its old contents followed by a
   * prefix of the body's bytes.
   */
  function CopyBody(fs: FileSystem, path: string, body: seq<Chunk>): (s: IoStep)
    requires path in fs.files
    decreases |body|
    ensures s.result.Ok? <==> Intact(body) && |Concat(body)| <= fs.free
    ensures s.result.Err? ==> s.result.error == StorageFull || s.result.error == Other
    ensures path in s.fs.files && ExtendsWithPrefix(fs.files[path], s.fs.files[path], body)
    ensures s.result.Ok? ==> s.fs.files[path] == fs.files[path] + Concat(body)
    ensures s.fs.dirs == fs.dirs
    ensures s.fs.files.Keys == fs.files.Keys
    ensures forall q :: q != path ==> Lookup(s.fs, q) == Lookup(fs, q)
  {
    if |body| == 0 then IoStep(Ok(Unit), fs)
    else
      ConcatCons(body);
      match body[0]
      case ReadFailure => IoStep(Err(Other), fs)
      case Data(bytes) =>
        var w := Append(fs, path, bytes);
        if w.result.Err? then w
        else
          var s := CopyBody(w.fs, path, body[1..]);
          PrefixAfterAppend(fs.files[path], bytes, s.fs.files[path], body[1..], body);
          s
  }

  /** Bytes written after an append of the first chunk extend the file by a prefix of the whole body. */
  lemma PrefixAfterAppend(before: seq<byte>, bytes: seq<byte>, final: seq<byte>, rest: seq<Chunk>, body: seq<Chunk>)
    requires Concat(body) == bytes + Concat(rest)
    requires ExtendsWithPrefix(before + bytes, final, rest)
    ensures ExtendsWithPrefix(before, final, body)
  {
    assert final[..|before|] == (before + bytes)[..|before|];
    assert final[|before|..] == bytes + final[|before + bytes|..];
  }

  /**
   * `stream_to_file`: creates (or truncates) `path` and copies the body into
   * it. A failed create leaves the filesystem as it was; otherwise the file
   * exists afterwards and, on success, holds exactly the body's bytes.
   */
  function StreamToFile(fs: FileSystem, path: string, body: seq<Chunk>): (s: IoStep)
    ensures s.result.Ok? <==> CanCreate(fs, path) && Intact(body) && |Concat(body)| <= Create(fs, path).fs.free
    ensures s.result.Ok? ==> Lookup(s.fs, path) == Some(Concat(body))
    ensures CanCreate(fs, path) ==> path in s.fs.files && IsPrefix(s.fs.files[path], Concat(body))
    ensures !CanCreate(fs, path) ==> s == IoStep(Err(s.result.error), fs)
    ensures s.result.Err? ==> (s.result.error == NotFound || s.result.error == IsADirectory <==> !CanCreate(fs, path))
    ensures s.fs.dirs == fs.dirs
    ensures fs.files.Keys <= s.fs.files.Keys
    ensures Valid(fs) ==> Valid(s.fs)
    ensures forall q :: q != path ==> Lookup(s.fs, q) == Lookup(fs, q)
  {
    var c := Create(fs, path);
    if c.result.Err? then c
    else CopyBody(c.fs, path, body)
  }

  /** `{base}/{file_name}`: the target of a file part, with no normalisation. */
  function TargetPath(base: string, fileName: string): string
  {
    base + "/" + fileName
  }

  /** A part the loop gets as far as writing: it carries a file name that passes validation. */
  predicate Accepted(item: Item)
  {
    item.Field? && item.part.fileName.Some?
    && FileNameValidator.ValidateFileName(item.part.fileName.value).Ok?
  }

  /** The error of a write that failed at `File::create`, before any byte was written. */
  predicate IsCreateFailure(r: Result<Unit, UploadError>)
  {
    r.Err? && r.error.UnexpectedError? && r.error.cause.SaveFailed?
    && (r.error.cause.io == NotFound || r.error.cause.io == IsADirectory)
  }

  /** Outcome of handling one file part: result, the path recorded for it (if any), filesystem. */
  datatype PartOutcome = PartOutcome(result: Result<Unit, UploadError>, recorded: seq<string>, fs: FileSystem)

  /**
   * One iteration of the upload loop: read the part's file name, validate it,
   * record `{base}/{file_name}` and only then write the part, so a part whose
   * write fails is recorded too.
   */
  function HandleFilePart(base: string, field: Part, fs: FileSystem): (s: PartOutcome)
    ensures |s.recorded| == 1 <==> Accepted(Field(field))
    ensures |s.recorded| == 1 ==> s.recorded[0] == TargetPath(base, field.fileName.value)
    ensures |s.recorded| != 1 ==> s.recorded == [] && s.fs == fs && s.result.Err?
    ensures field.fileName.None? ==> s.result == Err(UnexpectedError(NoFileName))
    ensures field.fileName.Some? && !Accepted(Field(field)) ==>
              s.result == Err(ValidationError("Invalid file name: " + field.fileName.value))
    ensures Accepted(Field(field)) && s.result.Err? ==> s.result.error.UnexpectedError? && s.result.error.cause.SaveFailed?
    ensures s.result.Ok? ==> Lookup(s.fs, s.recorded[0]) == Some(Concat(field.body)) && Intact(field.body)
    ensures |s.recorded| == 1 ==> (s.recorded[0] in s.fs.files || IsCreateFailure(s.result))
    ensures IsCreateFailure(s.result) ==> |s.recorded| == 1 && !CanCreate(fs, s.recorded[0])
    ensures s.fs.dirs == fs.dirs
    ensures fs.files.Keys <= s.fs.files.Keys
    ensures Valid(fs) ==> Valid(s.fs)
    ensures forall q :: q !in s.recorded ==> Lookup(s.fs, q) == Lookup(fs, q)
  {
    if field.fileName.None? then PartOutcome(Err(UnexpectedError(NoFileName)), [], fs)
    else
      var fileName := field.fileName.value;
      match FileNameValidator.ValidateFileName(fileName)
      case Err(m) => PartOutcome(Err(ValidationError(m)), [], fs)
      case Ok(_) =>
        var path := TargetPath(base, fileName);
        var w := StreamToFile(fs, path, field.body);
        if w.result.Err? then PartOutcome(Err(UnexpectedError(SaveFailed(w.result.error))), [path], w.fs)
        else PartOutcome(Ok(Unit), [path], w.fs)
  }

  /**
   * The state of one request after the handler returns: its result, the
   * filesystem, the list of target paths recorded for rollback, and how many
   * items were read from the stream (the final end-of-stream not counted).
   */
  datatype Attempt = Attempt(result: Result<Unit, UploadError>, fs: FileSystem, recorded: seq<string>, consumed: nat)

  /**
   * The `while let` loop of `handle_upload_process`: parts are handled
   * strictly in order and the first failure ends the loop, so no later item
   * is read.
   */
  function ProcessFiles(base: string, items: seq<Item>, fs: FileSystem): (a: Attempt)
    decreases |items|
    ensures a.consumed <= |items| && |a.recorded| <= a.consumed
    ensures a.result.Ok? ==> a.consumed == |items| == |a.recorded|
    ensures a.result.Err? ==> 0 < a.consumed && a.consumed - 1 <= |a.recorded|
    ensures forall j :: 0 <= j < |a.recorded| ==>
              Accepted(items[j]) && a.recorded[j] == TargetPath(base, items[j].part.fileName.value)
    ensures a.fs.dirs == fs.dirs
    ensures fs.files.Keys <= a.fs.files.Keys
    ensures Valid(fs) ==> Valid(a.fs)
    ensures forall q :: q !in a.recorded ==> Lookup(a.fs, q) == Lookup(fs, q)
  {
    match NextField(items)
    case Err(e) => Attempt(Err(e), fs, [], 1)
    case Ok(None) => Attempt(Ok(Unit), fs, [], 0)
    case Ok(Some(field)) =>
      var s := HandleFilePart(base, field, fs);
      if s.result.Err? then Attempt(s.result, s.fs, s.recorded, 1)
      else
        var rest := ProcessFiles(base, items[1..], s.fs);
        Attempt(rest.result, rest.fs, s.recorded + rest.recorded, rest.consumed + 1)
  }

  /** `{root}/{relative_path}`: the directory the request's files go to, with no sanitisation. */
  function BasePath(root: string, relativePath: string): string
  {
    root + "/" + relativePath
  }

  /** The first item is a well-formed `relative_path` field whose `Field::text` succeeded. */
  predicate HasPathField(items: seq<Item>)
  {
    |items| > 0 && items[0].Field? && items[0].part.name == Some(RelativePathField)
    && items[0].part.text.Some?
  }

  /**
   * `handle_upload_process`: read the first field, which must be named
   * `relative_path`, take its text as the destination directory, then run the
   * file loop over the remaining items. An empty request succeeds without
   * doing anything; a path field followed by nothing is a validation error.
   */
  function HandleUploadProcess(root: string, items: seq<Item>, fs: FileSystem): (a: Attempt)
    ensures |items| == 0 ==> a == Attempt(Ok(Unit), fs, [], 0)
    ensures a.consumed <= |items| && |a.recorded| <= a.consumed
    ensures a.result.Err? ==> 0 < a.consumed
    ensures a.result.Ok? ==> a.consumed == |items| && (|items| == 0 || |a.recorded| == |items| - 1 > 0)
    ensures !HasPathField(items) ==> a.fs == fs && a.recorded == []
    ensures |a.recorded| > 0 ==> HasPathField(items) && |a.recorded| < |items|
    ensures HasPathField(items) ==> forall j :: 0 <= j < |a.recorded| ==>
              Accepted(items[j + 1])
              && a.recorded[j] == TargetPath(BasePath(root, items[0].part.text.value), items[j + 1].part.fileName.value)
    ensures a.fs.dirs == fs.dirs
    ensures fs.files.Keys <= a.fs.files.Keys
    ensures Valid(fs) ==> Valid(a.fs)
    ensures forall q :: q !in a.recorded ==> Lookup(a.fs, q) == Lookup(fs, q)
  {
    match NextField(items)
    case Err(e) => Attempt(Err(e), fs, [], 1)
    case Ok(None) => Attempt(Ok(Unit), fs, [], 0)
    case Ok(Some(pathField)) =>
      if pathField.name.None? then Attempt(Err(UnexpectedError(NoFieldName)), fs, [], 1)
      else if pathField.name.value != RelativePathField then
        Attempt(Err(ValidationError(ExpectedRelativePathMessage)), fs, [], 1)
      else if pathField.text.None? then Attempt(Err(UnexpectedError(TextUnavailable)), fs, [], 1)
      else
        var base := BasePath(root, pathField.text.value);
        var files := ProcessFiles(base, items[1..], fs);
        // `uploaded_files` stays false only when the loop's first read meets the end
        if files.result.Ok? && files.consumed == 0 then
          Attempt(Err(ValidationError(NoFilesMessage)), files.fs, files.recorded, 1)
        else
          files.(consumed := files.consumed + 1)
  }

  /** No path occurs twice in `paths`. */
  predicate Distinct(paths: seq<string>)
  {
    forall i, j :: 0 <= i < j < |paths| ==> paths[i] != paths[j]
  }

  /** Every path names an existing file, once: removing them in order cannot fail. */
  predicate Removable(fs: FileSystem, paths: seq<string>)
  {
    Distinct(paths) && forall i :: 0 <= i < |paths| ==> paths[i] in fs.files
  }

  /**
   * The length of the longest prefix of `paths` that could be removed in
   * order: distinct paths of existing files. Removal in order first fails at
   * this index, if it is inside the list.
   */
  function RemovedCount(fs: FileSystem, paths: seq<string>): (k: nat)
    decreases |paths|
    ensures k <= |paths|
    ensures Removable(fs, paths[..k])
    ensures k < |paths| ==> !Removable(fs, paths[..k + 1])
    ensures k == |paths| <==> Removable(fs, paths)
  {
    if Removable(fs, paths) then |paths|
    else
      var k := RemovedCount(fs, paths[..|paths| - 1]);
      assert paths[..|paths| - 1][..k] == paths[..k];
      if k < |paths| - 1 then
        assert paths[..|paths| - 1][..k + 1] == paths[..k + 1];
        k
      else
        assert paths[..k + 1] == paths;
        k
  }

  /**
   * `cleanup_failed_files`: removes the recorded paths in order and stops at
   * the first removal that fails. It succeeds exactly when the paths are
   * distinct existing files. Whatever the outcome, the paths before the first
   * failing removal are gone and every other path, the later ones in the
   * list included, is as it was.
   */
  function CleanupFailedFiles(fs: FileSystem, paths: seq<string>): (s: IoStep)
    decreases |paths|
    ensures s.result.Ok? <==> Removable(fs, paths)
    ensures s.result.Err? ==> s.result.error == NotFound
    ensures var k := RemovedCount(fs, paths);
      && (forall i :: 0 <= i < k ==> paths[i] !in s.fs.files)
      && (forall q :: q !in paths[..k] ==> Lookup(s.fs, q) == Lookup(fs, q))
    ensures s.fs.dirs == fs.dirs
    ensures Valid(fs) ==> Valid(s.fs)
  {
    if |paths| == 0 then IoStep(Ok(Unit), fs)
    else
      var r := RemoveFile(fs, paths[0]);
      if r.result.Err? then r
      else
        var s := CleanupFailedFiles(r.fs, paths[1..]);
        assert Removable(fs, paths) <==> Removable(r.fs, paths[1..]) by {
          RemovableStep(fs, paths, r.fs);
        }
        CleanupStep(fs, paths, r.fs, s.fs);
        s
  }

  /**
   * The recursive step of `CleanupFailedFiles`: after the head is removed,
   * one more path counts as removed, and the tail's guarantees carry over to
   * the whole list.
   */
  lemma CleanupStep(fs: FileSystem, paths: seq<string>, fs': FileSystem, fs'': FileSystem)
    requires |paths| > 0 && paths[0] in fs.files
    requires forall q :: q != paths[0] ==> Lookup(fs', q) == Lookup(fs, q)
    requires paths[0] !in fs'.files
    requires var k := RemovedCount(fs', paths[1..]);
      && (forall i :: 0 <= i < k ==> paths[1..][i] !in fs''.files)
      && (forall q :: q !in paths[1..][..k] ==> Lookup(fs'', q) == Lookup(fs', q))
    ensures var k := RemovedCount(fs, paths);
      && (forall i :: 0 <= i < k ==> paths[i] !in fs''.files)
      && (forall q :: q !in paths[..k] ==> Lookup(fs'', q) == Lookup(fs, q))
  {
    var tail := paths[1..];
    var k' := RemovedCount(fs', tail);
    RemovedCountStep(fs, paths, fs');
    assert paths[..k' + 1] == [paths[0]] + tail[..k'];
    assert paths[0] !in fs''.files by {
      if paths[0] !in tail[..k'] {
        assert Lookup(fs'', paths[0]) == Lookup(fs', paths[0]);
      }
    }
    forall i | 0 < i < k' + 1 ensures paths[i] !in fs''.files {
      assert paths[i] == tail[i - 1];
    }
    forall q | q !in paths[..k' + 1] ensures Lookup(fs'', q) == Lookup(fs, q) {
      assert q != paths[0] && q !in tail[..k'];
    }
  }

  /** Removing an existing head shifts the removable prefix by one. */
  lemma RemovedCountStep(fs: FileSystem, paths: seq<string>, fs': FileSystem)
    requires |paths| > 0 && paths[0] in fs.files
    requires forall q :: q != paths[0] ==> Lookup(fs', q) == Lookup(fs, q)
    requires paths[0] !in fs'.files
    ensures RemovedCount(fs, paths) == RemovedCount(fs', paths[1..]) + 1
  {
    var tail := paths[1..];
    var k' := RemovedCount(fs', tail);
    assert paths[..k' + 1][1..] == tail[..k'];
    RemovableStep(fs, paths[..k' + 1], fs');
    if k' + 1 < |paths| {
      assert paths[..k' + 2][1..] == tail[..k' + 1];
      RemovableStep(fs, paths[..k' + 2], fs');
    }
    RemovedCountUnique(fs, paths, k' + 1);
  }

  /** The removable prefix is the only prefix that is removable but cannot be extended. */
  lemma RemovedCountUnique(fs: FileSystem, paths: seq<string>, j: nat)
    requires j <= |paths| && Removable(fs, paths[..j])
    requires j < |paths| ==> !Removable(fs, paths[..j + 1])
    ensures RemovedCount(fs, paths) == j
  {
    var k := RemovedCount(fs, paths);
    if k < j {
      RemovablePrefix(fs, paths, j, k + 1);
    } else if j < k {
      RemovablePrefix(fs, paths, k, j + 1);
    }
  }

  /** A prefix of a removable prefix is removable. */
  lemma RemovablePrefix(fs: FileSystem, paths: seq<string>, m: nat, j: nat)
    requires j <= m <= |paths| && Removable(fs, paths[..m])
    ensures Removable(fs, paths[..j])
  {
    assert forall i :: 0 <= i < j ==> paths[..j][i] == paths[..m][i];
  }

  /** Removability of a list is removability of its head, then of its tail once the head is gone. */
  lemma RemovableStep(fs: FileSystem, paths: seq<string>, fs': FileSystem)
    requires |paths| > 0 && paths[0] in fs.files
    requires forall q :: q != paths[0] ==> Lookup(fs', q) == Lookup(fs, q)
    requires paths[0] !in fs'.files
    ensures Removable(fs, paths) <==> Removable(fs', paths[1..])
  {
    var tail := paths[1..];
    if Removable(fs', tail) {
      forall i, j | 0 <= i < j < |paths| ensures paths[i] != paths[j] {
        assert paths[j] == tail[j - 1] && paths[j] in fs'.files;
        if i > 0 {
          assert paths[i] == tail[i - 1];
        }
      }
      forall i | 0 <= i < |paths| ensures paths[i] in fs.files {
        if i > 0 {
          assert paths[i] == tail[i - 1] && Lookup(fs', paths[i]).Some?;
        }
      }
    }
    if Removable(fs, paths) {
      forall i | 0 <= i < |tail| ensures tail[i] in fs'.files {
        assert tail[i] == paths[i + 1] && paths[i + 1] != paths[0];
        assert Lookup(fs, tail[i]).Some?;
      }
      forall i, j | 0 <= i < j < |tail| ensures tail[i] != tail[j] {
        assert tail[i] == paths[i + 1] && tail[j] == paths[j + 1];
      }
    }
  }

  /** The handler's result together with the filesystem it leaves behind. */
  datatype Outcome = Outcome(result: Result<Unit, UploadError>, fs: FileSystem)

  /**
   * `upload`: run the process; on failure roll back the recorded paths. When
   * the rollback succeeds the original error is returned and every recorded
   * path is gone; when it fails, a "Cleanup failed" unexpected error replaces
   * the original, the recorded paths before the failing removal are gone and
   * the later ones keep what the process left there. Paths that were never
   * recorded are never touched.
   */
  function Upload(root: string, items: seq<Item>, fs: FileSystem): (o: Outcome)
    ensures var a := HandleUploadProcess(root, items, fs);
      && (o.result.Ok? <==> a.result.Ok?)
      && (a.result.Ok? ==> o.fs == a.fs)
      && (a.result.Err? && Removable(a.fs, a.recorded) ==>
            o.result == a.result && forall i :: 0 <= i < |a.recorded| ==> a.recorded[i] !in o.fs.files)
      && (a.result.Err? && !Removable(a.fs, a.recorded) ==>
            o.result == Err(UnexpectedError(CleanupFailed(NotFound))))
      && (a.result.Err? ==>
            var k := RemovedCount(a.fs, a.recorded);
            && (forall i :: 0 <= i < k ==> a.recorded[i] !in o.fs.files)
            && (forall q :: q !in a.recorded[..k] ==> Lookup(o.fs, q) == Lookup(a.fs, q)))
      && (forall q :: q !in a.recorded ==> Lookup(o.fs, q) == Lookup(fs, q))
    ensures o.fs.dirs == fs.dirs
    ensures Valid(fs) ==> Valid(o.fs)
  {
    var a := HandleUploadProcess(root, items, fs);
    match a.result
    case Ok(_) => Outcome(Ok(Unit), a.fs)
    case Err(e) =>
      var c := CleanupFailedFiles(a.fs, a.recorded);
      if c.result.Err? then Outcome(Err(UnexpectedError(CleanupFailed(c.result.error))), c.fs)
      else Outcome(Err(e), c.fs)
  }
}
