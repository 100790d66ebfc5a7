/**
 * Properties of the upload handler that relate several calls or need
 * induction over the request's items.
 */
module UploadProperties {
  import opened Base
  import opened Multipart
  import opened Storage
  import opened UploadHandler
  import FileNameValidator

  /** No later entry of `paths` repeats entry `j`: the write recorded at `j` is the last to that path. */
  predicate LastWrite(paths: seq<string>, j: nat)
    requires j < |paths|
  {
    forall k :: j < k < |paths| ==> paths[k] != paths[j]
  }

  /**
   * How the item that ends a failed file loop decides the error: a transport
   * error is passed on, a missing file name or a failed write is
   * unexpected, and an invalid file name is a validation error carrying the
   * validator's message. The item is recorded exactly when its name passed.
   */
  predicate ExplainsFailure(item: Item, recorded: bool, error: UploadError)
  {
    && (recorded <==> Accepted(item))
    && (item.TransportError? ==> error == UnexpectedError(Transport(item.message)))
    && (item.Field? && item.part.fileName.None? ==> error == UnexpectedError(NoFileName))
    && (item.Field? && item.part.fileName.Some? && !Accepted(item) ==>
          error == ValidationError("Invalid file name: " + item.part.fileName.value))
    && (Accepted(item) ==> error.UnexpectedError? && error.cause.SaveFailed?)
  }

  /** The last item a failed file loop read explains its error. */
  lemma {:induction false} ProcessFilesFailure(base: string, items: seq<Item>, fs: FileSystem)
    decreases |items|
    ensures var a := ProcessFiles(base, items, fs);
      a.result.Err? ==> ExplainsFailure(items[a.consumed - 1], |a.recorded| == a.consumed, a.result.error)
  {
    var a := ProcessFiles(base, items, fs);
    if |items| > 0 && items[0].Field? {
      var s := HandleFilePart(base, items[0].part, fs);
      assert Field(items[0].part) == items[0];
      ProcessFilesStep(base, items, fs);
      if s.result.Ok? {
        ProcessFilesFailure(base, items[1..], s.fs);
        var rest := ProcessFiles(base, items[1..], s.fs);
        if rest.result.Err? {
          assert items[a.consumed - 1] == items[1..][rest.consumed - 1];
          assert |a.recorded| == a.consumed <==> |rest.recorded| == rest.consumed;
        }
      }
    }
  }

  /**
   * Starting from a well-formed filesystem, every recorded path exists when
   * the loop ends, unless the loop ended because the last part's file could
   * not be created.
   */
  lemma {:induction false} ProcessFilesRecordedExist(base: string, items: seq<Item>, fs: FileSystem)
    requires Valid(fs)
    decreases |items|
    ensures var a := ProcessFiles(base, items, fs);
      AllExist(a.fs, a.recorded) <==> !IsCreateFailure(a.result)
  {
    if |items| > 0 && items[0].Field? {
      var s := HandleFilePart(base, items[0].part, fs);
      ProcessFilesStep(base, items, fs);
      if s.result.Err? {
        PartRecordedExists(base, items[0].part, fs);
      } else {
        ProcessFilesRecordedExist(base, items[1..], s.fs);
        var rest := ProcessFiles(base, items[1..], s.fs);
        assert s.recorded[0] in rest.fs.files;
        AllExistCons(rest.fs, s.recorded, rest.recorded);
      }
    }
  }

  /** After one part, its recorded path exists unless its file could not be created. */
  lemma PartRecordedExists(base: string, field: Part, fs: FileSystem)
    requires Valid(fs)
    ensures var s := HandleFilePart(base, field, fs);
      AllExist(s.fs, s.recorded) <==> !IsCreateFailure(s.result)
  {
    var s := HandleFilePart(base, field, fs);
    if IsCreateFailure(s.result) {
      var p := s.recorded[0];
      assert !CanCreate(s.fs, p);
      assert p !in s.fs.files;
    }
  }

  /** Every path of `paths` names a file of `fs`. */
  predicate AllExist(fs: FileSystem, paths: seq<string>)
  {
    forall j :: 0 <= j < |paths| ==> paths[j] in fs.files
  }

  /** `AllExist` on a list with one more path in front. */
  lemma AllExistCons(fs: FileSystem, head: seq<string>, rest: seq<string>)
    requires |head| == 1
    ensures AllExist(fs, head + rest) <==> head[0] in fs.files && AllExist(fs, rest)
  {
    var all := head + rest;
    assert all[0] == head[0];
    assert forall k :: 0 <= k < |rest| ==> all[k + 1] == rest[k];
  }

  /**
   * After a successful loop every part's body was intact, and the file at
   * each part's target holds exactly that body's bytes, unless a later part
   * wrote the same path again.
   */
  lemma {:induction false} ProcessFilesStoresBodies(base: string, items: seq<Item>, fs: FileSystem)
    decreases |items|
    ensures var a := ProcessFiles(base, items, fs);
      a.result.Ok? ==> forall j :: 0 <= j < |items| ==>
        Intact(items[j].part.body)
        && (LastWrite(a.recorded, j) ==> Lookup(a.fs, a.recorded[j]) == Some(Concat(items[j].part.body)))
  {
    var a := ProcessFiles(base, items, fs);
    if |items| > 0 && a.result.Ok? {
      assert items[0].Field?;
      var s := HandleFilePart(base, items[0].part, fs);
      ProcessFilesStep(base, items, fs);
      assert s.result.Ok?;
      var rest := ProcessFiles(base, items[1..], s.fs);
      ProcessFilesStoresBodies(base, items[1..], s.fs);
      forall j | 0 <= j < |items|
        ensures Intact(items[j].part.body)
        ensures LastWrite(a.recorded, j) ==> Lookup(a.fs, a.recorded[j]) == Some(Concat(items[j].part.body))
      {
        LastWriteCons(s.recorded[0], rest.recorded, j);
        if j > 0 {
          assert items[j] == items[1..][j - 1];
        }
      }
    }
  }

  /** One turn of the file loop on items that start with a field. */
  lemma ProcessFilesStep(base: string, items: seq<Item>, fs: FileSystem)
    requires |items| > 0 && items[0].Field?
    ensures var s := HandleFilePart(base, items[0].part, fs);
      ProcessFiles(base, items, fs)
        == if s.result.Err? then Attempt(s.result, s.fs, s.recorded, 1)
           else
             var rest := ProcessFiles(base, items[1..], s.fs);
             Attempt(rest.result, rest.fs, s.recorded + rest.recorded, rest.consumed + 1)
  {
  }

  /** How `LastWrite` reads on a list with one more path in front. */
  lemma LastWriteCons(p: string, rest: seq<string>, j: nat)
    requires j <= |rest|
    ensures j == 0 && LastWrite([p] + rest, 0) ==> p !in rest
    ensures 0 < j ==> (LastWrite([p] + rest, j) <==> LastWrite(rest, j - 1))
    ensures 0 < j ==> ([p] + rest)[j] == rest[j - 1]
  {
    var all := [p] + rest;
    if j == 0 && LastWrite(all, 0) {
      forall k | 0 <= k < |rest| ensures rest[k] != p {
        assert rest[k] == all[k + 1];
      }
    }
    if 0 < j {
      assert forall k :: 0 <= k < |rest| ==> all[k + 1] == rest[k];
    }
  }

  /**
   * The item that ends a failed loop is the first to fail: the loop run on
   * the items read before it succeeds.
   */
  lemma {:induction false} ProcessFilesPrefixOk(base: string, items: seq<Item>, fs: FileSystem)
    decreases |items|
    ensures var a := ProcessFiles(base, items, fs);
      a.result.Err? ==> ProcessFiles(base, items[..a.consumed - 1], fs).result.Ok?
  {
    var a := ProcessFiles(base, items, fs);
    if a.result.Err? {
      if a.consumed == 1 {
        assert items[..0] == [];
      } else {
        ProcessFilesPastFirst(base, items, fs);
        var s := HandleFilePart(base, items[0].part, fs);
        var rest := ProcessFiles(base, items[1..], s.fs);
        ProcessFilesPrefixOk(base, items[1..], s.fs);
        SlicePrefixTail(items, a.consumed - 1);
        ProcessFilesConsOk(base, items[..a.consumed - 1], fs);
      }
    }
  }

  /** A loop that read more than one item got past its first part, and the rest is the loop on the tail. */
  lemma ProcessFilesPastFirst(base: string, items: seq<Item>, fs: FileSystem)
    requires ProcessFiles(base, items, fs).consumed > 1
    ensures |items| > 0 && items[0].Field?
    ensures var s := HandleFilePart(base, items[0].part, fs);
      var rest := ProcessFiles(base, items[1..], s.fs);
      && s.result.Ok?
      && ProcessFiles(base, items, fs).result == rest.result
      && ProcessFiles(base, items, fs).consumed == rest.consumed + 1
  {
    ProcessFilesStep(base, items, fs);
  }

  /** A successful first part followed by a successful loop is a successful loop. */
  lemma ProcessFilesConsOk(base: string, items: seq<Item>, fs: FileSystem)
    requires |items| > 0 && items[0].Field?
    requires HandleFilePart(base, items[0].part, fs).result.Ok?
    requires ProcessFiles(base, items[1..], HandleFilePart(base, items[0].part, fs).fs).result.Ok?
    ensures ProcessFiles(base, items, fs).result.Ok?
  {
    ProcessFilesStep(base, items, fs);
  }

  /**
   * The loop stops at the first failure: whatever follows the items it read
   * has no influence on its outcome.
   */
  lemma {:induction false} ProcessFilesIgnoresUnread(base: string, items: seq<Item>, extra: seq<Item>, fs: FileSystem)
    decreases |items|
    ensures var a := ProcessFiles(base, items, fs);
      a.result.Err? ==> ProcessFiles(base, items[..a.consumed] + extra, fs) == a
  {
    var a := ProcessFiles(base, items, fs);
    if a.result.Err? {
      var items' := items[..a.consumed] + extra;
      assert |items'| > 0 && items'[0] == items[0] by { assert a.consumed > 0; }
      if items[0].Field? {
        var s := HandleFilePart(base, items[0].part, fs);
        if s.result.Err? {
          assert a == Attempt(s.result, s.fs, s.recorded, 1);
          assert ProcessFiles(base, items', fs) == a;
        } else {
          var rest := ProcessFiles(base, items[1..], s.fs);
          assert a == Attempt(rest.result, rest.fs, s.recorded + rest.recorded, rest.consumed + 1);
          ProcessFilesIgnoresUnread(base, items[1..], extra, s.fs);
          assert items'[1..] == items[1..][..rest.consumed] + extra by {
            SliceAfterHead(items, a.consumed, extra);
          }
          assert ProcessFiles(base, items', fs)
              == Attempt(rest.result, rest.fs, s.recorded + rest.recorded, rest.consumed + 1);
        }
      }
    }
  }

  /**
   * The handler stops at the first failure: once it has failed, the items
   * after those it read change nothing, neither its result nor the files.
   * The one exception is the "no files" error, which is decided by reading
   * the end of the stream.
   */
  lemma UploadIgnoresUnread(root: string, items: seq<Item>, extra: seq<Item>, fs: FileSystem)
    ensures var a := HandleUploadProcess(root, items, fs);
      a.result.Err? && a.result.error != ValidationError(NoFilesMessage) ==>
        Upload(root, items[..a.consumed] + extra, fs) == Upload(root, items, fs)
  {
    HandleIgnoresUnread(root, items, extra, fs);
  }

  /** `handle_upload_process` reads nothing past the item it failed on. */
  lemma HandleIgnoresUnread(root: string, items: seq<Item>, extra: seq<Item>, fs: FileSystem)
    ensures var a := HandleUploadProcess(root, items, fs);
      a.result.Err? && a.result.error != ValidationError(NoFilesMessage) ==>
        HandleUploadProcess(root, items[..a.consumed] + extra, fs) == a
  {
    var a := HandleUploadProcess(root, items, fs);
    if a.result.Err? && a.result.error != ValidationError(NoFilesMessage) {
      var items' := items[..a.consumed] + extra;
      assert |items'| > 0 && items'[0] == items[0];
      if HasPathField(items) {
        var base := BasePath(root, items[0].part.text.value);
        var files := ProcessFiles(base, items[1..], fs);
        HandleAfterPathField(root, items, fs);
        assert files.result.Err? && a.consumed == files.consumed + 1;
        ProcessFilesIgnoresUnread(base, items[1..], extra, fs);
        SliceAfterHead(items, a.consumed, extra);
        assert HasPathField(items');
        HandleAfterPathField(root, items', fs);
      } else {
        HandleWithoutPathField(root, items, items', fs);
      }
    }
  }

  /** Past a well-formed path field, the handler's outcome is the file loop's. */
  lemma HandleAfterPathField(root: string, items: seq<Item>, fs: FileSystem)
    requires HasPathField(items)
    ensures var files := ProcessFiles(BasePath(root, items[0].part.text.value), items[1..], fs);
      HandleUploadProcess(root, items, fs)
        == if files.result.Ok? && files.consumed == 0
           then Attempt(Err(ValidationError(NoFilesMessage)), files.fs, files.recorded, 1)
           else files.(consumed := files.consumed + 1)
  {
  }

  /** Without a well-formed path field, the handler looks at the first item only. */
  lemma HandleWithoutPathField(root: string, items: seq<Item>, items': seq<Item>, fs: FileSystem)
    requires |items| > 0 && |items'| > 0 && items[0] == items'[0] && !HasPathField(items)
    ensures HandleUploadProcess(root, items, fs) == HandleUploadProcess(root, items', fs)
  {
  }

  /** The handler's errors come from the request or a write, never from a cleanup. */
  lemma HandleFailureKinds(root: string, items: seq<Item>, fs: FileSystem)
    ensures var a := HandleUploadProcess(root, items, fs);
      a.result.Err? ==> !(a.result.error.UnexpectedError? && a.result.error.cause.CleanupFailed?)
  {
    if HasPathField(items) {
      ProcessFilesFailure(BasePath(root, items[0].part.text.value), items[1..], fs);
    }
  }

  /** A request with no fields at all succeeds and touches nothing. */
  lemma EmptyRequestSucceeds(root: string, fs: FileSystem)
    ensures Upload(root, [], fs) == Outcome(Ok(Unit), fs)
    ensures Respond(Upload(root, [], fs).result) == Response(200, "")
  {
  }

  /** A first field with a name other than `relative_path` is a client error, with no effect. */
  lemma MisnamedPathFieldRejected(root: string, items: seq<Item>, fs: FileSystem)
    requires |items| > 0 && items[0].Field? && items[0].part.name.Some?
    requires items[0].part.name.value != "relative_path"
    ensures Upload(root, items, fs) == Outcome(Err(ValidationError("Expected field name 'relative_path'")), fs)
    ensures Respond(Upload(root, items, fs).result).status == 400
  {
  }

  /**
   * A transport failure on the first read, a first field without a name, or a
   * `relative_path` field whose text cannot be read is a server error, with no
   * effect.
   */
  lemma UnreadablePathFieldFails(root: string, items: seq<Item>, fs: FileSystem)
    requires |items| > 0
    requires || items[0].TransportError?
             || items[0].part.name.None?
             || (items[0].part.name == Some("relative_path") && items[0].part.text.None?)
    ensures Upload(root, items, fs).fs == fs
    ensures Upload(root, items, fs).result.Err? && Upload(root, items, fs).result.error.UnexpectedError?
    ensures Respond(Upload(root, items, fs).result).status == 500
  {
  }

  /** A valid `relative_path` field followed by nothing is a client error, with no effect. */
  lemma PathFieldAloneRejected(root: string, pathField: Part, fs: FileSystem)
    requires pathField.name == Some("relative_path") && pathField.text.Some?
    ensures Upload(root, [Field(pathField)], fs) == Outcome(Err(ValidationError("No files were in the multipart form")), fs)
  {
    assert [Field(pathField)][1..] == [];
  }

  /** An invalid name on the first file part is a client error naming it, and nothing is written. */
  lemma FirstInvalidFileNameRejected(root: string, items: seq<Item>, fs: FileSystem)
    requires HasPathField(items) && |items| > 1
    requires items[1].Field? && items[1].part.fileName.Some?
    requires FileNameValidator.ValidateFileName(items[1].part.fileName.value).Err?
    ensures Upload(root, items, fs)
         == Outcome(Err(ValidationError("Invalid file name: " + items[1].part.fileName.value)), fs)
    ensures Respond(Upload(root, items, fs).result).status == 400
  {
    assert items[1..][0] == items[1];
  }

  /**
   * When the first file cannot be created (its directory is missing), its
   * path has already been recorded, so the rollback fails on it and the
   * client sees "Cleanup failed" instead of the write error.
   */
  lemma CreateFailureReportedAsCleanupFailure(root: string, items: seq<Item>, fs: FileSystem)
    requires Valid(fs)
    requires HasPathField(items) && |items| > 1 && Accepted(items[1])
    requires !CanCreate(fs, TargetPath(BasePath(root, items[0].part.text.value), items[1].part.fileName.value))
    ensures Upload(root, items, fs) == Outcome(Err(UnexpectedError(CleanupFailed(NotFound))), fs)
  {
    assert items[1..][0] == items[1];
    var path := TargetPath(BasePath(root, items[0].part.text.value), items[1].part.fileName.value);
    assert path !in fs.files;
  }

  /**
   * Cleanup stops at the first failing removal: with `c` missing and `a`
   * present, removing `[c, a]` fails at once and `a` survives, where a
   * best-effort cleanup would have removed it.
   */
  lemma CleanupStopsAtFirstFailure(fs: FileSystem)
    requires "a" in fs.files && "c" !in fs.files
    ensures var s := CleanupFailedFiles(fs, ["c", "a"]);
      s.result == Err(NotFound) && Lookup(s.fs, "a") == Lookup(fs, "a") && "a" in s.fs.files
  {
    var paths := ["c", "a"];
    assert paths[..1][0] == "c";
    RemovedCountUnique(fs, paths, 0);
    assert "a" !in paths[..0];
  }

  /** Every recorded path exists after the handler, unless its last write failed at create. */
  lemma HandleRecordedExist(root: string, items: seq<Item>, fs: FileSystem)
    requires Valid(fs)
    ensures var a := HandleUploadProcess(root, items, fs);
      AllExist(a.fs, a.recorded) <==> !IsCreateFailure(a.result)
  {
    if HasPathField(items) {
      HandleAfterPathField(root, items, fs);
      ProcessFilesRecordedExist(BasePath(root, items[0].part.text.value), items[1..], fs);
    }
  }

  /**
   * After a failed process, removing the recorded paths in order succeeds
   * exactly when they are distinct and the failure was not at file creation.
   */
  lemma RollbackPossibleIff(root: string, items: seq<Item>, fs: FileSystem)
    requires Valid(fs)
    ensures var a := HandleUploadProcess(root, items, fs);
      a.result.Err? ==> (Removable(a.fs, a.recorded) <==> Distinct(a.recorded) && !IsCreateFailure(a.result))
  {
    HandleRecordedExist(root, items, fs);
  }

  /**
   * Rollback after a failure: the original error survives exactly when the
   * recorded paths are distinct and the failure was not at file creation;
   * otherwise the error becomes "Cleanup failed".
   */
  lemma FailedUploadRollsBack(root: string, items: seq<Item>, fs: FileSystem)
    requires Valid(fs)
    ensures var a := HandleUploadProcess(root, items, fs);
      var o := Upload(root, items, fs);
      a.result.Err? ==>
        && (o.result == a.result <==> Distinct(a.recorded) && !IsCreateFailure(a.result))
        && (o.result != a.result ==> o.result == Err(UnexpectedError(CleanupFailed(NotFound))))
  {
    var a := HandleUploadProcess(root, items, fs);
    if a.result.Err? {
      RollbackPossibleIff(root, items, fs);
      HandleFailureKinds(root, items, fs);
    }
  }

  /**
   * When the original error survives, every recorded path is gone, including
   * a file that existed there before the request, and every other path is as
   * it was before the request.
   */
  lemma FailedUploadRestoresFiles(root: string, items: seq<Item>, fs: FileSystem, q: string)
    requires HandleUploadProcess(root, items, fs).result.Err?
    requires Upload(root, items, fs).result == HandleUploadProcess(root, items, fs).result
    ensures Lookup(Upload(root, items, fs).fs, q)
         == if q in HandleUploadProcess(root, items, fs).recorded then None else Lookup(fs, q)
  {
    var a := HandleUploadProcess(root, items, fs);
    HandleFailureKinds(root, items, fs);
    assert Removable(a.fs, a.recorded);
    if q in a.recorded {
      var i :| 0 <= i < |a.recorded| && a.recorded[i] == q;
    }
  }

  /** Two targets under the same directory are equal only for equal file names. */
  lemma TargetPathInjective(base: string, a: string, b: string)
    requires TargetPath(base, a) == TargetPath(base, b)
    ensures a == b
  {
    var n := |base + "/"|;
    assert a == TargetPath(base, a)[n..];
    assert b == TargetPath(base, b)[n..];
  }

  /**
   * A non-empty request succeeds only if its first field is a valid
   * `relative_path` followed by at least one part, each with a valid file
   * name and an intact body.
   */
  lemma SuccessfulUploadWellFormed(root: string, items: seq<Item>, fs: FileSystem)
    requires |items| > 0 && Upload(root, items, fs).result.Ok?
    ensures HasPathField(items) && |items| > 1
    ensures forall j :: 1 <= j < |items| ==> Accepted(items[j]) && Intact(items[j].part.body)
  {
    var base := BasePath(root, items[0].part.text.value);
    ProcessFilesStoresBodies(base, items[1..], fs);
    forall j | 1 <= j < |items|
      ensures Accepted(items[j]) && Intact(items[j].part.body)
    {
      assert items[j] == items[1..][j - 1];
    }
  }

  /**
   * After a successful upload, the file at `{root}/{relative_path}/{file_name}`
   * of part `j` holds exactly that part's body, unless a later part has the
   * same file name (and so overwrote it).
   */
  lemma SuccessfulUploadStoresBodies(root: string, items: seq<Item>, fs: FileSystem, j: nat)
    requires Upload(root, items, fs).result.Ok?
    requires HasPathField(items) && 1 <= j < |items| && Accepted(items[j])
    requires forall k :: j < k < |items| ==> items[k].part.fileName != items[j].part.fileName
    ensures Lookup(Upload(root, items, fs).fs,
                   TargetPath(BasePath(root, items[0].part.text.value), items[j].part.fileName.value))
            == Some(Concat(items[j].part.body))
  {
    var base := BasePath(root, items[0].part.text.value);
    var files := ProcessFiles(base, items[1..], fs);
    assert HandleUploadProcess(root, items, fs).fs == files.fs;
    ProcessFilesStoresBodies(base, items[1..], fs);
    assert items[j] == items[1..][j - 1];
    forall k | j - 1 < k < |files.recorded| ensures files.recorded[k] != files.recorded[j - 1] {
      assert items[1..][k] == items[k + 1];
      if files.recorded[k] == files.recorded[j - 1] {
        TargetPathInjective(base, items[k + 1].part.fileName.value, items[j].part.fileName.value);
      }
    }
    assert LastWrite(files.recorded, j - 1);
  }

  /** The head and the tail of a non-empty prefix. */
  lemma SlicePrefixTail<T>(items: seq<T>, n: nat)
    requires 0 < n <= |items|
    ensures items[..n][0] == items[0]
    ensures items[..n][1..] == items[1..][..n - 1]
  {
  }

  /** Dropping the head of `items[..n] + extra` is slicing the tail. */
  lemma SliceAfterHead<T>(items: seq<T>, n: nat, extra: seq<T>)
    requires 0 < n <= |items|
    ensures (items[..n] + extra)[1..] == items[1..][..n - 1] + extra
  {
  }
}
