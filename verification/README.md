# crumbbox upload core in Dafny

This project models the upload service's core: the `POST /upload` handler that
receives a multipart form. The form's first field names a directory relative to
the storage root. The handler then streams every following file part to disk.
If anything fails partway through, it removes the files it recorded and answers
with a typed error. The model also covers the file-name validator the handler
calls, and the `Environment` setting that picks the configuration layer.

Modules, one per source component:

- `Base`: Rust's `Option`, `Result`, `()` and bytes.
- `Utf8`: the UTF-8 byte length of a string. Rust's `str::len` counts bytes, and a Dafny `char` is a Unicode scalar value.
- `FileNameValidator`: `validate_file_name` (`src/validators/file_name_validator.rs`).
- `Configuration`: `Environment`, `as_str`, `TryFrom<String>` and the `"local"` default (`src/configuration.rs`).
- `Storage`: an abstract filesystem standing in for tokio's `File::create`, its writes and `fs::remove_file`. It holds a map from path strings to bytes, a set of existing directories and a count of free bytes.
  - Create fails when the parent directory is missing or the path is a directory.
  - Create truncates an existing file.
  - A write larger than the free space fails.
  - Remove fails when there is no such file.
- `Multipart`: the parsed request, a single-pass sequence of items. Each item is either a part or a transport error. A part has an optional field name, an optional file name, the outcome of `Field::text` (`None` when it fails), and its body as a sequence of chunks. Any chunk may be a read failure.
- `UploadHandler`: `UploadError` and `into_response`, `get_multipart_field`, `stream_to_file`, one iteration of the upload loop, the loop itself, `handle_upload_process`, `cleanup_failed_files` and `upload`.
- `UploadProperties`: the lemmas that relate several calls or need induction over the request.

The engine is a set of pure functions. Each takes the storage root, the items
and the filesystem. It returns the result, the new filesystem, the recorded
paths and the number of items read.

## Model

| member | source | states |
|---|---|---|
| `Utf8.LenBounds` | src/validators/file_name_validator.rs:3 | the byte length of a name lies between its code-point count and four times that count |
| `FileNameValidator.TrimStart` | src/validators/file_name_validator.rs:2 | `trim_start` removes exactly a leading run of whitespace, and what remains starts with a non-whitespace code point or is empty |
| `FileNameValidator.TrimEnd` | src/validators/file_name_validator.rs:2 | `trim_end` removes exactly a trailing run of whitespace, and what remains ends with a non-whitespace code point or is empty |
| `FileNameValidator.TrimEmptyIff` | src/validators/file_name_validator.rs:2 | `s.trim().is_empty()` holds exactly when every code point of `s` is whitespace, including when `s` is empty |
| `FileNameValidator.ValidateFileName` | src/validators/file_name_validator.rs:1-16 | the result is `Ok(())` iff the name has a non-whitespace code point, is at most 255 UTF-8 bytes, has no control character and is not exactly `..`, `/` or NUL; otherwise it is `Err("Invalid file name: " + s)` |
| `FileNameValidator.RejectsOver255CodePoints` | src/validators/file_name_validator.rs:3 | every name of more than 255 code points is rejected |
| `FileNameValidator.ShortNamesFitByteLimit` | src/validators/file_name_validator.rs:3 | no name of at most 63 code points is too long |
| `FileNameValidator.ByteLimitBoundary` | src/validators/file_name_validator.rs:3 | exactly 255 bytes passes; 128 two-byte code points (256 bytes) fail, so length counts bytes and not characters |
| `FileNameValidator.RejectsNul` | src/validators/file_name_validator.rs:4 | any name containing NUL is rejected with the usual message |
| `FileNameValidator.AcceptsVisibleAscii` | src/validators/file_name_validator.rs:7-15 | a name of 1 to 255 visible ASCII characters passes iff it is not on the deny-list |
| `FileNameValidator.DeniedNamesRejected` | src/validators/file_name_validator.rs:5 | `..` and `/` are rejected |
| `FileNameValidator.SlashInsideNameAccepted` | src/validators/file_name_validator.rs:10 | the deny-list matches whole names only, so `a/b` is accepted |
| `FileNameValidator.ParentPrefixAccepted` | src/validators/file_name_validator.rs:10 | `../x` is accepted |
| `FileNameValidator.SingleDotAccepted` | src/validators/file_name_validator.rs:10 | `.` is accepted |
| `Configuration.AsStr` | src/configuration.rs:42-47 | `Local` prints as `local` and `Production` as `production` |
| `Configuration.TryFrom` | src/configuration.rs:50-63 | parsing succeeds exactly on the two printed names, returns the variant that prints as the input, and otherwise returns `"<s> is not a valid environment. Use local or production"` |
| `Configuration.ParsePrintRoundTrip` | src/configuration.rs:42-62 | `try_from(as_str(e)) == Ok(e)` for both variants |
| `Configuration.PrintParseRoundTrip` | src/configuration.rs:42-62 | if `try_from(s) == Ok(e)` then `as_str(e) == s`, so `as_str` is injective |
| `Configuration.ParseIsCaseSensitive` | src/configuration.rs:54-60 | `Local` and `PRODUCTION` are not environments |
| `Configuration.ResolveEnvironment` | src/configuration.rs:21-24 | an unreadable `APP_ENVIRONMENT` resolves to `Local`; a readable one is parsed as is |
| `Storage.Create` | src/routes/upload.rs:112 | create succeeds iff the parent directory exists and the path is not a directory; it leaves an empty file, gives back the space of the contents it truncated, and touches no other path |
| `Storage.RemoveFile` | src/routes/upload.rs:133 | removal succeeds iff the file exists, and afterwards the path is absent; other paths are untouched |
| `UploadHandler.IntoResponse` | src/routes/upload.rs:16-33 | status 400 iff a validation error and 500 iff an unexpected error; the body is the error's display, which for a validation error is its message |
| `UploadHandler.Respond` | src/routes/upload.rs:39-42 | status 200 with an empty body iff the handler returned `Ok(())`; otherwise the error's response |
| `UploadHandler.NextField` | src/routes/upload.rs:122-129 | end of stream gives `Ok(None)`, a part gives that part, and a transport error becomes an unexpected error carrying its message |
| `UploadHandler.CopyBody` | src/routes/upload.rs:106-117 | the copy completes iff no chunk fails to read and the body fits in the free space; the file then ends with exactly the body's bytes; on failure it gained a prefix of them |
| `UploadHandler.StreamToFile` | src/routes/upload.rs:101-118 | success iff the file can be created, the body is intact and it fits; on success the file holds exactly the body; a failed create changes nothing; a failed copy leaves the file in place |
| `UploadHandler.HandleFilePart` | src/routes/upload.rs:80-90 | a part's path is recorded iff its file name is present and valid, and that happens before its write, so a failed write is recorded too; a missing name is unexpected and an invalid name is a validation error with the validator's message |
| `UploadHandler.ProcessFiles` | src/routes/upload.rs:80-90 | the recorded paths are, in order, `{base}/{file_name}` of the first parts read, each with a valid name; success means every item was read and recorded; nothing outside the recorded paths changes |
| `UploadHandler.HandleUploadProcess` | src/routes/upload.rs:64-99 | an empty request succeeds doing nothing; a bad first field writes nothing; recorded path `j` is `{root}/{relative_path}/{file_name}` of part `j + 1`; success needs at least one file part |
| `UploadHandler.RemovableStep` | src/routes/upload.rs:131-137 | removing a list in order cannot fail iff its head exists and its tail cannot fail once the head is gone |
| `UploadHandler.RemovedCount` | src/routes/upload.rs:132-133 | the index of the first removal that fails: the longest prefix of distinct existing files, which is the whole list iff the list is removable |
| `UploadHandler.CleanupFailedFiles` | src/routes/upload.rs:131-137 | cleanup succeeds iff the paths are distinct existing files, and a failure is `NotFound`. In both cases the paths before the first failing removal are gone and every other path keeps its contents, the later paths of the list included. |
| `UploadHandler.Upload` | src/routes/upload.rs:39-58 | success iff the process succeeded, with nothing removed. After a failure whose cleanup succeeds, the original error is returned and every recorded path is gone. If cleanup fails, the result is `Cleanup failed`; the recorded paths before the failing removal are gone and the later ones keep what the process wrote. Unrecorded paths are never touched. |
| `UploadProperties.ProcessFilesFailure` | src/routes/upload.rs:80-90 | the item that ended a failed loop decides the error. A transport error is passed on. A missing file name is unexpected. An invalid name is `ValidationError("Invalid file name: ...")`. A recorded part failed in its write. |
| `UploadProperties.ProcessFilesRecordedExist` | src/routes/upload.rs:85-89 | from a well-formed filesystem, every recorded path exists when the loop ends, unless the last part's file could not be created |
| `UploadProperties.ProcessFilesStoresBodies` | src/routes/upload.rs:101-117 | after a successful loop every body was intact, and each recorded path holds its part's bytes unless a later part wrote the same path |
| `UploadProperties.ProcessFilesIgnoresUnread` | src/routes/upload.rs:80-90 | after a failure, replacing everything after the items read changes nothing: the loop reads nothing after the item that ended it |
| `UploadProperties.ProcessFilesPrefixOk` | src/routes/upload.rs:80-90 | the items read before the one that ended a failed loop succeed on their own, so that item was the first to fail: the loop stops at the first error |
| `UploadProperties.HandleIgnoresUnread` | src/routes/upload.rs:64-99 | the same for `handle_upload_process`, for every error other than "no files" |
| `UploadProperties.UploadIgnoresUnread` | src/routes/upload.rs:39-58 | the same for `upload`, result and files included |
| `UploadProperties.HandleFailureKinds` | src/routes/upload.rs:64-99 | the process never reports a cleanup failure; only `upload` does |
| `UploadProperties.EmptyRequestSucceeds` | src/routes/upload.rs:69-98 | a request with no fields gives `Ok(())`, an empty 200, and an unchanged filesystem |
| `UploadProperties.MisnamedPathFieldRejected` | src/routes/upload.rs:70-74 | a first field named anything but `relative_path` gives `ValidationError("Expected field name 'relative_path'")`, status 400, filesystem unchanged |
| `UploadProperties.UnreadablePathFieldFails` | src/routes/upload.rs:69-76 | a transport error on the first read, a nameless first field, or a `relative_path` field whose `Field::text` fails gives an unexpected error, status 500, filesystem unchanged |
| `UploadProperties.PathFieldAloneRejected` | src/routes/upload.rs:78-96 | a valid `relative_path` field with nothing after it gives `ValidationError("No files were in the multipart form")` and changes nothing |
| `UploadProperties.FirstInvalidFileNameRejected` | src/routes/upload.rs:82-83 | an invalid name on the first file part gives the validator's message as a 400 and writes nothing |
| `UploadProperties.CreateFailureReportedAsCleanupFailure` | src/routes/upload.rs:44-56 | if the first file cannot be created (say its directory is missing), its recorded path cannot be removed, so the client gets `Cleanup failed` and the filesystem is unchanged |
| `UploadProperties.CleanupStopsAtFirstFailure` | src/routes/upload.rs:132-133 | removing `[c, a]` with `c` missing fails at once and leaves `a` in place: the `?` ends the loop |
| `UploadProperties.HandleRecordedExist` | src/routes/upload.rs:85-89 | after the process, all recorded paths exist iff the failure, if any, was not at file creation |
| `UploadProperties.RollbackPossibleIff` | src/routes/upload.rs:131-137 | after a failed process, removing the recorded paths in order succeeds iff they are distinct and the failure was not at file creation |
| `UploadProperties.FailedUploadRollsBack` | src/routes/upload.rs:46-56 | after a failure, the original error survives iff the recorded paths are distinct and the failure was not at creation; otherwise the client gets `Cleanup failed` |
| `UploadProperties.FailedUploadRestoresFiles` | src/routes/upload.rs:52-55 | when the original error survives, every recorded path is gone, even a file that existed before the request, and every other path is as before |
| `UploadProperties.TargetPathInjective` | src/routes/upload.rs:85 | under one base directory, two targets are equal only for equal file names |
| `UploadProperties.SuccessfulUploadWellFormed` | src/routes/upload.rs:69-98 | a non-empty request that succeeds had a valid `relative_path` field and at least one part, and every part had a valid file name and an intact body |
| `UploadProperties.SuccessfulUploadStoresBodies` | src/routes/upload.rs:101-117 | after success, `{root}/{relative_path}/{file_name}` holds exactly the part's bytes unless a later part formats to the same target string. The intent matches the byte-identity test at tests/api/upload.rs:44-65, but that test's request has no `relative_path` field, so the handler rejects it (see "Behaviour worth knowing"). |

## Behaviour worth knowing

- A request with no fields at all returns `Ok(())`: the `if let` at src/routes/upload.rs:69 has no `else`, and line 98 returns `Ok(())`.
- The first field is checked only by name (src/routes/upload.rs:70). A first part that also carries a file name serves as the path field.
- When `Field::text` fails on the `relative_path` field, the result is `Failed to get text`, an unexpected error answered with 500 (src/routes/upload.rs:76).
- The deny-list is matched by whole-string equality (src/validators/file_name_validator.rs:5 and 10), so `a/b`, `../x` and `.` are accepted.
- A file's path is recorded (src/routes/upload.rs:86) before its write starts (lines 87-89). So the file being written when a failure happens is recorded and removed too. A file whose create failed is recorded as well, and the cleanup then fails on it.
- A failed removal stops the cleanup (src/routes/upload.rs:133). The later recorded paths stay as the process left them, and `Cleanup failed` replaces the original error (lines 52-54).
- The tests at tests/api/upload.rs:10-27 and 44-65 post one part named `file` with no `relative_path` field, and expect 200 with the file stored at `{storage}/{file_name}`. The handler answers that request with 400 and `Expected field name 'relative_path'` (src/routes/upload.rs:70-73), as `UploadProperties.MisnamedPathFieldRejected` states.

## Left out

- Multipart framing and the framework's `next_field`, `Field::text` and `Field::file_name` are library code. A part carries their outcomes: the text (or `None` when `Field::text` fails) and the optional names. A transport error is an item.
- Asynchronous I/O, tokio's `BufWriter`, chunk sizes, back-pressure and flushing are left out. A write is an append to a map entry.
- UploadHandler.CopyBody: on failure it promises only that the file holds a prefix of the body, because buffered bytes make the real partial contents unspecified. The function itself keeps the chunks appended before the failing one.
- Path normalisation is left out. Paths are compared as the strings the handler formats. So `root//x` and `root/x` are different keys, `a` and `./a` are different files, and `..` is not resolved. A name ending in `/`, such as `a/` where `{base}/a` is a directory, can be created in the model, though the operating system refuses it. A directory counts as existing only in the spelling listed in the filesystem. So `LastWrite`, `Distinct`, `ProcessFilesStoresBodies` and `SuccessfulUploadStoresBodies` speak of equal target strings: two names the validator accepts that denote one file on disk (`a` and `./a`) are two entries in the model, while on disk the later write replaces the earlier bytes and the second removal in a cleanup fails.
- The filesystem is a closed world. Create fails only for a missing parent directory or a directory in the way, a write only for lack of space, and a removal only for a missing file. Permission errors and other I/O failures are not modelled: for example, `File::create` on an existing read-only file fails while the file exists, and its removal may then succeed. The "iff" statements of `HandleRecordedExist`, `ProcessFilesRecordedExist`, `RollbackPossibleIff` and `FailedUploadRollsBack`, and `CreateFailureReportedAsCleanupFailure`, hold in this closed world.
- Disk-full behaviour is a per-chunk check against a free-byte count. The operating system's exact partial-write behaviour is left out.
- Concurrency between requests and cancellation timing belong to the task scheduler, not to the sequential logic.
- Tracing and logging (`tracing::warn!`, `tracing::error!`, the `#[instrument]` attributes and `src/telemetry.rs`) have no effect on results.
- `Settings::get_configuration` reads the working directory, files and the environment through the `config` crate. Only the `Environment` enum and its default are modelled. The `.expect` panic on a bad value is the `Err` result of `ResolveEnvironment`.
- Server wiring (`src/main.rs`, `src/startup.rs`, `src/routes/health_check.rs`) is listener and routing plumbing. `src/startup.rs` mounts only `/health_check`.
- The test harness in `tests/api/` is network code. `tests/api/upload.rs` uses a `storage_path` that `TestApp` lacks, so its assertions are read as statements of intent only.
- `crate::domain::StorageDetails` is not part of this model. The storage root is a plain string parameter.
- The text of a framework transport error is whatever message the item carries.
