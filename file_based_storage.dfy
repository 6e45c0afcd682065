/**
 * A scan results cache kept in a file storage: one entry per package, at a path derived from its
 * identifier, holding the package's scan result container. Reading a missing entry yields an empty
 * container; any other problem yields a failure. Adding a result reads the entry, appends the result and
 * writes the entry back.
 *
 * Concurrent writers to the same entry are not modelled: two processes that read, append and write the same
 * entry at the same time can lose one of the two results (the last writer wins).
 */
module Storages {
  import opened Wrappers
  import opened Model

  /** The name of the file that holds a package's scan results. */
  const SCAN_RESULTS_FILE_NAME: string := "scan-results.yml"

  /** The directory of a package in the storage: its four components joined by slashes. */
  function ToPath(id: Identifier): string {
    id.kind + "/" + id.namespace + "/" + id.name + "/" + id.version
  }

  /** The coordinates of a package as shown in messages. */
  function ToCoordinates(id: Identifier): string {
    id.kind + ":" + id.namespace + ":" + id.name + ":" + id.version
  }

  /** The key under which the scan results of `id` are stored: the package's directory and the file name. */
  function StoragePath(id: Identifier): (p: string)
    ensures |p| == |ToPath(id)| + 1 + |SCAN_RESULTS_FILE_NAME|
    ensures p[..|ToPath(id)|] == ToPath(id)
    ensures p[|ToPath(id)|..] == "/scan-results.yml"
  {
    ToPath(id) + "/" + SCAN_RESULTS_FILE_NAME
  }

  /** The exceptions the backend or the deserializer can raise. */
  datatype Exception =
    | FileNotFound(message: string)
    | IOError(message: string)
    | IllegalArgument(message: string)
    | Unexpected(message: string)

  /** A file-not-found exception is a kind of I/O exception. */
  predicate IsIOException(e: Exception) {
    e.FileNotFound? || e.IOError?
  }

  /**
   * What a key of the backend holds: a serialized container that reads back as that container, or content
   * that cannot be read or deserialized, with the reason.
   */
  datatype Entry = Stored(container: ScanResultContainer) | Unreadable(cause: string)

  /** How a storage operation ends: it returns a result, or an exception escapes it. */
  datatype Outcome<T> = Returned(result: Result<T, string>) | Thrown(exception: Exception)

  function ReadFailureMessage(id: Identifier, cause: string): string {
    "Could not read scan results for '" + ToCoordinates(id) + "' from path '" + StoragePath(id) + "': " + cause
  }

  function WriteFailureMessage(id: Identifier, cause: string): string {
    "Could not store scan result for '" + ToCoordinates(id) + "' at path '" + StoragePath(id) + "': " + cause
  }

  /**
   * Reading the scan results of `id` from the backend `files`: a missing entry is an empty container for
   * `id`, an unreadable one is a failure, and a readable one is the stored container.
   */
  function Read(files: map<string, Entry>, id: Identifier): (r: Result<ScanResultContainer, string>)
    ensures StoragePath(id) !in files ==> r == Success(ScanResultContainer(id, []))
    ensures r.Failure? <==> StoragePath(id) in files && files[StoragePath(id)].Unreadable?
    ensures r.Failure? ==> r.error == ReadFailureMessage(id, files[StoragePath(id)].cause)
    ensures StoragePath(id) in files && files[StoragePath(id)].Stored? ==> r == Success(files[StoragePath(id)].container)
  {
    var path := StoragePath(id);
    if path !in files then Success(ScanResultContainer(id, []))
    else match files[path]
      case Stored(container) => Success(container)
      case Unreadable(cause) => Failure(ReadFailureMessage(id, cause))
  }

  /** The results an add starts from: those read, or none if the read failed. */
  function ExistingResults(files: map<string, Entry>, id: Identifier): seq<ScanResult> {
    match Read(files, id)
    case Success(container) => container.results
    case Failure(_) => []
  }

  /** How an add ends, given the exception the backend's write raised, if any. */
  function AddOutcome(id: Identifier, writeError: Option<Exception>): (r: Outcome<()>)
    ensures writeError.None? <==> r == Returned(Success(()))
    ensures r.Returned? && r.result.Failure? <==>
      writeError.Some? && (writeError.value.IllegalArgument? || IsIOException(writeError.value))
    ensures r.Thrown? <==> writeError.Some? && writeError.value.Unexpected?
    ensures r.Thrown? ==> r.exception == writeError.value
  {
    match writeError
    case None => Returned(Success(()))
    case Some(e) =>
      if e.IllegalArgument? || IsIOException(e) then Returned(Failure(WriteFailureMessage(id, e.message)))
      else Thrown(e)
  }

  /**
   * The backend after an add: when the write succeeds, the key of `id` holds the existing results followed
   * by the new one; when it raises, the backend is as before.
   */
  function AfterAdd(files: map<string, Entry>, id: Identifier, scanResult: ScanResult, writeError: Option<Exception>): map<string, Entry> {
    if writeError.None?
    then files[StoragePath(id) := Stored(ScanResultContainer(id, ExistingResults(files, id) + [scanResult]))]
    else files
  }

  /** The file based scan results storage over a backend that maps paths to entries. */
  class FileBasedStorage {
    var backend: map<string, Entry>

    constructor (backend: map<string, Entry>)
      ensures this.backend == backend
    {
      this.backend := backend;
    }

    /**
     * Reads the scan results of `id`, step by step as the storage does: look the path up, then decode the
     * entry. `Read` is its specification.
     */
    method ReadInternal(id: Identifier) returns (r: Result<ScanResultContainer, string>)
      ensures r == Read(backend, id)
    {
      var path := StoragePath(id);
      if path !in backend {
        // No scan results have been stored for this package yet.
        r := Success(ScanResultContainer(id, []));
      } else {
        match backend[path]
        case Stored(container) => r := Success(container);
        case Unreadable(cause) => r := Failure(ReadFailureMessage(id, cause));
      }
    }

    /**
     * Appends `scanResult` to the scan results of `id`. The backend's write raises `writeError`, if that
     * is given.
     */
    method AddInternal(id: Identifier, scanResult: ScanResult, writeError: Option<Exception>) returns (r: Outcome<()>)
      modifies this
      ensures r == AddOutcome(id, writeError)
      ensures backend == AfterAdd(old(backend), id, scanResult, writeError)
    {
      var readResult := ReadInternal(id);
      var existing := if readResult.Success? then readResult.value.results else [];
      var scanResults := ScanResultContainer(id, existing + [scanResult]);
      var path := StoragePath(id);
      match writeError {
        case None =>
          backend := backend[path := Stored(scanResults)];
          r := Returned(Success(()));
        case Some(e) =>
          if e.IllegalArgument? || IsIOException(e) {
            r := Returned(Failure(WriteFailureMessage(id, e.message)));
          } else {
            r := Thrown(e);
          }
      }
    }
  }

  /** After a successful add, a read yields the results read before, followed by the new one. */
  lemma ReadAfterAdd(files: map<string, Entry>, id: Identifier, scanResult: ScanResult)
    ensures Read(AfterAdd(files, id, scanResult, None), id) ==
            Success(ScanResultContainer(id, ExistingResults(files, id) + [scanResult]))
  {
  }

  /** An add after a failed read stores the new result alone. */
  lemma AddAfterFailedRead(files: map<string, Entry>, id: Identifier, scanResult: ScanResult)
    requires Read(files, id).Failure?
    ensures AfterAdd(files, id, scanResult, None)[StoragePath(id)] == Stored(ScanResultContainer(id, [scanResult]))
  {
  }

  /** An add writes the key of its package and no other. */
  lemma AddKeepsOtherKeys(files: map<string, Entry>, id: Identifier, scanResult: ScanResult, writeError: Option<Exception>, key: string)
    requires key != StoragePath(id)
    ensures key in AfterAdd(files, id, scanResult, writeError) <==> key in files
    ensures key in files ==> AfterAdd(files, id, scanResult, writeError)[key] == files[key]
  {
  }

  /** The backend after the results `scanResults` were added one by one, every write succeeding. */
  function AddAll(files: map<string, Entry>, id: Identifier, scanResults: seq<ScanResult>): map<string, Entry>
    decreases |scanResults|
  {
    if scanResults == [] then files
    else AddAll(AfterAdd(files, id, scanResults[0], None), id, scanResults[1..])
  }

  /**
   * A single writer that adds one or more results to one package can read back every one of them, in the
   * order in which they were added, after the results that were there before.
   */
  lemma {:induction false} AddAllAppends(files: map<string, Entry>, id: Identifier, scanResults: seq<ScanResult>)
    requires scanResults != []
    ensures Read(AddAll(files, id, scanResults), id) ==
            Success(ScanResultContainer(id, ExistingResults(files, id) + scanResults))
    decreases |scanResults|
  {
    var next := AfterAdd(files, id, scanResults[0], None);
    ReadAfterAdd(files, id, scanResults[0]);
    if scanResults[1..] == [] {
      assert scanResults == [scanResults[0]];
    } else {
      AddAllAppends(next, id, scanResults[1..]);
      assert ExistingResults(next, id) == ExistingResults(files, id) + [scanResults[0]];
      assert ExistingResults(files, id) + [scanResults[0]] + scanResults[1..] == ExistingResults(files, id) + scanResults;
    }
  }
}
