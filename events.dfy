/** SyncOutMessage: the outcome events the worker emits to its observer. */
module Events {
  import opened Options
  import opened FileSystem

  datatype EventKind = FolderCreated | FileCopied | FileUpdated

  /**
    * SyncOutMessage(type, path, path2, error, errorString): path2 is absent for
    * FolderCreated, the error text is absent on success and for a failed mkdir.
    */
  datatype Event = Event(kind: EventKind, path: Path, path2: Option<Path>, error: bool, errorText: Option<string>)
}
