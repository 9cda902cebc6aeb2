/** Entities of the shared-file registry: a shared file, the downloads that
    peers started on it, and the value view of the whole files slice. */
module Types {

  datatype Option<T> = None | Some(value: T)

  /** A download's status: the source's string union 'progress' | 'success' | 'failed'. */
  datatype Status = InProgress | Success | Failed

  /** The browser `File` behind a share. It cannot be serialised; the model
      only needs to tell two handles apart. */
  datatype Blob = Blob(handle: nat)

  /** One peer pulling a shared file. `progress` is the upload's reported
      value, kept opaque (only stored and compared); `streamHash` is optional
      in the source's type. */
  datatype Download = Download(ip: string, progress: real, status: Status, streamHash: Option<string>)

  /** One shared file; `hash` is the share hash issued by the backend. */
  datatype FileItem = FileItem(filename: string, size: nat, hash: string, blob: Blob, downloads: seq<Download>)

  /** A download-request message received on a share's topic. */
  datatype DownloadResponse = DownloadResponse(ip: string, shareHash: string, streamHash: string)

  /** The files slice as a value: what `store.getState().files` returns. */
  datatype FilesState = FilesState(sharedFiles: seq<FileItem>, pendingFiles: seq<string>, socketConnected: bool)

  /** The slice's initial state. */
  const InitialState := FilesState([], [], false)

  /** The lookup key of the reducers and updaters: same peer address and the
      given stream hash (a download without a stream hash never matches). */
  predicate KeyMatches(d: Download, ip: string, streamHash: string)
  {
    d.ip == ip && d.streamHash == Some(streamHash)
  }
}
