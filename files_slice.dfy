/** The Redux files slice. Its reducers mutate the state in place (push,
    indexed field assignment, field reassignment), so the slice is a class
    whose fields are the state and whose reducers are methods. Every reducer
    says what its field becomes and that the other fields are unchanged. */
module FilesSlice {
  import opened Types
  import opened FileTable

  class Slice {
    var sharedFiles: seq<FileItem>
    var pendingFiles: seq<string>
    var socketConnected: bool

    /** The state as a value, as `store.getState().files` sees it. */
    function State(): FilesState
      reads this
    {
      FilesState(sharedFiles, pendingFiles, socketConnected)
    }

    constructor ()
      ensures State() == InitialState
    {
      sharedFiles := [];
      pendingFiles := [];
      socketConnected := false;
    }

    method SetSharedFiles(files: seq<FileItem>)
      modifies this
      ensures State() == old(State()).(sharedFiles := files)
    {
      sharedFiles := files;
    }

    method AddSharedFile(item: FileItem)
      modifies this
      ensures State() == old(State()).(sharedFiles := old(sharedFiles) + [item])
      ensures |sharedFiles| == |old(sharedFiles)| + 1 && sharedFiles[|sharedFiles| - 1] == item
      ensures forall k :: 0 <= k < |old(sharedFiles)| ==> sharedFiles[k] == old(sharedFiles)[k]
    {
      sharedFiles := sharedFiles + [item];
    }

    method RemoveSharedFile(hash: string)
      modifies this
      ensures State() == old(State()).(sharedFiles := WithoutHash(old(sharedFiles), hash))
      ensures forall f :: f in sharedFiles ==> f.hash != hash
    {
      sharedFiles := WithoutHash(sharedFiles, hash);
    }

    method UpdateFileDownloads(hash: string, downloads: seq<Download>)
      modifies this
      ensures State() == old(State()).(sharedFiles := ReplaceDownloads(old(sharedFiles), hash, downloads))
    {
      var i := FindFile(sharedFiles, hash);
      if i != -1 {
        sharedFiles := sharedFiles[i := sharedFiles[i].(downloads := downloads)];
      }
    }

    /** Sets the progress of the download found by both lookups, in place;
        a failed lookup changes nothing. */
    method UpdateDownloadProgress(hash: string, ip: string, streamHash: string, progress: real)
      modifies this
      ensures State() == old(State()).(sharedFiles := PatchDownload(old(sharedFiles), hash, ip, streamHash, SetProgress(progress)))
    {
      var i := FindFile(sharedFiles, hash);
      if i != -1 {
        var j := FindDownload(sharedFiles[i].downloads, ip, streamHash);
        if j != -1 {
          var ds := sharedFiles[i].downloads;
          sharedFiles := sharedFiles[i := sharedFiles[i].(downloads := ds[j := ds[j].(progress := progress)])];
        }
      }
    }

    /** Overwrites the status whatever it was: there is no guard against
        reopening a 'success' or 'failed' download. */
    method UpdateDownloadStatus(hash: string, ip: string, streamHash: string, status: Status)
      modifies this
      ensures State() == old(State()).(sharedFiles := PatchDownload(old(sharedFiles), hash, ip, streamHash, SetStatus(status)))
    {
      var i := FindFile(sharedFiles, hash);
      if i != -1 {
        var j := FindDownload(sharedFiles[i].downloads, ip, streamHash);
        if j != -1 {
          var ds := sharedFiles[i].downloads;
          sharedFiles := sharedFiles[i := sharedFiles[i].(downloads := ds[j := ds[j].(status := status)])];
        }
      }
    }

    /** Pushes onto the first file with the hash, without any duplicate check. */
    method AddDownload(hash: string, download: Download)
      modifies this
      ensures State() == old(State()).(sharedFiles := AppendDownload(old(sharedFiles), hash, download))
    {
      var i := FindFile(sharedFiles, hash);
      if i != -1 {
        sharedFiles := sharedFiles[i := sharedFiles[i].(downloads := sharedFiles[i].downloads + [download])];
      }
    }

    method SetPendingFiles(pending: seq<string>)
      modifies this
      ensures State() == old(State()).(pendingFiles := pending)
    {
      pendingFiles := pending;
    }

    /** Pushes even when the hash is already pending. */
    method AddPendingFile(hash: string)
      modifies this
      ensures State() == old(State()).(pendingFiles := old(pendingFiles) + [hash])
      ensures multiset(pendingFiles)[hash] == multiset(old(pendingFiles))[hash] + 1
    {
      pendingFiles := pendingFiles + [hash];
    }

    method RemovePendingFile(hash: string)
      modifies this
      ensures State() == old(State()).(pendingFiles := WithoutPending(old(pendingFiles), hash))
      ensures hash !in pendingFiles
    {
      pendingFiles := WithoutPending(pendingFiles, hash);
    }

    method ReorderFiles(files: seq<FileItem>)
      modifies this
      ensures State() == old(State()).(sharedFiles := files)
    {
      sharedFiles := files;
    }

    method SetSocketConnected(connected: bool)
      modifies this
      ensures State() == old(State()).(socketConnected := connected)
      ensures sharedFiles == old(sharedFiles) && pendingFiles == old(pendingFiles)
    {
      socketConnected := connected;
    }
  }
}
