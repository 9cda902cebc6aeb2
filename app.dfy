/** The App component's core: the bounded reconnect policy around the
    message-channel connection, and the state updaters that record a new
    share, a download request, the upload's progress/success/error callbacks
    and an unshare. The updaters are pure functions from the previous file
    list to the next; `connect` and the upload are external and appear only
    through their outcomes. */
module App {
  import opened Types
  import opened FileTable

  /** `maxRetries`. */
  const MaxRetries: nat := 3

  /** The connection flags the effect maintains: the `retryCount` closure
      variable, the `socketConnected` ref and the `isConnected` state. */
  class Connection {
    var retryCount: nat
    var socketConnected: bool
    var isConnected: bool

    constructor ()
      ensures retryCount == 0 && !socketConnected && !isConnected
    {
      retryCount := 0;
      socketConnected := false;
      isConnected := false;
    }

    /** The `connect` success callback. */
    method OnConnected()
      modifies this
      ensures socketConnected && isConnected && retryCount == 0
    {
      socketConnected := true;
      isConnected := true;
      retryCount := 0;
    }

    /** The `connect` error callback, before it schedules the next attempt. */
    method OnError()
      modifies this
      ensures !socketConnected && !isConnected && retryCount == old(retryCount) + 1
    {
      socketConnected := false;
      isConnected := false;
      retryCount := retryCount + 1;
    }

    /** `reconnect()` and every retry it schedules, each retry one step (the
        two-second delay is not modelled). `connectSucceeds(k)` is the outcome
        of the k-th `connect` call of this run; `attempts` is how many calls
        were made. The run ends connected with the counter reset, or gives up
        once the counter reaches `MaxRetries`. */
    method Reconnect(connectSucceeds: nat -> bool) returns (attempts: nat)
      modifies this
      ensures isConnected == socketConnected
      ensures forall k :: 0 <= k < attempts - 1 ==> !connectSucceeds(k)
      ensures isConnected <==> attempts > 0 && connectSucceeds(attempts - 1)
      ensures isConnected ==> retryCount == 0
      ensures !isConnected ==> retryCount == old(retryCount) + attempts && retryCount >= MaxRetries
      ensures attempts == 0 <==> old(retryCount) >= MaxRetries
      ensures old(retryCount) < MaxRetries ==> attempts <= MaxRetries - old(retryCount)
    {
      attempts := 0;
      ghost var start := retryCount;
      while true
        invariant retryCount == start + attempts
        invariant attempts > 0 ==> !socketConnected && !isConnected
        invariant forall k :: 0 <= k < attempts ==> !connectSucceeds(k)
        invariant start < MaxRetries ==> retryCount <= MaxRetries
        invariant attempts > 0 ==> start < MaxRetries
        decreases MaxRetries - retryCount
      {
        if retryCount >= MaxRetries {
          isConnected := false;
          socketConnected := false;
          return;
        }
        var ok := connectSucceeds(attempts);
        attempts := attempts + 1;
        if ok {
          OnConnected();
          return;
        }
        OnError();
      }
    }

    /** The effect's cleanup: `disconnect` always ends in its callback. */
    method Disconnect()
      modifies this
      ensures !socketConnected && !isConnected && retryCount == old(retryCount)
    {
      socketConnected := false;
      isConnected := false;
    }
  }

  /** The effect run on mount: a fresh counter, then `reconnect()`. It ends
      connected exactly when one of the first `MaxRetries` attempts succeeds,
      after the first success; otherwise `connect` was called exactly
      `MaxRetries` times. */
  method ConnectOnMount(connectSucceeds: nat -> bool) returns (attempts: nat, connected: bool)
    ensures connected <==> exists k :: 0 <= k < MaxRetries && connectSucceeds(k)
    ensures connected ==> 0 < attempts <= MaxRetries && connectSucceeds(attempts - 1)
    ensures forall k :: 0 <= k < attempts - 1 ==> !connectSucceeds(k)
    ensures !connected ==> attempts == MaxRetries
  {
    var c := new Connection();
    attempts := c.Reconnect(connectSucceeds);
    connected := c.isConnected;
    if !connected {
      assert forall k :: 0 <= k < MaxRetries ==> !connectSucceeds(k);
    }
  }

  /** A connection that succeeded and is then lost: the error callback counts
      the loss as one failure before it schedules `reconnect()`, so the
      follow-up run has one attempt fewer than the run on mount. It ends
      connected exactly when one of its first `MaxRetries - 1` attempts
      succeeds; otherwise `connect` was called exactly `MaxRetries - 1` times. */
  method ReconnectAfterLoss(connectSucceeds: nat -> bool) returns (attempts: nat, connected: bool)
    ensures attempts <= MaxRetries - 1
    ensures connected <==> exists k :: 0 <= k < MaxRetries - 1 && connectSucceeds(k)
    ensures connected ==> 0 < attempts && connectSucceeds(attempts - 1)
    ensures forall k :: 0 <= k < attempts - 1 ==> !connectSucceeds(k)
    ensures !connected ==> attempts == MaxRetries - 1
  {
    var c := new Connection();
    c.OnConnected();
    c.OnError();
    attempts := c.Reconnect(connectSucceeds);
    connected := c.isConnected;
    if !connected {
      assert forall k :: 0 <= k < MaxRetries - 1 ==> !connectSucceeds(k);
    }
  }

  /** The file the user picked. */
  datatype LocalFile = LocalFile(name: string, size: nat, blob: Blob)

  /** After a share is created: the next file list, and the topic subscribed
      to when the socket was connected. */
  datatype Shared = Shared(files: seq<FileItem>, subscription: Option<string>)

  /** The new share is appended to the live list, then a subscription to
      the share's topic only while the socket is connected. */
  function OnShared(prev: seq<FileItem>, file: LocalFile, shareHash: string, connected: bool): (r: Shared)
    ensures |r.files| == |prev| + 1 && r.files[..|prev|] == prev
    ensures var item := r.files[|prev|];
      item.filename == file.name && item.size == file.size && item.hash == shareHash &&
      item.blob == file.blob && item.downloads == []
    ensures r.subscription.Some? <==> connected
    ensures connected ==> r.subscription.value == "/topic/" + shareHash
  {
    var newItem := FileItem(file.name, file.size, shareHash, file.blob, []);
    Shared(prev + [newItem], if connected then Some("/topic/" + shareHash) else None)
  }

  /** Some file with the hash already has a download with the key. */
  ghost predicate HasTransfer(files: seq<FileItem>, hash: string, ip: string, streamHash: string)
  {
    exists k, j :: 0 <= k < |files| && 0 <= j < |files[k].downloads| &&
      files[k].hash == hash && KeyMatches(files[k].downloads[j], ip, streamHash)
  }

  /** Whether some download of a file has the key. */
  function SomeDownload(downloads: seq<Download>, ip: string, streamHash: string): (b: bool)
    ensures b <==> exists j :: 0 <= j < |downloads| && KeyMatches(downloads[j], ip, streamHash)
  {
    FindDownload(downloads, ip, streamHash) != -1
  }

  /** The index of the first file with the hash that already has a download
      with the key, or -1. */
  function FindTransferFile(files: seq<FileItem>, hash: string, ip: string, streamHash: string): (i: int)
    ensures -1 <= i < |files|
    ensures i == -1 <==> !HasTransfer(files, hash, ip, streamHash)
  {
    if |files| == 0 then -1
    else if files[0].hash == hash && SomeDownload(files[0].downloads, ip, streamHash) then 0
    else
      var i := FindTransferFile(files[1..], hash, ip, streamHash);
      if i == -1 then
        assert !HasTransfer(files, hash, ip, streamHash) by {
          forall k, j | 0 <= k < |files| && 0 <= j < |files[k].downloads|
            ensures !(files[k].hash == hash && KeyMatches(files[k].downloads[j], ip, streamHash))
          {
            if k > 0 {
              assert files[1..][k - 1] == files[k];
            }
          }
        }
        -1
      else
        assert HasTransfer(files, hash, ip, streamHash) by {
          var k, j :| 0 <= k < |files[1..]| && 0 <= j < |files[1..][k].downloads| &&
            files[1..][k].hash == hash && KeyMatches(files[1..][k].downloads[j], ip, streamHash);
          assert files[k + 1] == files[1..][k];
        }
        i + 1
  }

  /** The download recorded for a new request: progress 0, status 'progress'. */
  function NewDownload(resp: DownloadResponse): Download
  {
    Download(resp.ip, 0.0, InProgress, Some(resp.streamHash))
  }

  /** The arguments `uploadFile` receives besides the file and the callbacks. */
  datatype Upload = Upload(shareHash: string, streamHash: string)

  /** After a download request: the next file list and the upload started, if any. */
  datatype RequestOutcome = RequestOutcome(files: seq<FileItem>, upload: Option<Upload>)

  /** The subscription handler as written: the duplicate check reads
      `snapshot`, the file list captured when `handleFileSelect` was created,
      while the append is an updater applied to the live list `prev`. A
      request that passes the check appends exactly one download to the first
      live file with the share hash (none if it is gone) and starts an upload
      for the hashes the message names. */
  function OnDownloadRequest(snapshot: seq<FileItem>, prev: seq<FileItem>, shareHash: string, resp: DownloadResponse): (r: RequestOutcome)
    ensures HasTransfer(snapshot, shareHash, resp.ip, resp.streamHash) ==> r.files == prev && r.upload.None?
    ensures !HasTransfer(snapshot, shareHash, resp.ip, resp.streamHash) ==>
      r.upload == Some(Upload(resp.shareHash, resp.streamHash)) &&
      |r.files| == |prev| &&
      forall k :: 0 <= k < |prev| ==>
        r.files[k] == if IsFirstFile(prev, shareHash, k) then prev[k].(downloads := prev[k].downloads + [NewDownload(resp)]) else prev[k]
  {
    if FindTransferFile(snapshot, shareHash, resp.ip, resp.streamHash) != -1 then
      RequestOutcome(prev, None)
    else
      RequestOutcome(AppendDownload(prev, shareHash, NewDownload(resp)), Some(Upload(resp.shareHash, resp.streamHash)))
  }

  /** The handler with the duplicate check made against the live list: the
      snapshot is the list the updater receives. */
  function OnDownloadRequestLive(prev: seq<FileItem>, shareHash: string, resp: DownloadResponse): (r: RequestOutcome)
    ensures r.upload.Some? <==> !HasTransfer(prev, shareHash, resp.ip, resp.streamHash)
    ensures r.upload.None? ==> r.files == prev
  {
    OnDownloadRequest(prev, prev, shareHash, resp)
  }

  /** As written, the check misses a redelivered request: `snapshot` is the
      list before the share existed (`prev`), so the same message delivered
      twice starts two uploads and records two downloads with one key. */
  lemma StaleSnapshotAdmitsDuplicate(prev: seq<FileItem>, file: LocalFile, shareHash: string, resp: DownloadResponse)
    requires forall k :: 0 <= k < |prev| ==> prev[k].hash != shareHash
    ensures var live := OnShared(prev, file, shareHash, true).files;
      var once := OnDownloadRequest(prev, live, shareHash, resp);
      var twice := OnDownloadRequest(prev, once.files, shareHash, resp);
      once.upload.Some? && twice.upload.Some? &&
      twice.files[|prev|].downloads == [NewDownload(resp), NewDownload(resp)] &&
      !AllKeysUnique(twice.files)
  {
    var live := OnShared(prev, file, shareHash, true).files;
    assert IsFirstFile(live, shareHash, |prev|);
    var once := OnDownloadRequest(prev, live, shareHash, resp);
    assert IsFirstFile(once.files, shareHash, |prev|);
    var twice := OnDownloadRequest(prev, once.files, shareHash, resp);
    var ds := twice.files[|prev|].downloads;
    assert ds == [NewDownload(resp), NewDownload(resp)];
    assert !UniqueKeys(ds) by {
      assert ds[0].ip == ds[1].ip && ds[0].streamHash == ds[1].streamHash;
    }
  }

  /** With the live check, a request never creates a second download for a
      key: unique keys per file are preserved. */
  lemma LiveCheckKeepsKeysUnique(prev: seq<FileItem>, shareHash: string, resp: DownloadResponse)
    requires AllKeysUnique(prev)
    ensures AllKeysUnique(OnDownloadRequestLive(prev, shareHash, resp).files)
  {
    var r := OnDownloadRequestLive(prev, shareHash, resp);
    if r.upload.Some? {
      var d := NewDownload(resp);
      forall k | 0 <= k < |r.files| ensures UniqueKeys(r.files[k].downloads) {
        if IsFirstFile(prev, shareHash, k) {
          var ds := prev[k].downloads;
          assert r.files[k].downloads == ds + [d];
          forall j | 0 <= j < |ds| ensures ds[j].ip != d.ip || ds[j].streamHash != d.streamHash {
            assert !KeyMatches(ds[j], resp.ip, resp.streamHash);
          }
        }
      }
    }
  }

  /** With the live check, a redelivered request changes nothing and starts
      no second upload. */
  lemma LiveCheckIgnoresRedelivery(prev: seq<FileItem>, shareHash: string, resp: DownloadResponse)
    requires exists k :: 0 <= k < |prev| && prev[k].hash == shareHash
    ensures var once := OnDownloadRequestLive(prev, shareHash, resp).files;
      var twice := OnDownloadRequestLive(once, shareHash, resp);
      twice.files == once && twice.upload.None?
  {
    var once := OnDownloadRequestLive(prev, shareHash, resp).files;
    if !HasTransfer(prev, shareHash, resp.ip, resp.streamHash) {
      var i := FindFile(prev, shareHash);
      assert IsFirstFile(prev, shareHash, i);
      var n := |prev[i].downloads|;
      assert once[i].downloads[n] == NewDownload(resp);
      assert KeyMatches(once[i].downloads[n], resp.ip, resp.streamHash);
    }
  }

  /** The outcome of one upload, as the three callbacks report it. */
  datatype UploadEvent = Progressed(progress: real) | Succeeded | Errored

  function PatchFor(ev: UploadEvent): Patch
  {
    match ev
    case Progressed(p) => SetProgress(p)
    case Succeeded => SetStatus(Success)
    case Errored => SetStatus(Failed)
  }

  /** `handleProgress`, `handleSuccess` and `handleError`: patch one field of
      the first download with the message's `(ip, streamHash)` in the first
      file with the share hash. When either is missing the updater returns
      `prev`; otherwise the result is `prev` with that one download replaced. */
  function OnUploadEvent(prev: seq<FileItem>, shareHash: string, resp: DownloadResponse, ev: UploadEvent): (r: seq<FileItem>)
    ensures (forall k, j :: !IsTarget(prev, shareHash, resp.ip, resp.streamHash, k, j)) ==> r == prev
    ensures forall k, j :: IsTarget(prev, shareHash, resp.ip, resp.streamHash, k, j) ==>
      r == prev[k := prev[k].(downloads := prev[k].downloads[j := Apply(prev[k].downloads[j], PatchFor(ev))])]
  {
    PatchWithoutTargetIsNoop(prev, shareHash, resp.ip, resp.streamHash, PatchFor(ev));
    PatchDownload(prev, shareHash, resp.ip, resp.streamHash, PatchFor(ev))
  }

  /** `handleRemoveFile`'s updater: every file with the item's hash goes,
      the others stay. */
  function OnRemoved(prev: seq<FileItem>, item: FileItem): (r: seq<FileItem>)
    ensures item !in r
    ensures forall f :: f in r <==> f in prev && f.hash != item.hash
    ensures forall f: FileItem :: f.hash != item.hash ==> multiset(r)[f] == multiset(prev)[f]
  {
    WithoutHashCounts(prev, item.hash);
    WithoutHash(prev, item.hash)
  }
}
