/** The table of shared files as a value, and the lookups and updates that
    both the files slice's reducers and the App component's state updaters
    perform on it: find the first file by hash, find the first download by
    (ip, streamHash), filter files out by hash, append a download, patch one
    field of one download. */
module FileTable {
  import opened Types

  /** `i` is the index of the first file whose hash is `hash`. */
  ghost predicate IsFirstFile(files: seq<FileItem>, hash: string, i: int)
  {
    0 <= i < |files| && files[i].hash == hash &&
    forall k :: 0 <= k < i ==> files[k].hash != hash
  }

  /** `j` is the index of the first download matching `(ip, streamHash)`. */
  ghost predicate IsFirstDownload(downloads: seq<Download>, ip: string, streamHash: string, j: int)
  {
    0 <= j < |downloads| && KeyMatches(downloads[j], ip, streamHash) &&
    forall k :: 0 <= k < j ==> !KeyMatches(downloads[k], ip, streamHash)
  }

  /** The index of the first file with the hash, or -1 when no file has it. */
  function FindFile(files: seq<FileItem>, hash: string): (i: int)
    ensures -1 <= i < |files|
    ensures i == -1 <==> forall k :: 0 <= k < |files| ==> files[k].hash != hash
    ensures i != -1 ==> IsFirstFile(files, hash, i)
  {
    if |files| == 0 then -1
    else if files[0].hash == hash then 0
    else
      var i := FindFile(files[1..], hash);
      if i == -1 then -1 else i + 1
  }

  /** The index of the first download with the key, or -1 when none has it. */
  function FindDownload(downloads: seq<Download>, ip: string, streamHash: string): (j: int)
    ensures -1 <= j < |downloads|
    ensures j == -1 <==> forall k :: 0 <= k < |downloads| ==> !KeyMatches(downloads[k], ip, streamHash)
    ensures j != -1 ==> IsFirstDownload(downloads, ip, streamHash, j)
  {
    if |downloads| == 0 then -1
    else if KeyMatches(downloads[0], ip, streamHash) then 0
    else
      var j := FindDownload(downloads[1..], ip, streamHash);
      if j == -1 then -1 else j + 1
  }


  /** The files whose hash differs, in their order. */
  function WithoutHash(files: seq<FileItem>, hash: string): (r: seq<FileItem>)
    ensures forall k :: 0 <= k < |r| ==> r[k].hash != hash
    ensures |r| <= |files|
  {
    if |files| == 0 then []
    else (if files[0].hash == hash then [] else [files[0]]) + WithoutHash(files[1..], hash)
  }

  /** Every file with the hash is dropped, every other file is kept as many
      times as it occurs. */
  lemma {:induction false} WithoutHashCounts(files: seq<FileItem>, hash: string)
    ensures forall f :: multiset(WithoutHash(files, hash))[f] == if f.hash == hash then 0 else multiset(files)[f]
    ensures forall f :: f in WithoutHash(files, hash) <==> f in files && f.hash != hash
  {
    if |files| > 0 {
      WithoutHashCounts(files[1..], hash);
      assert files == [files[0]] + files[1..];
    }
  }

  /** Filtering distributes over concatenation: the kept files stay in their
      relative order. */
  lemma {:induction false} WithoutHashConcat(a: seq<FileItem>, b: seq<FileItem>, hash: string)
    ensures WithoutHash(a + b, hash) == WithoutHash(a, hash) + WithoutHash(b, hash)
  {
    if |a| == 0 {
      assert a + b == b;
    } else {
      assert (a + b)[1..] == a[1..] + b;
      WithoutHashConcat(a[1..], b, hash);
    }
  }

  /** Removing a hash twice is the same as removing it once. */
  lemma {:induction false} WithoutHashIdempotent(files: seq<FileItem>, hash: string)
    ensures WithoutHash(WithoutHash(files, hash), hash) == WithoutHash(files, hash)
  {
    if |files| > 0 {
      var head := if files[0].hash == hash then [] else [files[0]];
      WithoutHashConcat(head, WithoutHash(files[1..], hash), hash);
      WithoutHashIdempotent(files[1..], hash);
    }
  }

  /** Removing a hash that no file has changes nothing. */
  lemma {:induction false} WithoutAbsentHash(files: seq<FileItem>, hash: string)
    requires forall k :: 0 <= k < |files| ==> files[k].hash != hash
    ensures WithoutHash(files, hash) == files
  {
    if |files| > 0 {
      WithoutAbsentHash(files[1..], hash);
      assert files == [files[0]] + files[1..];
    }
  }

  /** The pending hashes other than `hash`, in their order. */
  function WithoutPending(pending: seq<string>, hash: string): (r: seq<string>)
    ensures hash !in r
    ensures |r| <= |pending|
  {
    if |pending| == 0 then []
    else (if pending[0] == hash then [] else [pending[0]]) + WithoutPending(pending[1..], hash)
  }

  /** Every other hash stays pending as many times as before. */
  lemma {:induction false} WithoutPendingCounts(pending: seq<string>, hash: string)
    ensures forall h :: h != hash ==> multiset(WithoutPending(pending, hash))[h] == multiset(pending)[h]
  {
    if |pending| > 0 {
      WithoutPendingCounts(pending[1..], hash);
      assert pending == [pending[0]] + pending[1..];
    }
  }

  /** Filtering the pending list distributes over concatenation. */
  lemma {:induction false} WithoutPendingConcat(a: seq<string>, b: seq<string>, hash: string)
    ensures WithoutPending(a + b, hash) == WithoutPending(a, hash) + WithoutPending(b, hash)
  {
    if |a| == 0 {
      assert a + b == b;
    } else {
      assert (a + b)[1..] == a[1..] + b;
      WithoutPendingConcat(a[1..], b, hash);
    }
  }

  /** Replace the download list of the first file with the hash; a missing
      hash changes nothing. */
  function ReplaceDownloads(files: seq<FileItem>, hash: string, downloads: seq<Download>): (r: seq<FileItem>)
    ensures |r| == |files|
    ensures forall k :: 0 <= k < |files| ==>
      r[k] == if IsFirstFile(files, hash, k) then files[k].(downloads := downloads) else files[k]
  {
    var i := FindFile(files, hash);
    if i == -1 then files else files[i := files[i].(downloads := downloads)]
  }

  /** Append `d` to the download list of the first file with the hash; a
      missing hash changes nothing. No check for an existing download with the
      same key is made. */
  function AppendDownload(files: seq<FileItem>, hash: string, d: Download): (r: seq<FileItem>)
    ensures |r| == |files|
    ensures forall k :: 0 <= k < |files| ==>
      r[k] == if IsFirstFile(files, hash, k) then files[k].(downloads := files[k].downloads + [d]) else files[k]
  {
    var i := FindFile(files, hash);
    if i == -1 then files else files[i := files[i].(downloads := files[i].downloads + [d])]
  }

  /** The single-field change applied to one download. */
  datatype Patch = SetProgress(progress: real) | SetStatus(status: Status)

  function Apply(d: Download, p: Patch): Download
  {
    match p
    case SetProgress(v) => d.(progress := v)
    case SetStatus(s) => d.(status := s)
  }

  /** Whether `(k, j)` is the download the patch addresses: the first matching
      download inside the first file with the hash. */
  ghost predicate IsTarget(files: seq<FileItem>, hash: string, ip: string, streamHash: string, k: int, j: int)
  {
    IsFirstFile(files, hash, k) && IsFirstDownload(files[k].downloads, ip, streamHash, j)
  }

  /** Patch one field of the first download matching `(ip, streamHash)` in the
      first file with the hash. Everything else is kept: the number of files,
      every other file, every field of the target file except its downloads,
      the number of downloads and every other download. */
  function PatchDownload(files: seq<FileItem>, hash: string, ip: string, streamHash: string, p: Patch): (r: seq<FileItem>)
    ensures |r| == |files|
    ensures forall k :: 0 <= k < |files| ==>
      |r[k].downloads| == |files[k].downloads| && r[k] == files[k].(downloads := r[k].downloads)
    ensures forall k, j :: 0 <= k < |files| && 0 <= j < |files[k].downloads| ==>
      r[k].downloads[j] == if IsTarget(files, hash, ip, streamHash, k, j) then Apply(files[k].downloads[j], p) else files[k].downloads[j]
  {
    var i := FindFile(files, hash);
    if i == -1 then files
    else
      var j := FindDownload(files[i].downloads, ip, streamHash);
      if j == -1 then files
      else
        var ds := files[i].downloads;
        files[i := files[i].(downloads := ds[j := Apply(ds[j], p)])]
  }

  /** With no file for the hash, or no matching download in the first such
      file, a patch is a no-op. */
  lemma PatchWithoutTargetIsNoop(files: seq<FileItem>, hash: string, ip: string, streamHash: string, p: Patch)
    ensures (forall k, j :: !IsTarget(files, hash, ip, streamHash, k, j)) ==>
      PatchDownload(files, hash, ip, streamHash, p) == files
  {
    var i := FindFile(files, hash);
    if i != -1 {
      var j := FindDownload(files[i].downloads, ip, streamHash);
      assert j != -1 ==> IsTarget(files, hash, ip, streamHash, i, j);
    }
  }

  /** A status patch overwrites whatever status the target had: a download
      that already ended in success or failure is reopened by `SetStatus(InProgress)`. */
  lemma StatusPatchHasNoTerminalGuard(files: seq<FileItem>, hash: string, ip: string, streamHash: string, k: int, j: int, s: Status)
    requires IsTarget(files, hash, ip, streamHash, k, j)
    ensures PatchDownload(files, hash, ip, streamHash, SetStatus(s))[k].downloads[j]
      == files[k].downloads[j].(status := s)
  {
  }

  /** The peer key of every download inside one file is unique. */
  ghost predicate UniqueKeys(downloads: seq<Download>)
  {
    forall j, k :: 0 <= j < k < |downloads| ==>
      downloads[j].ip != downloads[k].ip || downloads[j].streamHash != downloads[k].streamHash
  }

  ghost predicate AllKeysUnique(files: seq<FileItem>)
  {
    forall k :: 0 <= k < |files| ==> UniqueKeys(files[k].downloads)
  }

  /** A patch never touches `ip` or `streamHash`, so it keeps keys unique. */
  lemma PatchKeepsKeysUnique(files: seq<FileItem>, hash: string, ip: string, streamHash: string, p: Patch)
    requires AllKeysUnique(files)
    ensures AllKeysUnique(PatchDownload(files, hash, ip, streamHash, p))
  {
    var r := PatchDownload(files, hash, ip, streamHash, p);
    forall k | 0 <= k < |r| ensures UniqueKeys(r[k].downloads) {
      forall j, m | 0 <= j < m < |r[k].downloads|
        ensures r[k].downloads[j].ip != r[k].downloads[m].ip || r[k].downloads[j].streamHash != r[k].downloads[m].streamHash
      {
        assert r[k].downloads[j].ip == files[k].downloads[j].ip;
        assert r[k].downloads[m].ip == files[k].downloads[m].ip;
      }
    }
  }
}
