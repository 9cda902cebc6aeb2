/** The local-storage middleware and the loader. Browser storage and JSON
    are not modelled as text: the middleware's write is its return value, and
    the loader receives the stored value already classified by the shape
    `JSON.parse` gives it. */
module Storage {
  import opened Types

  /** A file as it is saved: every field of `FileItem` except `blob`, in the
      same order. */
  datatype SavedFile = SavedFile(filename: string, size: nat, hash: string, downloads: seq<Download>)

  /** The new storage format: exactly the shared files and the pending hashes. */
  datatype SavedState = SavedState(sharedFiles: seq<SavedFile>, pendingFiles: seq<string>)

  /** The value under the storage key, by the shape the loader tells apart. */
  datatype Stored =
    | Missing                                // `getItem` returned null
    | EmptyText                              // the empty string, also falsy
    | Unparseable                            // `JSON.parse` throws
    | LegacyArray(elements: seq<Option<SavedFile>>)  // old format: a bare array; None is a null or undefined element
    | NewFormat(state: SavedState)           // `{sharedFiles, pendingFiles}`
    | OtherJson(text: string)                // any other JSON value (not an array)

  /** What the loader returns: a state, or a parsed value passed through
      without any validation. */
  datatype Loaded = Files(state: SavedState) | Unvalidated(text: string)

  const EmptyLoad := Files(SavedState([], []))

  /** One file with its blob left out. */
  function StripBlob(f: FileItem): SavedFile
  {
    SavedFile(f.filename, f.size, f.hash, f.downloads)
  }

  /** Every shared file with its blob left out, in order. */
  function StripBlobs(files: seq<FileItem>): (saved: seq<SavedFile>)
    ensures |saved| == |files|
    ensures forall k :: 0 <= k < |files| ==>
      saved[k].filename == files[k].filename && saved[k].size == files[k].size &&
      saved[k].hash == files[k].hash && saved[k].downloads == files[k].downloads
  {
    if |files| == 0 then [] else [StripBlob(files[0])] + StripBlobs(files[1..])
  }

  /** Stripping loses the blob and nothing else: two file lists save the same
      exactly when they differ at most in their blobs. */
  lemma {:induction false} StripBlobsLosesOnlyBlobs(a: seq<FileItem>, b: seq<FileItem>)
    ensures StripBlobs(a) == StripBlobs(b) <==>
      |a| == |b| && forall k :: 0 <= k < |a| ==> a[k] == b[k].(blob := a[k].blob)
  {
    var sa, sb := StripBlobs(a), StripBlobs(b);
    if |a| == |b| && forall k :: 0 <= k < |a| ==> a[k] == b[k].(blob := a[k].blob) {
      forall k | 0 <= k < |a| ensures sa[k] == sb[k] {
        assert a[k] == b[k].(blob := a[k].blob);
      }
    }
    if sa == sb {
      forall k | 0 <= k < |a| ensures a[k] == b[k].(blob := a[k].blob) {
        assert sa[k] == sb[k];
      }
    }
  }

  /** The record the middleware writes for a state. */
  function Save(s: FilesState): (written: Stored)
    ensures written.NewFormat?
    ensures written.state.pendingFiles == s.pendingFiles
    ensures |written.state.sharedFiles| == |s.sharedFiles|
  {
    NewFormat(SavedState(StripBlobs(s.sharedFiles), s.pendingFiles))
  }

  /** `socketConnected` is never persisted. */
  lemma SaveIgnoresConnection(s: FilesState, connected: bool)
    ensures Save(s.(socketConnected := connected)) == Save(s)
  {
  }

  /** One pass of the middleware: `next(action)` has already run and produced
      `nextResult` and the state `after`; the middleware writes the record for
      `after` and hands `nextResult` back unchanged. */
  datatype Dispatched<R> = Dispatched(returned: R, written: Stored)

  function Middleware<R>(nextResult: R, after: FilesState): (d: Dispatched<R>)
    ensures d.returned == nextResult
    ensures d.written.NewFormat? && d.written.state.pendingFiles == after.pendingFiles
    ensures d.written.state.sharedFiles == StripBlobs(after.sharedFiles)
  {
    Dispatched(nextResult, Save(after))
  }

  /** The hash of each legacy record, in order. */
  function Hashes(records: seq<SavedFile>): (hashes: seq<string>)
    ensures |hashes| == |records|
    ensures forall k :: 0 <= k < |records| ==> hashes[k] == records[k].hash
  {
    if |records| == 0 then [] else [records[0].hash] + Hashes(records[1..])
  }

  /** The elements of a legacy array when none of them is null or undefined;
      `None` when reading the hash of some element would throw. */
  function Present(elements: seq<Option<SavedFile>>): (records: Option<seq<SavedFile>>)
    ensures records.Some? <==> forall k :: 0 <= k < |elements| ==> elements[k].Some?
    ensures records.Some? ==> |records.value| == |elements|
    ensures records.Some? ==> forall k :: 0 <= k < |elements| ==> records.value[k] == elements[k].value
  {
    if |elements| == 0 then Some([])
    else match elements[0]
      case None => None
      case Some(f) =>
        match Present(elements[1..])
        case None =>
          assert exists k :: 0 <= k < |elements| && !elements[k].Some? by {
            var k :| 0 <= k < |elements[1..]| && !elements[1..][k].Some?;
            assert elements[k + 1] == elements[1..][k];
          }
          None
        case Some(rest) => Some([f] + rest)
  }

  /** The loader. An absent or empty value, text that does not parse, and a
      legacy array with a null or undefined element (reading its hash throws)
      all give the empty state. A legacy array otherwise gives its records,
      all pending. A new-format record is returned as it is, and any other
      JSON value is passed through unchecked. */
  function Load(stored: Stored): (r: Loaded)
    ensures r.Unvalidated? <==> stored.OtherJson?
    ensures stored.NewFormat? ==> r == Files(stored.state)
  {
    match stored
    case Missing => EmptyLoad
    case EmptyText => EmptyLoad
    case Unparseable => EmptyLoad
    case LegacyArray(elements) =>
      (match Present(elements)
       case None => EmptyLoad
       case Some(records) => Files(SavedState(records, Hashes(records))))
    case NewFormat(state) => Files(state)
    case OtherJson(text) => Unvalidated(text)
  }

  /** A legacy array holds a null or undefined element. */
  ghost predicate HasHole(elements: seq<Option<SavedFile>>)
  {
    exists k :: 0 <= k < |elements| && elements[k].None?
  }

  /** An absent, empty or unparseable value, and a legacy array with a null or
      undefined element, load as the empty state; any other value does not,
      unless it holds no files and no pending hashes. */
  lemma LoadEmptyExactly(stored: Stored)
    ensures Load(stored) == EmptyLoad <==>
      stored.Missing? || stored.EmptyText? || stored.Unparseable? ||
      (stored.LegacyArray? && (stored.elements == [] || HasHole(stored.elements))) ||
      (stored.NewFormat? && stored.state == SavedState([], []))
  {
    if stored.LegacyArray? {
      var p := Present(stored.elements);
      if p.Some? && Load(stored) == EmptyLoad {
        assert |p.value| == |Hashes(p.value)| == 0;
      }
      if HasHole(stored.elements) {
        var k :| 0 <= k < |stored.elements| && stored.elements[k].None?;
        assert p.None?;
      }
    }
  }

  /** A legacy bare array without null or undefined elements loads as its
      records, with every record's hash pending, in the same order. */
  lemma LegacyAllPending(elements: seq<Option<SavedFile>>)
    requires forall k :: 0 <= k < |elements| ==> elements[k].Some?
    ensures Load(LegacyArray(elements)).Files?
    ensures var st := Load(LegacyArray(elements)).state;
      |st.sharedFiles| == |st.pendingFiles| == |elements| &&
      forall k :: 0 <= k < |elements| ==>
        st.sharedFiles[k] == elements[k].value && st.pendingFiles[k] == elements[k].value.hash
  {
  }

  /** Loading what the middleware wrote gives back exactly the blob-stripped
      files and the pending list: nothing is re-marked as pending. */
  lemma SaveLoadRoundTrip(s: FilesState)
    ensures Load(Save(s)) == Files(SavedState(StripBlobs(s.sharedFiles), s.pendingFiles))
  {
  }

  /** Saving again what was loaded from a new-format record writes the same
      record, whatever the connection flag. */
  lemma LoadSaveStable(state: SavedState, blobs: seq<Blob>, connected: bool)
    requires |blobs| == |state.sharedFiles|
    ensures Load(NewFormat(state)) == Files(state)
    ensures Save(FilesState(WithBlobs(state.sharedFiles, blobs), state.pendingFiles, connected)) == NewFormat(state)
  {
    StripWithBlobs(state.sharedFiles, blobs);
  }

  /** Give every saved file a blob back, pairwise. */
  function WithBlobs(saved: seq<SavedFile>, blobs: seq<Blob>): (files: seq<FileItem>)
    requires |blobs| == |saved|
    ensures |files| == |saved|
  {
    if |saved| == 0 then []
    else [FileItem(saved[0].filename, saved[0].size, saved[0].hash, blobs[0], saved[0].downloads)]
         + WithBlobs(saved[1..], blobs[1..])
  }

  lemma {:induction false} StripWithBlobs(saved: seq<SavedFile>, blobs: seq<Blob>)
    requires |blobs| == |saved|
    ensures StripBlobs(WithBlobs(saved, blobs)) == saved
  {
    if |saved| > 0 {
      StripWithBlobs(saved[1..], blobs[1..]);
      assert saved == [saved[0]] + saved[1..];
    }
  }
}
