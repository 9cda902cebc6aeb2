# Shared-file registry of the P2P sharing client

This project models the core of a browser client for peer-to-peer file sharing. The user shares a file, and the backend issues a share hash for it. Peers that request the file are recorded as downloads on it. The browser then uploads the file to each peer through the backend and reports progress, success or failure. The model covers four pieces:

- **The Redux files slice** (`files_slice.dfy`, module `FilesSlice`). It holds the table of shared files, each with its downloads, the list of pending share hashes, and the socket flag. The slice is a class with `seq` fields, and each reducer is a method. A reducer states what its field becomes and that the other fields stay as they were. The lookups and updates the reducers perform are pure functions in `file_table.dfy` (module `FileTable`): find the first file by hash, find the first download by `(ip, streamHash)`, filter by hash, append a download, and patch one field of one download. The App component's state updaters reuse these functions.
- **The local-storage middleware and the loader** (`storage.dfy`, module `Storage`). Saving strips the `blob` from every file and writes only the shared files and the pending hashes. Loading tells apart these cases:
  - an absent value, an empty value or an unparseable value;
  - a legacy bare array, with or without a null or undefined element;
  - the new object format;
  - any other JSON value.
- **The App component** (`app.dfy`, module `App`):
  - The bounded reconnect loop is a class whose fields are the retry counter and the two connection flags. Each retry is one iteration of a loop.
  - The share and download-request handling is modelled as pure updaters from the previous file list to the next: appending a new share; the duplicate check; appending the new download; patching progress, success or failure; and removing a share.
- **The display helpers of the shared-file list** (`shared_file_list.dfy`, module `SharedFileList`). These are the icon chosen by extension, the badge class of a status, and the toggle of a row's expanded flag.

`types.dfy` (module `Types`) holds the entities of `src/types.ts`. `Download.streamHash` is optional there, so it is an `Option<string>`.

A download is looked up by its key: the same peer `ip` and a `streamHash` equal to the given one. A download without a stream hash never matches.

The reducers' state is a plain value (`FilesState`). This lets the middleware's write be a function of the state after the action.

## Model

| member | source | states |
|---|---|---|
| FileTable.FindFile | src/redux/filesSlice.ts:30 | Returns -1 exactly when no file has the hash. Otherwise it returns the index of the first file with the hash. |
| FileTable.FindDownload | src/redux/filesSlice.ts:45-47 | Returns -1 exactly when no download matches `(ip, streamHash)`. Otherwise it returns the index of the first match. |
| FileTable.WithoutHash | src/redux/filesSlice.ts:27 | No file in the result has the hash, and the result is no longer than the input. |
| FileTable.WithoutHashCounts | src/redux/filesSlice.ts:27 | A file is kept exactly when it is in the input and its hash differs. Every file with another hash is kept as many times as it occurred, and files with the hash are kept zero times. |
| FileTable.WithoutHashConcat | src/redux/filesSlice.ts:27 | Filtering distributes over concatenation, so the kept files stay in their relative order. |
| FileTable.WithoutHashIdempotent | src/redux/filesSlice.ts:26-28 | Removing a hash twice gives the same list as removing it once. |
| FileTable.WithoutAbsentHash | src/redux/filesSlice.ts:26-28 | Removing a hash that no file has leaves the list as it was. |
| FileTable.WithoutPending | src/redux/filesSlice.ts:89 | The hash no longer occurs, and the result is no longer than the input. |
| FileTable.WithoutPendingCounts | src/redux/filesSlice.ts:89 | Every other hash occurs as often as before. |
| FileTable.WithoutPendingConcat | src/redux/filesSlice.ts:89 | Filtering the pending list distributes over concatenation, so the order of the rest is kept. |
| FileTable.ReplaceDownloads | src/redux/filesSlice.ts:30-33 | Only the first file with the hash gets the new download list, and every other file is unchanged. With no such file, nothing changes. |
| FileTable.AppendDownload | src/redux/filesSlice.ts:77-80 | Only the first file with the hash gets the download pushed at the end of its list, and nothing else changes. With no such file, nothing changes. No duplicate check is made. |
| FileTable.PatchDownload | src/redux/filesSlice.ts:42-52 | The number of files and of downloads in each file is kept. Every field of each file except its downloads is kept. A download is patched exactly when it is the first key match in the first file with the hash. |
| FileTable.PatchWithoutTargetIsNoop | src/redux/filesSlice.ts:44-52 | With no file for the hash, or no matching download in it, the patch returns the list unchanged. |
| FileTable.StatusPatchHasNoTerminalGuard | src/redux/filesSlice.ts:68-70 | A status patch sets the target's status whatever it was, so a 'success' or 'failed' download can be set back to 'progress'. |
| FileTable.PatchKeepsKeysUnique | src/redux/filesSlice.ts:49-51 | A patch never changes `ip` or `streamHash`, so download keys that were unique within each file stay unique. |
| FilesSlice.Slice.constructor | src/redux/filesSlice.ts:10-14 | The initial state has no shared files, no pending hashes, and the socket flag false. |
| FilesSlice.Slice.SetSharedFiles | src/redux/filesSlice.ts:20-22 | The shared files become the payload, and the other fields are unchanged. |
| FilesSlice.Slice.AddSharedFile | src/redux/filesSlice.ts:23-25 | The item is appended at the end and the length grows by one. Every earlier entry and the other fields are unchanged. |
| FilesSlice.Slice.RemoveSharedFile | src/redux/filesSlice.ts:26-28 | The shared files become the hash-filtered list, so no file with the hash remains. The other fields are unchanged. |
| FilesSlice.Slice.UpdateFileDownloads | src/redux/filesSlice.ts:29-34 | The first file with the hash gets the new download list. The rest of the state is unchanged. |
| FilesSlice.Slice.UpdateDownloadProgress | src/redux/filesSlice.ts:35-53 | The new state is the old one with a `SetProgress` patch on the target download, and with nothing else changed. |
| FilesSlice.Slice.UpdateDownloadStatus | src/redux/filesSlice.ts:54-72 | The new state is the old one with a `SetStatus` patch on the target download. The status is overwritten unconditionally. |
| FilesSlice.Slice.AddDownload | src/redux/filesSlice.ts:73-81 | The download is pushed onto the first file with the hash. With no such file, nothing changes. |
| FilesSlice.Slice.SetPendingFiles | src/redux/filesSlice.ts:82-84 | The pending list becomes the payload, and the other fields are unchanged. |
| FilesSlice.Slice.AddPendingFile | src/redux/filesSlice.ts:85-87 | The hash is appended even if it is already pending, so its count grows by one. |
| FilesSlice.Slice.RemovePendingFile | src/redux/filesSlice.ts:88-90 | Every occurrence of the hash is removed, and the other fields are unchanged. |
| FilesSlice.Slice.ReorderFiles | src/redux/filesSlice.ts:91-93 | The shared files become the payload, and the other fields are unchanged. |
| FilesSlice.Slice.SetSocketConnected | src/redux/filesSlice.ts:94-96 | Only the socket flag changes. The shared files and the pending list are untouched. |
| Storage.StripBlobs | src/redux/localStorageMiddleware.ts:20 | Each saved file has the in-memory file's name, size, hash and downloads, at the same position, and the length is the same. |
| Storage.StripBlobsLosesOnlyBlobs | src/redux/localStorageMiddleware.ts:20 | Two file lists save the same exactly when they have the same length and differ at most in their blobs. |
| Storage.Save | src/redux/localStorageMiddleware.ts:14-24 | The record is in the new format. It holds the pending list as it is and one saved file per shared file. |
| Storage.SaveIgnoresConnection | src/redux/localStorageMiddleware.ts:13-17 | `socketConnected` is never persisted: the record does not depend on it. |
| Storage.Middleware | src/redux/localStorageMiddleware.ts:7-30 | The result of `next(action)` is returned unchanged. The write holds the blob-stripped files and the pending list of the state after the action. |
| Storage.Hashes | src/redux/localStorageMiddleware.ts:44 | The hash of each record, with the same length and order. |
| Storage.Present | src/redux/localStorageMiddleware.ts:44 | The legacy records are available exactly when no element is null or undefined, and then they are the elements in order. |
| Storage.Load | src/redux/localStorageMiddleware.ts:33-55 | Any other JSON value, and only that, is passed through unvalidated. A new-format record is returned as it is stored. The remaining cases are stated by `LoadEmptyExactly` and `LegacyAllPending`. |
| Storage.LoadEmptyExactly | src/redux/localStorageMiddleware.ts:33-55 | The load is empty exactly in these cases: the value is absent, empty or unparseable; it is a legacy array that is empty or holds a null or undefined element, whose hash read throws into the catch; or it is an empty new-format record. |
| Storage.LegacyAllPending | src/redux/localStorageMiddleware.ts:41-46 | A legacy array without null or undefined elements loads as those records. Every record's hash is pending, in the same order. |
| Storage.SaveLoadRoundTrip | src/redux/localStorageMiddleware.ts:20-24 | Loading what the middleware wrote gives exactly the blob-stripped files and the saved pending list. |
| Storage.LoadSaveStable | src/redux/localStorageMiddleware.ts:49 | A new-format record loads as it is stored. Given its blobs back, it saves to the same record, whatever the socket flag. |
| App.Connection.constructor | src/App.tsx:41-46 | The counter starts at 0 and both connection flags are false. |
| App.Connection.OnConnected | src/App.tsx:57-62 | Both flags become true and the counter is reset to 0. |
| App.Connection.OnError | src/App.tsx:63-67 | Both flags become false and the counter grows by one. |
| App.Connection.Reconnect | src/App.tsx:48-75 | Either the last attempt succeeded after only failures, and the run ends connected with the counter at 0; or the run ends disconnected with the counter at or above `MaxRetries`. It makes no attempt when the counter is already at the bound, and never more than the remaining budget. |
| App.Connection.Disconnect | src/App.tsx:77-83 | Both flags become false. |
| App.ConnectOnMount | src/App.tsx:44-75 | The run ends connected exactly when one of the first 3 attempts succeeds. If every attempt fails, `connect` is called exactly 3 times. |
| App.ReconnectAfterLoss | src/App.tsx:57-75 | After a success and a later loss, the loss counts as one failure, so the follow-up run makes at most `MaxRetries - 1` = 2 attempts. It ends connected exactly when one of its first 2 attempts succeeds; if both fail, `connect` is called exactly twice. |
| App.OnShared | src/App.tsx:92-103 | A new item is appended with the share hash, the file's name, size and blob, and no downloads. The topic `/topic/<hash>` is subscribed exactly when the socket is connected. |
| App.SomeDownload | src/App.tsx:109 | True exactly when some download matches `(ip, streamHash)`. |
| App.FindTransferFile | src/App.tsx:107-110 | Returns -1 exactly when no file with the share hash holds a download with the key. |
| App.OnDownloadRequest | src/App.tsx:107-136 | If the captured snapshot already holds the key, nothing changes and no upload starts. Otherwise exactly one new download (progress 0, 'progress', the message's stream hash) is appended to the first live file with the hash, and an upload starts for the message's hashes. |
| App.OnDownloadRequestLive | src/App.tsx:107-136 | The handler with the check made on the live list: the as-written handler with the snapshot equal to `prev`. An upload starts exactly when the live list has no such download. Without an upload, the list is unchanged. |
| App.StaleSnapshotAdmitsDuplicate | src/App.tsx:107-116 | With the snapshot taken before the share existed, a redelivered request starts a second upload and records two downloads with one key. |
| App.LiveCheckKeepsKeysUnique | src/App.tsx:118-136 | With the live check, unique download keys per file stay unique. |
| App.LiveCheckIgnoresRedelivery | src/App.tsx:107-136 | While the share is still in the live list, with the live check a second delivery of the same request changes nothing and starts no upload. |
| App.OnUploadEvent | src/App.tsx:138-214 | With no target, the result is `prev`. Otherwise it is `prev` with only the target download's progress or status replaced. |
| App.OnRemoved | src/App.tsx:247 | A file is kept exactly when it was there and has another hash. Every kept file occurs as often as before. |
| SharedFileList.Extension | src/components/SharedFileList.tsx:63 | The result has no '.' and is a suffix of the name. When it is shorter than the name, a '.' precedes it. |
| SharedFileList.ToLower | src/components/SharedFileList.tsx:63 | Each character is lowered at the same position, and the length is kept. |
| SharedFileList.IconFor | src/components/SharedFileList.tsx:64-87 | The switch on the extension. It has no contract of its own. Its behaviour is stated by `DefaultIconExactlyUnknown`, `EmptyIsUnknown` and the eight `...IconExactly` lemmas. |
| SharedFileList.FileIcon | src/components/SharedFileList.tsx:62-88 | The icon of a file name. It has no contract of its own. Its behaviour is stated by `FileIconUsesLastExtension`, `FileIconIgnoresCase`, `FileIconOfLowerExtension`, `UnknownExtensionIcon` and the example lemmas below. |
| SharedFileList.DefaultIconExactlyUnknown | src/components/SharedFileList.tsx:65-86 | An extension gets `bi-file-earmark` exactly when it is none of the twenty extensions the switch names. |
| SharedFileList.EmptyIsUnknown | src/components/SharedFileList.tsx:86 | The empty extension gets the default icon. |
| SharedFileList.PdfIconExactly | src/components/SharedFileList.tsx:66 | `bi-file-pdf` exactly for `pdf`. |
| SharedFileList.WordIconExactly | src/components/SharedFileList.tsx:67-68 | `bi-file-word` exactly for `doc` and `docx`. |
| SharedFileList.ExcelIconExactly | src/components/SharedFileList.tsx:69-70 | `bi-file-excel` exactly for `xls` and `xlsx`. |
| SharedFileList.PptIconExactly | src/components/SharedFileList.tsx:71-72 | `bi-file-ppt` exactly for `ppt` and `pptx`. |
| SharedFileList.ImageIconExactly | src/components/SharedFileList.tsx:73-76 | `bi-file-image` exactly for `jpg`, `jpeg`, `png` and `gif`. |
| SharedFileList.MusicIconExactly | src/components/SharedFileList.tsx:77-79 | `bi-file-music` exactly for `mp3`, `wav` and `ogg`. |
| SharedFileList.PlayIconExactly | src/components/SharedFileList.tsx:80-82 | `bi-file-play` exactly for `mp4`, `avi` and `mov`. |
| SharedFileList.ZipIconExactly | src/components/SharedFileList.tsx:83-85 | `bi-file-zip` exactly for `zip`, `rar` and `7z`. |
| SharedFileList.ExtensionAfterLastDot | src/components/SharedFileList.tsx:63 | The extension of `prefix + "." + ext`, for a dot-free `ext`, is `ext`. |
| SharedFileList.FileIconUsesLastExtension | src/components/SharedFileList.tsx:62-63 | The icon depends only on the lower-cased text after the last '.'. |
| SharedFileList.ExtensionWithoutDot | src/components/SharedFileList.tsx:63 | A name without '.' is its own extension. |
| SharedFileList.LowerCommutesWithExtension | src/components/SharedFileList.tsx:63 | Lower-casing then taking the extension equals taking the extension then lower-casing. |
| SharedFileList.FileIconIgnoresCase | src/components/SharedFileList.tsx:63 | Names equal up to letter case get the same icon. |
| SharedFileList.FileIconOfLowerExtension | src/components/SharedFileList.tsx:62-87 | A lower-case extension after the last '.' is looked up as it is. |
| SharedFileList.FileIconOfBareName | src/components/SharedFileList.tsx:63 | A lower-case name without '.' is looked up whole. |
| SharedFileList.UpperCasePdfIcon | src/components/SharedFileList.tsx:63-66 | Any name ending in `.PDF` gets `bi-file-pdf`, like one ending in `.pdf`. |
| SharedFileList.BareExtensionIcon | src/components/SharedFileList.tsx:63-66 | `pdf` gets `bi-file-pdf`. |
| SharedFileList.EmptyExtensionIcon | src/components/SharedFileList.tsx:63-86 | The empty name, and any name ending in '.', gets the default icon. |
| SharedFileList.LastExtensionIcon | src/components/SharedFileList.tsx:63-85 | Any name ending in `.tar.zip` gets `bi-file-zip`, because only the last extension counts. |
| SharedFileList.UnknownExtensionIcon | src/components/SharedFileList.tsx:63-86 | A lower-case extension outside the switch gets the default icon, whatever comes before its '.'. |
| SharedFileList.StatusClass | src/components/SharedFileList.tsx:54-60 | `bg-success` exactly for success, `bg-danger` exactly for failed, and `bg-primary` exactly for in progress. |
| SharedFileList.ToggleRow | src/components/SharedFileList.tsx:47-52 | The key set gains the hash, and the hash's flag is flipped, with a missing key read as false. Every other entry is kept. |
| SharedFileList.ToggleRowTwice | src/components/SharedFileList.tsx:47-52 | Toggling a row twice restores every row's expanded flag. |

## Left out

- I/O is not modelled as such. Browser storage and `JSON.stringify`/`JSON.parse` are left out. The write is the middleware's return value. The loader receives the stored value already classified by its parsed shape (`Storage.Stored`).
- Storage.Load: the fields of a legacy or new-format record are not checked. An array element that is a value other than null, undefined or a file record is left out; the source reads an undefined hash from it without throwing.
- Storage.Middleware: the stringify/`setItem` error path is not modelled. In the source it only logs, and the action's result is returned either way.
- Storage.Load: a JSON value that is neither an array nor the new object format is passed through as `Unvalidated`. The model says nothing about what the store would then do with it.
- The new format is returned exactly as stored. The pending list is not rebuilt from the files for that format, so a loaded state may list pending hashes of no file.
- `loadFilesFromStorage` is not called by the store in `src/redux/store.ts`, which starts from the static initial state. The loader is modelled on its own. Nothing in the source updates the slice either: the App component keeps its own `useState` list (`src/App.tsx:31`), no code dispatches the slice's actions, and `src/index.tsx` mounts no store provider. The slice and the middleware are therefore modelled on their own.
- Progress is a floating-point percentage in the source. It is modelled as an opaque `real` that is only stored and compared.
- App.Connection.Reconnect:
  - The two-second `setTimeout` between attempts is not modelled; each retry is one loop step.
  - The websocket client is not modelled: `connect` is a given sequence of outcomes.
  - A connection lost after a success runs the error callback, which counts the loss as one failure before it schedules `reconnect()`. The follow-up run therefore starts at counter 1 and makes at most `MaxRetries - 1` = 2 attempts, not the 3 a fresh run gets. `App.ReconnectAfterLoss` states this path; the model follows the code here rather than a budget of 3 retries per loss.
- React state scheduling is not modelled. Each `setSharedFiles(prev => ...)` updater is a function applied to the live list. The render-time `sharedFiles` read by the duplicate check is a separate `snapshot` argument.
- The `shareFile`, `unshareFile` and `uploadFile` calls and `unsubscribe` are not modelled. The model takes their outcomes as arguments, and the upload appears only as the `Upload` record the handler would start it with.
- Malformed messages, where `JSON.parse` of the body fails, are not modelled.
- SharedFileList.ToLower lowers ASCII letters only. JavaScript's `toLowerCase` also maps other Unicode letters.
- The following are presentation or plain I/O and are not part of this model:
  - all JSX rendering;
  - `formatSize` and the clipboard helpers;
  - `src/services/ApiService.ts` and `src/services/WebSocketService.ts`;
  - `src/DownloadPage.tsx`, `src/index.tsx` and `src/redux/store.ts`.

## Findings

| source | as written | input that shows it | evidently intended | confidence | as-written member | corrected member |
|---|---|---|---|---|---|---|
| src/App.tsx:107-110 | The duplicate check searches `sharedFiles` as captured when `handleFileSelect` ran. That list cannot hold the share being created, because the new item is added through `setSharedFiles(prev => ...)`. | A share with no prior entry for its hash, and the same download request delivered twice: both deliveries pass the check. Two uploads start and the file records two downloads with the same `(ip, streamHash)`. | Check the live list, so that a repeated request is ignored and each key appears once per file. | not executed | App.StaleSnapshotAdmitsDuplicate | App.LiveCheckKeepsKeysUnique |
