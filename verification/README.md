# Verified model of cdfs

cdfs is a small file store: a metadata database on LevelDB, a disk store that writes through temporary
files, chunked upload with a merge, and an HTTP front end that routes requests and parses targets and
multipart bodies. This project models the logic of those parts in Dafny and proves what they keep over
every run, every interleaving or every input.

| file | subject |
|---|---|
| `Lex.dfy`, `Decimal.dfy`, `TextSearch.dfy` | bytewise order of keys, decimal text (`to_string`, `stoi`, `stoul`), `std::string::find` |
| `OrderedKeys.dfy` | sorted key sets, the LevelDB iterator, scans of a contiguous run of keys |
| `Metadata.dfy`, `MetadataStore.dfy` | documents, keys and operations; the store as an object with in-place updates and iterator loops |
| `MetadataRuns.dfy` | sequential runs: indexes, refinement of a plain map, statistics, shard records |
| `MetadataListing.dfy`, `MetadataShards.dfy` | what `list_dir` and `get_uploaded_shard` return |
| `MetadataRaces.dfy` | interleaved savers whose duplicate check runs before the lock |
| `DiskProtocol.dfy`, `FileStore.dfy`, `FilePaths.dfy` | concurrent and sequential `write_disk`, saving uploads and chunks, generated paths |
| `Uploads.dfy`, `Chunks.dfy`, `ChunkDirs.dfy`, `Filenames.dfy` | upload handling, chunk upload and merge, chunk directories on disk, file-name trimming |
| `Multipart.dfy`, `MultipartRoundTrip.dfy`, `MultipartSingle.dfy` | the multipart parser, its round trip, its single-part twin |
| `Router.dfy`, `UrlUtils.dfy`, `Latency.dfy` | routing, targets and queries, the maximum-latency gauge |

How the outside world appears in the model:

- One C++ `char` is one Dafny `char`. LevelDB is a map with an iterator that moves to the least or greatest
  key; whether a batch write succeeds is a Boolean argument. A stored value is a document or other text, and
  decoding other text fails. Serialising keeps every field except the paths of shards.
- Counters of 64 bits and casts to `int` and `uint32_t` wrap or are range-checked explicitly.
- The file system is a map from paths to contents. Each call can fail by injection, and closing a stream can
  lose buffered bytes unnoticed, because `write_disk` does not look at the stream after `close()`.
- The hash is an arbitrary function; where a collision would matter, the theorem assumes that the contents
  of the run at hand do not collide.
- Saved md5s are 32 characters without a colon where a theorem about runs says so; everything else handed
  to the store is arbitrary.

Places where the code does less than its comments promise. Each item names the theorem with the exact
condition under which the promise holds, and the concrete run or input that breaks it:

- `list_dir` of a directory also returns documents of scenes that continue the name after a colon
  (`SceneMatch`, `ColonSceneListed`), and sorts times as text (`ListDirInTimeOrder`, `WidthMatters`).
- `get_uploaded_shard` misreads records of files whose id extends the queried id after a colon
  (`UploadedShardsExact`, `ColonFilesMisread`).
- Two savers of one md5 that both pass the unlocked check count the document twice
  (`RacesAccounted`, `TwoSaversCountTwice`); the indexes survive such a replacement exactly when scene and
  time agree and no path entry is left behind (`ReplaceExact`).
- A later document with the same path takes over the path entry (`SavePathExact`, `PathTakenOver`).
- A lossy close lets a partial file be seen until the size check (`PartialExactly`, `LossyCloseExposes`), and
  a failing writer removes a file that another writer has reported as written (`StaysOnceWritten`,
  `ReportedStays`, `FailureRemoves`). If the partial file cannot be removed either, the next upload of that
  content records it (`RecordsHaveFiles`, `StuckFileRecorded`).
- A temporary file left by a failed chunk write is read as a chunk, so that the merge returns its slice again
  (`LeftoversMerged`, `RetriedChunkMergedTwice`); a slice that was never uploaded is silently left out, and
  chunk numbers beyond the range of `int` are dropped (`MergeRestores`).
- The merge looks for the chunks in a directory whose name has an additional blank (`Directories`), so as
  shipped it finds nothing (`ChunkedUploadAsShipped`). The other results about merging therefore take the
  chunk directory as a parameter.
- The merge does not notice bytes lost on the way to its output file and records what is left
  (`MergeOutcomeMeans`, `LossyMergeRecorded`).
- A part whose delimiter follows its blank line at once is given the rest of the body (`PartsPlaced`,
  `DelimiterAtOnce`).
- A latency beyond the range of `int` is stored truncated (`GaugeIsMaximum`, `LongDurationWraps`).

## Model

| member | source | states |
|---|---|---|
| `Lex.PrefixIsRange` | file/MetadataStore.cpp:292-295 | the keys with a prefix are exactly those from the prefix up to the string whose last character is one larger |
| `OrderedKeys.PrefixRun` | file/MetadataStore.cpp:281-302 | the keys with a colon-terminated prefix form one contiguous run for both scan directions |
| `OrderedKeys.ScanUpStep` | file/MetadataStore.cpp:332-335 | advancing the iterator visits the run's keys in ascending order without skipping one and then leaves the run |
| `OrderedKeys.ScanDownStep` | file/MetadataStore.cpp:332-337 | the same downwards |
| `OrderedKeys.BelowCeiling` | file/MetadataStore.cpp:294-300 | seeking the bound and stepping back, or going to the last key, reaches the greatest key below the bound |
| `Decimal.EqualWidthOrder` | file/MetadataStore.cpp:54-56 | printed numbers of equal width sort as numbers |
| `Decimal.TextOrder` | file/MetadataStore.cpp:54-56 | for any two times, negative ones included, exactly when their texts followed by a colon sort like the numbers: the longer text cut to the width of the shorter must compare that way |
| `Decimal.StoiDec` | controller/FileCtl.cpp:270 | printing and `stoi` round-trip exactly for numbers up to INT_MAX; larger ones throw |
| `Decimal.StoulDec` | file/MetadataStore.cpp:193 | printing and `stoul` round-trip for every `uint32_t` |
| `Decimal.NumberReads` | file/filestore.cpp:299-300 | both read white space, an optional sign and digits up to the first other character; `stoi` throws outside `int`, `stoul` negates modulo and is cut to 32 bits |
| `Decimal.ScanFails` | file/filestore.cpp:299-310 | nothing is read when no digit follows white space and sign |
| `Metadata.SceneKeyInjective` | file/MetadataStore.cpp:56 | a scene key determines scene, time and md5 even when the scene contains colons |
| `Metadata.ShardKeyInjective` | file/MetadataStore.cpp:156 | a shard key determines file and index |
| `MetadataStores.MetadataStore.constructor` | file/MetadataStore.cpp:12-26 | opening keeps the content and starts the statistics from zero |
| `MetadataStores.MetadataStore.SaveMeta` | file/MetadataStore.cpp:33-70 | new state of a save; true is returned exactly when the md5 is present afterwards |
| `MetadataStores.MetadataStore.UpdateStatus` | file/MetadataStore.cpp:203-220 | new state; undecodable text raises and changes nothing |
| `MetadataStores.MetadataStore.DeleteMeta` | file/MetadataStore.cpp:229-267 | new state; true exactly when a live document was removed |
| `MetadataStores.MetadataStore.UpdateMeta` | file/MetadataStore.cpp:222-226 | new state as delete followed by save, either batch failing on its own; true is returned exactly when the md5 is present afterwards, that is, when the save was written or the old entry could not be removed |
| `MetadataStores.MetadataStore.SaveMetaShard` | file/MetadataStore.cpp:154-169 | new state of recording a shard |
| `MetadataStores.MetadataStore.GetUploadedShard` | file/MetadataStore.cpp:171-201 | the iterator loop returns the readable indices of all keys with the prefix, in key order, on every database |
| `MetadataStores.MetadataStore.ListDir` | file/MetadataStore.cpp:269-340 | the iterator loop returns the requested part of the resolved scene entries in scan order, on every database |
| `MetadataStores.MetadataStore.RepairStat` | file/MetadataStore.cpp:356-380 | the rescan sets the counters to number and size sum of decodable NORMAL documents under keys of length 32 |
| `MetadataRuns.RunKeepsIndexed` | file/MetadataStore.cpp:33-267 | every sequential run with any failing batches keeps all indexes in agreement with the documents |
| `MetadataRuns.IndexesAgree` | file/MetadataStore.cpp:50-57 | a scene entry exists exactly for each live (scene, time, md5); a path entry leads to a live document of that path |
| `MetadataRuns.LookupExact` | file/MetadataStore.cpp:125-152 | after every run, a lookup with 32 characters finds a document if and only if it is the live one of that md5, and with any other key if and only if the path entry of exactly this key leads to it |
| `MetadataRuns.StoredFields` | file/MetadataStore.cpp:47-48 | a document reads back with every field as saved except the paths of its shards |
| `MetadataRuns.RunRefines` | file/MetadataStore.cpp:33-267 | the documents after a run are those of a plain map under the same operations |
| `MetadataRuns.SavePathExact` | file/MetadataStore.cpp:50-52 | a save keeps every live document reachable by path exactly when its path is free |
| `MetadataRuns.PathTakenOver` | file/MetadataStore.cpp:50-52 | two saves with one path: the path leads to the second, and after its deletion to nothing, while the first is still there |
| `MetadataRuns.RunKeepsPaths` | file/MetadataStore.cpp:251-257 | while paths stay distinct, every live document has its path entry over the whole run |
| `MetadataRuns.RunKeepsDrift` | file/MetadataStore.cpp:259-264 | between recounts, counters minus live documents is constant modulo 2^64 |
| `MetadataRuns.DriftAfterRecount` | file/MetadataStore.cpp:356-380 | a recount leaves out exactly the documents that are not NORMAL; reopening leaves out all |
| `MetadataRuns.CachedStatExact` | file/MetadataStore.cpp:62-65 | from empty, counters equal live number and size sum; a recount changes nothing exactly when the uncounted documents number and weigh zero modulo 2^64, in particular when all are NORMAL |
| `MetadataRuns.ShardsKept` | file/MetadataStore.cpp:154-169 | shard records after a run are exactly those saved in it |
| `MetadataRuns.ShardValues` | file/MetadataStore.cpp:154-169 | a shard record holds the hash saved last, or the mark `1` |
| `MetadataListing.SceneMatch` | file/MetadataStore.cpp:281-315 | exact condition under which a document's key has a directory's prefix |
| `MetadataListing.ColonSceneListed` | file/MetadataStore.cpp:281-315 | after saving a document of scene `a:b`, the listing of `a` is that document |
| `MetadataListing.ColonFreeListed` | file/MetadataStore.cpp:281-315 | with colon-free names a directory lists exactly its scene |
| `MetadataListing.WholeListing` | file/MetadataStore.cpp:309-338 | the resolved entries of a directory are its live documents, each once, in key order |
| `MetadataListing.ListingUnique` | file/MetadataStore.cpp:309-338 | that specification has one solution |
| `MetadataListing.ListDirMeetsSpec` | file/MetadataStore.cpp:269-340 | after every run `list_dir` is the page of the live documents in key order, reversed for order other than 1, for all offsets and limits |
| `MetadataListing.PageMeans` | file/MetadataStore.cpp:269-335 | a page holds the entries from the offset on, as many as the limit; all for a negative limit, none for a negative offset or the limit 0 |
| `MetadataListing.ListDirInTimeOrder` | file/MetadataStore.cpp:54-57 | after every run, the listing of a directory of one scene is in time order, upwards or downwards, if and only if any two of its times sort as text like they do as numbers; then every page is |
| `MetadataListing.UniformTimesSortable` | file/MetadataStore.cpp:54-57 | non-negative times of one printed width meet that condition |
| `MetadataListing.WidthMatters` | file/MetadataStore.cpp:54-57 | after saving documents of times 9 and 10 the listing has 10 first |
| `MetadataListing.PagesAreTheListing` | file/MetadataStore.cpp:304-338 | pages at offsets 0, k, 2k and so on concatenate to the whole listing |
| `MetadataShards.UploadedShardsExact` | file/MetadataStore.cpp:171-201 | after every run each saved index is reported once and nothing else, in text order, if and only if no other file's record reads as one of this file |
| `MetadataShards.ColonFilesMisread` | file/MetadataStore.cpp:191-194 | shard 5 of file `f:1` reads as shard 1 of file `f` |
| `MetadataRaces.RacesAccounted` | file/MetadataStore.cpp:39-66 | under every interleaving each live document has its scene entry, and both counters exceed the live documents by exactly the replaced ones; without a replacement all indexes agree |
| `MetadataRaces.SaveInTwoMoves` | file/MetadataStore.cpp:33-70 | a check followed at once by its commit is the sequential save, and a saver that finds the md5 does nothing |
| `MetadataRaces.ReplaceExact` | file/MetadataStore.cpp:45-60 | a save that replaces a document keeps the indexes in agreement if and only if scene and time are the same and the old path entry is overwritten or no longer leads to the document |
| `MetadataRaces.HarmlessRaces` | file/MetadataStore.cpp:39-66 | interleavings whose replacements all meet that condition keep all indexes in agreement |
| `MetadataRaces.TwoSaversCountTwice` | file/MetadataStore.cpp:39-66 | two racing savers leave one document counted twice with two scene entries |
| `DiskProtocol.NeverPartial` | file/filestore.cpp:29-95 | over all interleavings and failures no other file changes and the target holds nothing, its first content or a prefix of one writer's data, and the complete data unless a rename published a file that its close cut short |
| `DiskProtocol.PartialExactly` | file/filestore.cpp:59-72 | with equal data, some state of a run shows a partial target if and only if some rename publishes a file that its close cut short |
| `DiskProtocol.TrueMeansComplete` | file/filestore.cpp:74-81 | with equal data, and a target that is at first absent, right or of another size, a writer returns true only while the complete data is in place, lossy closes included |
| `DiskProtocol.LossyCloseExposes` | file/filestore.cpp:59-81 | from the start: a writer whose close loses bytes shows a partial file by its rename, which the size check removes |
| `DiskProtocol.StaysOnceWritten` | file/filestore.cpp:68-93 | with equal data, once there the complete file stays through all later states if and only if no writer fails at its rename, its checks or removing its temporary file and then cleans up while the file is there, and no cut file is renamed; then a writer that returned true has its file there |
| `DiskProtocol.ReportedStays` | file/filestore.cpp:74-93 | with equal data, from the first report of success on the target is complete in all states if and only if after a report nobody removes it and no cut file is renamed over it |
| `DiskProtocol.FailureRemoves` | file/filestore.cpp:82-93 | from the start, with the full list of calls: the first of two writers returns true, the second fails its rename and removes the file |
| `FileStores.FileStore.WriteDisk` | file/filestore.cpp:29-95 | one writer alone: other files unchanged, success means right size, a new file is incomplete exactly when the write is stuck, and then holds what the close left |
| `FileStores.WrittenAnswer` | file/filestore.cpp:34-94 | true exactly when the file was there with that size or nothing went wrong; an exception exactly when a query fails or the clean-up after a failure does |
| `FileStores.WriteIsProtocolRun` | file/filestore.cpp:29-95 | the sequential write is a run of the concurrent protocol by one thread, for every combination of failures |
| `FileStores.FileStore.SaveUpload` | file/filestore.cpp:356-397 | files and answer for every combination of failures |
| `FileStores.UploadSavedMeans` | file/filestore.cpp:356-397 | the path is returned exactly when a file is there already or the write reports success, and an exception passes exactly when the look-up or the write raises one; success means a file is there; a present file is left alone; other files are unchanged; a new file is incomplete exactly when the write takes place and gets stuck |
| `FileStores.FileStore.SaveChunk` | file/filestore.cpp:322-354 | files and answer for every combination of failures, refusing `..` |
| `FileStores.ChunkSavedMeans` | file/filestore.cpp:322-354 | exactly when the answer is true and when an exception passes; only the chunk and its temporary file change, nothing for a refused path; success leaves a chunk of that size; after a reported failure it is gone unless the roll-back fails |
| `FileStores.ChunkSavedWell` | file/filestore.cpp:322-354 | without failures exactly the chunk's file is set |
| `FileStores.ChunkLeftover` | file/filestore.cpp:51-72 | a temporary file is left exactly when its rename, or its removal after a failed write, fails |
| `FilePaths.ExtensionRead` | file/filestore.cpp:363-369 | stem, dot and a text without dots: the extension is the dot and that text, with or without a directory, except for `..` |
| `FilePaths.NoExtension` | file/filestore.cpp:363-369 | no dot, or one in first place only: no extension |
| `FilePaths.PathShape` | file/filestore.cpp:371-379 | where an upload is written and what path is recorded; an absolute scene replaces the root |
| `FilePaths.PathsInjective` | file/CryptoUtils.h:76-85 | generated paths determine md5 and extension across all scenes |
| `FilePaths.RelPathLong` | file/MetadataStore.cpp:132-137 | a recorded path is longer than an md5, so a lookup by path is not taken for one by md5 |
| `FilePaths.RecordedPathReads` | file/filestore.cpp:371-379 | the recorded path under the root is where the file was written, for absolute and empty scenes too |
| `FilePaths.TempIsNoPath` | file/filestore.cpp:46-49 | a temporary name is never a generated path |
| `Uploads.FileCtl.HandleUpload` | controller/FileCtl.cpp:38-104 | new files and metadata of one request: file first, record only after success and under a non-empty cleaned name |
| `Uploads.UploadRecorded` | controller/FileCtl.cpp:38-104 | a document is recorded exactly when the request passes the checks, its file is in place, the cleaned name is not empty, the md5 is new and the batch is written; it has the name, scene, time, size and path of the upload and is found by md5 and by path; otherwise the metadata is unchanged, and a request that does not pass changes nothing |
| `Uploads.ExtensionChecked` | file/CryptoUtils.h:61-66 | without a list every name passes, otherwise exactly those whose lower-case extension is listed |
| `Uploads.LowerMeans` | file/CryptoUtils.h:64 | upper-case letters become their lower-case counterparts, all else stays |
| `Uploads.RecordsHaveFiles` | controller/FileCtl.cpp:83-103 | after every run of uploads whose contents do not collide, each record is found by md5 and by path, and its path names a present file of the recorded size and hash if and only if no write has got stuck at that path |
| `Uploads.StuckFileRecorded` | file/filestore.cpp:377-380 | from empty: an upload that gets stuck and a second one of the same content leave a record whose file is wrong |
| `Uploads.FileCtl.HandleChunkUpload` | controller/FileCtl.cpp:213-240 | refuses empty fields; otherwise the files and the answer for every combination of failures, with nothing outside the chunk directory changed; without failures exactly one entry is set |
| `Uploads.FileCtl.HandleMerge` | controller/FileCtl.cpp:242-339 | files, metadata and answer for every combination of failures; a recorded merge of a new md5 is found by md5 and by path, with the given name, scene and time, and its path names a present file of the recorded size |
| `Uploads.MergeOutcomeMeans` | controller/FileCtl.cpp:285-339 | a merge is recorded exactly when all chunks open, no call fails and the path is outside the directory, and refused exactly when there are no chunks; then the joined chunks are at the final path, unless bytes were lost unnoticed, and neither chunks nor output file are left; one that stops before its rename changes only its output file, which stays |
| `Uploads.OutputBeside` | controller/FileCtl.cpp:287 | the output file lies next to the chunk directory and not in it |
| `Uploads.LossyMergeRecorded` | controller/FileCtl.cpp:296-339 | a merge that loses bytes and fails nowhere is recorded with the bytes that are left |
| `Uploads.ChunkedUpload` | wwwroot/chunkLoad.html:30-72 | client and server together, the merge pointed at the upload directory: after uploading the slices in any order with repeats and merging, the original bytes are at the final path; a new md5 is found by md5 and by path with the given name, scene and time, the size of the file, and a path that leads to exactly its bytes |
| `Uploads.ChunkedUploadAsShipped` | controller/FileCtl.cpp:254-260 | as shipped: whatever was uploaded, the merge is refused, nothing is recorded and the chunks stay, unless files lie in the other directory |
| `Chunks.GetShardIndex` | file/filestore.cpp:289-315 | the scan returns the numbers the names start with, in directory order |
| `Chunks.ReportedIndices` | file/filestore.cpp:289-315 | after uploads in any order with repeats, exactly the uploaded indices up to INT_MAX are reported, each once |
| `Chunks.SortAscending` | controller/FileCtl.cpp:282-283 | ascending permutation |
| `Chunks.Merge` | controller/FileCtl.cpp:262-306 | the result is the chunks joined along an ascending arrangement of the collected indices, or the error of the first one that cannot be opened with what was written before it |
| `ChunkDirs.ListDirectory` | controller/FileCtl.cpp:266-267 | a directory listing names every file once, in no particular order |
| `Chunks.AppendAll` | controller/FileCtl.cpp:295-305 | the append loop joins the files or stops at the first missing one |
| `Chunks.EmptyChunkCuts` | controller/FileCtl.cpp:303 | an empty chunk file sets the stream's fail bit, and nothing after it is written |
| `Chunks.UploadsHold` | wwwroot/chunkLoad.html:30-48 | after uploads in any order with repeats the directory holds exactly the uploaded slices |
| `Chunks.CopiesCounted` | file/filestore.cpp:289-315 | with leftovers of failed writes in the directory, the scan collects each number once for its chunk and once per leftover |
| `Chunks.MergeGathers` | controller/FileCtl.cpp:262-306 | for any uploaded slices and any leftovers, what every merge returns: the slices in order, each as often as its number is collected, or the error of the first number without a chunk |
| `Chunks.MergeRestores` | controller/FileCtl.cpp:262-306 | after uploading slices in any order with repeats, the merge returns the uploaded slices in order; this is the file if and only if all were uploaded and the chunk count fits the range of `int` |
| `Chunks.LeftoversMerged` | controller/FileCtl.cpp:262-306 | with all slices and any leftovers, the merge returns each slice once plus once per leftover, which is the file if and only if there is no leftover |
| `ChunkDirs.RetriedChunkMergedTwice` | file/filestore.cpp:72-93 | from empty: a chunk whose rename fails, its retry, and then every merge returns the content twice |
| `ChunkDirs.Directories` | controller/FileCtl.cpp:256 | for relative names the merge directory is that of a temporary directory with a blank in front, never the upload directory; the query directory is the upload directory exactly when the root is non-empty and has no trailing slash |
| `ChunkDirs.SavedChunkView` | file/filestore.cpp:322-354 | saving a chunk file sets one entry of its directory |
| `Filenames.TrimFilename` | file/CryptoUtils.h:40-58 | the cleaned name is in normal form, keeps in order all characters that are neither special nor dots, and is the name itself if that is in normal form |
| `Filenames.TrimNormalises` | file/CryptoUtils.h:40-58 | names that trimming leaves alone are exactly the normal ones, hence idempotence |
| `Filenames.TrimKeeps` | file/CryptoUtils.h:40-58 | of the text without special characters trimming keeps all characters but dots, and of the dots exactly those that stand alone and at neither end |
| `Filenames.DropSpecialJoins` | file/CryptoUtils.h:42-43 | special characters are removed one by one, whatever stands around them |
| `Filenames.SpecialExactly` | file/CryptoUtils.h:42 | of the printable ASCII characters exactly letters, digits, dot, underscore and back-quote are not special; of the others only white space is |
| `Multipart.Parse` | server/MultipartParser.cc:33-132 | the loop terminates and collects exactly the parts found from position 0 |
| `Multipart.PartsPlaced` | server/MultipartParser.cc:62-129 | for every body parts come in order, lie between blank line and next delimiter, and hold a delimiter exactly when it follows the blank line at once |
| `Multipart.DelimiterAtOnce` | server/MultipartParser.cc:100-113 | a body whose delimiter follows the blank line at once: the part's data is the closing delimiter |
| `MultipartRoundTrip.PlainRead` | server/MultipartParser.cc:24-30 | a value without quotes is read up to the first separator or the end |
| `MultipartRoundTrip.NothingRead` | server/MultipartParser.cc:9-23 | nothing is read without the key, without an equals sign after its first occurrence, or when a quote is not closed |
| `MultipartRoundTrip.NameExtracted` | server/MultipartParser.cc:9-31 | a printed name is read back, in quotes or without |
| `MultipartRoundTrip.FilenameExtracted` | server/MultipartParser.cc:9-31 | a printed file name is read back, in quotes or without, and a parameter named `filename` is not mistaken for one |
| `MultipartRoundTrip.BoundaryRead` | server/MultipartParser.cc:36-51 | quoted and unquoted boundaries are read, whatever leads to the first `boundary=` of the Content-Type |
| `MultipartRoundTrip.ParseUndoesPrint` | server/MultipartParser.cc:53-131 | parsing a printed body gives the form its parts describe: values in quotes or without, with or without preamble, with stray delimiters in front and any epilogue |
| `MultipartRoundTrip.DescribedMeans` | server/MultipartParser.cc:116-125 | that form has the last non-empty file name with its bytes and the last value of each parameter |
| `MultipartRoundTrip.DescribedKeeps` | server/MultipartParser.cc:116-125 | nothing else is in the form |
| `MultipartSingle.ParsersAgree` | server/HttpContext.h:115-198 | on every printed body, with or without preamble, whose first part is its only file, both parsers return the same file if its name is in quotes; otherwise the older one finds nothing |
| `MultipartSingle.TruncatedBody` | server/HttpContext.h:115-198 | on a body cut off inside its first part neither returns data, and the older one has set the file name |
| `MultipartSingle.NameMissing` | server/HttpContext.h:115-198 | without a quoted file name, or when it is not closed, the older one finds none |
| `Routers.Router.AddRoute` | server/Router.cc:7-11 | sets one exact route |
| `Routers.Router.AddPrefix` | server/Router.cc:14-26 | adds one entry and keeps the list longest first, equal lengths in any order |
| `Routers.Router.Dispatch` | server/Router.cc:40-83 | exact route, else a longest matching prefix with the rest as suffix, else not found |
| `Routers.Serve` | server/Router.cc:7-83 | the same after every sequence of registrations |
| `Routers.LastRouteCounts` | server/Router.cc:7-11 | of two registrations of one exact route the later one counts |
| `Routers.DispatchUnique` | server/Router.cc:18-23 | for distinct entries that answer is unique |
| `Routers.OrderIrrelevant` | server/Router.cc:7-83 | distinct registrations answer every request alike in every order |
| `UrlUtils.SplitTarget` | server/UrlUtils.cc:3-25 | fragment dropped, path up to the first question mark, query after it |
| `UrlUtils.DecodeText` | server/UrlUtils.cc:30-67 | the index loop computes the decoding or fails as it does |
| `UrlUtils.DecodeExact` | server/UrlUtils.cc:30-67 | a text decodes to a value if and only if it is an encoding of it, either hexadecimal case, plus for blank |
| `UrlUtils.DecodeFails` | server/UrlUtils.cc:38-50 | it fails exactly on texts that encode nothing |
| `UrlUtils.HexExact` | server/UrlUtils.cc:52-58 | the hexadecimal digits in either case, with their values, and nothing else |
| `UrlUtils.PercentEncodeOk` | server/UrlUtils.cc:30-67 | every byte string has such an encoding |
| `UrlUtils.ParseQuery` | server/UrlUtils.cc:74-101 | the index loop reads the pieces between ampersands in order |
| `UrlUtils.QueryParsed` | server/UrlUtils.cc:74-101 | every list of items, a key with a value, a key alone, nothing, or a malformed one: the query fails if and only if some item encodes nothing, otherwise the items are bound in order |
| `UrlUtils.ItemsExist` | server/UrlUtils.cc:74-101 | every query is such a list |
| `UrlUtils.TargetRoundTrip` | server/UrlUtils.cc:3-101 | splitting and parsing a printed target gives back path and parameters, or fails for a malformed item |
| `UrlUtils.ParamsMean` | server/UrlUtils.cc:98 | each key has its last item's value, empty for a key that stands alone |
| `UrlUtils.ParamsKept` | server/UrlUtils.cc:86-98 | no other key is bound, and items that bind nothing change nothing |
| `UrlUtils.KeysDecodedAlone` | server/UrlUtils.cc:91-97 | a key is decoded only when it stands without a value |
| `Latency.GaugeIsMaximum` | server/HttpSession.cc:122-129 | the gauge is the maximum of the durations in effect since the last reset, or 0, under every interleaving with spurious failures and resets, if and only if all durations fit an `int` |
| `Latency.EffectOnce` | server/HttpSession.cc:127-128 | each session takes effect exactly once |
| `Latency.EffectLogged` | server/HttpSession.cc:127-128 | the durations of which the gauge is the maximum are exactly those that took effect since the last reset |
| `Latency.StartSettled` | server/HttpSession.cc:122-124 | at the start exactly the sessions without a positive duration have nothing to do |
| `Latency.SessionEnds` | server/HttpSession.cc:125-129 | a step concerns one session, and a session ends exactly by giving up or by a swap that succeeds |
| `Latency.StoredExactly` | server/HttpSession.cc:128 | the cast keeps a positive duration exactly when it fits an `int` |
| `Latency.LongDurationWraps` | server/HttpSession.cc:128 | from the start, the two steps of a session with a longer duration leave the gauge below it, and negative for the next 2^31 values |

## Left out

- LevelDB, the JSON library, MD5, Beast/Asio and std::filesystem themselves: represented as described above.
- A document stored under a key that starts with `SCENE:` or `PATH:` is treated as an entry that leads nowhere; its JSON text is not modelled.
- Recursive locking in `list_dir`, which calls `get_meta` while it holds the shared lock: locks appear only as the atomicity of steps.
- HandleMerge: lookups of the record are stated for md5s of 32 characters without slash, dot and colon; the md5 it records is the client's; records made by merges are not part of `RecordsHaveFiles`, because nothing compares the md5 with the bytes.
- RecordsHaveFiles: sequential uploads only; concurrent writers of one file are the subject of `DiskProtocol`.
- Write collisions of the random temporary suffix: temporary names are taken as distinct.
- The upload admission counter, `save_shard`, reading files back and downloads: little to prove beyond the parts above.
- Response building, sockets, timers and the accept loop, the status page, MIME table, logger, byte-order helpers: plumbing or constant lookup.
- The running total of latencies: a single atomic addition.
- Versioning, hybrid clocks and cluster synchronisation: described in the repository's documentation but not implemented.
