# A verified model of the bazel-remote disk cache

This project models the local disk cache of bazel-remote in Dafny and proves what
its code promises: that the size-bounded index never miscounts a byte, that
concurrent requests never lose or share a file, that what was put is read back,
that a restart rebuilds the index, and that answers about missing blobs do not
depend on scheduling. `dafny verify dfyconfig.toml` checks everything.

## How it is organised

| module | models |
|---|---|
| `Int64`, `Sums`, `Wrappers`, `Bytes` | 64-bit integers with wrap-around, sums over sequences, small datatypes, little-endian numbers and an open file |
| `LruSpec` | the index of `cache/disk/lru.go` as functions on a recency sequence, with whole runs of operations |
| `SizedLru` | the same index as a class: a list of shared elements, a map, three 64-bit counters, eviction loops |
| `Names` | lookup keys, file names and the scan of file names at startup |
| `TempFile` | the random file names and the exclusive-create loop |
| `Zstd`, `CasBlob`, `BlobReaders`, `BlobWriter` | the laws assumed of Zstandard with a toy codec that satisfies them, the chunked blob format, its two random-access readers and its writer |
| `Stream` | the adaptor from message streams to byte streams |
| `Protocol`, `ProtocolSafety`, `ProtocolTheorems` | any number of interleaved `Put` and `Get` requests with every failure path, the invariant they keep, and what it means for reservations, paths, files and progress |
| `ReadBack` | that a `Get` returns what a `Put` stored, from the commit to the reply, and that a `Put` with room succeeds |
| `Integrity`, `IntegrityRace` | that every answer of every run is data that was stored under its key, and a run that shows what this needs |
| `FileWriter` | how a `Put` writes its file, in both storage modes |
| `Load`, `Restart` | loading scanned files into the index, and the round trip through a restart |
| `Messages`, `Capture` | the parts of action results that matter, and the emission of their closures |
| `FindMissing`, `FindMissingProtocol`, `FindMissingTheorems`, `FindMissingResults`, `FindMissingRace` | the batched local lookup in place, the concurrent proxy checks as a state machine, its invariant, the meaning of the answers while the index changes, and when nil is returned too early |
| `ActionResults`, `DiskCache` | the validation of a cached action result as a function and as methods of a mutable cache |

Code that changes state step by step is a class or a method with loops, proved
against functions; the properties are lemmas about those functions. The two
concurrent protocols are state machines: a section under a lock, a file
operation, a channel operation and a use of the semaphore are one step each, the
environment chooses failures, random names, the contents of half-written files,
proxy answers under a cancelled context and the branch of a select with two ready
channels, and every theorem is about all runs.

SHA-256 and the message formats are parameters. Zstandard is a pair of functions
with four laws: the empty stream decodes to nothing, a frame decodes to its
content in front of any further frames, skippable frames (section 3.1.2 of RFC
8878) decode to nothing, and the frame of non-empty input is not empty. For empty
input an encoder may return a frame or nothing: `Zstd.ToyIsLawful` and
`Zstd.TerseIsLawful` show that the laws allow both. The results about the
integrity of answers also take it that the frame which stands for the empty blob
decodes to nothing, and that the hash of nothing is the one the program knows. The
proxy is a fixed set of blobs.

## Results that are exact conditions

Some properties hold only under a condition, which is then proved to be the exact
one, for all inputs:

* A written blob has a readable header if and only if `8 * numOffsets + 21`, the
  length field of the header, fits 32 bits (`CasBlob.HeaderRoundTrip`). The file
  of an entry is answered with its data if and only if that is so, and else
  counts as a miss (`ReadBack.ServesData`). A blob of 512 TiB is too long
  (`CasBlob.HugeIsRejected`).
* The readers accept the offsets up to the size, and the end of the last chunk's
  range; on any other they leave the domain of an index or a slice
  (`BlobReaders.UncompressedRefines`, `BlobReaders.ZstdRefines`).
* An accepted new value is live if and only if it fits beside the reservations. An
  overwrite that does not fit evicts the new value together with everything else
  (`LruSpec.AddedValue`, `ReadBack.CommittedIsLive`, with an input in
  `LruSpec.OverwriteEvictsItself`). Without compression it always fits
  (`ReadBack.UnexpandedIsLive`).
* The 64-bit test in `Add` is exact if and only if the cache is smaller than 2^62
  bytes (`SizedLru.HalfRangeIsExact`), and rounding to blocks if and only if the
  size is at most 2^63 - 4096 (`Int64.RoundUp4kExact`). So is the test that keeps
  out values larger than the cache (`SizedLru.OversizeIsExact`).
* Scanning the path of an item gives it back if and only if it is of a form the
  program stores (`Names.ScanRoundTrip`).
* In fail-fast mode with a proxy, nil does not always mean that every blob was
  found: the last select may take the end of the checks before the cancellation.
  While nobody changes the index, and whatever other requests hold of the
  semaphore, a run that returns nil exists if and only if the checks of all digests
  that miss can be started: none is too large for the proxy, and before each of
  them fewer than 512 neither hit nor are in the proxy. So nil means that
  everything is found if and only if that is so already or not all checks can be
  started (`FindMissingRace.NilMeansFound`, with an input in
  `FindMissingRace.NilDespiteMissing`). For a run that has ended, nil was right if
  and only if no check had failed the request (`FindMissingResults.NilInFailFast`).
* Every hit gives data that was stored under its key in every run in which no file
  is created at a path that a Get, between its lookup and the opening of the file,
  is about to open (`Integrity.AnswersAreTrue`). A random name that is drawn again
  at that moment can mislead the Get (`IntegrityRace.ClashMisleads`).

The comment above the regular expression in `cache/disk/load.go` (lines 391 to
393) says that the names of uncompressed CAS files contain their size. The code
that names them leaves it out, and the model follows the code.

## Model

| member | source | states |
|---|---|---|
| Int64.RoundUp4kExact | cache/disk/lru.go:294-297 | the mask form of rounding gives the next multiple of 4096 without wrapping exactly for sizes up to 2^63 - 4096 |
| Int64.RoundUp4kWraps | cache/disk/lru.go:294-297 | above that the mask form yields a negative number |
| Int64.RoundUpDivides | cache/disk/lru.go:294-297 | the rounded size is the least multiple of the block size that is not smaller |
| Int64.SumLargerThanExact | cache/disk/lru.go:207-220 | the test on wrapping 64-bit sums equals the test on unbounded ones for non-negative operands |
| Int64.RoundUpBlocks | cache/disk/lru.go:294-297 | what the rounding of a size computes, as a multiple of the block size |
| Int64.Exceeds | cache/disk/lru.go:207-220 | the comparison used by Reserve decides whether the true sum exceeds the limit |
| LruSpec.FitIsExact | cache/disk/lru.go:138-148 | a front part of the list stays within the room exactly if it is no longer than the cut |
| LruSpec.AddValid | cache/disk/lru.go:104-154 | Add keeps keys distinct and the accounted bytes within the limit |
| LruSpec.AddBalances | cache/disk/lru.go:104-154 | for every weight of entries: before plus added is after plus evicted |
| LruSpec.AddedValue | cache/disk/lru.go:112-153 | after a successful Add the key maps to the new value exactly if it fits beside the reservations, always for a fresh key, and otherwise the value itself was evicted |
| LruSpec.OverwriteEvictsItself | cache/disk/lru.go:112-153 | an input on which an accepted overwrite evicts itself and leaves the index empty |
| LruSpec.AddIsMinimal | cache/disk/lru.go:138-148 | Add evicts the shortest tail that makes room, least recently used first |
| LruSpec.ReserveValid | cache/disk/lru.go:224-257 | Reserve keeps the index valid and adds exactly the size to the reservations when it succeeds |
| LruSpec.ReserveIsMinimal | cache/disk/lru.go:224-257 | Reserve succeeds exactly if the size fits beside the reservations, and evicts the shortest tail |
| LruSpec.GetValid | cache/disk/lru.go:157-164 | Get keeps the index valid and what every key maps to |
| LruSpec.RemoveValid | cache/disk/lru.go:178-184 | Remove keeps the index valid |
| LruSpec.RunValid | cache/disk/lru.go:104-279 | after any sequence of operations the index is valid: distinct keys, exact totals within the limit |
| LruSpec.RunConserves | cache/disk/lru.go:112-153 | over any run each accepted value is live or was given to the callback, exactly once |
| LruSpec.RunByRecency | cache/disk/lru.go:104-184 | after any run the list is ordered by the last successful Add or Get of each key; Peek, Remove and reservations leave no trace |
| SizedLru.SizedLRU.constructor | cache/disk/lru.go:63-87 | a new index is empty, for every limit; it is valid for limits below 2^62 |
| SizedLru.SizedLRU.RemoveElement | cache/disk/lru.go:281-292 | unlinks the element from list and map, updates both counters and calls the callback |
| SizedLru.SizedLRU.EvictUntil | cache/disk/lru.go:138-145 | the loop without an empty-list guard ends, with exactly the longest front that fits |
| SizedLru.SizedLRU.Charge | cache/disk/lru.go:104-136 | accepts exactly what the specified Add accepts; the deltas are the changes of the totals, an overwrite being charged with the difference |
| SizedLru.SizedLRU.Place | cache/disk/lru.go:104-136 | exactly an accepted value is put at the front, in list and map, and a replaced value goes to the callback |
| SizedLru.SizedLRU.Settle | cache/disk/lru.go:138-153 | eviction and the counter updates lead to the state of the specified Add |
| SizedLru.SizedLRU.Add | cache/disk/lru.go:104-154 | refines LruSpec.Add on list, map, counters and callbacks, with no 64-bit overflow |
| SizedLru.SizedLRU.Get | cache/disk/lru.go:157-164 | refines LruSpec.Get and returns what the key maps to |
| SizedLru.SizedLRU.Peek | cache/disk/lru.go:169-175 | returns what the key maps to and changes nothing |
| SizedLru.SizedLRU.Remove | cache/disk/lru.go:178-184 | refines LruSpec.Remove |
| SizedLru.SizedLRU.EvictForReserve | cache/disk/lru.go:243-252 | the eviction loop of Reserve reaches the exact cut, and its internal error branch is dead |
| SizedLru.SizedLRU.Reserve | cache/disk/lru.go:224-257 | refines LruSpec.Reserve, fails exactly with an error, and never with the internal one |
| SizedLru.SizedLRU.Unreserve | cache/disk/lru.go:259-279 | refines LruSpec.Unreserve |
| SizedLru.HalfRangeIsExact | cache/disk/lru.go:113-117 | the 64-bit test of Add is exact for all possible sizes exactly if the maximum is below 2^62 |
| SizedLru.OversizeIsExact | cache/disk/lru.go:106-110 | the test for values larger than the cache is exact exactly for sizes up to 2^63 - 4096 |
| Names.DecimalRoundTrip | cache/disk/disk.go:239-261 | a printed size is parsed back, and starts with 0 only if it is 0 |
| Names.LookupKeyRoundTrip | cache/disk/disk.go:168-192 | the parts of a lookup key are those it was made from, but a RAW key has no prefix |
| Names.CreatedIsEvicted | cache/disk/disk.go:162-166 | the name Create opens is the path eviction computes exactly if only CAS items are legacy files |
| Names.MatchIsUnique | cache/disk/load.go:394 | the matcher returns a match exactly if the regular expression allows it, so the match is unique |
| Names.ScanRoundTrip | cache/disk/load.go:394-498 | scanning the path of an item gives back its key and the item exactly for the items the program stores |
| Names.PathInjective | cache/disk/disk.go:239-269 | the path of a stored item determines its key, random part, format and, if compressed, its size |
| Names.DirIgnoresRawPrefix | cache/disk/disk.go:239-261 | key and directory of a RAW item do not depend on the storage prefix |
| TempFile.RandomTextShape | utils/tempfile/tempfile.go:29-35 | the text is nine digits that stand for the generator's state modulo 10^9 |
| TempFile.FileSystem.OpenExclusive | utils/tempfile/tempfile.go:58-86 | opens only a name that does not exist |
| TempFile.Creator.Ranqd1 | utils/tempfile/tempfile.go:29-35 | one step of the linear congruential generator and its text |
| TempFile.Creator.Create | utils/tempfile/tempfile.go:58-86 | the created file is new, empty and named after base and random part; giving up means all ten thousand names existed |
| Zstd.DecodeOne | cache/disk/casblob/casblob.go:278-289 | from the laws: a single frame decodes to its content |
| Zstd.ToyIsLawful | cache/disk/casblob/casblob.go:499-634 | the laws assumed of the compression are consistent |
| Zstd.TerseIsLawful | cache/disk/zstdimpl/gozstd.go:68-70 | they also allow an encoder that writes nothing for empty input |
| CasBlob.EncodedDecodes | cache/disk/casblob/casblob.go:570-596 | the frames of the chunks decode to the whole data |
| CasBlob.HeaderRoundTrip | cache/disk/casblob/casblob.go:82-168 | readHeader returns the written header if its length fits 32 bits, and else reports that the size field does not match; offsets increase strictly and end at the file size |
| CasBlob.HugeIsRejected | cache/disk/casblob/casblob.go:82-168 | a blob whose written file is rejected because its header is too long |
| CasBlob.FrameSizeExact | cache/disk/casblob/casblob.go:64-66 | the 32-bit length field is the true length exactly below 2^32 |
| CasBlob.WholeFileDecodes | cache/disk/casblob/casblob.go:441-475 | the header is one skippable frame, so the whole file decodes to the data |
| CasBlob.TableRoundTrip | cache/disk/casblob/casblob.go:145-149 | a table of offsets is parsed back |
| BlobReaders.ReadHeader | cache/disk/casblob/casblob.go:82-168 | the reads, checks and errors are those of ParseHeader, and the position is behind the table; a table that no memory holds is an error of the run-time system |
| BlobReaders.CheckIncreasing | cache/disk/casblob/casblob.go:151-159 | accepts exactly strictly increasing tables |
| BlobReaders.SeekChunk | cache/disk/casblob/casblob.go:252-296 | positions the file at the chunk, or decodes it and cuts it, with every error case |
| BlobReaders.GetUncompressedReadCloser | cache/disk/casblob/casblob.go:217-312 | for every file, size and offset the stream is that of ReadUncompressed |
| BlobReaders.GetZstdReadCloser | cache/disk/casblob/casblob.go:318-397 | for every file, size and offset the stream is that of ReadZstd |
| BlobReaders.UncompressedRefines | cache/disk/casblob/casblob.go:252-311 | on a written file the uncompressed reader yields the data from every offset up to the size, and exactly where it fails |
| BlobReaders.ZstdRefines | cache/disk/casblob/casblob.go:353-396 | on a written file the zstd reader yields frames that decode to the data from the offset |
| BlobReaders.ExtractLogicalSize | cache/disk/casblob/casblob.go:172-202 | returns the size field if it is positive, and a stream equal to the original |
| BlobReaders.LogicalSizeIsExact | cache/disk/casblob/casblob.go:172-202 | that size is the header's, and on a written file the size of the data |
| BlobWriter.WriteAndClose | cache/disk/casblob/casblob.go:499-634 | success means that the reader holds size bytes with the hash and then ends, and leaves the file that holds them; it fails on such input only if the disk fails |
| BlobWriter.CopyChunks | cache/disk/casblob/casblob.go:562-596 | reads chunk by chunk, writes the frames and fills the offset table of the data; it fails only if there are too few bytes or the disk fails |
| BlobWriter.CountChunks | cache/disk/casblob/casblob.go:509-517 | the number of chunks is the least that covers the size |
| BlobWriter.Finished | cache/disk/casblob/casblob.go:612-621 | overwriting the provisional table gives the final file |
| Stream.StreamReadCloser.ReadFromBuf | cache/grpcproxy/readcloser.go:19-31 | copies as much as fits and keeps the rest |
| Stream.StreamReadCloser.Read | cache/grpcproxy/readcloser.go:33-53 | refines ReadOnce on buffer, stream and the caller's slice, with its three endings |
| Stream.ReadOnceKeeps | cache/grpcproxy/readcloser.go:33-53 | a read returns the next bytes, no more than fit, and leaves all others pending |
| Stream.SessionDelivers | cache/grpcproxy/readcloser.go:33-53 | up to EOF exactly the concatenation of the messages is returned, for all messages and buffer sizes |
| Stream.SessionEnds | cache/grpcproxy/readcloser.go:33-53 | with non-empty buffers the end is reached within as many reads as there are bytes and messages |
| ProtocolSafety.InitialInv | cache/disk/disk.go:275-806 | the empty cache satisfies the invariant |
| ProtocolSafety.StepAccounts | cache/disk/disk.go:345-446 | every step changes the reserved bytes by what the request's own holding changes |
| ProtocolSafety.CommitAccounts | cache/disk/disk.go:490-524 | commit gives back exactly the reservation and ends the holding, whether Add succeeds or not |
| ProtocolSafety.StepOwns | cache/disk/disk.go:398-438 | every step keeps the owners of a path, but for creating a file and removing one's own |
| ProtocolSafety.StepFrame | cache/disk/disk.go:345-446 | a step changes no file but the request's own temporary one |
| ProtocolSafety.StepLocalOk | cache/disk/disk.go:275-806 | the cleanup flags of a request match what it holds, at every point of Put and Get |
| ProtocolSafety.StepEntries | cache/disk/disk.go:490-524 | entries appear only by a commit |
| ProtocolSafety.CommittedIsStored | cache/disk/disk.go:448-487 | what is committed is a completely written file of the recorded size |
| ProtocolSafety.RemovalIsExclusive | cache/disk/disk.go:194-205 | a scheduled removal deletes a file that no entry and no other request uses |
| ProtocolSafety.NextKeepsInv | cache/disk/disk.go:275-806 | every arrival, step and removal keeps the invariant |
| ProtocolSafety.RunKeepsInv | cache/disk/disk.go:275-806 | the invariant holds in every run of any number of requests |
| ProtocolTheorems.UnreserveNeverFails | cache/disk/disk.go:361-372 | giving back what a request holds never reports an error |
| ProtocolTheorems.NothingReservedWhenIdle | cache/disk/disk.go:345-446 | with no request running nothing is reserved, and the size is that of the entries, within the limit |
| ProtocolTheorems.NoDeadlock | cache/disk/disk.go:275-806 | a request that is not done can always take a step that is no failure; with fewer than 10^9 files, one in which the random part is nine digits |
| ProtocolTheorems.NameIsFree | utils/tempfile/tempfile.go:58-86 | with fewer than 10^9 files some name with a random part of nine digits is not taken |
| ProtocolTheorems.StepAdvances | cache/disk/disk.go:275-806 | every step other than a partial write brings a request closer to its end, so it is done after at most twelve |
| ProtocolTheorems.PathsAreDisjoint | cache/disk/load.go:646-650 | the files of entries, temporary files and files awaiting removal have pairwise different paths, within each kind and across, and all exist |
| ProtocolTheorems.EntryFileStays | cache/disk/disk.go:194-205 | no transition changes the file of an entry that stays |
| ProtocolTheorems.MappedFileStays | cache/disk/disk.go:275-806 | over any run the file of a key that stays mapped stays as it is |
| ReadBack.ServesData | cache/disk/disk.go:563-603 | an entry's file is answered with exactly the data from the offset on, compressed if so requested, if its header is readable, and is a miss if not |
| ReadBack.CommittedIsLive | cache/disk/disk.go:490-524 | after a successful Put the item is live exactly if it fits beside the other reservations |
| ReadBack.UnexpandedIsLive | cache/disk/disk.go:490-524 | in particular whenever its file is no larger than the declared size, so always for uncompressed storage |
| ReadBack.CommitHolds | cache/disk/disk.go:448-524 | a successful Put leaves a file with exactly its body, whose hash was checked for a compressed blob |
| ReadBack.GetAnswers | cache/disk/disk.go:531-606 | in every state of a run in which its key stays mapped, a Get has not looked yet, has found the item, or has exactly the stored data as its answer, whatever else runs |
| ReadBack.PutThenGet | cache/disk/disk.go:275-446 | after a successful Put, until its key is overwritten or evicted, any Get that arrives with an offset in range and whose own file operations do not fail ends with the body from there on, with any requests running before, meanwhile and after |
| ReadBack.ProxyFillServes | cache/disk/disk.go:719-804 | whatever fails and whatever runs beside it, a Get filled from the proxy ends with the proxy's blob from the offset on, or with a failure |
| ReadBack.ReopenServes | cache/disk/disk.go:764-804 | it takes that answer from the file it is about to commit, which holds the blob in the stored form |
| Integrity.NextKeepsSound | cache/disk/disk.go:275-806 | every transition that creates no file about to be opened keeps that entries, files about to be opened and answers hold genuine data |
| Integrity.RunKeepsSound | cache/disk/disk.go:275-806 | so does every run |
| Integrity.AnswersAreTrue | cache/disk/disk.go:531-806 | in every run from the empty cache, whatever is evicted, overwritten, filled or found on the slow path, every hit gives, from the offset on, data of the stated size that a Put or the proxy has brought to that key |
| Integrity.AnswersAreHashed | cache/disk/disk.go:531-806 | with compressed storage every CAS blob that is answered has the hash that was asked for, or is the proxy's blob for it |
| IntegrityRace.ClashMisleads | cache/disk/disk.go:534-606 | if a second Put draws the same name after the entry found by a Get was evicted and its file removed, the Get gives what nobody has stored |
| IntegrityRace.SomeScene | utils/tempfile/tempfile.go:58-86 | such a scene exists |
| ReadBack.RoomMeansCommit | cache/disk/disk.go:490-524 | a Put about to commit succeeds and is live if its item fits beside the other reservations |
| ReadBack.PutReachesCommit | cache/disk/disk.go:345-432 | from every reachable state with room, an undisturbed Put of acceptable data reserves, creates, writes and comes to its commit |
| ReadBack.PutSucceeds | cache/disk/disk.go:275-446 | it then succeeds, and its key maps to its item |
| FileWriter.Copy | cache/disk/disk.go:468-470 | success means that reading succeeded and the file is the whole body; it fails on such input only if the disk fails |
| FileWriter.WriteAndCloseFile | cache/disk/disk.go:448-487 | unless the disk fails, succeeds exactly when the writing step of a Put does: size and, for compressed blobs, hash and emptiness are checked; success leaves the stored form of the body |
| ProtocolTheorems.PathInIsPathOf | cache/disk/disk.go:263-269 | a Get looks where the entry's file is |
| ProtocolTheorems.SlowPathFindsFile | cache/disk/disk.go:547-558 | the second lookup, under the lock, always finds the file of the entry |
| ProtocolTheorems.OnlyOwnCommitReplaces | cache/disk/disk.go:490-524 | operations on other keys change what a key maps to only by evicting it |
| Load.LoadExistingFiles | cache/disk/load.go:631-669 | the loop builds the specified index, removes the refused files and evicts as specified; it aborts the start exactly if a refused file cannot be removed |
| Load.LoadConserves | cache/disk/load.go:656-664 | every scanned file is indexed or removed, exactly once, even if keys repeat |
| Load.LoadKeepsOptimum | cache/disk/load.go:631-669 | for distinct keys in access order exactly the longest most recent run of the files that fit is kept, in that order |
| Load.LoadKeepsAll | cache/disk/load.go:631-669 | files that fit together are all kept and none is removed |
| Restart.RunKeepsTrack | cache/disk/disk.go:351-373 | in a run without failing removals every file keeps an owner |
| Restart.FilesAreEntries | cache/disk/load.go:646-650 | with no request running the files are exactly those of the entries |
| Restart.StoredIsScanned | cache/disk/load.go:394-498 | the file of an entry is scanned as that entry |
| Restart.ScanFindsEntries | cache/disk/load.go:348-626 | the scan finds exactly the entries, each once, in whatever order it visits the files |
| Restart.RestartKeepsAll | cache/disk/load.go:631-669 | after a restart the same entries are indexed, nothing is removed, and the request protocol's invariant holds |
| Restart.RestartWithLimit | cache/disk/load.go:631-669 | after a restart with any limit, less the files it refuses and with removals of those it evicts, the request protocol's invariant holds and no file is without an owner |
| Restart.RestartRoundTrip | cache/disk/load.go:631-669 | if access times follow the recency order, the loaded index is the index before |
| Messages.NubFacts | cache/disk/lru_capture.go:149-156 | keeping first occurrences gives the same hashes without duplicates |
| Capture.CompleteMeans | cache/disk/lru_capture.go:148-240 | complete leaves are free of duplicates, name the same set of hashes, and all have a known size |
| Capture.EmitFromHit | cache/disk/lru_capture.go:148-179 | emits a complete closure exactly if every leaf's size was collected, and otherwise nothing |
| Capture.LookupSizeOnDisk | cache/disk/lru_capture.go:129-141 | the size of the entry, without touching the index; 0 for the empty blob |
| Capture.AddLeaf | cache/disk/lru_capture.go:194-207 | adds a leaf once, and fails exactly if its size is unknown |
| Capture.EmitFromWrite | cache/disk/lru_capture.go:185-240 | emits a complete closure exactly if there are no directories, nothing is inlined and every blob is indexed |
| FindMissing.LookUpSlot | cache/disk/findmissing.go:192-216 | a slot becomes nil exactly if the blob is the empty one or indexed with a compatible size, and the entry is touched |
| FindMissing.FindMissingLocalCAS | cache/disk/findmissing.go:180-221 | all slots of a batch are looked up in place, the others stay, the count and the collected sizes are right, and only recency changes |
| FindMissing.TouchKeeps | cache/disk/findmissing.go:180-221 | looking up changes only the order of the entries |
| FindMissing.FilterNonNil | cache/disk/findmissing.go:166-176 | the front of the array holds exactly the non-nil slots, in order |
| FindMissingTheorems.MainStepOk | cache/disk/findmissing.go:75-161 | every step of a request keeps its invariant and the semaphore's balance |
| FindMissingTheorems.CheckStepOk | cache/disk/findmissing.go:225-250 | every step of a check keeps the invariant and the balance |
| FindMissingTheorems.RunKeepsInv | cache/disk/findmissing.go:51-162 | in every run of any number of requests the semaphore holds exactly the unreleased checks, never more than 512 |
| FindMissingTheorems.AllReleased | cache/disk/findmissing.go:119-137 | once all checks have ended nothing is held |
| FindMissingTheorems.NoDeadlock | cache/disk/findmissing.go:119-161 | while a request has not returned, it or some check can go on |
| FindMissingTheorems.StepsDescend | cache/disk/findmissing.go:51-162 | every step lowers a rank, so every call returns |
| FindMissingTheorems.AnswersAreExact | cache/disk/findmissing.go:37-43 | without fail-fast and cancellation there is no error, and a slot is nil exactly if the blob was found here or confirmed |
| FindMissingResults.OneAnswer | cache/disk/findmissing.go:37-43 | then every interleaving returns exactly the digests that are not found, in the order of the request, each by the index at some time during the request; with a steady index that is one answer |
| FindMissingResults.SteadyIndex | cache/disk/findmissing.go:180-221 | if nobody changes the index, what is missing at those times is what is missing at the call |
| FindMissingResults.ErrorsAreSound | cache/disk/findmissing.go:51-162 | whatever happens to the index meanwhile, a missing blob is reported only for a digest that missed with no proxy, was too large for it, or was refused, and a cancellation only if there was one |
| FindMissingResults.FailFastIsExactWithoutProxy | cache/disk/findmissing.go:98-101 | without a proxy nil is returned exactly when nothing is missing, each digest in the index at its lookup |
| FindMissingResults.NilInFailFast | cache/disk/findmissing.go:151-158 | with a proxy nil means that all is found exactly if no check has failed the request, and is never returned if a digest that misses is too large |
| FindMissingRace.NilHasStarted | cache/disk/findmissing.go:98-158 | whatever happens to the index, a fail-fast request that returns nil has started all its checks: none was too large, and before each there was room for all that can only fail |
| FindMissingRace.DrainOthers | cache/disk/findmissing.go:119-161 | in every reachable state all other requests can return and all their checks end while a request that holds nothing waits |
| FindMissingRace.NilIsReached | cache/disk/findmissing.go:139-158 | from every reachable state, whatever other requests hold, a fail-fast request whose checks can all be started has a run that returns nil |
| FindMissingRace.NilMeansFound | cache/disk/findmissing.go:98-158 | so, while nobody changes the index, nil is trustworthy in all runs exactly if nothing is missing at the call or not all checks can be started |
| FindMissingRace.NilDespiteMissing | cache/disk/findmissing.go:151-158 | an input for which nil is returned for a missing blob |
| ActionResults.ValidatedIsComplete | cache/disk/disk.go:874-1026 | a result is returned exactly if it, its trees and every digest they refer to are available |
| ActionResults.ReadIsGet | cache/disk/disk.go:531-632 | reading a blob is a Get of the request protocol that runs alone |
| ActionResults.AllBatches | cache/disk/findmissing.go:75-101 | when nothing is missing all batches are looked up |
| ActionResults.FrontBlock | cache/disk/lru.go:157-164 | touching keys moves exactly their entries to the front and keeps the order of the others |
| ActionResults.HitMovesClosure | cache/disk/disk.go:874-1026 | after a hit the action result, its trees and all it refers to form the front of the list, the others keep their order, nothing is evicted |
| DiskCache.DiskCache.ReadBlob | cache/disk/disk.go:531-606 | the method returns what Read says and touches the keys ReadKeys says |
| DiskCache.DiskCache.ReadTrees | cache/disk/disk.go:931-986 | the loop over the output directories gathers the digests of the tree files and stops at the first unreadable tree |
| DiskCache.DiskCache.CheckPending | cache/disk/findmissing.go:75-101 | batches of twenty are looked up until one has a miss; all found exactly if everything is available |
| DiskCache.DiskCache.GetValidatedActionResult | cache/disk/disk.go:874-1026 | outcome and index are those of the specification whether or not accesses are observed, nothing is evicted, and with an observer each hit emits exactly one complete closure |

## Left out

- Servers, authentication, configuration, metrics, logging, directory creation and migration, access-time polling: no property of the cache itself.
- Proxy clients and uploads to the proxy: the proxy is a fixed set of blobs, which it delivers in the format in which the cache stores them, and a check may also be refused once its context is done.
- What the servers check before they call the cache, hashes of 64 lower case hexadecimal digits and storage prefixes of that form, is a condition on requests (`Protocol.RequestOk`).
- `path.Join`, `MkdirAll` and `Chmod`: paths are relative to the cache directory and already clean.
- The legacy compressor that `get` uses for uncompressed files is one frame of the rest of the file.
- Errors of the disk while a file is read: the bytes of an open file can be read; in the request protocol opening, examining and reading may fail as a whole.
- The Identity branch of `WriteAndClose`: the cache never uses it, and its files cannot be read back.
- `Contains` and the accessors for sizes: lookups that add no state.
- The bounds on the memory for capturing written action results in `Put`: a semaphore like the one of the proxy checks, without a property of its own; a hit with a proxy is also left out, in which a size may come from the proxy.
- The directory walk of `scanDir` and its parallel workers: the scan may list the files in any order.
- Load.LoadExistingFiles: takes the scanned files as a sorted sequence, because sorting them is left to the standard library.
- Restart.RestartRoundTrip: assumes that access times strictly follow the recency order, which the file system decides; RestartKeepsAll assumes nothing of the kind.
- Restart.RunKeepsTrack: is about runs in which no removal fails, because the program ignores such failures and then leaves a file behind.
- DiskCache.DiskCache.GetValidatedActionResult: runs alone and without a proxy.
- SizedLru.SizedLRU.Add: items of more than 2^63 - 4096 bytes on disk and caches of 2^62 bytes or more are left out, exactly where `SizedLru.OversizeIsExact` and `SizedLru.HalfRangeIsExact` show that the 64-bit tests go wrong.
- SizedLru.SizedLRU.Charge: the same bounds as for Add.
- SizedLru.SizedLRU.Place: the same bounds as for Add.
- ProtocolTheorems.NoDeadlock: the program gives up after drawing ten thousand names that are all taken, which the request protocol has as a failing creation; the drawing itself is `TempFile.Creator.Create`.
- The order in which the semaphore serves requests that wait for it: any of them may be next. In the runs of `FindMissingRace.NilIsReached` no other request waits.
