# A verified model of gocryptsftp

gocryptsftp serves a plaintext view of a gocryptfs file system that lives on an SFTP server.
This project models the parts of it that hold its hard logic, and proves what they are for:

* **The request layer** (`Protocol*.dfy`, `SyncCache.dfy`, `RequestView.dfy`): concurrent
  `makeRequest` calls, numbered workers, a bounded queue, three shared caches, ticket locks with
  condition variables, the retry loop, `ClearCache`, `Stop` and the 20 second timeout, as a step
  machine in which everything interleaves. The theorems are about every run.
* **The path cache** (`FastCache*.dfy`): the linked hash map, as mutable nodes and as values.
* **The tree walk** (`Paths.dfy`, `TreeView.dfy`, `FileTree.dfy`): `findPath` with its cache
  against the walk without one, and `ReadDir` and `ReadFile` on top; `TreeLookup.dfy` says entry by
  entry what a lookup means.
* **The content codec** (`Content*.dfy`): sizes, offsets, ranges, headers, blocks, sparse files,
  parallel encryption, buffer pools, `decryptFile`.
* **The name codec** (`Pad16.dfy`, `Base64*.dfy`, `NameTransform.dfy`).
* **The connection pool** (`Backend.dfy`, `BackendObject.dfy`).
* **The end-to-end view** (`EncryptedTree.dfy`, `EndToEnd.dfy`, `EndToEndObject.dfy`): any
  plaintext tree, encrypted and read back through the file tree.

`dafny verify dfyconfig.toml` checks everything.

## How the pieces fit

`FileTreeObject.FileTree.ReadDir` and `ReadFile` (mutable cache, buffers from pools) are proved
equal to `TreeView.ReadDir` and `TreeView.ReadFile` (functions of a backend snapshot), and
`EndToEnd.ReadDirShows` and `ReadFileShows` say what those functions give on an encrypted tree;
`EndToEndObject.ReadDir` and `ReadFile` put the two together.
The request layer below them is tied in by `RequestView.CallSeesView`: over a fixed backend, a
call of the protocol that completes gives exactly the answer `TreeView` works with. That calls do
complete is `ProtocolProgress.MaximalRunsComplete`. What the backend answers is given by the
`Answer` steps of a run; the histories that the state keeps are proved to record exactly what the
steps did (`ProtocolHistory`).

## Assumptions

* The block cipher modes are parameters. Of EME: for every 16 byte IV, mutually inverse
  length-preserving maps on non-empty multiples of 16 bytes (`NameCodec.Lawful`). Of the AEAD: a
  16 byte tag, and `Open` accepts exactly what `Seal` produced under the same nonce and
  associated data (`ContentCodec.LawfulAead`). `EndToEnd.LawsSatisfiable` shows that the laws are
  consistent, and `EndToEnd.SampleIsWellFormed` that trees meet the end-to-end hypotheses. Of
  SHA-256 only the 32 byte length is used.
* Nonces and file IDs are given values. Round trips need them to be different from zero, because
  the decoder reserves zero (gocrypt/contentenc/content.go:173, file_header.go:60).
* The SipHash inside `complexKey` is a parameter of a run. Where two requests must not share a
  key, the hypothesis is `WellKeyed` (no collision among the requests' IVs, non-empty IVs for
  `DecryptName`, none otherwise); where only the client's and the worker's key must agree, it is
  `KeysMatch`.
* The backend may answer anything, including data together with an error; the theorems about
  success ask for non-empty and error-free answers on the slot in question.
* Progress assumes at least one worker.
* Go strings and byte slices are byte sequences, shorter than 2^64 bytes where that matters.
  Integers are unbounded, except where the sources compute sizes and ranges on 64 bits: there the
  theorems say exactly when that agrees (`CipherSizeNoWrap`, `PlainSizeNoWrap`, the `Explode`
  methods), and in the block number inside the associated data.
* `filepath.Clean`, `Dir`, `Base` and `Join` follow their documentation for Unix.

## Findings

Several promises turn out not to hold of the code in general. Each is stated with the exact
condition under which it does.

* `FastCache` is documented as an LRU cache. `refreshNode` never updates the successor's `prev`,
  and for every capacity of at least two the cache soon evicts the entry stored just before
  (`EvictsPreviousKey`). It is an LRU cache exactly for capacity one (`LruExactlyAtCapacityOne`);
  with the missing assignment it is one for every capacity (`RepairedRefinesLru`).
* `decryptFile` indexes the first block of an empty range: it panics on exactly the files that
  have a valid header and no more than one block's overhead after it, 19 to 50 bytes with the
  default sizes (`PanicsExactly`).
* An empty backend answer is cached as neither data nor error. Over error-free answers, a request
  that is not disturbed by three deletions fails if and only if its answer is empty
  (`CallSeesSnapshot`); so empty files cannot be read (`ReadFileShows`).
* A call that leaves by the 20 second branch can block its worker for good, and other calls can
  then hang for ever (`TimeoutCanHang`, `ParkedForever`): the timeout covers only the wait for a
  ticket. When nothing can move any more, exactly the calls are unfinished that are parked on the
  ticket of a blocked worker, or that wait for the queue while all workers are blocked
  (`HangsExactly`). A call whose data is cached never is (`CachedCallCompletes`). A worker gets blocked exactly by a timeout while it sends, or by serving a
  timed-out call whose answer is not cached (`BlocksExactly`).
* `DecryptName` with an empty IV looks under a key that no worker writes, unless the name equals
  some request's complex key (`EmptyIvNeverSucceeds`). The file tree itself never passes an empty
  IV, because an empty directory IV is already an error.
* `findPath` ends on absolute paths only (`FindPath`, `RelativeNeverEnds`).
* `EncryptBlocks` panics on an empty block whose slice does not happen to have the capacity of a
  ciphertext block, and otherwise pools a slice that the caller still has (`EncryptBlocksTo`).

## Model

| member | source | states |
|---|---|---|
| `ProtocolInvariant.ReachableInv` | requester/requester.go:123-191 | in every reachable state of every interleaving: each ticket lock is held by exactly the call or worker inside its critical section; an entry with locker w≠0 has neither data nor error and worker w is in flight on exactly that cache and key; a parked call's worker has not broadcast yet and works on the call's key (no lost wakeup); every queued or owed item is awaited by exactly its own call |
| `ProtocolInvariant.NextInv` | requester/makerequest.go:28-133 | every single step of a call, worker, backend, `ClearCache` or `Stop` keeps that invariant; what `ClearCache` does is in `ProtocolClear` |
| `ProtocolProgress.NoDeadlock` | requester/makerequest.go:36-113 | in a reachable state, before or after `Stop`, some call or worker can take a step as long as there is an unfinished call that is not hung: parked on the ticket of a blocked worker, or waiting for the open queue, or in the queue, while all workers are blocked |
| `ProtocolProgress.HangsExactly` | requester/makerequest.go:130-131 | when nothing can move any more, a call is unfinished if and only if it is hung in one of these ways |
| `ProtocolProgress.StepSpends` | requester/makerequest.go:28-133 | every step lowers a measure of calls, workers, queue and clears, whatever the schedule |
| `ProtocolProgress.RunsAreBounded` | requester/makerequest.go:28-133 | no run is longer than the measure of its initial state |
| `ProtocolProgress.MaximalRunsComplete` | requester/requester.go:150-191 | a run that cannot be extended has finished exactly the calls it began that are not hung, hence all of them if no worker is blocked, timeouts or not |
| `ProtocolResponses.ExactlyOneResponse` | requester/requester.go:127-147 | in a run that ends without a blocked worker, every item ever queued gets exactly one response, a ticket or a close, also if its call has timed out |
| `ProtocolResponses.AtMostOneResponse` | requester/requester.go:127-147 | in no run at all does an item get two responses |
| `ProtocolResponses.AnsweredExactly` | requester/requester.go:127-147 | in any run, a queued item has been answered if and only if it is neither queued nor owed at the end |
| `ProtocolHang.ParkedForever` | requester/makerequest.go:100-113 | a worker blocked on a timed-out call stays blocked, and a call parked on its ticket stays parked, in every continuation |
| `ProtocolHang.BlocksExactly` | requester/requester.go:127-131 | a step blocks a worker if and only if it makes a call time out to which the worker is sending, or makes the worker serve a timed-out call whose answer is not cached yet |
| `ProtocolHang.TimeoutCanHang` | requester/makerequest.go:130-131 | for every path there is a run in which one timeout leaves another call parked for ever, with no step of any call or worker possible |
| `ProtocolSoundness.ReachableSound` | requester/requester.go:127-147 | every cache entry, pending answer and returned value comes from a logged backend call on the same slot |
| `ProtocolSoundness.ReturnedDataIsAnAnswer` | requester/decryptname.go:5-11 | data returned by a call was produced by a backend call on the same kind and arguments and has that kind's type, so the typed wrappers' assertions cannot fail |
| `ProtocolSoundness.SnapshotAgreement` | requester/makerequest.go:28-35 | if all `Answer` steps give a fixed backend's data, a successful call returns exactly that data for its request, and it is not empty |
| `ProtocolSoundness.EmptyAnswersExhaust` | requester/requester.go:154-163 | if all `Answer` steps on a slot are empty and error-free, no call on it ever returns data or a backend error |
| `ProtocolSoundness.EmptyIvNeverSucceeds` | requester/makerequest.go:23-26 | `DecryptName` with an empty IV never succeeds, unless its ciphertext name happens to equal the complex key of another request, because client and worker use different keys |
| `ProtocolSoundness.ComplexKeyInjective` | requester/complexkey.go:18-20 | equal complex keys mean equal names and equal hashes |
| `ProtocolSoundness.KeysAgree` | requester/makerequest.go:23-26 | client and worker agree on the key exactly when a `DecryptName` request has an IV and other requests have none |
| `ProtocolBudget.RetryBudget` | requester/makerequest.go:28-133 | if all `Answer` steps on a slot are non-empty and error-free, a finished call (neither timed out nor stopped) returned data unless others deleted its entry at least three times while it ran |
| `ProtocolBudget.FailedAttemptHasOwnDeletion` | requester/makerequest.go:46-69 | between the start of any attempt and the moment the call retries or gives up, somebody else has deleted its entry: each failed attempt contains its own deletion |
| `ProtocolBudget.ThreeDisjointDeletions` | requester/makerequest.go:28-133 | a call that gives up ran three attempts one after the other, with a deletion by others inside each of them |
| `ProtocolBudget.AttemptsArePaidFor` | requester/makerequest.go:46-69 | counting only from the start of attempt a, a call d attempts further has seen d deletions by others, and one that gives up one for each attempt it had left |
| `ProtocolTight.BudgetIsTight` | requester/makerequest.go:46-53 | for every path there is a run in which exactly three deletions by `ClearCache` make a call give up with no bad answer: the bound is exact |
| `ProtocolBudget.SingleFlight` | requester/synccache.go:44-52 | without `ClearCache`, a slot with non-empty and error-free answers is answered by the backend in at most one step of the run, for any number of concurrent calls, and none of them gives up |
| `ProtocolBudget.DeletionsAreRemovals` | requester/synccache.go:64-68 | the deletions counted in these budgets are exactly the steps of others after which the entry is gone |
| `ProtocolHistory.LogIsTranscript` | requester/requester.go:154-187 | the logged answers are those of the `Answer` steps, each to the request of the worker it answers, in order |
| `ProtocolHistory.PublicationStep` | requester/requester.go:134 | every recorded publication is a step in which a worker writes that entry to that slot |
| `ProtocolHistory.QueueIsFifo` | requester/requester.go:150-152 | what workers have taken, followed by what is still queued, is what calls have put in, in that order; at most 1000 are queued |
| `ProtocolHits.CacheHit` | requester/makerequest.go:29-35 | while a call looks into a slot whose data nobody deletes or replaces, it stays there until its next step, which finishes it with exactly this data |
| `ProtocolHits.LookerCanMove` | requester/makerequest.go:29-35 | and it can take that step in every state until then |
| `ProtocolHits.HitNeverQueued` | requester/makerequest.go:29-44 | an attempt that starts with such a hit never has an item in the queue, in any state of the run |
| `ProtocolHits.CachedCallCompletes` | requester/makerequest.go:29-35 | in a run that has come to its end, such a call has returned the data: whatever the queue, blocked workers or `Stop`, it is not hung |
| `ProtocolHits.OutcomeWasRead` | requester/makerequest.go:98-129 | returned data, or a returned error, was in the call's slot at a step of the call itself: an error only if read under the ticket's lock, where it has precedence over data |
| `ProtocolHits.OtherStepPc` | requester/makerequest.go:45-131 | what others can do to a call: answer it while it waits, time it out, and wake it exactly when the worker broadcasts on whose ticket it is parked |
| `ProtocolHits.AfterStop` | requester/requester.go:113-115 | a call that begins after `Stop` returns cached data or panics at the closed queue, and can always move until then |
| `ProtocolHits.PanicMeansStopped` | requester/requester.go:113-115 | calls panic after `Stop` only |
| `ProtocolClear.ClearWipes` | requester/requester.go:117-121 | in any run, a slot of any kind that is not inserted while a clear runs is not cached when it is done |
| `ProtocolClear.ClearAlone` | requester/requester.go:117-121 | a clear that runs alone takes seven steps and leaves all three caches empty |
| `ProtocolClear.ClearSparesNew` | requester/synccache.go:17-29 | an entry that a clear removes was there when the clear listed its cache: what came later stays |
| `ProtocolClear.RemovedBy` | requester/makerequest.go:58-69 | entries are removed only by the delete of a call on that slot and by clears that have listed them |
| `ProtocolClear.AnsweredAfterwards` | requester/requester.go:127-135 | a call that begins while its slot is not cached, and no old answer is about to be written, gets its data or error from an answer the backend gives afterwards |
| `ProtocolClear.NewRequestAfterClear` | requester/requester.go:117-121 | so a call that begins after a clear, on a slot not inserted meanwhile, gets the answer to a new backend request |
| `ProtocolErrors.ErrorsAreFresh` | requester/makerequest.go:58-70 | a backend error that a call returns was written to its slot by a worker in a step after that call began |
| `ProtocolSolo.OneRequestPerFailingCall` | requester/makerequest.go:58-70 | a call that runs alone on a failing key returns a backend error after exactly one backend request of its own, and leaves nothing in flight |
| `ProtocolSequence.RequestsEqualCalls` | requester/makerequest.go:58-70 | over a whole run in which the calls on a failing key do not overlap and no `ClearCache` runs: every finished call returned a backend error, and the number of backend requests is the number of finished calls |
| `RequestView.CallSeesSnapshot` | requester/requester.go:150-186 | if all `Answer` steps answer as a fixed backend, a finished call with fewer than three deletions returns the backend's data if and only if it is not empty, gives up if and only if the answer is empty, and on an error returns it or gives up |
| `RequestView.CallSeesView` | requester/readfile.go:4-10 | such a call gives what the tree walk takes the answer to be: the same data, or a failure where it expects one |
| `SyncCacheModel.SyncCache.Get` | requester/synccache.go:33-38 | the entry and whether it is there; the zero entry if not |
| `SyncCacheModel.SyncCache.GetOrInsert` | requester/synccache.go:44-52 | an existing entry is returned and kept, an absent one inserted; either way the key is there |
| `SyncCacheModel.SyncCache.Set` | requester/synccache.go:56-60 | one key overwritten, the others unchanged |
| `SyncCacheModel.SyncCache.Delete` | requester/synccache.go:64-68 | one key removed, the others unchanged |
| `SyncCacheModel.SyncCache.CollectKeys` | requester/synccache.go:17-23 | the first phase of `ClearCache` lists exactly the present keys, each once |
| `SyncCacheModel.SyncCache.DeleteKeys` | requester/synccache.go:24-29 | the second phase removes exactly the listed keys and leaves what came in between |
| `FastCacheObject.FastCache.Find` | filetree/fastcache.go:37-47 | the pointer structure stays valid and equals the value model after a lookup; a hit gives the node's path |
| `FastCacheObject.FastCache.RefreshNode` | filetree/fastcache.go:51-63 | the pointer assignments as written, stale back link included, are the model's `Refresh`; no nil is dereferenced |
| `FastCacheObject.FastCache.Clear` | filetree/fastcache.go:66-73 | the empty cache of the same capacity |
| `FastCacheObject.FastCache.Store` | filetree/fastcache.go:82-120 | storage, links and count equal the value model after overwriting, reusing the head, or appending |
| `FastCacheModel.StoreContents` | filetree/fastcache.go:82-120 | `Store` keeps the invariant, maps the key to the value as last node, and loses at most the head's entry, only when the key is new and the cache full |
| `FastCacheModel.FindKeepsContents` | filetree/fastcache.go:37-63 | `Find` returns what the map holds, does not change the map, and makes a hit the last node |
| `FastCacheModel.StaleLinks` | filetree/fastcache.go:51-63 | the exact links of every node after `refreshNode` as written |
| `FastCacheRuns.MapRefinement` | filetree/fastcache.go:37-120 | after any run of operations: every hit is the latest value stored since `Clear`, size equals node count and never exceeds capacity, `last` is the node touched last |
| `FastCacheLru.RepairedRefinesLru` | filetree/fastcache.go:51-63 | with the missing back link, every run is a run of an LRU queue, contents and order |
| `FastCacheLru.EvictsPreviousKey` | filetree/fastcache.go:93-102 | as written, for every capacity of at least two, storing `capacity + 3` distinct keys evicts the key stored just before |
| `FastCacheLru.StoresShape` | filetree/fastcache.go:82-120 | the exact contents of the cache, as written, after storing any number of distinct keys |
| `FastCacheLru.LruKeepsRecent` | filetree/fastcache.go:76-78 | the documented queue keeps exactly the last keys stored |
| `FastCacheLru.LruExactlyAtCapacityOne` | filetree/fastcache.go:76-78 | the code as written holds the documented LRU contents after every run if and only if the capacity is one |
| `Paths.CleanParse` | filetree/filetree.go:272 | cleaning keeps the components of a path and is idempotent |
| `Paths.SpecialPieces` | filetree/filetree.go:272 | empty and "." pieces change nothing, ".." goes to the parent and stays at the root |
| `Paths.ParseRender` | filetree/filetree.go:272 | printing normal components and parsing them back is the identity |
| `Paths.DirBase` | filetree/filetree.go:282-283 | `Dir` and `Base` of a cleaned absolute path are its parent and its last component |
| `Paths.JoinParse` | filetree/filetree.go:293 | joining a proper name adds exactly one component, also to relative and unclean paths |
| `Paths.ReachesRoot` | filetree/filetree.go:282-284 | repeated `Dir` reaches "/" after one step per component on absolute paths, and never on relative ones |
| `FileTreeObject.RelativeNeverEnds` | filetree/filetree.go:271-287 | from a relative path no call of the recursion of `findPath` is at "/" or hits the cache, whatever coherent cache it finds: it never ends |
| `FileTreeObject.FileTree.RangeInDir` | filetree/filetree.go:225-245 | the callback sees the entries whose names decrypt, in order, up to the first that stops it |
| `FileTreeObject.FileTree.FindInDir` | filetree/filetree.go:250-265 | the first entry with that decrypted name, or the listing's error, or not found |
| `FileTreeObject.FileTree.FindPath` | filetree/filetree.go:271-299 | on any absolute path and with any coherent cache: the same answer as the walk without a cache, errors included; the cache stays coherent through evictions; terminates on path depth |
| `FileTreeObject.FileTree.ReadDir` | filetree/filetree.go:155-179 | the listing computed without a cache, with plaintext names and sizes |
| `FileTreeObject.FileTree.ReadFile` | filetree/filetree.go:114-149 | the outcome computed without a cache, the data in new memory that no pool holds |
| `TreeLookup.ListsExactly` | filetree/filetree.go:225-245 | over any backend: a directory is listed if and only if its IV file and its listing are readable and not empty, and the result is then the entries whose names decrypt, in order |
| `TreeLookup.FindsFirst` | filetree/filetree.go:250-265 | a lookup finds the first entry of the listing whose name decrypts to the name |
| `TreeLookup.DescendsExactly` | filetree/filetree.go:288-298 | a step down succeeds if and only if that entry is a directory, and leads to its path |
| `TreeLookup.WalksExactly` | filetree/filetree.go:271-299 | a path is found if and only if there is a way from the root, one readable directory and one such step per component |
| `TreeLookup.FetchesExactly` | filetree/filetree.go:114-142 | ciphertext is fetched for a path if and only if there is a way to its parent, whose first entry so called is a readable non-empty file |
| `TreeLookup.ReadDirSucceeds` | filetree/filetree.go:155-179 | `ReadDir` succeeds where there is a way to a readable directory |
| `TreeLookup.ReadDirExactly` | filetree/filetree.go:155-179 | and only there, and shows exactly the entries whose names decrypt, in order, with plaintext names and sizes |
| `EndToEnd.WalkReaches` | filetree/filetree.go:271-299 | over the encrypted form of a tree, the walk succeeds exactly on the tree's folders and ends at the folder's stored place |
| `EndToEnd.ReadDirShows` | filetree/filetree.go:155-179 | over the encrypted form of any tree, `ReadDir` lists exactly the original names in order with the original file sizes, and fails exactly where there is no folder |
| `EndToEnd.ReadFileShows` | filetree/filetree.go:114-149 | `ReadFile` returns the original bytes of every non-empty file, with zero bytes for its holes, and fails, without panicking, on everything else |
| `EndToEndObject.ReadDir` | filetree/filetree.go:155-179 | the same of the running object, whatever its cache holds: the plaintext listing, or an error exactly where there is no folder |
| `EndToEndObject.ReadFile` | filetree/filetree.go:114-149 | the same of the running object: the plaintext in new memory for every non-empty file, an error for everything else |
| `EndToEnd.ListingShown` | filetree/filetree.go:166-174 | the sizes shown are the plaintext sizes |
| `EncryptedTree.NameDecrypts` | filetree/filetree.go:234-238 | of the stored names exactly those of visible items decrypt, to the original name; service files and hashed long names do not |
| `ContentLayout.PlainCipherPlain` | gocrypt/contentenc/offsets.go:35-80 | plain to cipher to plain size is the identity for every block size |
| `ContentLayout.PlainToCipherIncreasing` | gocrypt/contentenc/offsets.go:67-80 | plain to cipher size is strictly increasing |
| `ContentLayout.CipherPlainCipher` | gocrypt/contentenc/offsets.go:35-80 | cipher to plain to cipher size is the identity if and only if the size is 0 or the last block is longer than the overhead |
| `ContentLayout.NoPlaintextExactly` | gocrypt/contentenc/offsets.go:35-64 | the plain size is 0 exactly for files that end inside the header or hold nothing but overhead |
| `ContentLayout.CipherSizeNoWrap` | gocrypt/contentenc/offsets.go:35-64 | 64-bit arithmetic agrees if and only if the total overhead fits into 64 bits or still reaches the size after wrapping around; for overheads up to half the range, if and only if it fits |
| `ContentLayout.PlainSizeNoWrap` | gocrypt/contentenc/offsets.go:67-80 | 64-bit arithmetic agrees if and only if the result fits |
| `ContentLayout.BlockPositions` | gocrypt/contentenc/offsets.go:12-32 | offsets inside a block map back to its number, in plaintext and ciphertext |
| `ContentRanges.ExplodePlainRange` | gocrypt/contentenc/offsets.go:84-101 | on 64-bit integers: terminates, and the result is the exact tiling of the range (consecutive blocks, a skip only in the first, all but the last used to their end) if and only if the last block starts below 2^64 |
| `ContentRanges.ExplodeCipherRange` | gocrypt/contentenc/offsets.go:105-127 | the same for ciphertext ranges: no panic and the exact tiling if and only if the range starts behind the header and its last block starts below 2^64 |
| `ContentRanges.TilingUnique` | gocrypt/contentenc/offsets.go:84-101 | a range has only one tiling, so the loops compute the only possible answer |
| `ContentRanges.OnlyEndsPartial` | gocrypt/contentenc/intrablock.go:21-26 | a piece is partial unless it is its whole block; only the first and the last piece of a range can be, the first exactly for an unaligned offset |
| `ContentRanges.JointRanges` | gocrypt/contentenc/intrablock.go:50-71 | the joint ranges start at the first block, hold one unit per block, and cover the range |
| `ContentReads.RangeRead` | gocrypt/contentenc/intrablock.go:39-59 | for any range that begins inside any file that decrypts, holes included: decrypting the joint ciphertext range clipped to the file end and cropping each block gives exactly that plaintext slice, cut off where the plaintext ends |
| `ContentReads.AcceptedHeader` | filetree/decrypt.go:11-20 | whatever `decryptFile` accepts has a packed header with a non-zero file ID |
| `ContentReads.AcceptedBlock` | gocrypt/contentenc/content.go:111-132 | and block k of the result is on disk at place k: as a hole, or encrypted under number k, that file ID and the nonce in front of it |
| `ContentCodec.Pack` | gocrypt/contentenc/file_header.go:34-43 | the buffer holds version and ID, 18 bytes |
| `ContentCodec.ParsePack` | gocrypt/contentenc/file_header.go:49-65 | a packed header is version 2 in big endian and the ID; parsing it gives it back, unless the ID is zero |
| `ContentCodec.PackParse` | gocrypt/contentenc/file_header.go:49-65 | only packed headers with a non-zero ID parse |
| `ContentCodec.ConcatADLayout` | gocrypt/contentenc/content.go:137-149 | the first 8 bytes are the block number in big endian, the rest is the file ID |
| `ContentCodec.ConcatADInjective` | gocrypt/contentenc/content.go:137-149 | the associated data determines block number and file ID |
| `ContentCodec.BlockRoundTrip` | gocrypt/contentenc/content.go:278-301 | the ciphertext is nonce, then the sealed text, and is longer by the overhead; decrypting it gives the plaintext |
| `ContentCodec.BlockDecrypted` | gocrypt/contentenc/content.go:155-201 | a block that decrypts is a whole block of zero bytes, which stands for zero bytes, or is the encryption of its plaintext under the nonce it carries, block number and file ID |
| `ContentCodec.BlocksRoundTrip` | gocrypt/contentenc/content.go:111-132 | `DecryptBlocks` undoes `EncryptBlocks` for any full blocks plus a short last one |
| `ContentCodec.BlocksReEncrypt` | gocrypt/contentenc/content.go:155-201 | encrypting what `DecryptBlocks` returned, with the nonces the blocks carry, gives the same ciphertext back, if it has no holes and no blocks of mere overhead |
| `ContentCodec.FileRoundTrip` | filetree/decrypt.go:23-42 | `decryptFile` of header and encrypted blocks is the plaintext, and the file has the computed ciphertext size |
| `ContentCodec.DecryptEncryptFile` | filetree/decrypt.go:23-42 | the same for any non-empty plaintext, cut into blocks |
| `ContentHoles.HolesDecrypt` | gocrypt/contentenc/content.go:155-166 | `DecryptBlocks` of encrypted blocks and all-zero blocks in any order gives the texts, with exactly one block of zero bytes for each hole |
| `ContentHoles.FileWithHoles` | filetree/decrypt.go:23-42 | the same for a whole file with holes anywhere, which has the computed ciphertext size |
| `ContentCodec.EmptyFileUnreadable` | filetree/decrypt.go:11-14 | an empty file gives an error |
| `ContentCodec.DecryptedLength` | gocrypt/contentenc/content.go:111-132 | whatever decrypts loses exactly the overhead of each block, holes included |
| `ContentCodec.SizeAgreement` | filetree/decrypt.go:23-42 | whenever `decryptFile` succeeds, the length is `CipherSizeToPlainSize` of the file length |
| `ContentCodec.PanicsExactly` | filetree/decrypt.go:29-30 | `decryptFile` panics if and only if the header is valid and the blocks hold nothing but overhead |
| `ContentCodec.PanicsByDefault` | filetree/decrypt.go:29-30 | with the default sizes these are the files of 19 to 50 bytes with a valid header |
| `ContentParallel.GroupsPartition` | gocrypt/contentenc/content.go:219-229 | for any number of groups, each block is in exactly one low/high slice |
| `ContentSealing.EncryptGroups` | gocrypt/contentenc/content.go:220-234 | for any partition and any interleaving of the groups, each block is encrypted under its own block number, in a slice of its own that no pool holds |
| `ContentSealing.SealTo` | gocrypt/contentenc/content.go:278-301 | nonce and sealed text in a slice of exactly the pool's capacity, or a larger one for an oversized block; an empty block stays the caller's |
| `ContentSealing.EncryptBlocksTo` | gocrypt/contentenc/content.go:210-246 | panics if and only if some block is oversized, or empty in a slice of the wrong capacity; otherwise the result equals one sequential pass, for any number of processors and any interleaving, in a slice that no pool holds; the caller's slices of empty blocks end up in the pool as often as they were passed, and no slice is pooled twice if they were the caller's own and passed once |
| `ContentSealing.PassedTwice` | gocrypt/contentenc/content.go:238-244 | a slice passed for two empty blocks is in the pool twice |
| `ContentBuffers.BPool.Get` | gocrypt/contentenc/bpool.go:33-39 | a slice of the exact capacity, from the pool or new, no longer in the pool |
| `ContentBuffers.BPool.Put` | gocrypt/contentenc/bpool.go:24-30 | accepts only the exact capacity; the pool then holds the slice once more, and no slice twice if it was not there |
| `ContentBuffers.DecryptBlockTo` | gocrypt/contentenc/content.go:155-201 | for any block: the specified outcome, on success in a slice that the caller owns, of exactly the pool's capacity for every non-empty block up to the block size, hole or not |
| `ContentBuffers.DecryptBlocksTo` | gocrypt/contentenc/content.go:111-132 | the first error, and also then everything decrypted before it, in a slice of the request pool's capacity or a new one of at least twice that; every `Put` is legal |
| `ContentBuffers.DecryptFileTo` | filetree/decrypt.go:23-42 | for any block size, on both return branches the specified bytes of the computed length, in memory that no pool holds, new memory up to the default block size; errors and the panic exactly as specified |
| `Padding.Pad16` | gocrypt/nametransform/pad16.go:12-27 | the array holds the padded name |
| `Padding.UnPad16` | gocrypt/nametransform/pad16.go:32-64 | the scan accepts and strips exactly what the specification does |
| `Padding.PaddedIsPkcs7` | gocrypt/nametransform/pad16.go:12-27 | the padding is the one of section 6.3 of RFC 5652 and no other |
| `Padding.UnpadPad` | gocrypt/nametransform/pad16.go:12-64 | unpadding undoes padding |
| `Padding.PadUnpad` | gocrypt/nametransform/pad16.go:32-64 | padding undoes unpadding |
| `Padding.UnpadsExactlyPadded` | gocrypt/nametransform/pad16.go:32-64 | exactly the paddings of non-empty names unpad |
| `Base64Url.DecodeEncode` | gocrypt/nametransform/names.go:104-111 | base64url (section 5 of RFC 4648) decodes what it encodes, raw or padded |
| `Base64Standard.DigitTable` | gocrypt/nametransform/names.go:43-46 | the digits are the alphabet of section 5 of RFC 4648 in its order, the padding is an equals sign |
| `Base64Standard.ValueTable` | gocrypt/nametransform/names.go:43-46 | a byte has a value if and only if it is in the alphabet, and the value is its position |
| `Base64Standard.EncodeBits` | gocrypt/nametransform/names.go:104-106 | each group of three bytes becomes four digits that spell the same 24-bit number; a shorter last group is filled up with zero bits, then padding, none in raw mode |
| `Base64Standard.DecodesExactly` | gocrypt/nametransform/names.go:109-111 | a text decodes to given bytes if and only if, line breaks aside, it is their encoding up to the unused bits of the last digit |
| `Base64Standard.LineBreaksIgnored` | gocrypt/nametransform/names.go:109-111 | line breaks do not count, wherever they are |
| `Base64Standard.ExampleName` | gocrypt/nametransform/longnames.go:37-38 | the documented example name decodes to one block of 16 bytes |
| `NameCodec.DecryptEncrypt` | gocrypt/nametransform/names.go:55-101 | `DecryptName` undoes `EncryptName` exactly for valid names, in both base64 modes |
| `NameCodec.EncryptDecrypt` | gocrypt/nametransform/names.go:55-91 | whatever decrypts is a valid name whose encryption is the canonical spelling of the input |
| `NameCodec.EncryptInjective` | gocrypt/nametransform/names.go:95-101 | distinct valid names get distinct ciphertext names |
| `NameCodec.DottedFails` | gocrypt/nametransform/names.go:55-60 | no name with a dot decrypts |
| `NameCodec.LengthThreshold` | gocrypt/nametransform/diriv.go:102-112 | the encrypted name exceeds 255 bytes if and only if the plain one has at least 176 |
| `NameCodec.HashedIsLong` | gocrypt/nametransform/longnames.go:22-72 | hashed names are `LongNameContent`, with the suffix `LongNameFilename`, and the suffix comes off |
| `NameCodec.LongNameSwitch` | gocrypt/nametransform/diriv.go:102-112 | for names up to 255 bytes the result has at most 255 bytes, and is `LongNameContent` exactly from 176 bytes on |
| `NameCodec.StoredNamesDiffer` | gocrypt/nametransform/longnames.go:22-26 | distinct names are stored under distinct names, unless both are long and SHA-256 does not tell their ciphertext names apart |
| `Backend.ReachableInv` | backend/provider.go:11-98 | in every interleaving of provider calls each connection is in exactly one place, no two calls share one, the pool is within capacity, each finished call has released what it acquired exactly once |
| `Backend.NeverReopened` | backend/pool.go:59-80 | a closed connection is never pooled or handed out again |
| `Backend.FailedPingCloses` | backend/provider.go:36-44 | a connection whose ping failed is closed from then on and never handed out again |
| `Backend.FailedRequestIsPinged` | backend/provider.go:36-44 | before a call whose request failed goes on, it pings that connection |
| `Backend.WhyClosed` | backend/pool.go:71-80 | a connection is closed exactly by a failed ping or by its return to a full pool |
| `Backend.NoLeak` | backend/provider.go:30-98 | once all calls have returned, every connection is pooled or closed |
| `BackendObject.Pool.Get` | backend/pool.go:59-69 | the oldest pooled connection, a new one if the pool is empty, or nothing if dialling fails |
| `BackendObject.Pool.Put` | backend/pool.go:71-80 | back into the pool if there is room, closed otherwise; nothing for a nil connection |
| `BackendObject.Pool.ReadFile` | backend/provider.go:30-54 | on every path the connection taken comes back or is closed, and no other connection changes |
| `BackendObject.Pool.ReadDirOrStat` | backend/provider.go:58-98 | the same for `ReadDir` and `Stat` |

## Left out

- `main.go`, `handlers/`, `config/`: wiring of the SSH and SFTP servers over libraries.
- The ciphers, HKDF, SHA-256, SipHash and the random number source: parameters, see above.
- `gocrypt/configfile` and `FileTree.Init`: disk access, key derivation, process exits.
- Real time and fairness: a timeout may happen at any moment while a call waits for its response.
- `filetree/filetree.go` `Stat`: it resolves through `findPath` and adds only one backend request.
- Operations that answer "not supported" or "not implemented", and the log output.
- `forceDecode`: `Init` always passes false.
- The text of errors: errors are codes, and where the request layer may report its own error in
  place of the backend's, only the fact of failure is used.
- The request layer has no mutable objects besides `SyncCache`: its goroutines are a step machine,
  because what matters about them is how they interleave.
- FileTreeObject.FileTree.FindPath: requires an absolute path, because the source does not
  terminate on others; the backend is fixed for the lifetime of the object, and concurrent
  callers of the file tree are not modelled.
- NameCodec.DecryptEncrypt: requires a 16 byte IV; the EME library panics on other lengths, and on
  inputs over 2048 bytes, which the model does not capture.
- `MergeBlocks`, `EncryptBlockNonce`, `IsLongContent`: not used by the read path.
