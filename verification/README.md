# pgvs3: a verified model of its storage, read and listing logic

pgvs3 serves the S3 protocol from PostgreSQL. An object is a metadata row plus
its bytes as numbered 8120-byte rows; several stateless gateways share the
database, each with its own metadata cache and connection pool. This project
models that logic in Dafny and proves what it is meant to keep.

`dafny verify dfyconfig.toml` checks everything.

## How the model is laid out

| file | module | what it models |
|---|---|---|
| Base.dfy | Base | bytes, options, how a file is cut into rows |
| Copy.dfy, Framer.dfy | CopyFormat, Framing | the write path: request chunks to a binary COPY stream |
| Objects.dfy, Stream.dfy | Objects, Streaming | the read path: segments, plan, out-of-order merge |
| RoundTrip.dfy | RoundTrips | both paths together |
| Ranges.dfy | Ranges | the Range header to a byte interval |
| Complete.dfy | Completion | part validation and publication of a multipart object |
| Store.dfy, StoreProofs.dfy | Store, StoreInvariant | the tables, every transaction as an atomic step, the invariant of all runs |
| Versions.dfy | Versions | the life of a version; whose rows a transaction touches; when published objects are whole |
| Interleave.dfy | Interleaving | Put, Complete and Delete statement by statement, interleaved across gateways |
| Progress.dfy | Progress | that interleavings get on: locks end with their transactions, every run comes about statement by statement |
| Outcome.dfy | Outcomes | when each transaction commits and what it leaves, table by table and row by row |
| History.dfy | History | what the commit order shows of conditional writes |
| Tables.dfy, Expire.dfy | Tables, Expiry | the same transactions and `expire_uploads` as code that updates tables in place |
| Reads.dfy, Cache.dfy, Get.dfy | Reads, MetaCaching, Getting | GET under concurrent change, from a cache that may be stale |
| EndToEnd.dfy | EndToEnd | from the last write of a key to what a GET of it answers |
| Digests.dfy | Digests | ETags as digests of content |
| Gaps.dfy | Gaps | concrete runs in which the code stops short |
| Keys.dfy, Listing.dfy | KeyOrder, Listing | key order, prefix scans, listing pages |
| Walk.dfy, Pages.dfy | TokenWalks, Pages | walks along continuation tokens; what a page says of each key |
| Pool.dfy | Pooling | the connection pool |

The database is a value, `Store.Db`, and a transaction a function `Store.Apply`
from a state to the state it commits, or to nothing if it rolls back. A
`Store.Run` is a sequence of states, each the last or one transaction on;
theorems about runs hold for every sequence of transactions by any number of
gateways. `Interleaving` refines this: its steps are single statements, its
commits make visible only what the transaction itself wrote from what it
itself read, the hash behind the advisory lock is any function at all, and
`InterleavingsAreRuns` says that every interleaving is a `Store.Run`, so that
everything proved of runs holds of interleavings; `InterleavingsDo` names the
transactions of that run, and `Progress.EveryRunInterleaves` is the converse:
every run comes about by an interleaving. What `Store.Apply` does is said by
`Outcomes` in terms of single rows and table entries. `Tables.Database` refines it
the other way: its methods update table fields in place and are proved against
`Store.Apply`. `Getting.GetBody` reads a run at arbitrary instants within a
request window.

`written` and `log` in `Store.Db` are records of the past that no transaction
reads: the bytes each file was committed with, and the changes of keys.

## Where the code stops short

- A truncated page's token is the first key left out, and the next page resumes
  strictly after it. `TokenWalks.SkippedIff` says exactly which items are
  skipped, `SecondOfThreeSkipped` shows one, and `RepairedWalkIsWhole` proves
  the walk complete with the last key consumed as the token.
- `expire_uploads` may drain part of a part and commit, and Complete does not
  look at rows. `Versions.CompletePublishesWhole` gives the exact condition for
  the published object to have all its rows, and
  `Gaps.CompleteAfterPartialExpiry` a run that publishes one without its first.
- One retry does not always hide a stale cache entry. `Getting.GetBody` says when
  it does: while nobody changes the key, no query fails, the client stays and the
  rows asked for are there, the answer is that of the live version exactly if the
  entry that decides is none or of that version. The first attempt's entry
  decides, unless it, or else the lookup, gave a version that is not empty but
  for which the range is, or that is gone; then the second's does, which another
  request must have published meanwhile, its own lookup being before the
  overwrite. So there are three ways to go wrong, and a run of each: a stale
  empty version is answered as it is (`Gaps.StaleEmptyVersion`); a stale version
  put back makes a range that the object has 416 (`Gaps.StaleRange`) or, if the
  range is within it, an error for a whole and unchanged object
  (`Gaps.StaleAgain`).
- A second overwrite within the second attempt shows missing rows with no stale
  entry involved: `Gaps.OverwrittenTwice`.
- The scan for a prefix is exact only for some prefixes, `KeyOrder.ScanExactIff`.
  For any prefix `KeyOrder.StrayIff` says which keys it gets wrong, so that a
  scan is right exactly if there are none behind the cursor
  (`Listing.ScansStarting`); without a prefix those are the keys that start with
  U+10FFFF. A key scanned without the prefix is cut at the prefix's length all
  the same, which panics inside a character (`Listing.RestIff`); a listing fails
  exactly if it gets to such a key (`Listing.ListObjects`).
- A first position of 2^63 or more wraps negative and selects the whole object,
  and an empty object is served to any range, with a Content-Range that ends
  before it begins, although all but suffixes of some bytes are unsatisfiable
  there: `Ranges.RangeIsSpecified`, `Ranges.EmptyIsServed`.
- The comment on `get_body` says that after one retry the client never sees
  missing rows or a bogus 416 from a stale entry; the cases above are the
  exceptions. The comment on
  `prefix_end` calls its result the bound for `LIKE prefix%`; the prefixes above
  are the exceptions. In both places the model follows the code.

## Model

| member | source | states |
|---|---|---|
| Interleaving.NextIsAtomic | crates/pgvs3/src/db.rs:830-898 | Each statement-level step of any interleaving, colliding locks included, either leaves the database alone or is exactly one atomic transaction; a commit replaces the very version it read; a check that rolls back does so only where the atomic transaction would |
| Interleaving.CommitIsAtomic | crates/pgvs3/src/db.rs:830-940 | What a committing Put, Complete or Delete makes visible, from its own earlier reads and row deletions, equals the atomic transaction applied to the present state |
| Interleaving.CommitSpares | crates/pgvs3/src/db.rs:877-887 | A commit leaves every other running transaction's reads valid: two holders of one advisory lock are one transaction |
| Versions.VersionRowsStay | crates/pgvs3/src/db.rs:889-898 | While a version stays current, no transaction adds or removes a row of its files, so the rows picked for reaping are still exactly its rows at commit |
| Versions.OthersUntouched | crates/pgvs3/src/db.rs:889-898 | A transaction adds, removes or changes the rows of one owner only: the object of its key, the part it sends, or the parts of the upload it aborts or expires |
| Interleaving.InterleavingsAreRuns | crates/pgvs3/src/db.rs:705-940 | Every interleaved execution projects to a run of atomic transactions, for every lock hash |
| Interleaving.InterleavingsDo | crates/pgvs3/src/db.rs:705-940 | That run is the one of the transactions the interleaving committed, in commit order |
| Progress.EveryRunInterleaves | crates/pgvs3/src/db.rs:705-940 | Conversely every run of atomic transactions, whichever they are, is what some interleaving of their statements commits in that order, for every lock hash |
| Progress.CommitsAlone | crates/pgvs3/src/db.rs:830-940 | From any state of an interleaving in which nobody holds the advisory lock of its key or a row lock that it needs, a Put, Complete or Delete that may commit gets through all its statements, and leaves the atomic transaction's state with all locks as they were |
| Progress.OthersProceed | crates/pgvs3/src/db.rs:784-817 | Every other transaction that may commit does so at once, unless a running one holds a row lock that it needs |
| Progress.LockTakenIff | crates/pgvs3/src/db.rs:877-887 | At any point of any interleaving an advisory lock is taken exactly if a running transaction past its lock statement has a key with that hash, and by that one |
| Progress.EndFrees | crates/pgvs3/src/db.rs:877-887 | A commit or an abort ends the transaction, frees its lock and no other, and leaves all other transactions as they are |
| Progress.MayAbort | crates/pgvs3/src/db.rs:830-849 | A running transaction may abort at any point |
| Interleaving.NoRowStranded | crates/pgvs3/src/db.rs:877-898 | At no point of any interleaving is a row without an owner or shared by two |
| History.CreatesAlternateWithDeletes | crates/pgvs3/src/db.rs:838-849 | Between any change that left a key present and a later committed If-None-Match create of it there is a delete |
| History.MatchFollowsItsVersion | crates/pgvs3/src/db.rs:838-849 | Every committed If-Match write directly follows the version with that ETag; no change of the key comes between |
| History.MatchIsOfTheDigest | crates/pgvs3/src/db.rs:1276-1278 | The hexadecimal ETag a write names decides the digest of the version it replaced |
| History.InterleavedHistory | crates/pgvs3/src/db.rs:830-887 | Both hold of every interleaving of the statements |
| StoreInvariant.RunKeepsInv | crates/pgvs3/schema.sql:19-78 | In every reachable state: files owned by objects and parts are pairwise disjoint; every row has an owner and the bytes its file was committed with, and all later rows of its file are there; file ids are fresh; objects are their files end to end; objects and uploads have a bucket, parts an upload, and a key at most one upload |
| StoreInvariant.EveryRowHasOneOwner | crates/pgvs3/src/db.rs:871-898 | In every reachable state each row belongs to exactly one object or part: none is stranded or shared |
| StoreInvariant.PutKeepsInv | crates/pgvs3/src/db.rs:705-779 | Publishing an object in the transaction of its rows keeps the invariant |
| StoreInvariant.PutPartKeepsInv | crates/pgvs3/src/db.rs:784-817 | So does recording a part, which reaps the attempt it replaces |
| StoreInvariant.CompleteKeepsInv | crates/pgvs3/src/db.rs:1060-1136 | So does Complete, which moves the parts' files to the object |
| StoreInvariant.DeleteKeepsInv | crates/pgvs3/src/db.rs:923-940 | So does Delete |
| StoreInvariant.AbortKeepsInv | crates/pgvs3/src/db.rs:1139-1178 | So does Abort |
| StoreInvariant.BucketKeepsInv | crates/pgvs3/src/db.rs:942-1002 | So do creating and deleting buckets |
| StoreInvariant.CreateUploadKeepsInv | crates/pgvs3/src/db.rs:1005-1028 | So does starting or finding an upload |
| StoreInvariant.ExpireKeepsInv | crates/pgvs3/schema.sql:100-127 | So does each attempt of expiry, which removes rows from the front and a part only when drained |
| Versions.LiveOrRetired | crates/pgvs3/src/db.rs:851-898 | A version is live until the one transaction that replaces or deletes it, which retires all its files |
| Versions.RetiredStays | crates/pgvs3/src/db.rs:637-650 | A retired file is never owned again, as ids come from a sequence |
| Versions.RowShowsLive | crates/pgvs3/src/db.rs:249-254 | A row of a once-live version's file, seen at any later time, shows the version live then and is the row it was committed with |
| Versions.PutPublishesWhole | crates/pgvs3/src/db.rs:734-764 | A Put publishes an object with every row |
| Versions.CompletePublishesWhole | crates/pgvs3/src/db.rs:1082-1128 | A completed object has every row exactly when no recorded part had lost its first row to expiry |
| Versions.WholeIffFirstRow | crates/pgvs3/schema.sql:111-117 | In every reachable state a file has all its rows exactly when it has row 0 |
| Versions.WholeStays | crates/pgvs3/schema.sql:104-117 | A whole object stays whole while it lives |
| Versions.CarefulRunsAreWhole | crates/pgvs3/src/db.rs:1055-1059 | In every state of every run in which no Complete meets a drained part, every object has all its rows |
| Interleaving.CarefulInterleavingsAreWhole | crates/pgvs3/src/db.rs:1055-1059 | The same of every interleaving in which no Complete commits with a drained part |
| Gaps.CompleteAfterPartialExpiry | crates/pgvs3/schema.sql:111-127 | A run that publishes an object whose first row expiry had removed |
| Gaps.StaleEmptyVersion | crates/pgvs3/src/db.rs:273-275 | A request that is answered with an overwritten empty version although the object is whole and not empty |
| Gaps.StaleRange | crates/pgvs3/src/db.rs:254-275 | A request for a byte the whole object has that is answered as out of range, from an entry that another request put back |
| Gaps.StaleAgain | crates/pgvs3/src/db.rs:298-304 | A request for all of a whole object that nobody changes is answered with an error, as both attempts find an overwritten version in the cache |
| Gaps.OverwrittenTwice | crates/pgvs3/src/db.rs:298-304 | The same error without a stale entry, from an overwrite within each attempt |
| Tables.Database.SwapObject | crates/pgvs3/src/db.rs:830-876 | Points the key at new storage and reaps the old exactly if the condition holds of what it finds: always without one, If-None-Match exactly if the key is absent, If-Match exactly if it is there, multipart or not, and the hexadecimal of its ETag is the one named; else nothing changes |
| Outcomes.CommitsIff | crates/pgvs3/src/db.rs:705-1178 | For every kind of transaction, the conditions on the tables under which it commits, and only under which |
| Outcomes.LookGoesOnIff | crates/pgvs3/src/db.rs:836-852 | The look under the advisory lock, in any interleaving, is never held up and goes on exactly if the condition holds of the row there then |
| Outcomes.CheckGoesOnIff | crates/pgvs3/src/db.rs:1060-1107 | The first statement goes on exactly if the bucket is there or, for a Complete, the upload is of that key and the list names each of its parts once under its ETag; it is held up at most by another Complete of the upload |
| Outcomes.PutLeaves | crates/pgvs3/src/db.rs:729-764 | After a Put the key is the new object and no other key changed; for every row number, its file's rows are the 8120-byte pieces of the data, the rows of every file of the replaced object are gone, and all others are as they were |
| Outcomes.PutPartLeaves | crates/pgvs3/src/db.rs:795-816 | After a part write the part is recorded with its rows, those of the attempt it replaces are gone, and all else is as it was |
| Outcomes.CompleteLeaves | crates/pgvs3/src/db.rs:1089-1128 | After a Complete the key is the recorded part files in number order, each ending where the one before does plus its size; the upload and its part records are gone, their rows stay, those of the replaced object are gone, and all else is as it was |
| Outcomes.DeleteLeaves | crates/pgvs3/src/db.rs:923-940 | After a Delete the key and the rows of all its files are gone and all else is as it was |
| Outcomes.AbortLeaves | crates/pgvs3/src/db.rs:1139-1178 | After an abort the upload, its parts and their rows are gone and all else is as it was |
| Outcomes.SmallOnesLeave | crates/pgvs3/src/db.rs:942-1028 | What creating and deleting buckets, starting or finding an upload and taking or dropping a file id leave |
| Outcomes.ExpireLeaves | crates/pgvs3/schema.sql:105-126 | After an expiry attempt of a given budget: without parts the upload is gone; else just the lowest rows of the lowest part, as many as the budget allows, the part too if that is more than it has left, and the upload with its last part |
| Tables.Database.Reap | crates/pgvs3/src/db.rs:889-898 | Exactly the rows of the object's own file and of all its parts are gone; every other row stays as it is |
| Tables.Database.IngestObject | crates/pgvs3/src/db.rs:705-764 | Stored exactly if the bucket is there, the data fits and the condition holds, spelled out as for SwapObject; then it commits the atomic Put, which publishes the object with all its rows, keeps the invariant and spares every other owner's rows. NoBucket, too long and Refused exactly for the first of these that fails, with rows and all rolled back |
| Tables.Database.IngestPart | crates/pgvs3/src/db.rs:784-817 | Commits the atomic part write, replacing an earlier attempt and sparing all other owners, exactly if there is the upload and the data fits; or rolls back |
| Tables.Database.Delete | crates/pgvs3/src/db.rs:923-940 | The atomic Delete: the key and every row of its files are gone, all else stays; and whether there was anything to delete |
| Tables.Database.DeleteBucket | crates/pgvs3/src/db.rs:971-1002 | Not found exactly without the bucket, not empty exactly if an object or an upload is in it; else it goes, alone |
| Tables.Database.CreateUpload | crates/pgvs3/src/db.rs:1005-1028 | No such bucket exactly without the bucket, a duplicate exactly if the new id is taken and the key has no upload; else the one upload of the key, found or, with the new id, started |
| Tables.Database.CompleteUpload | crates/pgvs3/src/db.rs:1060-1136 | NoSuchUpload exactly if there is none of that key, InvalidPart exactly unless the list names every recorded part once, in any order, under the hexadecimal of its hash; else the published object and the atomic Complete |
| Tables.Database.AbortUpload | crates/pgvs3/src/db.rs:1139-1178 | Exactly if bucket and key match, the upload, its parts and all their rows are gone and all other owners' rows stay |
| Tables.Committed | crates/pgvs3/src/db.rs:871-898 | What commits through these methods keeps the invariant and touches the rows of one owner only |
| Expiry.ExpireUploads | crates/pgvs3/schema.sql:83-130 | Refuses bad budgets; else removes at most the budget of rows in at most 64 attempts, each a store step that drops a part or upload record or uses the budget up; touches only stale uploads of the bucket; drops a part record only with all rows of its file and an upload only with all its parts; stops early only when nothing is left that it may expire |
| Expiry.PickVictim | crates/pgvs3/schema.sql:101-104 | The oldest stale upload of the bucket that nobody has locked, or none exactly if there is none |
| Expiry.Attempt | crates/pgvs3/schema.sql:105-126 | One pass of the loop, in place, is the store's expiry attempt |
| Expiry.AttemptExpires | crates/pgvs3/schema.sql:105-126 | An attempt removes at most the remaining budget, and a part or upload record if it removes less; never a record whose rows remain |
| Expiry.ExpireAll | crates/pgvs3/schema.sql:80-82 | Calls repeated with nothing locked end with every stale upload gone |
| Getting.GetBody | crates/pgvs3/src/db.rs:241-318 | However stale the cached entry, whatever others do to the cache and however changes fall between the queries: a body is a prefix of the requested range of one version live within the request, all of it if it ends without error; NotFound was true within the request; a range that is empty for a version that is not is answered by the second attempt only, of the live version or of an entry that another request published in between. If nobody changes the key, no query fails and the client stays: the answer is NotFound, the empty or unsatisfiable range, the whole range, or an error exactly if rows asked for are missing, all of the live version, if the entry of the attempt that answers is none or of it; and only if, where the rows are there, when the second attempt is made exactly if the first went by a version that is gone or out of range and not empty. However the first attempt ended, a second during which nobody changes the key, no query fails and the client stays answers the live version if its entry is none or of it. An error without a body is left to the second attempt, and a body breaks off only behind whole chunks of 256 KiB |
| Getting.FailureIsRetried | crates/pgvs3/src/db.rs:298-304 | A first attempt is made again whenever the first row asked for did not come, or any row of a range shorter than a chunk, for whatever reason: a failed query, rows missing, a version gone |
| Getting.FindMeta | crates/pgvs3/src/db.rs:200-232 | The cached entry, else the row of the lookup, whatever others do to the cache meanwhile; every cached entry was the key's metadata once; afterwards the cache holds just that for the key |
| Getting.FoundIs | crates/pgvs3/src/cache.rs:63-91 | After any operations of others, the entry found for a key is the one that was there, or one of them published it, or there is none |
| Getting.StreamTry | crates/pgvs3/src/db.rs:284-296 | One streaming attempt: bytes only of a version live at its first query; none at all, and an error, if the version is not live at that query, if the first row does not come, or if some row of a range shorter than a chunk does not; if it is live in a quiet window, no query fails and the client stays, everything if its rows are there, else an error |
| Getting.HeadServes | crates/pgvs3/src/db.rs:289-294 | A first chunk as long as the range is all of it, whatever came after |
| Getting.Answer | crates/pgvs3/src/db.rs:258-315 | What an attempt comes to: of an empty range the second attempt, or the first of an empty version, says so; a version that is gone by the first query is an error of the second attempt; either is otherwise left to it with the entry dropped; in a calm window a live version is answered as expected, always if the rows asked for are there |
| Getting.Decides | crates/pgvs3/src/db.rs:249-254 | In a calm request an attempt that goes by what the key holds answers that, and one that goes by another version does not, where all rows are there |
| Getting.StaleAnswers | crates/pgvs3/src/db.rs:298-304 | In a quiet request a deciding entry of another version makes an error, or an empty range of that version |
| Reads.PlanAnswers | crates/pgvs3/src/db.rs:373-377 | Rows answered to a once-live version's queries at any later instants are that version's own rows, and its first row shows it live |
| Reads.ReplacedIsMissing | crates/pgvs3/src/db.rs:249-254 | A version replaced before a quiet window has no first row in it |
| Reads.LiveAnswers | crates/pgvs3/src/db.rs:421-427 | A version that stays live answers every piece in full exactly if the rows asked for are there |
| Reads.WholeIsThere | crates/pgvs3/src/db.rs:339-355 | A whole object has whatever rows a range asks for |
| Reads.CommittedWasLive | crates/pgvs3/src/db.rs:900-921 | What a writer publishes to its cache after the commit is what it committed |
| EndToEnd.KeyHolds | crates/pgvs3/src/db.rs:705-940 | In every reachable state a key holds exactly the bytes that its last Put sent or its last Complete joined, or nothing if there is none or a delete came after |
| EndToEnd.InterleavedKeyHolds | crates/pgvs3/src/db.rs:705-940 | The same of every interleaving of the statements |
| EndToEnd.CalmGet | crates/pgvs3/src/db.rs:241-318 | If no Complete met a drained part, nobody changes the key meanwhile, no query fails and the client stays, a GET answers exactly the requested part of those bytes if the entry that decides is none or of the version the key holds; if it is of another, with an error or the empty range of that one, never with other bytes |
| Digests.RunDigested | crates/pgvs3/src/ingest.rs:71-79 | If writers pass the digest of what they stream and Complete that of the part hashes, every part hash and every ETag there ever was is a digest of its content |
| Digests.ObjectsDigested | crates/pgvs3/schema.sql:24-24 | Then each object's ETag is the digest of its bytes or, multipart, of its parts' digests, and its parts end to end are its bytes |
| Digests.InterleavedDigests | crates/pgvs3/src/db.rs:729-764 | The same of every interleaving |
| Digests.MatchIsOfTheContent | crates/pgvs3/src/db.rs:838-849 | A committed If-Match of the digest of some bytes replaced an object of just these bytes, unless they collide with bytes that were written |
| Digests.MatchIsOfTheParts | crates/pgvs3/src/db.rs:838-849 | One of the digest of some parts' digests replaced a multipart object of just these parts, unless they collide with bytes that were written or their joined digests with the replaced version's |
| MetaCaching.MetaCache.Insert | crates/pgvs3/src/cache.rs:72-83 | The map and the queue together refine the capped FIFO entry list; queue without duplicates, exactly the map's keys, within the cap; a key that is there keeps its place in the queue, a new one goes to the back, and the front leaves exactly if the queue was full |
| MetaCaching.MetaCache.Invalidate | crates/pgvs3/src/cache.rs:85-91 | Removes the key from both |
| MetaCaching.MetaCache.Get | crates/pgvs3/src/cache.rs:63-70 | Finds what the entry list holds for the key |
| MetaCaching.PutKeeps | crates/pgvs3/src/cache.rs:72-83 | The key just put is found, never the one evicted; keys stay distinct and within the cap |
| MetaCaching.PutFinds | crates/pgvs3/src/cache.rs:72-83 | Any key but the one put keeps its value, but for the oldest when a new key overflows the cap |
| MetaCaching.FirstInFirstOut | crates/pgvs3/src/cache.rs:72-83 | Entries of new keys put one after another queue up behind those there, and just the last cap of them all stay, in order |
| MetaCaching.PutAgain | crates/pgvs3/src/cache.rs:72-83 | Putting a key that is there replaces its entry in place |
| MetaCaching.DropFinds | crates/pgvs3/src/cache.rs:85-91 | An invalidated key is gone and every other keeps its value |
| Streaming.StreamSpan | crates/pgvs3/src/db.rs:378-439 | For every subset and order of rows arriving per piece: what is sent is a prefix of the range; with the client connected it ends without error exactly if no query failed and no row was missing, and then everything was sent; a missing row leaves it short; nothing is sent before the first row came; every chunk but the last, and after an error every chunk, is of at least 256 KiB |
| Streaming.MergePiece | crates/pgvs3/src/db.rs:397-428 | One piece in `no` order whatever the arrival order; done exactly if all its rows came |
| Streaming.FinishSpan | crates/pgvs3/src/db.rs:429-438 | With everything merged, the length check passes and the last chunk completes the range, unless the client left |
| Streaming.RowDelivers | crates/pgvs3/src/db.rs:358-363 | A row's slice is the object's bytes from where its predecessor stopped |
| Streaming.PlanCovers | crates/pgvs3/src/db.rs:339-355 | Pieces read in order deliver the range from start to end |
| Objects.PlanIsExact | crates/pgvs3/src/db.rs:339-371 | A plan asks for exactly the rows that meet the range in every segment, once each and in order, at most `step` to a piece |
| Objects.SmallSpanIsOnePiece | crates/pgvs3/src/db.rs:36-39 | A span up to 8 MiB inside a segment is one piece wherever in a row it starts; the longest such span is given and is tight, and one row less per piece would split 8 MiB |
| Objects.TiledContent | crates/pgvs3/src/cache.rs:28-43 | Segments end to end: each file lies in the object at its base, and they are all of it |
| Ranges.RangeIsSpecified | crates/pgvs3/src/server.rs:62-70 | The interval served, or InvalidRange, is that of sections 14.1.2 and 14.4 of RFC 9110, wrapped casts included, exactly if the first position does not itself wrap and the object is not empty or no range was asked for |
| Ranges.EmptyIsServed | crates/pgvs3/src/server.rs:173-188 | An empty object is served to any range, as an interval that ends before its first byte, though nothing is selected and all but suffixes of some bytes are unsatisfiable |
| Ranges.SatisfiableIff | crates/pgvs3/src/server.rs:173-175 | Satisfiable ranges of a non-empty object are those that select a byte |
| Completion.ValidateParts | crates/pgvs3/src/db.rs:1089-1112 | Passes exactly if the listed pairs are a permutation of the recorded parts, and then gathers ids, ends, size and digest input in part order |
| Completion.ValidIffMatches | crates/pgvs3/src/db.rs:1089-1107 | Sorting and comparing accepts exactly the permutations |
| Completion.PublishedTiles | crates/pgvs3/src/db.rs:1096-1128 | The published segments are the parts in number order, each starting where the parts before it end, whatever their sizes |
| Completion.HexInjective | crates/pgvs3/src/db.rs:1276-1278 | Different digests have different ETags |
| Completion.HexIs | crates/pgvs3/src/db.rs:1276-1278 | The ETag has two lower-case digits for each byte, the high one first |
| Completion.MatchesIff | crates/pgvs3/src/db.rs:1089-1107 | The lists that are accepted are those that name every recorded part just once and under its ETag |
| Framing.RowFramer.Push | crates/pgvs3/src/ingest.rs:50-67 | Everything pushed is framed or pending, pending under one row; flushed and framed bytes depend only on the bytes pushed |
| Framing.RowFramer.Finish | crates/pgvs3/src/ingest.rs:71-79 | All flushed bytes together are the framed rows of everything pushed and the trailer; size and digest are of everything pushed |
| Framing.FrameRows | crates/pgvs3/src/ingest.rs:83-96 | Appends the encoding of the data's rows |
| Framing.Ingest | crates/pgvs3/src/db.rs:729-743 | However the payload is cut, the stream parses as binary COPY, from its signature to its trailer, into the payload's rows; an abort gives no result |
| Framing.CopiedRows | crates/pgvs3/src/ingest.rs:83-96 | Rows 0, 1, ... of the file, all full but the last, rebuild the payload |
| CopyFormat.ParseReadsEncode | crates/pgvs3/src/ingest.rs:10-12 | A reader of PostgreSQL's binary COPY format, which knows the 11 signature bytes, refuses critical flags, skips the header extension and reads big-endian two's complement, reads back exactly the tuples framed |
| CopyFormat.HeaderReads | crates/pgvs3/src/ingest.rs:10-12 | What follows the fixed header is what such a reader takes for the tuples |
| CopyFormat.BigEndian | crates/pgvs3/src/ingest.rs:83-96 | The four bytes of a length are its base-256 digits, the highest first |
| RoundTrips.PutThenGet | crates/pgvs3/src/ingest.rs:50-96 | Any bytes, any cut, any range, any arrival order: framed, copied, planned and streamed back as exactly that slice |
| RoundTrips.UploadThenGet | crates/pgvs3/src/db.rs:1082-1120 | The same through any parts, empty ones included, and any listing order |
| RoundTrips.ReadBack | crates/pgvs3/src/db.rs:378-439 | Any range of a stored object from rows in any order |
| KeyOrder.ByteOrderIsCodeOrder | crates/pgvs3/schema.sql:17-18 | UTF-8 byte order is code point order (section 1 of RFC 3629) |
| KeyOrder.PrefixEnd | crates/pgvs3/src/server.rs:50-59 | The loop computes the end that the scan lemmas are about |
| KeyOrder.ScanIsExact | crates/pgvs3/src/server.rs:49-59 | A key is in [prefix, end) exactly if it starts with the prefix, for a scannable prefix |
| KeyOrder.ScanExactIff | crates/pgvs3/src/server.rs:49-59 | The scan is exact for a prefix exactly if it is not empty without trailing U+10FFFF and does not then end in U+D7FF |
| KeyOrder.StrayIff | crates/pgvs3/src/server.rs:49-59 | For any prefix, which keys the scan gets wrong: those with the prefix that are past U+10FFFF when the end is that, and else those that are the prefix up to a U+D7FF the end leaves out and go on with a later character |
| KeyOrder.ScannedStart | crates/pgvs3/src/db.rs:1204-1206 | Nothing scanned lacks the prefix, unless the prefix ends in U+D7FF so |
| Listing.ListObjects | crates/pgvs3/src/server.rs:486-513 | For any sorted keys, prefix, delimiter, cursor, max and batch size: exactly the first max items of the roll-up of what is scanned, truncated exactly if there are more, the token being the first key left out; no page exactly if a key it gets to cannot be cut at the prefix's length. Of the keys with the prefix behind the cursor, if the scan gets none wrong |
| Pages.RowListed | crates/pgvs3/src/server.rs:84-107 | Of the scanned keys with the prefix: one without the delimiter behind it is an object on the page exactly if it comes before the token; one with it never is, and if it comes before the token its text up to the end of the first delimiter is a common prefix on the page |
| Pages.ContentsAre | crates/pgvs3/src/server.rs:97-107 | Objects on a page are scanned keys before the token |
| Pages.CommonAre | crates/pgvs3/src/server.rs:89-96 | Each common prefix on a page is a scanned key, before the token, up to the end of the first delimiter behind the prefix |
| Pages.PageFills | crates/pgvs3/src/server.rs:475-522 | Objects and common prefixes are each in strictly ascending byte order; together at most max, and just max on a truncated page |
| Pages.TokenIs | crates/pgvs3/src/server.rs:97-98 | The token of a truncated page is a scanned key that is not on the page and whose common prefix, if it has one, is not either |
| Pages.ItemIs | crates/pgvs3/src/server.rs:84-96 | A key with the prefix is listed up to the end of the first delimiter behind it, or else by itself |
| Listing.ScansStarting | crates/pgvs3/src/db.rs:1204-1207 | The scan gives the keys with the prefix behind the cursor exactly if it gets no key behind the cursor wrong |
| Listing.ScannableStrays | crates/pgvs3/src/server.rs:49-59 | It gets none wrong, whatever the keys, for a scannable prefix |
| Listing.AllScannedStart | crates/pgvs3/src/server.rs:84-84 | All scanned keys have the prefix, whatever the keys, unless the prefix ends in U+D7FF so |
| Listing.RestIff | crates/pgvs3/src/server.rs:84-84 | A key can be cut at the prefix's length exactly if that is between two of its characters |
| Listing.RestIs | crates/pgvs3/src/server.rs:84-84 | What the cut leaves is the key's bytes from there |
| KeyOrder.ByteLengthIs | crates/pgvs3/src/server.rs:84-84 | The prefix's length is that of its UTF-8 bytes |
| Listing.ListingStep | crates/pgvs3/src/server.rs:75-108 | One row, with the prefix or without, goes on the page unless its item is there already or overflows it, or its key cannot be cut |
| Listing.TakenIs | crates/pgvs3/src/server.rs:89-98 | The rows before the overflow roll up to the first max items |
| Listing.RowsAfter | crates/pgvs3/src/db.rs:1204-1207 | Resuming strictly after a scanned key gives exactly the rows behind it |
| TokenWalks.WalkIs | crates/pgvs3/src/server.rs:475-522 | Following the tokens reports the roll-up of all rows but those the tokens name |
| TokenWalks.WalkAscends | crates/pgvs3/src/server.rs:475-522 | In byte order, so nothing twice |
| TokenWalks.TokensAndKept | crates/pgvs3/src/server.rs:475-522 | Every row is exactly once a token's or kept |
| TokenWalks.SkippedIff | crates/pgvs3/src/server.rs:84-107 | An item is skipped exactly if its only row is a token's |
| TokenWalks.SkippedKeys | crates/pgvs3/src/server.rs:97-98 | Without a delimiter the skipped keys are exactly the tokens |
| TokenWalks.SecondOfThreeSkipped | crates/pgvs3/src/server.rs:97-98 | Three keys, one to a page: the second is never reported |
| TokenWalks.RepairedWalkIsWhole | crates/pgvs3/src/server.rs:84-107 | With the last key consumed as the token every item comes exactly once |
| TokenWalks.FollowTokens | crates/pgvs3/src/server.rs:475-522 | A client that follows tokens terminates with exactly the walk's items and tokens, or fails, which it does exactly if some scanned key cannot be cut |
| TokenWalks.WalkOfStarting | crates/pgvs3/src/server.rs:475-522 | It does not fail if all scanned keys have the prefix, and walks the keys with the prefix if the scan gets none wrong |
| TokenWalks.Contiguous | crates/pgvs3/src/server.rs:84-96 | Keys that roll up to one item are contiguous |
| Pooling.RunKeepsBound | crates/pgvs3/src/pg.rs:77-108 | In every interleaving of get, open, drop, failure and eviction at most max connections are open, idle ones and those being opened included, and no two tasks share one, if the warm pool is within max |
| Pooling.WarmInv | crates/pgvs3/src/db.rs:58-66 | The warm pool meets the bound exactly if min is at most max |
| Pooling.StepKeepsBound | crates/pgvs3/src/pg.rs:96-102 | Any step of that shape keeps the slots accounted for and the bound |
| Pooling.StepKeepsExclusive | crates/pgvs3/src/pg.rs:173-190 | Every step keeps each connection in one place |
| Pooling.EvictionKeepsMin | crates/pgvs3/src/pg.rs:182-188 | Returning a connection never shrinks the idle stack, and an eviction leaves at least min |
| Pooling.IdleStack.Take | crates/pgvs3/src/pg.rs:95-102 | The most recently used connection that is not closed; closed ones above it are discarded |
| Pooling.IdleStack.Return | crates/pgvs3/src/pg.rs:173-190 | A closed connection is dropped. A live one is pushed, and the bottom one then leaves, unless it is not stale or no more than min are there; nothing else moves |
| Pooling.DropIs | crates/pgvs3/src/pg.rs:173-190 | The same of a task that drops its connection in any interleaving: an eviction exactly if the bottom is stale and more than min are there |
| Pooling.SlotIff | crates/pgvs3/src/pg.rs:82-95 | A task that asks for a slot gets one exactly if fewer than max tasks have one |
| Pooling.Frees | crates/pgvs3/src/pg.rs:91-108 | A task that has a slot can get to free it by its own steps alone, whatever others hold, and leaves all other tasks as they are |

## Left out

- PostgreSQL itself: atomic commit, row and advisory locks, unique and foreign keys, cascades, a sequence that never repeats and per-statement snapshots are assumed; of deadlocks only that a transaction may abort at any point (Interleaving.Abort).
- Part writes, Abort, expiry, bucket and upload transactions inside Interleaving: they are single steps there, held back while a running Put, Complete or Delete holds a row lock that they need. Complete's two reads under its upload lock are one step.
- Two writers that send the same part at once: the loser of the (upload, part) primary key aborts, so a part write is its commit or nothing.
- Writers dropped without finish or abort: only writers that end in one of them.
- SHA-256: a parameter, any function from bytes to bytes.
- `created_at`, clocks and ages: stale uploads come as a list in age order, stale connections as a predicate; expiry's null and negative grace are one flag.
- Row numbers of 2^31 and more: a longer file is refused where the code would overflow int4. Object sizes of 2^63 and more: sizes are unbounded integers.
- Errors of the pool and of metadata lookups, which end a request or a transaction without effect.
- Getting.GetBody: whether an error in a range of a chunk or more comes before the first byte or breaks the body off is left open, as it depends on arrival order, unless the first row is missing.
- Fairness: that a lock which others hold comes free is up to them, who may each end at any point (`Progress.MayAbort`).
- TokenWalks.WalkIs: that the pages of a walk make one roll-up, and what it skips, is stated where all scanned keys have the prefix, as all do unless it ends in U+D7FF (Listing.AllScannedStart).
- Listing.ListingStep: of an object only key, size and ETag.
- HTTP, request signing, data transfer objects, TLS, health and statistics routes, warmup, seeding, benchmarks, `init` and the layout version, bucket listing and `sizes`: plumbing, or easy.
