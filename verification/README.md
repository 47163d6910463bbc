# Side indexer: a Dafny model of its pipeline

The side indexer is a notification handler. Object storage reports newly
created CAR archives (content-addressed archive files). For each archive the
handler builds a sorted multihash index and stores it next to the archive.

This project models the sequential logic around the storage and codec calls:

- **Event normalisation** (`Notifications`). The notification batch is
  flattened into an ordered list of storage records, keeping only those whose
  `eventSource` is `aws:s3`. A message whose body does not decode is skipped.
  A body without `Records` contributes nothing. A `null` entry ends its
  message early, but the records read before it stay. The handler then keeps
  the records whose event name starts with `ObjectCreated` and whose key ends
  with `.car`.
- **Retry runner** (`Retrying`). The unit of work is called once per attempt
  until it resolves, or until the attempt count reaches `maxRetries`. At
  least one attempt is always made. Between two attempts the runner sleeps
  once. Attempt `i` is modelled as resolving to `fn(i)`.
- **Unit of work** (`Bridge`). The archive is fetched. Every index record the
  indexer yields is `put` into the index writer, in order. The writer is
  closed exactly once, in `finally`, and its output chunks are drained. A
  failure captured in the producer is rethrown after the drain. A rejection
  of the drain itself is thrown at once. In both cases no store request is
  sent. Otherwise the concatenated chunks are stored in the
  same bucket under the archive key plus `.idx`.
- **Handler** (`Handler`). The selected records are processed one after
  another. The first record whose retries are exhausted ends the invocation
  with that record's error.

The writer and the indexer are opaque. The indexer's behaviour on one archive
is a `Production`: the records it yields, then the end of the archive or a
failure. The writer's output is a function `encode` of the records put into
it. Body decoding is an abstract `decode: string -> Option<Payload>`. The
fetch outcome, any drain rejection and the store outcome of each attempt
are inputs (`Attempt`).

Files: `wrappers.dfy` (Option, Error, Outcome), `seqs.dfy` (filter,
flat-map and concatenation, with their order and count lemmas), `keys.dfy`
(prefix and suffix tests, index-key derivation), `notifications.dfy`,
`retry.dfy`, `bridge.dfy`, `handler.dfy`.

## Model

| member | source | states |
|---|---|---|
| Notifications.ToS3Event | index.js:73-86 | The batch loop returns exactly the reference list `S3Records`: each message's object-storage records, message order first and record order within a message second. |
| Notifications.ReadPrefixShape | index.js:77-78 | What a message's records loop reads before `s3Rec.eventSource` throws on a `null` entry: exactly the records of the entries before the first `null`, or of all entries when there is none. |
| Notifications.S3RecordsFromS3 | index.js:78-79 | Every record of a batch has source tag `aws:s3`. |
| Notifications.ReadMessage | index.js:76-83 | The inner loop pushes the records from object storage that come before the first `null` entry, in order, and skips the others. |
| Notifications.SkippedMessage | index.js:76-83 | A message whose body fails to decode, or has no `Records` field (the `\|\| []`), contributes nothing, and the messages after it are still read. |
| Notifications.NullEntryTruncates | index.js:77-81 | A `null` entry at position j throws. Its message then contributes exactly the object-storage records among entries 0..j-1. |
| Notifications.ForeignOnlyYieldsNothing | index.js:78 | A batch yields no records when, in every message, none of the records read before the first `null` entry comes from object storage. Records after a `null` do not matter. |
| Notifications.Select | index.js:17-19 | The two chained filters (creation event name, then `.car` key) select the same records, in the same order, as one filter by their conjunction. |
| Notifications.SelectCount | index.js:17-21 | Selection keeps each relevant record exactly as often as it occurs and drops every other record. A record is selected iff it is in the input and relevant. |
| Notifications.SelectAppend | index.js:17-21 | Selection does not reorder: selecting from a concatenation concatenates the selections. |
| Notifications.SelectedRecords | index.js:17-19 | Every selected record is a record of the batch and is relevant. |
| Notifications.SingleArchiveScenario | index.js:73-86 | One message holding one `ObjectCreated:Put` record for `root.car` from `aws:s3` yields exactly that record for processing. |
| Retrying.AttemptBound | index.js:94 | The attempt bound is exactly max(1, `maxRetries`): it is at least 1 and at least `maxRetries`, and it is one of the two. At least one attempt is made because the bound is checked only after a failed attempt. |
| Retrying.RetryFrom | index.js:90-97 | Continuing the loop after `made` failed attempts gives a well-formed run with more than `made` attempts. |
| Retrying.Retry | index.js:88-98 | The run makes 1 to max(1, maxRetries) attempts and sleeps attempts-1 times. Every attempt but the last failed. It settles with the last attempt's outcome. It rejects only when it reaches the bound. |
| Retrying.RunRetry | index.js:88-98 | The `while (true)` loop, counting attempts and sleeps, computes exactly the run `Retry` describes. |
| Retrying.RetryRunUnique | index.js:88-98 | The attempt outcomes and the bound determine the run completely. |
| Retrying.FirstSuccessReturned | index.js:92 | If attempt k is the first to resolve and k is below the bound, the run returns its value after k+1 attempts and k sleeps. |
| Retrying.AllFailuresExhaust | index.js:93-94 | If every allowed attempt rejects, the run makes all of them and rejects with the last attempt's error. |
| Retrying.FailTwiceThenSucceed | index.js:88-98 | With the default bound of 3, two failures and then a success give 3 attempts and 2 sleeps. |
| Bridge.PutActions | index.js:38-40 | The writer calls for the yielded records put exactly those records, in order, and never close the writer. |
| Bridge.RunBridge | index.js:32-55 | Every yielded record is put in yield order. The writer is closed exactly once, as the last call, on both paths. The drained chunks are a prefix of what the writer emitted, and all of it when the drain does not reject. The bridge fails iff the drain rejected or the producer failed. A drain rejection wins, because it throws before the captured error is checked. Otherwise the bridge returns the in-order concatenation of the chunks. |
| Bridge.UnitOfWork | index.js:29-63 | A store request is sent iff the fetch succeeded, the drain completed and the producer did not fail. The request goes to the same bucket, under key + `.idx`, with the concatenated chunks as body. The attempt resolves iff that request succeeds. Otherwise it rejects with the first error found when checked in this order: fetch, drain, producer, store. |
| Seqs.FlattenAppend | index.js:60 | `concat` of two runs of chunks is the concatenation of their `concat`s. |
| Seqs.ChunkAtOffset | index.js:60 | In the stored body, chunk i appears unchanged right after the bytes of chunks 0..i-1. |
| Keys.StartsWithIffPrefixed | index.js:18 | `startsWith(prefix)` holds iff the string is the prefix followed by something. |
| Keys.EndsWithIffSuffixed | index.js:19 | `endsWith(suffix)` holds iff the string is something followed by the suffix. |
| Keys.DerivedKey | index.js:59 | The index key starts with the archive key, ends with `.idx`, and is exactly four characters longer. |
| Keys.DerivedKeyRoundTrip | index.js:59 | The index key is the archive key with `.idx` appended: the archive key can be read back from it, and every key it reads back from is the derived one. |
| Keys.DerivedKeyInjective | index.js:59 | Distinct archive keys give distinct index keys. |
| Keys.DerivedKeysAreNotCar | index.js:19 | No index key ends in `.car`, so storing an index never passes the handler's archive filter. |
| Handler.EventRun | index.js:29-64 | The retried unit for one record makes 1 to max(1, maxRetries) attempts, and every earlier attempt failed. On success, the last attempt fetched, indexed, drained and stored cleanly: the stored object is that attempt's index, in the record's bucket under key + `.idx`. On failure, all attempts were made and the error is the last attempt's. |
| Handler.Process | index.js:21-65 | Records are processed in order. The written objects are the successful results of a prefix of the records. The loop resolves iff every record succeeded. Otherwise it rejects with the error of the first record whose retries were exhausted, and the records after it are not processed. |
| Handler.Handle | index.js:12-66 | For the whole invocation, stored object j is the successful result of the retried unit for the j-th selected record. That record is a record of the batch with source `aws:s3`, is a creation of a `.car` key, and owns the object's bucket and key + `.idx`. No stored key ends in `.car`. The invocation resolves iff every selected record was stored. Otherwise the records before the failing one all resolved, and the error is that of the first record that exhausted its retries. |
| Handler.CleanFirstAttempt | index.js:29-63 | A record whose first attempt fetches, indexes, drains and stores without error is stored after one attempt and no sleep, in its bucket under key + `.idx`, with the concatenated chunks as body. |
| Handler.SingleCleanRecord | index.js:17-65 | An invocation that selects exactly one record, whose first attempt is clean, stores that record's index and resolves. |
| Handler.RootCarStored | index.js:12-65 | One message holding one `ObjectCreated:Put` record for `root.car` in bucket `b`, with a clean first attempt, makes the invocation store exactly `root.car.idx` in `b` and resolve. |
| Handler.StoredIndexes | index.js:57-61 | Each object stored by a record's retried unit is in that record's bucket under its key + `.idx`. |

## Left out

- Storage client construction and `send`, and the client override from the invocation context (index.js:14-16, 22, 30, 63): network I/O through a foreign SDK. Each attempt's fetch result and store result are inputs (`Attempt`). The per-record region only picks the client, so it does not appear in a store request.
- The CAR indexer and the sorted multihash index writer (index.js:2-3, 32, 37): external codecs. The indexer is a `Production` per attempt. The writer's output is an opaque `encode` of the records put into it.
- `JSON.parse`: an abstract `decode` that returns `None` on a parse failure, and also when the body parses to a value whose `Records` cannot be read (such as `null`). A falsy `Records` value counts as absent. A non-array truthy `Records` value is not modelled.
- Concurrency between the producer task and the drain loop (index.js:35-51): the producer runs to its end, then the drain reads what the writer emitted.
- `sleep` and `setTimeout` (index.js:96, 100): only the number of sleeps is counted. The delay (`RETRY_DELAY`, default 100) is not modelled.
- Parsing `MAX_RETRIES` and `RETRY_DELAY` with `parseInt` (index.js:6-7): the bound is an `int` parameter. A non-numeric `MAX_RETRIES` yields NaN, and the loop then never stops while attempts keep failing. That case is not modelled. A non-numeric `RETRY_DELAY` only changes the delay passed to `setTimeout` (index.js:100), which is not modelled either.
- `console.error` logging (index.js:82).
- A rejection from `writer.close()`, which escapes unhandled, and a rejection from `writer.put`: the latter counts as a producer failure after the records already put.
- Records are assumed to carry `eventName`, `s3.object` and `s3.bucket`. Where one is missing, the source throws a TypeError outside `retry`, but only for records that reach the property access. An `aws:s3` record without `eventName` throws at index.js:18. A creation record without `s3.object` throws at index.js:19. A selected record without `s3.bucket` throws at index.js:25 when the loop reaches it, after the earlier records were stored. In each case the invocation then rejects. A record filtered out before the access does not throw.
- A record that has `s3.bucket` but no `name` builds a fetch command for an undefined bucket. Its failure comes from `send` inside `retry` (index.js:30), so in the model it is a fetch failure on each attempt, which the environment supplies.
- A drain rejection is modelled by the number of chunks read before it. What the still-running producer does afterwards is left out: it is concurrency, and the model puts and closes as if uninterrupted.
- Thrown values are assumed truthy (Error objects). The source's `if (error)` would ignore a falsy thrown value.
- Bridge.UnitOfWork: the source's closure resolves with `undefined`. The model resolves with the stored object, so that callers can state what was written.
