/** One attempt of the unit of work: fetch the archive, pump the index
    records the indexer yields into the sorted-index writer, drain the
    writer's output, and store it next to the archive. The producer and the
    drainer run concurrently in the system; here the producer runs to its end
    first and the drain then reads what the writer emitted. */
module Bridge {
  import opened Wrappers
  import opened Seqs
  import opened Keys

  newtype byte = x: int | 0 <= x < 256

  /** One output chunk of the index writer. */
  type Chunk = seq<byte>

  /** Where one block sits in the archive. */
  datatype IndexRecord = IndexRecord(multihash: seq<byte>, offset: nat, length: nat)

  /** What the indexer does with the archive bytes: the records it yields, in
      order, and then either the end of the archive or a failure. */
  datatype Production = Production(yielded: seq<IndexRecord>, failure: Option<Error>)

  /** A call the bridge makes on the index writer. */
  datatype WriterAction = Put(record: IndexRecord) | Close

  /** The records put into the writer, in order. */
  function Puts(actions: seq<WriterAction>): seq<IndexRecord> {
    if actions == [] then []
    else
      Puts(actions[..|actions| - 1])
      + match actions[|actions| - 1] case Put(r) => [r] case Close => []
  }

  /** How many times the writer was closed. */
  function CloseCount(actions: seq<WriterAction>): nat {
    if actions == [] then 0
    else CloseCount(actions[..|actions| - 1]) + if actions[|actions| - 1].Close? then 1 else 0
  }

  /** The `put` calls for the given records, in order. */
  function PutActions(rs: seq<IndexRecord>): (a: seq<WriterAction>)
    ensures |a| == |rs|
    ensures Puts(a) == rs
    ensures CloseCount(a) == 0
  {
    if rs == [] then []
    else
      var a' := PutActions(rs[..|rs| - 1]);
      var a := a' + [Put(rs[|rs| - 1])];
      assert a[..|a| - 1] == a';
      assert rs == rs[..|rs| - 1] + [rs[|rs| - 1]];
      a
  }

  /** What the bridge did: the writer calls, the drained chunks and its
      outcome. */
  datatype BridgeRun = BridgeRun(actions: seq<WriterAction>, chunks: seq<Chunk>, outcome: Outcome<seq<byte>>)

  /** A rejection of the drain loop over the writer's output, raised after
      `read` chunks were collected. */
  datatype DrainFailure = DrainFailure(read: nat, error: Error)

  /** The producer/drain block: every yielded record is put in order, the
      writer is closed once in `finally`, and its output is drained. A
      rejection of the drain throws at once; otherwise a captured producer
      failure is rethrown after the drain. `encode` gives the chunks the
      writer emits for the records put into it before its close. */
  function RunBridge(p: Production, encode: seq<IndexRecord> -> seq<Chunk>, drain: Option<DrainFailure>): (b: BridgeRun)
    ensures Puts(b.actions) == p.yielded
    ensures CloseCount(b.actions) == 1
    ensures |b.actions| == |p.yielded| + 1 && b.actions[|b.actions| - 1] == Close
    ensures b.chunks <= encode(p.yielded)
    ensures drain.None? ==> b.chunks == encode(p.yielded)
    ensures b.outcome.Err? <==> drain.Some? || p.failure.Some?
    ensures drain.Some? ==> b.outcome == Err(drain.value.error)
    ensures drain.None? && p.failure.Some? ==> b.outcome == Err(p.failure.value)
    ensures b.outcome.Ok? ==> b.outcome.value == Flatten(b.chunks)
  {
    var puts := PutActions(p.yielded);
    var actions := puts + [Close];
    assert actions[..|actions| - 1] == puts;
    var emitted := encode(p.yielded);
    match drain
    case Some(DrainFailure(read, e)) =>
      BridgeRun(actions, emitted[..if read < |emitted| then read else |emitted|], Err(e))
    case None =>
      var outcome := match p.failure
        case Some(e) => Err(e)
        case None => Ok(Flatten(emitted));
      BridgeRun(actions, emitted, outcome)
  }

  /** The result of fetching the archive: a transport failure, or the bytes,
      which the indexer turns into a `Production`. */
  datatype Fetch = FetchFailed(error: Error) | Fetched(production: Production)

  /** Everything outside the model that one attempt depends on: the fetch,
      whether draining the writer's output rejects, and whether the store
      request fails. */
  datatype Attempt = Attempt(fetch: Fetch, drain: Option<DrainFailure>, storeFailure: Option<Error>)

  /** A store request: bucket, key and body. */
  datatype PutObject = PutObject(bucket: string, key: string, body: seq<byte>)

  /** What one attempt did: the bridge run (when the fetch succeeded), the
      store request it sent (if any), and its outcome; a successful attempt
      resolves with the object it stored. */
  datatype UnitRun = UnitRun(bridge: Option<BridgeRun>, sent: Option<PutObject>, outcome: Outcome<PutObject>)

  /** Whether an attempt gets as far as sending its store request: the fetch
      succeeded, the drain completed and the producer did not fail. */
  predicate ReachesStore(attempt: Attempt) {
    attempt.fetch.Fetched? && attempt.drain.None? && attempt.fetch.production.failure.None?
  }

  /** One attempt of the unit of work for the archive at `bucket`/`key`. */
  function UnitOfWork(bucket: string, key: string, attempt: Attempt, encode: seq<IndexRecord> -> seq<Chunk>): (u: UnitRun)
    ensures u.bridge.Some? <==> attempt.fetch.Fetched?
    ensures u.bridge.Some? ==>
      && Puts(u.bridge.value.actions) == attempt.fetch.production.yielded
      && CloseCount(u.bridge.value.actions) == 1
    ensures u.sent.Some? <==> ReachesStore(attempt)
    ensures u.sent.Some? ==>
      u.sent.value == PutObject(bucket, DerivedKey(key), Flatten(encode(attempt.fetch.production.yielded)))
    ensures u.outcome.Ok? <==> u.sent.Some? && attempt.storeFailure.None?
    ensures u.outcome.Ok? ==> u.outcome.value == u.sent.value
    ensures attempt.fetch.FetchFailed? ==> u.outcome == Err(attempt.fetch.error)
    ensures attempt.fetch.Fetched? && attempt.drain.Some? ==> u.outcome == Err(attempt.drain.value.error)
    ensures attempt.fetch.Fetched? && attempt.drain.None? && attempt.fetch.production.failure.Some? ==>
      u.outcome == Err(attempt.fetch.production.failure.value)
    ensures u.sent.Some? && attempt.storeFailure.Some? ==> u.outcome == Err(attempt.storeFailure.value)
  {
    match attempt.fetch
    case FetchFailed(e) => UnitRun(None, None, Err(e))
    case Fetched(p) =>
      var b := RunBridge(p, encode, attempt.drain);
      match b.outcome
      case Err(e) => UnitRun(Some(b), None, Err(e))
      case Ok(body) =>
        var put := PutObject(bucket, DerivedKey(key), body);
        match attempt.storeFailure
        case Some(e) => UnitRun(Some(b), Some(put), Err(e))
        case None => UnitRun(Some(b), Some(put), Ok(put))
  }
}
