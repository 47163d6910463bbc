/** The handler: the selected records are processed one after another, each
    by the retried unit of work, and the first record whose retries are
    exhausted ends the invocation with its error. */
module Handler {
  import opened Wrappers
  import opened Seqs
  import opened Keys
  import opened Notifications
  import opened Retrying
  import opened Bridge

  /** The retried unit of work for one record; `attempts(i)` is what the
      outside world does on attempt `i`. */
  function EventRun(r: S3Record, attempts: nat -> Attempt, encode: seq<IndexRecord> -> seq<Chunk>, maxRetries: int): (run: RetryRun<PutObject>)
    ensures 1 <= run.attempts <= AttemptBound(maxRetries)
    ensures run.sleeps == run.attempts - 1
    ensures run.outcome.Ok? ==>
      var a := attempts(run.attempts - 1);
      && ReachesStore(a) && a.storeFailure.None?
      && run.outcome.value == PutObject(r.bucket, DerivedKey(r.key), Flatten(encode(a.fetch.production.yielded)))
    ensures run.outcome.Err? ==>
      && run.attempts == AttemptBound(maxRetries)
      && UnitOfWork(r.bucket, r.key, attempts(run.attempts - 1), encode).outcome == run.outcome
    ensures forall i :: 0 <= i < run.attempts - 1 ==> UnitOfWork(r.bucket, r.key, attempts(i), encode).outcome.Err?
  {
    var fn := (i: nat) => UnitOfWork(r.bucket, r.key, attempts(i), encode).outcome;
    var run := Retry(fn, maxRetries);
    assert forall i: nat :: fn(i) == UnitOfWork(r.bucket, r.key, attempts(i), encode).outcome;
    run
  }

  /** What an invocation did: the objects it stored, in order, and whether it
      resolved or rejected. */
  datatype HandlerRun = HandlerRun(written: seq<PutObject>, outcome: Outcome<()>)

  /** The `for ... of` loop over the selected records, where `settle(j, r)`
      is how the retried unit of work for record `r`, the `j`-th, settles. */
  function Process(events: seq<S3Record>, settle: (nat, S3Record) -> Outcome<PutObject>): (h: HandlerRun)
    ensures |h.written| <= |events|
    ensures h.outcome.Ok? <==> |h.written| == |events|
    ensures forall j :: 0 <= j < |h.written| ==> settle(j, events[j]) == Ok(h.written[j])
    ensures h.outcome.Err? ==> settle(|h.written|, events[|h.written|]) == Err(h.outcome.error)
  {
    if events == [] then HandlerRun([], Ok(()))
    else
      var n := |events| - 1;
      var prev := Process(events[..n], settle);
      if prev.outcome.Err? then prev
      else
        match settle(n, events[n])
        case Ok(obj) => HandlerRun(prev.written + [obj], Ok(()))
        case Err(e) => HandlerRun(prev.written, Err(e))
  }

  /** The whole invocation: normalise the batch, select the archive-creation
      records, and process them in order. Every stored object is the index of
      a selected record, in the record's bucket under its derived key, and is
      never itself an archive key. */
  function Handle(snsRecords: seq<SnsRecord>, decode: string -> Option<Payload>, env: nat -> nat -> Attempt,
                  encode: seq<IndexRecord> -> seq<Chunk>, maxRetries: int): (h: HandlerRun)
    ensures var sel := Select(S3Records(decode, snsRecords));
      && |h.written| <= |sel|
      && (h.outcome.Ok? <==> |h.written| == |sel|)
      && (forall j :: 0 <= j < |h.written| ==>
          EventRun(sel[j], env(j), encode, maxRetries).outcome == Ok(h.written[j]))
      && (h.outcome.Err? ==>
          EventRun(sel[|h.written|], env(|h.written|), encode, maxRetries).outcome == Err(h.outcome.error))
      && forall j :: 0 <= j < |h.written| ==>
        && sel[j] in S3Records(decode, snsRecords) && FromS3(sel[j]) && Relevant(sel[j])
        && h.written[j].bucket == sel[j].bucket
        && h.written[j].key == DerivedKey(sel[j].key)
        && !EndsWith(h.written[j].key, CarSuffix)
  {
    var records := S3Records(decode, snsRecords);
    SelectedRecords(records);
    S3RecordsFromS3(decode, snsRecords);
    DerivedKeysAreNotCar();
    var settle := (j: nat, r: S3Record) => EventRun(r, env(j), encode, maxRetries).outcome;
    var h := Process(Select(records), settle);
    assert forall j: nat, r :: settle(j, r) == EventRun(r, env(j), encode, maxRetries).outcome;
    StoredIndexes(Select(records), env, encode, maxRetries, h.written);
    h
  }

  /** Objects the retried units stored for a run of records are those
      records' indexes, in the records' buckets under their derived keys. */
  lemma StoredIndexes(sel: seq<S3Record>, env: nat -> nat -> Attempt, encode: seq<IndexRecord> -> seq<Chunk>,
                      maxRetries: int, written: seq<PutObject>)
    requires |written| <= |sel|
    requires forall j :: 0 <= j < |written| ==> EventRun(sel[j], env(j), encode, maxRetries).outcome == Ok(written[j])
    ensures forall j :: 0 <= j < |written| ==>
      written[j].bucket == sel[j].bucket && written[j].key == DerivedKey(sel[j].key)
  {
  }

  /** A record whose first attempt fetches, indexes, drains and stores
      cleanly is stored at once: its index lands in the record's bucket
      under the derived key, with no retry. */
  lemma CleanFirstAttempt(r: S3Record, attempts: nat -> Attempt, encode: seq<IndexRecord> -> seq<Chunk>,
                          maxRetries: int, yielded: seq<IndexRecord>)
    requires attempts(0) == Attempt(Fetched(Production(yielded, None)), None, None)
    ensures EventRun(r, attempts, encode, maxRetries)
      == RetryRun(Ok(PutObject(r.bucket, DerivedKey(r.key), Flatten(encode(yielded)))), 1, 0)
  {
    var run := EventRun(r, attempts, encode, maxRetries);
    assert UnitOfWork(r.bucket, r.key, attempts(0), encode).outcome.Ok?;
    assert run.attempts == 1;
  }

  /** An invocation that selects exactly one record, whose first attempt is
      clean, stores that record's index and resolves. */
  lemma SingleCleanRecord(snsRecords: seq<SnsRecord>, decode: string -> Option<Payload>, env: nat -> nat -> Attempt,
                          encode: seq<IndexRecord> -> seq<Chunk>, maxRetries: int, r: S3Record, yielded: seq<IndexRecord>)
    requires Select(S3Records(decode, snsRecords)) == [r]
    requires env(0)(0) == Attempt(Fetched(Production(yielded, None)), None, None)
    ensures Handle(snsRecords, decode, env, encode, maxRetries)
      == HandlerRun([PutObject(r.bucket, DerivedKey(r.key), Flatten(encode(yielded)))], Ok(()))
  {
    CleanFirstAttempt(r, env(0), encode, maxRetries, yielded);
  }

  /** End to end: one message announcing `root.car` in bucket `b`, whose
      first attempt fetches, indexes, drains and stores cleanly, makes the
      invocation store that archive's index as `root.car.idx` in `b`. */
  lemma RootCarStored(decode: string -> Option<Payload>, message: string, env: nat -> nat -> Attempt,
                      encode: seq<IndexRecord> -> seq<Chunk>, maxRetries: int, yielded: seq<IndexRecord>)
    requires decode(message) ==
      Some(Payload(Some([Rec(S3Record("aws:s3", "ObjectCreated:Put", "us-east-1", "b", "root.car"))])))
    requires env(0)(0) == Attempt(Fetched(Production(yielded, None)), None, None)
    ensures Handle([SnsRecord(message)], decode, env, encode, maxRetries)
      == HandlerRun([PutObject("b", "root.car.idx", Flatten(encode(yielded)))], Ok(()))
  {
    assert DerivedKey("root.car") == "root.car.idx";
    var r := S3Record("aws:s3", "ObjectCreated:Put", "us-east-1", "b", "root.car");
    SingleArchiveScenario(decode, message);
    SingleCleanRecord([SnsRecord(message)], decode, env, encode, maxRetries, r, yielded);
  }
}
