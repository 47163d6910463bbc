/** Event normalisation: a notification batch whose messages carry encoded
    storage-change payloads is flattened into the ordered list of storage
    records, and the handler then selects the archive-creation records. */
module Notifications {
  import opened Wrappers
  import opened Seqs
  import opened Keys

  /** One storage-change record: where it came from, what happened, and to
      which object. */
  datatype S3Record = S3Record(
    eventSource: string,
    eventName: string,
    awsRegion: string,
    bucket: string,
    key: string)

  /** An entry of a payload's `Records` array: `null`, or a record object. */
  datatype Entry = Null | Rec(record: S3Record)

  /** A decoded message body; `records` is `None` when the `Records` field is
      absent (or otherwise falsy). */
  datatype Payload = Payload(records: Option<seq<Entry>>)

  /** One message of the notification batch, with its still-encoded body. */
  datatype SnsRecord = SnsRecord(message: string)

  /** The source tag of records emitted by object storage. */
  const S3EventSource: string := "aws:s3"

  predicate FromS3(r: S3Record) {
    r.eventSource == S3EventSource
  }

  /** The entries a payload's records loop iterates: `Records || []`. */
  function Entries(p: Payload): seq<Entry> {
    match p.records
    case None => []
    case Some(es) => es
  }

  /** The records read before the first `null` entry: reading the source tag
      of a `null` entry throws, which ends the loop over that message. */
  function ReadPrefix(es: seq<Entry>): (rs: seq<S3Record>)
    ensures |rs| <= |es|
  {
    if es == [] then []
    else
      match es[0]
      case Null => []
      case Rec(r) => [r] + ReadPrefix(es[1..])
  }

  /** What one message contributes: nothing when its body does not decode,
      else its readable records that come from object storage. */
  function MessageRecords(decode: string -> Option<Payload>, m: SnsRecord): seq<S3Record> {
    match decode(m.message)
    case None => []
    case Some(p) => Filter(FromS3, ReadPrefix(Entries(p)))
  }

  /** The records of a whole batch: each message's contribution, in message
      order. */
  function S3Records(decode: string -> Option<Payload>, msgs: seq<SnsRecord>): seq<S3Record> {
    FlatMap((m: SnsRecord) => MessageRecords(decode, m), msgs)
  }

  /** What is read is exactly the records of the entries before the first
      `null` entry, or of all entries when there is none. */
  lemma {:induction false} ReadPrefixShape(es: seq<Entry>)
    ensures forall k :: 0 <= k < |ReadPrefix(es)| ==> es[k] == Rec(ReadPrefix(es)[k])
    ensures |ReadPrefix(es)| < |es| ==> es[|ReadPrefix(es)|].Null?
    decreases |es|
  {
    if es != [] && es[0].Rec? {
      ReadPrefixShape(es[1..]);
    }
  }

  /** Every record of a batch comes from object storage. */
  lemma {:induction false} S3RecordsFromS3(decode: string -> Option<Payload>, msgs: seq<SnsRecord>)
    ensures forall r :: r in S3Records(decode, msgs) ==> FromS3(r)
    decreases |msgs|
  {
    if msgs != [] {
      var f := (m: SnsRecord) => MessageRecords(decode, m);
      var init, m := msgs[..|msgs| - 1], msgs[|msgs| - 1];
      S3RecordsFromS3(decode, init);
      forall r | r in f(m)
        ensures FromS3(r)
      {
        match decode(m.message)
        case Some(p) => FilterMember(FromS3, ReadPrefix(Entries(p)), r);
      }
    }
  }

  /** Over entries with no `null` among the first ones, reading is
      concatenative. */
  lemma {:induction false} ReadPrefixAppend(a: seq<Entry>, b: seq<Entry>)
    requires forall k :: 0 <= k < |a| ==> a[k].Rec?
    ensures ReadPrefix(a + b) == ReadPrefix(a) + ReadPrefix(b)
    decreases |a|
  {
    if a == [] {
      assert a + b == b;
    } else {
      assert (a + b)[0] == a[0];
      assert (a + b)[1..] == a[1..] + b;
      ReadPrefixAppend(a[1..], b);
    }
  }

  /** A message whose body fails to decode, or decodes without a `Records`
      field, contributes nothing and does not stop the batch: the messages
      after it are still read. */
  lemma SkippedMessage(decode: string -> Option<Payload>, a: seq<SnsRecord>, m: SnsRecord, b: seq<SnsRecord>)
    requires decode(m.message).None? || decode(m.message).value.records.None?
    ensures S3Records(decode, a + [m] + b) == S3Records(decode, a) + S3Records(decode, b)
  {
    var f := (m: SnsRecord) => MessageRecords(decode, m);
    FlatMapAppend(f, a + [m], b);
    FlatMapAppend(f, a, [m]);
    FlatMapSingleton(f, m);
  }

  /** A `null` entry at position `j` cuts its message short: the records
      before it are kept, those after it are lost. */
  lemma NullEntryTruncates(decode: string -> Option<Payload>, m: SnsRecord, p: Payload, j: nat)
    requires decode(m.message) == Some(p)
    requires j < |Entries(p)| && Entries(p)[j].Null?
    requires forall k :: 0 <= k < j ==> Entries(p)[k].Rec?
    ensures MessageRecords(decode, m) == Filter(FromS3, ReadPrefix(Entries(p)[..j]))
  {
    var es := Entries(p);
    ReadPrefixStops(es, j);
  }

  /** Reading stops at the first `null` entry. */
  lemma ReadPrefixStops(es: seq<Entry>, j: nat)
    requires j < |es| && es[j].Null?
    requires forall k :: 0 <= k < j ==> es[k].Rec?
    ensures ReadPrefix(es) == ReadPrefix(es[..j])
  {
    var tail := es[j..];
    assert es == es[..j] + tail;
    assert tail[0] == es[j];
    assert ReadPrefix(tail) == [];
    ReadPrefixAppend(es[..j], tail);
    assert ReadPrefix(es[..j]) + [] == ReadPrefix(es[..j]);
  }

  /** Whether every record read from a message, before any `null` entry,
      comes from elsewhere than object storage. */
  predicate ForeignOnly(decode: string -> Option<Payload>, m: SnsRecord) {
    match decode(m.message)
    case None => true
    case Some(p) =>
      var read := ReadPrefix(Entries(p));
      forall k :: 0 <= k < |read| ==> !FromS3(read[k])
  }

  /** A message carrying no object-storage records contributes none. */
  lemma ForeignMessageYieldsNothing(decode: string -> Option<Payload>, m: SnsRecord)
    requires ForeignOnly(decode, m)
    ensures MessageRecords(decode, m) == []
  {
    var mr := MessageRecords(decode, m);
    if mr != [] {
      var p := decode(m.message).value;
      var rp := ReadPrefix(Entries(p));
      var r := mr[0];
      FilterMember(FromS3, rp, r);
      assert false;
    }
  }

  /** A batch carrying no object-storage records yields no records. */
  lemma {:induction false} ForeignOnlyYieldsNothing(decode: string -> Option<Payload>, msgs: seq<SnsRecord>)
    requires forall i :: 0 <= i < |msgs| ==> ForeignOnly(decode, msgs[i])
    ensures S3Records(decode, msgs) == []
    decreases |msgs|
  {
    if msgs != [] {
      ForeignOnlyYieldsNothing(decode, msgs[..|msgs| - 1]);
      ForeignMessageYieldsNothing(decode, msgs[|msgs| - 1]);
    }
  }

  /** Reading one more record entry extends what a message contributes by
      that record when it comes from object storage. */
  lemma ReadStep(es: seq<Entry>, j: nat)
    requires j < |es| && es[j].Rec?
    requires forall k :: 0 <= k < j ==> es[k].Rec?
    ensures forall k :: 0 <= k < j + 1 ==> es[k].Rec?
    ensures Filter(FromS3, ReadPrefix(es[..j + 1]))
      == Filter(FromS3, ReadPrefix(es[..j])) + if FromS3(es[j].record) then [es[j].record] else []
  {
    var r := es[j].record;
    assert es[..j + 1] == es[..j] + [es[j]];
    ReadPrefixAppend(es[..j], [es[j]]);
    assert ReadPrefix([es[j]]) == [r] + ReadPrefix([]);
    FilterAppend(FromS3, ReadPrefix(es[..j]), [r]);
    assert Filter(FromS3, [r]) == Filter(FromS3, []) + (if FromS3(r) then [r] else []);
  }

  /** The inner loop of `toS3Event` over one decoded body's `Records`: each
      record from object storage is pushed, others are skipped, and a `null`
      entry throws, which the surrounding `catch` absorbs. */
  method ReadMessage(es: seq<Entry>) returns (pushed: seq<S3Record>)
    ensures pushed == Filter(FromS3, ReadPrefix(es))
  {
    pushed := [];
    var j := 0;
    while j < |es|
      invariant 0 <= j <= |es|
      invariant forall k :: 0 <= k < j ==> es[k].Rec?
      invariant pushed == Filter(FromS3, ReadPrefix(es[..j]))
    {
      if es[j].Null? {
        ReadPrefixStops(es, j);
        return;
      }
      var r := es[j].record;
      ReadStep(es, j);
      if FromS3(r) {
        pushed := pushed + [r];
      }
      j := j + 1;
    }
    assert es[..j] == es;
  }

  /** The loop of `toS3Event`: each message body is decoded, and a body that
      fails to decode is skipped without ending the batch. */
  method ToS3Event(decode: string -> Option<Payload>, snsRecords: seq<SnsRecord>) returns (records: seq<S3Record>)
    ensures records == S3Records(decode, snsRecords)
  {
    records := [];
    for i := 0 to |snsRecords|
      invariant records == S3Records(decode, snsRecords[..i])
    {
      assert snsRecords[..i + 1][..i] == snsRecords[..i];
      var parsed := decode(snsRecords[i].message);
      var pushed: seq<S3Record> := [];
      if parsed.Some? {
        pushed := ReadMessage(Entries(parsed.value));
      }
      records := records + pushed;
    }
    assert snsRecords[..|snsRecords|] == snsRecords;
  }

  /** A creation event: its name starts with `ObjectCreated`. */
  predicate IsCreated(r: S3Record) {
    StartsWith(r.eventName, CreatedPrefix)
  }

  /** An archive: its key ends with `.car`. */
  predicate IsCar(r: S3Record) {
    EndsWith(r.key, CarSuffix)
  }

  /** What the handler processes. */
  predicate Relevant(r: S3Record) {
    IsCreated(r) && IsCar(r)
  }

  /** The handler's two filters, applied in its order. */
  function Select(records: seq<S3Record>): (sel: seq<S3Record>)
    ensures sel == Filter(Relevant, records)
  {
    FilterFuse(IsCreated, IsCar, Relevant, records);
    Filter(IsCar, Filter(IsCreated, records))
  }

  /** The selection neither drops nor duplicates a relevant record: it keeps
      each one exactly as often as it occurs, and nothing else. */
  lemma SelectCount(records: seq<S3Record>, r: S3Record)
    ensures multiset(Select(records))[r] == if Relevant(r) then multiset(records)[r] else 0
    ensures r in Select(records) <==> r in records && Relevant(r)
  {
    FilterCount(Relevant, records, r);
  }

  /** The selection does not reorder: selecting from a concatenation
      concatenates the selections. */
  lemma SelectAppend(records: seq<S3Record>, more: seq<S3Record>)
    ensures Select(records + more) == Select(records) + Select(more)
  {
    FilterAppend(Relevant, records, more);
  }

  /** Every selected record is a relevant record of the input. */
  lemma SelectedRecords(records: seq<S3Record>)
    ensures forall j :: 0 <= j < |Select(records)| ==>
      Select(records)[j] in records && Relevant(Select(records)[j])
  {
    var sel := Select(records);
    forall j | 0 <= j < |sel|
      ensures sel[j] in records && Relevant(sel[j])
    {
      assert sel[j] in sel;
      FilterMember(Relevant, records, sel[j]);
    }
  }

  /** A batch of one message whose body holds one creation record for
      `root.car` yields exactly that record for processing. */
  lemma SingleArchiveScenario(decode: string -> Option<Payload>, message: string)
    requires decode(message) ==
      Some(Payload(Some([Rec(S3Record("aws:s3", "ObjectCreated:Put", "us-east-1", "b", "root.car"))])))
    ensures Select(S3Records(decode, [SnsRecord(message)]))
      == [S3Record("aws:s3", "ObjectCreated:Put", "us-east-1", "b", "root.car")]
  {
    var r := S3Record("aws:s3", "ObjectCreated:Put", "us-east-1", "b", "root.car");
    SingleRecordMessage(decode, SnsRecord(message), r);
    assert r.eventName == CreatedPrefix + ":Put" && r.key == "root" + CarSuffix;
    assert Filter(Relevant, [r]) == Filter(Relevant, []) + [r];
  }

  /** A message holding a single object-storage record yields just it. */
  lemma SingleRecordMessage(decode: string -> Option<Payload>, m: SnsRecord, r: S3Record)
    requires decode(m.message) == Some(Payload(Some([Rec(r)])))
    requires FromS3(r)
    ensures S3Records(decode, [m]) == [r]
  {
    FlatMapSingleton((m: SnsRecord) => MessageRecords(decode, m), m);
    assert ReadPrefix([Rec(r)]) == [r] + ReadPrefix([]);
    assert Filter(FromS3, [r]) == Filter(FromS3, []) + [r];
  }
}
