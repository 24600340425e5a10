/** The journal directory: one JSON record per transaction, named after its id. */
module Journal {
  import opened Common
  import opened Operations

  /** A journal file that decoded as JSON, with one field per top-level key
      (`None` when the key is absent). */
  datatype RecordDict = RecordDict(
    transactionId: Option<string>,
    startTime: Option<string>,
    operations: Option<seq<OpDict>>)

  /** A file in the journal directory: either readable JSON or not
      (truncated, half-written or otherwise undecodable). */
  datatype Entry = Parsed(doc: RecordDict) | Corrupt

  /** What the recovery scan needs from a readable journal. */
  datatype Record = Record(id: string, ops: seq<Op>)

  /** How writing a journal file behaves on this disk. The write is a plain
      truncate-then-dump, so a failure after opening leaves a corrupt file. */
  datatype WriteFault = Healthy | OpenFails | DumpFails

  const JsonSuffix := ".json"

  /** The names `glob("*.json")` matches in the journal directory. */
  predicate IsJournalName(name: string)
  {
    |name| >= |JsonSuffix| && name[|name| - |JsonSuffix|..] == JsonSuffix
  }

  /** `_get_transaction_log_path`: the journal file of a transaction. */
  function LogName(id: string): (name: string)
    ensures IsJournalName(name)
    ensures |name| == |id| + |JsonSuffix| && name[..|id|] == id
  {
    id + JsonSuffix
  }

  /** Distinct transactions never share a journal file. */
  lemma LogNameInjective(a: string, b: string)
    requires LogName(a) == LogName(b)
    ensures a == b
  {
    assert a == LogName(a)[..|a|];
    assert b == LogName(b)[..|b|];
  }

  /** The record `_save_transaction_log` writes; `now` is the clock reading at
      the time of the write, which becomes the record's start time. */
  function Snapshot(id: string, now: string, ops: seq<Op>): (doc: RecordDict)
    ensures doc.transactionId == Some(id) && doc.startTime == Some(now)
    ensures doc.operations.Some? && |doc.operations.value| == |ops|
  {
    RecordDict(Some(id), Some(now), Some(ToDicts(ops)))
  }

  /** Reading a decoded journal in the recovery scan: the id and the operation
      list are required; `start_time` is never read. */
  function ParseRecord(doc: RecordDict, now: string): (r: Option<Record>)
    ensures r.Some? ==> Some(r.value.id) == doc.transactionId
    ensures r.Some? ==> doc.operations.Some? && Some(r.value.ops) == ParseOps(doc.operations.value, now)
    ensures r.Some? <==> doc.transactionId.Some? && doc.operations.Some?
                         && ParseOps(doc.operations.value, now).Some?
  {
    if doc.transactionId.None? || doc.operations.None? then None
    else
      match ParseOps(doc.operations.value, now)
      case None => None
      case Some(ops) => Some(Record(doc.transactionId.value, ops))
  }

  /** Whether the recovery scan can read an entry at all. */
  predicate Readable(e: Entry, now: string)
  {
    e.Parsed? && ParseRecord(e.doc, now).Some?
  }

  /** Whatever the manager last wrote is read back exactly by recovery:
      the same id and the same operations with the same completion flags. */
  lemma {:induction false} SnapshotRoundTrip(id: string, start: string, ops: seq<Op>, now: string)
    ensures ParseRecord(Snapshot(id, start, ops), now) == Some(Record(id, ops))
  {
    OpsRoundTrip(ops, now);
  }

  /** The journal directory after one attempt to write `doc` into `name`. */
  function AfterSave(journal: map<string, Entry>, name: string, doc: RecordDict, fault: WriteFault): (j: map<string, Entry>)
    ensures fault.Healthy? ==> name in j && j[name] == Parsed(doc)
    ensures fault.OpenFails? ==> j == journal
    ensures fault.DumpFails? ==> name in j && j[name] == Corrupt
    ensures forall n :: n != name ==> (n in j <==> n in journal)
    ensures forall n :: n != name && n in j ==> j[n] == journal[n]
  {
    match fault
    case Healthy => journal[name := Parsed(doc)]
    case OpenFails => journal
    case DumpFails => journal[name := Corrupt]
  }
}
