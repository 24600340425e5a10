/** One registered mutation (`TransactionOperation`) and its dictionary form. */
module Operations {
  import opened Common

  const FileModify := "file_modify"
  const FileDelete := "file_delete"
  const DbModify := "db_modify"

  /** Caller-supplied annotations; never interpreted by the manager. */
  type Metadata = map<string, string>

  datatype Op = Op(
    kind: string,
    target: Path,
    backup: Option<Path>,
    metadata: Metadata,
    timestamp: string,
    completed: bool)

  /** The dictionary written by `to_dict` and read by `from_dict`: one field per
      key, `None` when the key is absent. `backupPath` is `Some(None)` for a
      JSON null, and `metadata` is `None` for an absent key or a null. */
  datatype OpDict = OpDict(
    operationType: Option<string>,
    targetPath: Option<Path>,
    backupPath: Option<Option<Path>>,
    metadata: Option<Metadata>,
    timestamp: Option<string>,
    completed: Option<bool>)

  /** A fresh operation; `now` stands for the clock reading taken on creation. */
  function NewOp(kind: string, target: Path, backup: Option<Path>, metadata: Option<Metadata>, now: string): (op: Op)
    ensures !op.completed
    ensures op.kind == kind && op.target == target && op.backup == backup
    ensures metadata.None? ==> op.metadata == map[]
    ensures metadata.Some? ==> op.metadata == metadata.value
    ensures op.timestamp == now
  {
    Op(kind, target, backup, if metadata.Some? then metadata.value else map[], now, false)
  }

  function ToDict(op: Op): (d: OpDict)
    ensures d.operationType.Some? && d.targetPath.Some? && d.backupPath.Some?
    ensures d.metadata.Some? && d.timestamp.Some? && d.completed.Some?
  {
    OpDict(Some(op.kind), Some(op.target), Some(op.backup), Some(op.metadata),
           Some(op.timestamp), Some(op.completed))
  }

  /** `from_dict`: the two required keys must be present (a KeyError otherwise);
      the optional ones fall back to their defaults. */
  function FromDict(d: OpDict, now: string): (r: Option<Op>)
    ensures r.Some? <==> d.operationType.Some? && d.targetPath.Some?
    ensures r.Some? ==> r.value.kind == d.operationType.value && r.value.target == d.targetPath.value
    ensures r.Some? && d.backupPath.Some? ==> r.value.backup == d.backupPath.value
    ensures r.Some? && d.metadata.Some? ==> r.value.metadata == d.metadata.value
    ensures r.Some? && d.timestamp.Some? ==> r.value.timestamp == d.timestamp.value
    ensures r.Some? && d.completed.Some? ==> r.value.completed == d.completed.value
    ensures r.Some? && d.backupPath.None? ==> r.value.backup == None
    ensures r.Some? && d.metadata.None? ==> r.value.metadata == map[]
    ensures r.Some? && d.timestamp.None? ==> r.value.timestamp == now
    ensures r.Some? && d.completed.None? ==> !r.value.completed
  {
    if d.operationType.None? || d.targetPath.None? then None
    else
      var op := NewOp(d.operationType.value, d.targetPath.value,
                      if d.backupPath.Some? then d.backupPath.value else None,
                      d.metadata, now);
      Some(op.(timestamp := if d.timestamp.Some? then d.timestamp.value else now,
               completed := if d.completed.Some? then d.completed.value else false))
  }

  lemma DictRoundTrip(op: Op, now: string)
    ensures FromDict(ToDict(op), now) == Some(op)
  {
  }

  /** The operation list as written into the journal. */
  function ToDicts(ops: seq<Op>): (ds: seq<OpDict>)
    ensures |ds| == |ops|
    ensures forall i :: 0 <= i < |ds| ==> ds[i].operationType == Some(ops[i].kind) && ds[i].targetPath == Some(ops[i].target)
    ensures forall i :: 0 <= i < |ds| ==> ds[i].completed == Some(ops[i].completed)
  {
    seq(|ops|, i requires 0 <= i < |ops| => ToDict(ops[i]))
  }

  /** The list comprehension of the recovery scan: any operation missing a
      required key makes the whole list unreadable. */
  function ParseOps(ds: seq<OpDict>, now: string): (r: Option<seq<Op>>)
    ensures r.None? <==> exists i :: 0 <= i < |ds| && FromDict(ds[i], now).None?
    ensures r.Some? ==> |r.value| == |ds|
    ensures r.Some? ==> forall i :: 0 <= i < |ds| ==> Some(r.value[i]) == FromDict(ds[i], now)
  {
    if ds == [] then Some([])
    else
      match FromDict(ds[0], now)
      case None => None
      case Some(op) =>
        match ParseOps(ds[1..], now)
        case None =>
          assert exists i :: 0 <= i < |ds[1..]| && FromDict(ds[1..][i], now).None?;
          None
        case Some(rest) => Some([op] + rest)
  }

  lemma {:induction false} OpsRoundTrip(ops: seq<Op>, now: string)
    ensures ParseOps(ToDicts(ops), now) == Some(ops)
  {
    var ds := ToDicts(ops);
    forall i | 0 <= i < |ds| ensures FromDict(ds[i], now) == Some(ops[i]) {
      DictRoundTrip(ops[i], now);
    }
    var r := ParseOps(ds, now);
    assert |ds| == |ops|;
    assert r.Some?;
    assert |r.value| == |ops|;
    assert forall i :: 0 <= i < |ops| ==> r.value[i] == ops[i];
    assert r.value == ops;
  }

  /** Every operation after the marking loop of a commit. */
  function MarkAllCompleted(ops: seq<Op>): (r: seq<Op>)
    ensures |r| == |ops|
    ensures forall i :: 0 <= i < |r| ==> r[i].completed
    ensures forall i :: 0 <= i < |r| ==> r[i].(completed := false) == ops[i].(completed := false)
  {
    seq(|ops|, i requires 0 <= i < |ops| => ops[i].(completed := true))
  }

  /** The operations of a record that still need undoing, in insertion order. */
  function Incomplete(ops: seq<Op>): (r: seq<Op>)
    ensures |r| <= |ops|
    ensures forall op :: op in r <==> op in ops && !op.completed
    ensures forall k :: 0 <= k < |r| ==> !r[k].completed
  {
    if ops == [] then []
    else (if ops[0].completed then [] else [ops[0]]) + Incomplete(ops[1..])
  }

  /** Filtering keeps the order of the operations it keeps: the filter of a
      concatenation is the concatenation of the filters. */
  lemma {:induction false} IncompleteConcat(a: seq<Op>, b: seq<Op>)
    ensures Incomplete(a + b) == Incomplete(a) + Incomplete(b)
    decreases |a|
  {
    if a == [] {
      assert a + b == b;
    } else {
      assert (a + b)[1..] == a[1..] + b;
      IncompleteConcat(a[1..], b);
    }
  }

  /** A single operation is kept exactly when it is not completed. */
  lemma IncompleteOne(op: Op)
    ensures Incomplete([op]) == if op.completed then [] else [op]
  {
    assert [op][1..] == [];
  }

  lemma {:induction false} CompletedOpsNeedNoUndo(ops: seq<Op>)
    requires forall i :: 0 <= i < |ops| ==> ops[i].completed
    ensures Incomplete(ops) == []
  {
    if ops != [] {
      CompletedOpsNeedNoUndo(ops[1..]);
    }
  }

  lemma {:induction false} FreshOpsAllIncomplete(ops: seq<Op>)
    requires forall i :: 0 <= i < |ops| ==> !ops[i].completed
    ensures Incomplete(ops) == ops
  {
    if ops != [] {
      FreshOpsAllIncomplete(ops[1..]);
      assert [ops[0]] + ops[1..] == ops;
    }
  }
}
