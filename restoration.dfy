/** Undoing registered operations by copying their backups back
    (`_rollback_operation` and the reverse-order loops that call it). */
module Restoration {
  import opened Common
  import opened Operations

  /** The file system after one restoration attempt, and whether it succeeded. */
  datatype Restored = Restored(ok: bool, files: Files)

  /** `shutil.copy2(src, dst)`: copying a file onto itself, from a missing
      source, or onto a target that cannot be written raises. */
  function Copy2(src: Path, dst: Path, files: Files, unwritable: set<Path>): (r: Restored)
    ensures r.ok <==> src in files && src != dst && dst !in unwritable
    ensures r.ok ==> r.files == files[dst := files[src]]
    ensures !r.ok ==> r.files == files
  {
    if src !in files || src == dst || dst in unwritable then Restored(false, files)
    else Restored(true, files[dst := files[src]])
  }

  /** A backup path that Python treats as true: present and non-empty. */
  predicate HasBackup(op: Op)
  {
    op.backup.Some? && op.backup.value != ""
  }

  /** When undoing `op` succeeds on `files`. */
  predicate Restorable(op: Op, files: Files, unwritable: set<Path>)
  {
    && (op.kind == FileModify || op.kind == FileDelete || op.kind == DbModify)
    && HasBackup(op)
    && op.backup.value in files
    && op.backup.value != op.target
    && op.target !in unwritable
  }

  /** `_rollback_operation`: each known kind restores its target from the
      backup when the backup is named and exists; anything else fails. */
  function RestoreOp(op: Op, files: Files, unwritable: set<Path>): (r: Restored)
    ensures r.ok <==> Restorable(op, files, unwritable)
    ensures r.ok ==> r.files == files[op.target := files[op.backup.value]]
    ensures !r.ok ==> r.files == files
  {
    if op.kind == FileModify && HasBackup(op) then
      if op.backup.value in files then Copy2(op.backup.value, op.target, files, unwritable)
      else Restored(false, files)
    else if op.kind == FileDelete && HasBackup(op) then
      if op.backup.value in files then Copy2(op.backup.value, op.target, files, unwritable)
      else Restored(false, files)
    else if op.kind == DbModify && HasBackup(op) then
      if op.backup.value in files then Copy2(op.backup.value, op.target, files, unwritable)
      else Restored(false, files)
    else
      Restored(false, files)
  }

  /** No operation writes to `p`. */
  predicate Untargeted(ops: seq<Op>, p: Path)
  {
    forall i :: 0 <= i < |ops| ==> ops[i].target != p
  }

  /** Restoring `ops` last-registered first; `ok` only if every one succeeded.
      Individual failures do not stop the rest. */
  function RollbackAll(ops: seq<Op>, files: Files, unwritable: set<Path>): (r: Restored)
    ensures files.Keys <= r.files.Keys
    decreases |ops|
  {
    if ops == [] then Restored(true, files)
    else
      var last := RestoreOp(ops[|ops| - 1], files, unwritable);
      var rest := RollbackAll(ops[..|ops| - 1], last.files, unwritable);
      Restored(last.ok && rest.ok, rest.files)
  }

  /** Rollback touches nothing but the targets of the operations it undoes. */
  lemma {:induction false} RollbackFrame(ops: seq<Op>, files: Files, unwritable: set<Path>, p: Path)
    requires Untargeted(ops, p)
    ensures p in RollbackAll(ops, files, unwritable).files <==> p in files
    ensures p in files ==> RollbackAll(ops, files, unwritable).files[p] == files[p]
    decreases |ops|
  {
    if ops != [] {
      var n := |ops| - 1;
      assert Untargeted(ops[..n], p) by {
        forall i | 0 <= i < n ensures ops[..n][i].target != p { assert ops[..n][i] == ops[i]; }
      }
      RollbackFrame(ops[..n], RestoreOp(ops[n], files, unwritable).files, unwritable, p);
    }
  }

  /** No operation's target is any operation's backup: restoring never
      destroys a backup another restoration still needs (the usual case,
      where backups are `<file>.backup` copies). */
  predicate BackupsUntouched(ops: seq<Op>)
  {
    forall i :: 0 <= i < |ops| ==> NoBackupAt(ops, ops[i].target)
  }

  /** `p` is not the backup of any operation in `ops`. */
  predicate NoBackupAt(ops: seq<Op>, p: Path)
  {
    forall j :: 0 <= j < |ops| && ops[j].backup.Some? ==> ops[j].backup.value != p
  }

  /** `ops[i]` is the earliest restorable operation writing to its target. */
  predicate EarliestFor(ops: seq<Op>, i: int, files: Files, unwritable: set<Path>)
    requires 0 <= i < |ops|
  {
    && Restorable(ops[i], files, unwritable)
    && forall j :: 0 <= j < i && ops[j].target == ops[i].target ==> !Restorable(ops[j], files, unwritable)
  }

  /** Restoring one operation that backups do not depend on keeps every
      other operation's restorability. */
  lemma StepKeepsRestorable(ops: seq<Op>, k: int, files: Files, unwritable: set<Path>)
    requires 0 <= k < |ops| && NoBackupAt(ops, ops[k].target)
    ensures forall i :: 0 <= i < |ops| ==>
      (Restorable(ops[i], RestoreOp(ops[k], files, unwritable).files, unwritable) <==> Restorable(ops[i], files, unwritable))
    ensures forall i :: 0 <= i < |ops| && Restorable(ops[i], files, unwritable) ==>
      RestoreOp(ops[k], files, unwritable).files[ops[i].backup.value] == files[ops[i].backup.value]
  {
  }

  /** When backups are never overwritten, rollback reports success only if
      every operation was restorable on the files as they were. */
  lemma {:induction false} RollbackOkOnlyIfRestorable(ops: seq<Op>, files: Files, unwritable: set<Path>)
    requires BackupsUntouched(ops)
    requires RollbackAll(ops, files, unwritable).ok
    ensures forall i :: 0 <= i < |ops| ==> Restorable(ops[i], files, unwritable)
    decreases |ops|
  {
    if ops != [] {
      var n := |ops| - 1;
      var front := ops[..n];
      var last := RestoreOp(ops[n], files, unwritable);
      StepKeepsRestorable(ops, n, files, unwritable);
      assert BackupsUntouched(front);
      RollbackOkOnlyIfRestorable(front, last.files, unwritable);
      forall i | 0 <= i < n ensures Restorable(ops[i], files, unwritable) {
        assert front[i] == ops[i];
      }
    }
  }

  /** When every operation is restorable on the files as they were, rollback
      reports success: a restoration only adds or overwrites its target, so
      every backup that existed still exists when its turn comes. */
  lemma {:induction false} RollbackOkIfRestorable(ops: seq<Op>, files: Files, unwritable: set<Path>)
    requires forall i :: 0 <= i < |ops| ==> Restorable(ops[i], files, unwritable)
    ensures RollbackAll(ops, files, unwritable).ok
    decreases |ops|
  {
    if ops != [] {
      var n := |ops| - 1;
      var front := ops[..n];
      var last := RestoreOp(ops[n], files, unwritable);
      assert last.ok;
      forall i | 0 <= i < n ensures Restorable(front[i], last.files, unwritable) {
        assert front[i] == ops[i];
      }
      RollbackOkIfRestorable(front, last.files, unwritable);
    }
  }

  /** When backups are never overwritten, a path no restorable operation
      targets is left exactly as it was. */
  lemma {:induction false} RollbackLeavesUnrestorable(ops: seq<Op>, files: Files, unwritable: set<Path>, p: Path)
    requires BackupsUntouched(ops)
    requires forall i :: 0 <= i < |ops| && ops[i].target == p ==> !Restorable(ops[i], files, unwritable)
    ensures p in RollbackAll(ops, files, unwritable).files <==> p in files
    ensures p in files ==> RollbackAll(ops, files, unwritable).files[p] == files[p]
    decreases |ops|
  {
    if ops != [] {
      var n := |ops| - 1;
      var last := RestoreOp(ops[n], files, unwritable);
      StepKeepsRestorable(ops, n, files, unwritable);
      assert BackupsUntouched(ops[..n]);
      assert forall i :: 0 <= i < n ==> ops[..n][i] == ops[i];
      RollbackLeavesUnrestorable(ops[..n], last.files, unwritable, p);
    }
  }

  /** When backups are never overwritten, each target ends up holding the
      backup of the earliest-registered restorable operation on it, because
      the loop runs from the last operation to the first. */
  lemma {:induction false} RollbackEarliestWins(ops: seq<Op>, files: Files, unwritable: set<Path>, i: int)
    requires BackupsUntouched(ops)
    requires 0 <= i < |ops| && EarliestFor(ops, i, files, unwritable)
    ensures ops[i].target in RollbackAll(ops, files, unwritable).files
    ensures RollbackAll(ops, files, unwritable).files[ops[i].target] == files[ops[i].backup.value]
    decreases |ops|
  {
    var n := |ops| - 1;
    var front := ops[..n];
    var last := RestoreOp(ops[n], files, unwritable);
    StepKeepsRestorable(ops, n, files, unwritable);
    assert BackupsUntouched(front);
    assert forall j :: 0 <= j < n ==> front[j] == ops[j];
    if i < n {
      assert EarliestFor(front, i, last.files, unwritable);
      RollbackEarliestWins(front, last.files, unwritable, i);
    } else {
      RollbackLeavesUnrestorable(front, last.files, unwritable, ops[n].target);
    }
  }
}
