/** `TransactionManager`: one active transaction at a time, its operations
    mirrored into a journal file, undone on rollback or by the recovery sweep. */
module Transactions {
  import opened Common
  import opened Operations
  import opened Journal
  import opened Restoration
  import opened Recovery
  import opened FileSystem

  /** `begin_transaction`'s id: the requested one unless it is missing or
      empty, otherwise `tx_` followed by the caller's clock reading. */
  function ChooseId(requested: Option<string>, stamp: string): (id: string)
    ensures id != ""
    ensures requested.Some? && requested.value != "" ==> id == requested.value
    ensures requested.None? || requested.value == "" ==> id == "tx_" + stamp
  {
    if requested.Some? && requested.value != "" then requested.value else "tx_" + stamp
  }

  class TransactionManager {
    const disk: Disk
    /** `None` is Idle; an active id is never empty (Python treats "" as false). */
    var currentId: Option<string>
    /** The active transaction's operations in registration order. */
    var ops: seq<Op>

    ghost predicate Valid()
      reads this
    {
      && (currentId.Some? ==> currentId.value != "")
      && (currentId.None? ==> ops == [])
    }

    constructor (disk: Disk)
      ensures Valid() && this.disk == disk
      ensures currentId == None && ops == []
    {
      this.disk := disk;
      currentId := None;
      ops := [];
    }

    /** `_save_transaction_log`: rewrite the whole journal file of the active
        transaction with a fresh start time; nothing happens when idle. */
    method SaveLog(now: string) returns (ok: bool)
      modifies disk
      ensures disk.files == old(disk.files)
      ensures currentId.None? ==> ok && disk.journal == old(disk.journal)
      ensures currentId.Some? ==>
        && ok == disk.writeFault.Healthy?
        && disk.journal == AfterSave(old(disk.journal), LogName(currentId.value),
                                     Snapshot(currentId.value, now, ops), disk.writeFault)
    {
      if currentId.None? {
        return true;
      }
      ok := disk.WriteJournal(LogName(currentId.value), Snapshot(currentId.value, now, ops));
    }

    /** `begin_transaction`. Refused while active. Otherwise the manager is
        Active with no operations even when the journal write fails. */
    method Begin(requested: Option<string>, stamp: string, now: string) returns (r: Result<string, Error>)
      requires Valid()
      modifies this, disk
      ensures Valid()
      ensures disk.files == old(disk.files)
      ensures old(currentId).Some? ==>
        r == Err(StateConflict) && currentId == old(currentId) && ops == old(ops) && disk.journal == old(disk.journal)
      ensures old(currentId).None? ==>
        var id := ChooseId(requested, stamp);
        && currentId == Some(id) && ops == []
        && disk.journal == AfterSave(old(disk.journal), LogName(id), Snapshot(id, now, []), disk.writeFault)
        && r == if disk.writeFault.Healthy? then Ok(id) else Err(JournalWriteFailed)
    {
      if currentId.Some? {
        return Err(StateConflict);
      }
      var id := ChooseId(requested, stamp);
      currentId := Some(id);
      ops := [];
      var saved := SaveLog(now);
      r := if saved then Ok(id) else Err(JournalWriteFailed);
    }

    /** `add_operation`. Refused while idle. Otherwise the operation is
        appended, then the journal is rewritten with the whole list. */
    method Add(op: Op, now: string) returns (r: Result<(), Error>)
      requires Valid()
      modifies this, disk
      ensures Valid()
      ensures disk.files == old(disk.files) && currentId == old(currentId)
      ensures old(currentId).None? ==>
        r == Err(StateConflict) && ops == old(ops) && disk.journal == old(disk.journal)
      ensures old(currentId).Some? ==>
        && ops == old(ops) + [op]
        && disk.journal == AfterSave(old(disk.journal), LogName(currentId.value),
                                     Snapshot(currentId.value, now, ops), disk.writeFault)
        && r == if disk.writeFault.Healthy? then Ok(()) else Err(JournalWriteFailed)
    {
      if currentId.None? {
        return Err(StateConflict);
      }
      ops := ops + [op];
      var saved := SaveLog(now);
      r := if saved then Ok(()) else Err(JournalWriteFailed);
    }

    /** `commit_transaction`. Refused while idle. Marks every operation
        completed, saves, then unlinks the journal and goes Idle. If the save
        or the unlink fails it reports `false` and stays Active, with the
        operations already marked. */
    method Commit(now: string) returns (r: Result<bool, Error>)
      requires Valid()
      modifies this, disk
      ensures Valid()
      ensures disk.files == old(disk.files)
      ensures old(currentId).None? ==>
        r == Err(StateConflict) && currentId == old(currentId) && ops == old(ops) && disk.journal == old(disk.journal)
      ensures old(currentId).Some? ==>
        var id := old(currentId).value;
        var saved := AfterSave(old(disk.journal), LogName(id), Snapshot(id, now, MarkAllCompleted(old(ops))), disk.writeFault);
        var cleaned := disk.writeFault.Healthy? && LogName(id) !in disk.undeletable;
        && r == Ok(cleaned)
        && (cleaned ==> currentId == None && ops == [] && disk.journal == old(disk.journal) - {LogName(id)})
        && (!cleaned ==> currentId == old(currentId) && ops == MarkAllCompleted(old(ops)) && disk.journal == saved)
    {
      if currentId.None? {
        return Err(StateConflict);
      }
      var i := 0;
      while i < |ops|
        invariant 0 <= i <= |ops| == |old(ops)|
        invariant forall k :: 0 <= k < i ==> ops[k] == old(ops)[k].(completed := true)
        invariant forall k :: i <= k < |ops| ==> ops[k] == old(ops)[k]
        invariant currentId == old(currentId) && disk.journal == old(disk.journal) && disk.files == old(disk.files)
      {
        ops := ops[i := ops[i].(completed := true)];
        i := i + 1;
      }
      assert ops == MarkAllCompleted(old(ops));
      var saved := SaveLog(now);
      if !saved {
        return Ok(false);
      }
      var name := LogName(currentId.value);
      if name in disk.journal {
        var unlinked := disk.Unlink(name);
        if !unlinked {
          return Ok(false);
        }
      }
      currentId := None;
      ops := [];
      r := Ok(true);
    }

    /** `_rollback_operation`: the source's three branches, one per kind. */
    method RollbackOperation(op: Op) returns (ok: bool)
      modifies disk
      ensures Restored(ok, disk.files) == RestoreOp(op, old(disk.files), disk.unwritable)
      ensures disk.journal == old(disk.journal)
    {
      ok := false;
      if op.kind == FileModify && HasBackup(op) {
        if op.backup.value in disk.files {
          ok := disk.Copy(op.backup.value, op.target);
        }
      } else if op.kind == FileDelete && HasBackup(op) {
        if op.backup.value in disk.files {
          ok := disk.Copy(op.backup.value, op.target);
        }
      } else if op.kind == DbModify && HasBackup(op) {
        if op.backup.value in disk.files {
          ok := disk.Copy(op.backup.value, op.target);
        }
      }
    }

    /** The reverse loop shared by rollback and recovery: every operation is
        attempted, last-registered first, and `ok` says whether all succeeded. */
    method RestoreReversed(todo: seq<Op>) returns (ok: bool)
      modifies disk
      ensures Restored(ok, disk.files) == RollbackAll(todo, old(disk.files), disk.unwritable)
      ensures disk.journal == old(disk.journal)
    {
      ok := true;
      var i := |todo|;
      assert todo[..i] == todo;
      while i > 0
        invariant 0 <= i <= |todo|
        invariant disk.journal == old(disk.journal)
        invariant var rest := RollbackAll(todo[..i], disk.files, disk.unwritable);
                  Restored(ok && rest.ok, rest.files) == RollbackAll(todo, old(disk.files), disk.unwritable)
      {
        assert todo[..i][..i - 1] == todo[..i - 1];
        var done := RollbackOperation(todo[i - 1]);
        ok := ok && done;
        i := i - 1;
      }
    }

    /** `rollback_transaction`. Refused while idle. Undoes every operation
        last-first, then unlinks the journal and goes Idle, whatever the
        individual outcomes; an unlink that fails raises and leaves the
        manager Active (with the files already restored). */
    method Rollback() returns (r: Result<bool, Error>)
      requires Valid()
      modifies this, disk
      ensures Valid()
      ensures old(currentId).None? ==>
        && r == Err(StateConflict) && currentId == old(currentId) && ops == old(ops)
        && disk.journal == old(disk.journal) && disk.files == old(disk.files)
      ensures old(currentId).Some? ==>
        var name := LogName(old(currentId).value);
        var undo := RollbackAll(old(ops), old(disk.files), disk.unwritable);
        var stuck := name in old(disk.journal) && name in disk.undeletable;
        && disk.files == undo.files
        && (stuck ==> r == Err(JournalDeleteFailed) && currentId == old(currentId) && ops == old(ops)
                      && disk.journal == old(disk.journal))
        && (!stuck ==> r == Ok(undo.ok) && currentId == None && ops == []
                       && disk.journal == old(disk.journal) - {name})
    {
      if currentId.None? {
        return Err(StateConflict);
      }
      var success := RestoreReversed(ops);
      var name := LogName(currentId.value);
      if name in disk.journal {
        var unlinked := disk.Unlink(name);
        if !unlinked {
          return Err(JournalDeleteFailed);
        }
      }
      currentId := None;
      ops := [];
      r := Ok(success);
    }

    /** `recover_incomplete_transactions` over the directory listing `listing`
        (the order `glob` yields). It neither reads nor changes the manager's
        own state, so it also sweeps the active transaction's journal. */
    method Recover(listing: seq<string>, now: string) returns (recovered: seq<string>)
      modifies disk
      ensures var s := RecoverFrom(listing, Sweep([], old(disk.files), old(disk.journal)),
                                   disk.unwritable, disk.undeletable, now);
        recovered == s.recovered && disk.files == s.files && disk.journal == s.journal
    {
      recovered := [];
      var i := 0;
      while i < |listing|
        invariant 0 <= i <= |listing|
        invariant RecoverFrom(listing[i..], Sweep(recovered, disk.files, disk.journal), disk.unwritable, disk.undeletable, now)
               == RecoverFrom(listing, Sweep([], old(disk.files), old(disk.journal)), disk.unwritable, disk.undeletable, now)
      {
        var name := listing[i];
        if name in disk.journal && disk.journal[name].Parsed? {
          var parsed := ParseRecord(disk.journal[name].doc, now);
          if parsed.Some? {
            var pending := Incomplete(parsed.value.ops);
            var _ := RestoreReversed(pending);
            if pending != [] {
              recovered := recovered + [parsed.value.id];
            }
            var _ := disk.Unlink(name);
          }
        }
        assert listing[i..][1..] == listing[i + 1..];
        i := i + 1;
      }
    }
  }
}
