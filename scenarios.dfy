/** Client-side runs of the manager on a concrete disk: what a caller can
    conclude from the contracts alone. */
module Scenarios {
  import opened Common
  import opened Operations
  import opened Journal
  import opened Restoration
  import opened Recovery
  import opened FileSystem
  import opened Transactions

  const Old: Content := [1]
  const New: Content := [2]

  /** Backup, register, overwrite, roll back: the original content is back
      and the journal file is gone. */
  method RollbackRestoresOriginal() returns (success: bool, content: Content, journalLeft: bool)
    ensures success && content == Old && !journalLeft
  {
    var disk := new Disk(map["test.txt" := Old], map[], {}, Healthy, {});
    var backup := disk.Backup("test.txt");
    assert |"test.txt" + ".backup"| > |"test.txt"|;
    var tm := new TransactionManager(disk);
    var begun := tm.Begin(None, "20260101_000000_000000", "t0");
    var op := NewOp(FileModify, "test.txt", backup, None, "t1");
    var _ := tm.Add(op, "t1");
    disk.Write("test.txt", New);
    var r := tm.Rollback();
    success := r.Ok? && r.value;
    content := disk.files["test.txt"];
    journalLeft := LogName(begun.value) in disk.journal;
  }

  /** Backup, register, overwrite, commit: the new content stays, the
      manager is Idle and the journal file is gone. */
  method CommitKeepsWrite() returns (committed: bool, content: Content, journalLeft: bool)
    ensures committed && content == New && !journalLeft
  {
    var disk := new Disk(map["A.txt" := Old], map[], {}, Healthy, {});
    var backup := disk.Backup("A.txt");
    var tm := new TransactionManager(disk);
    var begun := tm.Begin(Some("tx_a"), "", "t0");
    var _ := tm.Add(NewOp(FileModify, "A.txt", backup, None, "t1"), "t1");
    disk.Write("A.txt", New);
    var r := tm.Commit("t2");
    committed := r == Ok(true) && tm.currentId == None;
    content := disk.files["A.txt"];
    journalLeft := LogName("tx_a") in disk.journal;
  }

  /** Two registered files, then a crash (the manager is dropped without
      commit or rollback). A new manager's recovery sweep restores both,
      reports the transaction and removes its journal. */
  method CrashThenRecover() returns (recovered: seq<string>, a: Content, b: Content, journalLeft: bool)
    ensures recovered == ["tx_crash"] && a == Old && b == Old && !journalLeft
  {
    var disk := new Disk(map["A.txt" := Old, "A.txt.backup" := Old, "B.txt" := Old, "B.txt.backup" := Old],
                         map[], {}, Healthy, {});
    var ops := CrashMidway(disk);
    var name := LogName("tx_crash");
    TwoOpCrashRecovered(name, ops, disk.files, disk.journal, "t3");
    var second := new TransactionManager(disk);
    recovered := second.Recover([name], "t3");
    a := disk.files["A.txt"];
    b := disk.files["B.txt"];
    journalLeft := name in disk.journal;
  }

  /** The part of `CrashThenRecover` before the crash: begin, register two
      backed-up files, overwrite both, and drop the manager. */
  method CrashMidway(disk: Disk) returns (ops: seq<Op>)
    requires disk.writeFault.Healthy? && disk.unwritable == {} && disk.undeletable == {}
    requires "A.txt.backup" in disk.files && "B.txt.backup" in disk.files
    modifies disk
    ensures |ops| == 2
    ensures ops[0] == NewOp(FileModify, "A.txt", Some("A.txt.backup"), None, "t1")
    ensures ops[1] == NewOp(DbModify, "B.txt", Some("B.txt.backup"), None, "t2")
    ensures disk.files == old(disk.files)["A.txt" := New]["B.txt" := New]
    ensures LogName("tx_crash") in disk.journal
    ensures disk.journal[LogName("tx_crash")] == Parsed(Snapshot("tx_crash", "t2", ops))
  {
    var tm := new TransactionManager(disk);
    var _ := tm.Begin(Some("tx_crash"), "", "t0");
    var _ := tm.Add(NewOp(FileModify, "A.txt", Some("A.txt.backup"), None, "t1"), "t1");
    var _ := tm.Add(NewOp(DbModify, "B.txt", Some("B.txt.backup"), None, "t2"), "t2");
    disk.Write("A.txt", New);
    disk.Write("B.txt", New);
    ops := tm.ops;
  }

  /** The sweep over the single journal left by `CrashThenRecover`. */
  lemma TwoOpCrashRecovered(name: string, ops: seq<Op>, files: Files, journal: map<string, Entry>, now: string)
    requires |ops| == 2
    requires ops[0] == NewOp(FileModify, "A.txt", Some("A.txt.backup"), None, "t1")
    requires ops[1] == NewOp(DbModify, "B.txt", Some("B.txt.backup"), None, "t2")
    requires "A.txt.backup" in files && "B.txt.backup" in files
    requires name in journal && journal[name] == Parsed(Snapshot("tx_crash", "t2", ops))
    ensures var r := RecoverFrom([name], Sweep([], files, journal), {}, {}, now);
      && r.recovered == ["tx_crash"] && name !in r.journal
      && "A.txt" in r.files && r.files["A.txt"] == files["A.txt.backup"]
      && "B.txt" in r.files && r.files["B.txt"] == files["B.txt.backup"]
  {
    var st := Sweep([], files, journal);
    assert [name][1..] == [];
    CrashedRecordRolledBack(name, "tx_crash", "t2", ops, st, {}, {}, now);
    SweepRemovesReadable([name], st, {}, {}, now, name) by {
      SnapshotRoundTrip("tx_crash", "t2", ops, now);
    }
    BothRestored(ops, files);
  }

  lemma BothRestored(ops: seq<Op>, files: Files)
    requires |ops| == 2
    requires ops[0] == NewOp(FileModify, "A.txt", Some("A.txt.backup"), None, "t1")
    requires ops[1] == NewOp(DbModify, "B.txt", Some("B.txt.backup"), None, "t2")
    requires "A.txt.backup" in files && "B.txt.backup" in files
    ensures var after := RollbackAll(ops, files, {}).files;
      && "A.txt" in after && after["A.txt"] == files["A.txt.backup"]
      && "B.txt" in after && after["B.txt"] == files["B.txt.backup"]
  {
    assert BackupsUntouched(ops);
    RollbackEarliestWins(ops, files, {}, 0);
    RollbackEarliestWins(ops, files, {}, 1);
  }

  /** The sweep does not look at the manager's state: run while a
      transaction is active, it undoes that transaction and removes its
      journal, and the manager still believes it is Active. */
  method RecoverDuringActiveTransaction() returns (stillActive: bool, a: Content, journalLeft: bool)
    ensures stillActive && a == Old && !journalLeft
  {
    var disk := new Disk(map["A.txt" := Old, "A.txt.backup" := Old], map[], {}, Healthy, {});
    var tm := new TransactionManager(disk);
    var _ := tm.Begin(Some("tx_live"), "", "t0");
    var op := NewOp(FileModify, "A.txt", Some("A.txt.backup"), None, "t1");
    var _ := tm.Add(op, "t1");
    disk.Write("A.txt", New);
    var name := LogName("tx_live");
    OneOpSwept(name, tm.ops, disk.files, disk.journal, "t2");
    var _ := tm.Recover([name], "t2");
    stillActive := tm.currentId == Some("tx_live");
    a := disk.files["A.txt"];
    journalLeft := name in disk.journal;
  }

  /** The sweep over the single journal of `RecoverDuringActiveTransaction`. */
  lemma OneOpSwept(name: string, ops: seq<Op>, files: Files, journal: map<string, Entry>, now: string)
    requires ops == [NewOp(FileModify, "A.txt", Some("A.txt.backup"), None, "t1")]
    requires "A.txt.backup" in files
    requires name in journal && journal[name] == Parsed(Snapshot("tx_live", "t1", ops))
    ensures var r := RecoverFrom([name], Sweep([], files, journal), {}, {}, now);
      && name !in r.journal && "A.txt" in r.files && r.files["A.txt"] == files["A.txt.backup"]
  {
    var st := Sweep([], files, journal);
    assert [name][1..] == [];
    CrashedRecordRolledBack(name, "tx_live", "t1", ops, st, {}, {}, now);
    SweepRemovesReadable([name], st, {}, {}, now, name) by {
      SnapshotRoundTrip("tx_live", "t1", ops, now);
    }
    assert ops[..0] == [];
  }
}
