/** `with_transaction`: begin, run the caller's work, commit on a normal
    return, roll back and re-raise on an exception. */
module Scoped {
  import opened Common
  import opened Operations
  import opened Journal
  import opened Restoration
  import opened FileSystem
  import opened Transactions

  /** One thing the guarded work does before it returns or raises. */
  datatype Step = Register(op: Op) | Overwrite(path: Path, content: Content)

  /** How the guarded work ends: a normal return, an `Exception`, or an
      exception outside that class (`KeyboardInterrupt`, `SystemExit`), which
      the wrapper's `except Exception` does not catch. */
  datatype Ending<T> = Returns(value: T) | Raises(reason: string) | Interrupted

  /** The guarded work, seen from outside: its steps, then how it ends. */
  datatype Work<T> = Work(steps: seq<Step>, ending: Ending<T>)

  /** The operations the steps register, in order. */
  function Registered(steps: seq<Step>): (ops: seq<Op>)
    ensures |ops| <= |steps|
    ensures forall op :: op in ops <==> Register(op) in steps
  {
    if steps == [] then []
    else
      var last := steps[|steps| - 1];
      Registered(steps[..|steps| - 1]) + (if last.Register? then [last.op] else [])
  }

  /** The protected files after the steps' own writes. */
  function Overwritten(steps: seq<Step>, files: Files): (r: Files)
    ensures r.Keys == files.Keys + set s | s in steps && s.Overwrite? :: s.path
  {
    if steps == [] then files
    else
      var last := steps[|steps| - 1];
      var before := Overwritten(steps[..|steps| - 1], files);
      if last.Overwrite? then before[last.path := last.content] else before
  }

  /** The wrapper around `work`, on the manager `tm` (the program's single
      global manager). A begin that fails propagates, leaving the manager as
      `begin_transaction` left it. Otherwise the work runs; a normal return
      commits, ignores commit's answer and hands back the work's value; a
      raise rolls back and re-raises, unless the rollback itself raised; an
      interruption passes through, leaving the transaction Active and its
      journal in place, as a crash would. */
  method WithTransaction<T>(tm: TransactionManager, work: Work<T>, stamp: string, now: string) returns (r: Result<T, Error>)
    requires tm.Valid()
    modifies tm, tm.disk
    ensures tm.Valid()
    ensures old(tm.currentId).Some? ==>
      && r == Err(StateConflict) && tm.currentId == old(tm.currentId) && tm.ops == old(tm.ops)
      && tm.disk.files == old(tm.disk.files) && tm.disk.journal == old(tm.disk.journal)
    ensures old(tm.currentId).None? && !tm.disk.writeFault.Healthy? ==>
      var id := "tx_" + stamp;
      && r == Err(JournalWriteFailed) && tm.currentId == Some(id) && tm.ops == []
      && tm.disk.files == old(tm.disk.files)
      && tm.disk.journal == AfterSave(old(tm.disk.journal), LogName(id), Snapshot(id, now, []), tm.disk.writeFault)
    ensures old(tm.currentId).None? && tm.disk.writeFault.Healthy? ==>
      var id := "tx_" + stamp;
      var name := LogName(id);
      var registered := Registered(work.steps);
      var worked := Overwritten(work.steps, old(tm.disk.files));
      var cleaned := name !in tm.disk.undeletable;
      && (!work.ending.Interrupted? ==>
            && (tm.currentId == None <==> cleaned)
            && (cleaned ==> tm.disk.journal == old(tm.disk.journal) - {name})
            && (!cleaned ==> tm.currentId == Some(id)))
      && match work.ending
         case Returns(v) =>
           && r == Ok(v) && tm.disk.files == worked
           && (!cleaned ==> tm.ops == MarkAllCompleted(registered)
                            && tm.disk.journal == old(tm.disk.journal)[name := Parsed(Snapshot(id, now, tm.ops))])
         case Raises(reason) =>
           && tm.disk.files == RollbackAll(registered, worked, tm.disk.unwritable).files
           && r == (if cleaned then Err(WorkFailed(reason)) else Err(JournalDeleteFailed))
           && (!cleaned ==> tm.ops == registered
                            && tm.disk.journal == old(tm.disk.journal)[name := Parsed(Snapshot(id, now, tm.ops))])
         case Interrupted =>
           && r == Err(WorkInterrupted) && tm.currentId == Some(id) && tm.ops == registered
           && tm.disk.files == worked
           && tm.disk.journal == old(tm.disk.journal)[name := Parsed(Snapshot(id, now, registered))]
  {
    var begun := tm.Begin(None, stamp, now);
    if begun.Err? {
      return Err(begun.error);
    }
    var id := begun.value;
    ghost var name := LogName(id);
    RunSteps(tm, work.steps, id, now);
    ghost var registered := tm.ops;
    ghost var mid := tm.disk.journal;
    assert mid == old(tm.disk.journal)[name := Parsed(Snapshot(id, now, registered))];
    assert mid - {name} == old(tm.disk.journal) - {name};
    ghost var marked := Parsed(Snapshot(id, now, MarkAllCompleted(registered)));
    assert mid[name := marked] == old(tm.disk.journal)[name := marked];
    r := Finish(tm, work.ending, id, now);
  }

  /** The guarded work's steps, run against the active transaction `id`:
      each registration goes through `add_operation`, each write hits the disk. */
  method RunSteps(tm: TransactionManager, steps: seq<Step>, id: string, now: string)
    requires tm.Valid() && tm.currentId == Some(id) && tm.ops == []
    requires tm.disk.writeFault.Healthy?
    requires LogName(id) in tm.disk.journal && tm.disk.journal[LogName(id)] == Parsed(Snapshot(id, now, []))
    modifies tm, tm.disk
    ensures tm.Valid() && tm.currentId == Some(id)
    ensures tm.ops == Registered(steps)
    ensures tm.disk.files == Overwritten(steps, old(tm.disk.files))
    ensures tm.disk.journal == old(tm.disk.journal)[LogName(id) := Parsed(Snapshot(id, now, tm.ops))]
  {
    var name := LogName(id);
    var i := 0;
    assert old(tm.disk.journal)[name := Parsed(Snapshot(id, now, []))] == old(tm.disk.journal);
    while i < |steps|
      invariant 0 <= i <= |steps|
      invariant tm.Valid() && tm.currentId == Some(id)
      invariant tm.ops == Registered(steps[..i])
      invariant tm.disk.files == Overwritten(steps[..i], old(tm.disk.files))
      invariant tm.disk.journal == old(tm.disk.journal)[name := Parsed(Snapshot(id, now, tm.ops))]
    {
      assert steps[..i + 1][..i] == steps[..i];
      RunStep(tm, steps[i], id, now);
      i := i + 1;
    }
    assert steps[..i] == steps;
  }

  /** One step of the guarded work. */
  method RunStep(tm: TransactionManager, step: Step, id: string, now: string)
    requires tm.Valid() && tm.currentId == Some(id) && tm.disk.writeFault.Healthy?
    requires LogName(id) in tm.disk.journal && tm.disk.journal[LogName(id)] == Parsed(Snapshot(id, now, tm.ops))
    modifies tm, tm.disk
    ensures tm.Valid() && tm.currentId == Some(id)
    ensures tm.ops == old(tm.ops) + (if step.Register? then [step.op] else [])
    ensures tm.disk.files == if step.Overwrite? then old(tm.disk.files)[step.path := step.content] else old(tm.disk.files)
    ensures tm.disk.journal == old(tm.disk.journal)[LogName(id) := Parsed(Snapshot(id, now, tm.ops))]
  {
    match step {
      case Register(op) =>
        var _ := tm.Add(op, now);
      case Overwrite(path, content) =>
        tm.disk.Write(path, content);
    }
  }

  /** How the wrapper ends the transaction `id` once the work is over: a
      normal return commits (its answer ignored) and hands back the value; a
      raise rolls back and re-raises, unless the rollback itself raised; an
      interruption passes through without touching anything. */
  method Finish<T>(tm: TransactionManager, ending: Ending<T>, id: string, now: string) returns (r: Result<T, Error>)
    requires tm.Valid() && tm.currentId == Some(id) && tm.disk.writeFault.Healthy?
    requires LogName(id) in tm.disk.journal
    modifies tm, tm.disk
    ensures tm.Valid()
    ensures var name := LogName(id);
      var cleaned := name !in tm.disk.undeletable;
      && (!ending.Interrupted? ==>
            && (tm.currentId == None <==> cleaned)
            && (cleaned ==> tm.disk.journal == old(tm.disk.journal) - {name})
            && (!cleaned ==> tm.currentId == Some(id)))
      && match ending
         case Returns(v) =>
           && r == Ok(v) && tm.disk.files == old(tm.disk.files)
           && (!cleaned ==> tm.ops == MarkAllCompleted(old(tm.ops))
                            && tm.disk.journal == old(tm.disk.journal)[name := Parsed(Snapshot(id, now, tm.ops))])
         case Raises(reason) =>
           && tm.disk.files == RollbackAll(old(tm.ops), old(tm.disk.files), tm.disk.unwritable).files
           && r == (if cleaned then Err(WorkFailed(reason)) else Err(JournalDeleteFailed))
           && (!cleaned ==> tm.ops == old(tm.ops) && tm.disk.journal == old(tm.disk.journal))
         case Interrupted =>
           && r == Err(WorkInterrupted) && tm.currentId == Some(id) && tm.ops == old(tm.ops)
           && tm.disk.files == old(tm.disk.files) && tm.disk.journal == old(tm.disk.journal)
  {
    match ending
    case Returns(v) =>
      var _ := tm.Commit(now);
      r := Ok(v);
    case Raises(reason) =>
      var undone := tm.Rollback();
      r := if undone.Err? then Err(undone.error) else Err(WorkFailed(reason));
    case Interrupted =>
      r := Err(WorkInterrupted);
  }
}
