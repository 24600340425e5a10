/** The recovery sweep over leftover journal files
    (`recover_incomplete_transactions`), as a function of the directory
    listing and the state it starts from. */
module Recovery {
  import opened Common
  import opened Operations
  import opened Journal
  import opened Restoration

  /** The state a sweep carries from one journal file to the next. */
  datatype Sweep = Sweep(recovered: seq<string>, files: Files, journal: map<string, Entry>)

  /** One journal file of the sweep. A file that is gone, does not decode or
      lacks a required key is skipped and left in place. Otherwise the
      record's incomplete operations are undone last-first (their outcomes
      ignored), the id is reported when there was anything to undo, and the
      file is unlinked; an unlink that fails leaves it in place, after the id
      has already been reported. */
  function RecoverOne(name: string, st: Sweep, unwritable: set<Path>, undeletable: set<string>, now: string): (r: Sweep)
    ensures name !in st.journal || !Readable(st.journal[name], now) ==> r == st
    ensures st.recovered <= r.recovered && |r.recovered| <= |st.recovered| + 1
    ensures st.files.Keys <= r.files.Keys
    ensures name in r.journal <==> name in st.journal && (!Readable(st.journal[name], now) || name in undeletable)
    ensures forall n :: n in r.journal ==> n in st.journal && r.journal[n] == st.journal[n]
    ensures forall n :: n != name && n in st.journal ==> n in r.journal
  {
    if name !in st.journal || !Readable(st.journal[name], now) then st
    else
      var rec := ParseRecord(st.journal[name].doc, now).value;
      var pending := Incomplete(rec.ops);
      Sweep(
        if pending == [] then st.recovered else st.recovered + [rec.id],
        RollbackAll(pending, st.files, unwritable).files,
        if name in undeletable then st.journal else st.journal - {name})
  }

  /** The whole sweep, file by file in listing order. */
  function RecoverFrom(listing: seq<string>, st: Sweep, unwritable: set<Path>, undeletable: set<string>, now: string): (r: Sweep)
    ensures |r.recovered| <= |st.recovered| + |listing|
    ensures st.recovered <= r.recovered
    decreases |listing|
  {
    if listing == [] then st
    else RecoverFrom(listing[1..], RecoverOne(listing[0], st, unwritable, undeletable, now), unwritable, undeletable, now)
  }

  /** A journal the manager wrote is recovered by undoing exactly its
      incomplete operations, last-first; its id is reported exactly when
      there were some; the file goes unless it cannot be unlinked. */
  lemma RecoverSnapshot(name: string, id: string, start: string, ops: seq<Op>, st: Sweep,
                        unwritable: set<Path>, undeletable: set<string>, now: string)
    requires name in st.journal && st.journal[name] == Parsed(Snapshot(id, start, ops))
    ensures var r := RecoverOne(name, st, unwritable, undeletable, now);
      && r.files == RollbackAll(Incomplete(ops), st.files, unwritable).files
      && r.recovered == st.recovered + (if Incomplete(ops) == [] then [] else [id])
      && r.journal == (if name in undeletable then st.journal else st.journal - {name})
  {
    SnapshotRoundTrip(id, start, ops, now);
  }

  /** A crash between the last `add_operation` and commit or rollback: the
      recovery sweep undoes every registered operation, in the same order and
      with the same effect as `rollback_transaction` would have. */
  lemma CrashedRecordRolledBack(name: string, id: string, start: string, ops: seq<Op>, st: Sweep,
                                unwritable: set<Path>, undeletable: set<string>, now: string)
    requires name in st.journal && st.journal[name] == Parsed(Snapshot(id, start, ops))
    requires forall i :: 0 <= i < |ops| ==> !ops[i].completed
    ensures var r := RecoverOne(name, st, unwritable, undeletable, now);
      && r.files == RollbackAll(ops, st.files, unwritable).files
      && r.recovered == st.recovered + (if ops == [] then [] else [id])
      && r.journal == (if name in undeletable then st.journal else st.journal - {name})
  {
    RecoverSnapshot(name, id, start, ops, st, unwritable, undeletable, now);
    FreshOpsAllIncomplete(ops);
  }

  /** A crash between commit's final save and its unlink: the record is
      discarded without restoring anything and is not reported. */
  lemma CommittedRecordDiscarded(name: string, id: string, start: string, ops: seq<Op>, st: Sweep,
                                 unwritable: set<Path>, undeletable: set<string>, now: string)
    requires name in st.journal && st.journal[name] == Parsed(Snapshot(id, start, MarkAllCompleted(ops)))
    ensures var r := RecoverOne(name, st, unwritable, undeletable, now);
      && r.files == st.files
      && r.recovered == st.recovered
      && r.journal == (if name in undeletable then st.journal else st.journal - {name})
  {
    RecoverSnapshot(name, id, start, MarkAllCompleted(ops), st, unwritable, undeletable, now);
    CompletedOpsNeedNoUndo(MarkAllCompleted(ops));
  }

  /** The sweep never creates or rewrites a journal file; it only removes. */
  lemma {:induction false} SweepOnlyRemoves(listing: seq<string>, st: Sweep, unwritable: set<Path>, undeletable: set<string>, now: string, n: string)
    requires n in RecoverFrom(listing, st, unwritable, undeletable, now).journal
    ensures n in st.journal
    ensures RecoverFrom(listing, st, unwritable, undeletable, now).journal[n] == st.journal[n]
    decreases |listing|
  {
    if listing != [] {
      SweepOnlyRemoves(listing[1..], RecoverOne(listing[0], st, unwritable, undeletable, now), unwritable, undeletable, now, n);
    }
  }

  /** Files the sweep must leave alone stay as they were: those not listed,
      those it cannot read (kept for manual inspection), and those it cannot
      unlink. Later files are processed regardless. */
  lemma {:induction false} SweepKeeps(listing: seq<string>, st: Sweep, unwritable: set<Path>, undeletable: set<string>, now: string, n: string)
    requires n in st.journal
    requires n !in listing || !Readable(st.journal[n], now) || n in undeletable
    ensures n in RecoverFrom(listing, st, unwritable, undeletable, now).journal
    ensures RecoverFrom(listing, st, unwritable, undeletable, now).journal[n] == st.journal[n]
    decreases |listing|
  {
    if listing != [] {
      var next := RecoverOne(listing[0], st, unwritable, undeletable, now);
      assert n in next.journal && next.journal[n] == st.journal[n];
      SweepKeeps(listing[1..], next, unwritable, undeletable, now, n);
    }
  }

  /** Every listed file the sweep can read and unlink is gone afterwards. */
  lemma {:induction false} SweepRemovesReadable(listing: seq<string>, st: Sweep, unwritable: set<Path>, undeletable: set<string>, now: string, n: string)
    requires n in listing && n in st.journal && Readable(st.journal[n], now) && n !in undeletable
    ensures n !in RecoverFrom(listing, st, unwritable, undeletable, now).journal
    decreases |listing|
  {
    var next := RecoverOne(listing[0], st, unwritable, undeletable, now);
    if listing[0] == n {
      if n in RecoverFrom(listing[1..], next, unwritable, undeletable, now).journal {
        SweepOnlyRemoves(listing[1..], next, unwritable, undeletable, now, n);
      }
    } else {
      assert n in next.journal && next.journal[n] == st.journal[n];
      SweepRemovesReadable(listing[1..], next, unwritable, undeletable, now, n);
    }
  }
}
