# Transaction manager of the Augment VIP cleaner, modelled in Dafny

The cleaner changes editor databases and configuration files. Before each
change it registers the change with a transaction manager
(`scripts/common/transaction_manager.py`), which protects it:

- Every registered operation names a target file and, usually, a backup copy.
- The manager mirrors the active transaction into a JSON journal file
  `<id>.json` in its journal directory, rewriting it after every change.
- Rollback copies the backups back over the targets, last-registered first.
- A recovery sweep, `recover_incomplete_transactions`, goes through every
  readable journal file in the directory. It undoes that file's
  not-yet-completed operations, last first, then deletes the file.
  Unreadable journal files are left in place. Nothing in the repository
  calls the sweep; the module-level forwarder `recover_transactions` is
  not called either.

This project models that manager:

- `Operations` (`operations.dfy`): one registered operation
  (`TransactionOperation`) and its dictionary form, as written to and read
  back from the journal.
- `Journal` (`journal.dfy`): the journal record, its file name, and what one
  write does to the journal directory, including a write that fails halfway.
- `Restoration` (`restoration.dfy`): `_rollback_operation` and the
  reverse-order rollback loop, as functions.
- `Recovery` (`recovery.dfy`): `recover_incomplete_transactions`, as a
  function of the directory listing.
- `FileSystem` (`disk.dfy`): the disk as a class.
  - Its mutable fields are the protected files and the journal directory.
  - Fixed fault sets say which copies, journal writes and unlinks fail.
- `Transactions` (`manager.dfy`): the `TransactionManager` class. Each method
  is proved against the functions above.
- `Scoped` (`scoped.dfy`): the `with_transaction` wrapper.
- `Scenarios` (`scenarios.dfy`): concrete runs, each proved from the contracts
  alone. One is the repository's rollback integration test.

Python exceptions are modelled as `Result` values carrying an `Error`. A
`RuntimeError` for a state conflict becomes `StateConflict`. A failed journal
write or unlink becomes `JournalWriteFailed` or `JournalDeleteFailed`.

Behaviours of the code a caller may not expect, all of which the model
keeps (lines of `scripts/common/transaction_manager.py`):

- A failed commit leaves the manager Active, with its operations already
  marked completed: the exception skips lines 136-137.
- A failed journal write in `begin_transaction` leaves the manager Active:
  the state is set at lines 93-94, before the save at line 97.
- An unlink that fails during rollback raises, and leaves the manager Active
  with the files already restored (lines 161-166).
- Rollback deletes the journal without rewriting it first (lines 160-163).
- The recovery sweep ignores the manager's own state (lines 229-257). It
  also sweeps the active transaction's journal.
- The recovery sweep reports an id before it tries to unlink the journal
  (lines 248-251). An id can therefore be reported while its file stays in
  place.
- Every save re-stamps `start_time` with the time of that save (line 210).
- The journal write is not atomic (lines 215-216). A write that fails after
  opening leaves an unreadable file behind.
- An empty transaction id counts as no id (lines 86, 89 and 205), because
  Python treats `""` as false.

## Model

| member | source | states |
|---|---|---|
| Operations.NewOp | scripts/common/transaction_manager.py:18-34 | A new operation is not completed and is stamped with the clock reading. It keeps the given type, target, backup and metadata. Missing metadata becomes the empty map. |
| Operations.ToDict | scripts/common/transaction_manager.py:36-45 | The dictionary has all six keys. |
| Operations.FromDict | scripts/common/transaction_manager.py:47-58 | An operation is produced iff `operation_type` and `target_path` are both present; otherwise it is the KeyError path. The operation takes its type and target from those keys. Each optional key that is present is kept. A missing backup path, metadata, timestamp or completed flag falls back to None, `{}`, the current time and false. |
| Operations.DictRoundTrip | scripts/common/transaction_manager.py:36-58 | `from_dict(to_dict(op))` gives back the same operation, its completion flag included. |
| Operations.ToDicts | scripts/common/transaction_manager.py:211 | One dictionary per operation, in order. Each carries its operation's type, target and completion flag. |
| Operations.ParseOps | scripts/common/transaction_manager.py:237-238 | The operation list is unreadable iff one of its entries is. A readable list has the same length and holds `from_dict` of each entry, position by position. |
| Operations.OpsRoundTrip | scripts/common/transaction_manager.py:208-238 | Reading back a written operation list gives the same list. |
| Operations.MarkAllCompleted | scripts/common/transaction_manager.py:125-127 | Every operation is completed. The length is unchanged, and each operation is otherwise unchanged. |
| Operations.Incomplete | scripts/common/transaction_manager.py:241 | An operation is kept iff it is in the list and not completed. Every kept operation is incomplete. The result is no longer than the input. |
| Operations.IncompleteConcat | scripts/common/transaction_manager.py:241 | Filtering a concatenation gives the concatenation of the filtered parts. Together with `IncompleteOne`, this fixes the kept operations' order and multiplicity: the order the last-first undo at line 245 depends on. |
| Operations.IncompleteOne | scripts/common/transaction_manager.py:241 | A single operation is kept exactly when it is not completed. |
| Operations.CompletedOpsNeedNoUndo | scripts/common/transaction_manager.py:241-243 | When every operation is completed, nothing is left to undo. |
| Operations.FreshOpsAllIncomplete | scripts/common/transaction_manager.py:241 | When no operation is completed, all of them are undone, in order. |
| Journal.LogName | scripts/common/transaction_manager.py:218-220 | The journal name matches `*.json` and starts with the id. Ids are taken to be plain file names (see "Left out"). |
| Journal.LogNameInjective | scripts/common/transaction_manager.py:218-220 | Two ids spelled differently never give the same journal name. Each file is taken to have one spelling (see "Left out"). |
| Journal.Snapshot | scripts/common/transaction_manager.py:208-212 | The record carries the transaction id, the start time of this save, and one operation entry per registered operation. |
| Journal.ParseRecord | scripts/common/transaction_manager.py:233-238 | A record is read iff `transaction_id` and `operations` are present and every operation parses. The id read is the stored one. The operations read are `from_dict` of the stored entries, in order. |
| Journal.SnapshotRoundTrip | scripts/common/transaction_manager.py:203-238 | The recovery scan reads back exactly the id and operations the last save wrote. |
| Journal.AfterSave | scripts/common/transaction_manager.py:214-216 | A healthy write stores the record. A failed open changes nothing. A failed dump leaves an unreadable file. Other journal files are untouched. |
| Restoration.Copy2 | scripts/common/transaction_manager.py:184 | The copy succeeds iff the source exists, is spelled differently from the destination and the destination is writable. Success overwrites only the destination; failure changes nothing. |
| Restoration.RestoreOp | scripts/common/transaction_manager.py:170-201 | Undoing an operation succeeds iff its type is known, its backup is named and exists, and the copy can be made. Success writes the backup's content to the target; failure changes nothing. |
| Restoration.RollbackAll | scripts/common/transaction_manager.py:153-158 | Undoing a list of operations never removes a file. |
| Restoration.RollbackFrame | scripts/common/transaction_manager.py:155-158 | A path that no operation targets keeps its content. |
| Restoration.StepKeepsRestorable | scripts/common/transaction_manager.py:170-201 | Undoing one operation whose target is nobody's backup keeps every other operation's restorability and backup contents. |
| Restoration.RollbackOkOnlyIfRestorable | scripts/common/transaction_manager.py:153-168 | If no target is a backup, a successful rollback means every operation was restorable on the original files. |
| Restoration.RollbackOkIfRestorable | scripts/common/transaction_manager.py:153-168 | If every operation is restorable on the original files, rollback reports success. This holds for every list, including lists where a target is another operation's backup. |
| Restoration.RollbackLeavesUnrestorable | scripts/common/transaction_manager.py:155-158 | If no target is a backup, a path with no restorable operation is left as it was. |
| Restoration.RollbackEarliestWins | scripts/common/transaction_manager.py:155-158 | If no target is a backup, each target ends up holding the backup of its earliest-registered restorable operation. |
| Recovery.RecoverOne | scripts/common/transaction_manager.py:232-255 | A missing or unreadable journal changes nothing. Otherwise at most one id is reported, no file is removed, and only this journal file may go: it goes iff it can be unlinked. Every other journal file stays as it was. |
| Recovery.RecoverFrom | scripts/common/transaction_manager.py:229-257 | Ids already reported stay as a prefix. At most one id is added per listed file. |
| Recovery.RecoverSnapshot | scripts/common/transaction_manager.py:232-251 | For a journal the manager wrote, the sweep undoes exactly its incomplete operations, last first. It reports the id iff there were any. It removes the file unless the unlink fails. |
| Recovery.CrashedRecordRolledBack | scripts/common/transaction_manager.py:222-257 | After a crash before commit, the sweep has the same effect on the files as `rollback_transaction`. It reports the id iff the transaction had registered operations, so an empty one is not reported. The journal file is removed unless it cannot be unlinked. |
| Recovery.CommittedRecordDiscarded | scripts/common/transaction_manager.py:240-251 | A journal whose operations are all completed restores nothing and reports nothing. The file is removed unless it cannot be unlinked. |
| Recovery.SweepOnlyRemoves | scripts/common/transaction_manager.py:229-257 | The sweep never creates or rewrites a journal file. |
| Recovery.SweepKeeps | scripts/common/transaction_manager.py:253-255 | A journal file that is unlisted, unreadable or cannot be unlinked stays as it was. |
| Recovery.SweepRemovesReadable | scripts/common/transaction_manager.py:250-251 | A listed journal file that is readable and can be unlinked is gone afterwards. |
| FileSystem.Disk.Copy | scripts/common/transaction_manager.py:184 | The disk copy matches `Copy2`. The journal is untouched. |
| FileSystem.Disk.Backup | scripts/cross-platform/augment_vip/utils.py:114-131 | A missing file is refused and nothing changes. Otherwise `<path>.backup` receives a copy of the file, and that path is returned iff the copy succeeded. |
| FileSystem.Disk.WriteJournal | scripts/common/transaction_manager.py:214-216 | It succeeds iff the disk is healthy. The journal becomes `AfterSave`, and the files are untouched. |
| FileSystem.Disk.Unlink | scripts/common/transaction_manager.py:133-134 | It succeeds iff the file exists and can be deleted. Only then does it remove exactly that file. |
| Transactions.ChooseId | scripts/common/transaction_manager.py:89-91 | A non-empty requested id is kept. Otherwise the id is `tx_` followed by the time stamp. The id is never empty. |
| Transactions.TransactionManager.constructor | scripts/common/transaction_manager.py:71-74 | A new manager is Idle with no operations. |
| Transactions.TransactionManager.SaveLog | scripts/common/transaction_manager.py:203-216 | When Idle, nothing happens. When Active, the journal file is rewritten with the id, the current time and all operations. It fails iff the write fails. |
| Transactions.TransactionManager.Begin | scripts/common/transaction_manager.py:76-99 | It is refused while Active and nothing changes. Otherwise the manager is Active under the chosen id with no operations, the journal is written, and the id is returned unless the write failed. |
| Transactions.TransactionManager.Add | scripts/common/transaction_manager.py:101-112 | It is refused while Idle (`RuntimeError`). Otherwise the operation is appended and the journal is rewritten with the whole list. |
| Transactions.TransactionManager.Commit | scripts/common/transaction_manager.py:114-141 | It is refused while Idle. Otherwise every operation is marked completed and saved. It returns true and goes Idle iff both the save and the unlink succeed; then the journal file is gone. Otherwise it returns false and stays Active with the marked operations. |
| Transactions.TransactionManager.RollbackOperation | scripts/common/transaction_manager.py:170-201 | The files and the result are exactly `RestoreOp`'s. |
| Transactions.TransactionManager.RestoreReversed | scripts/common/transaction_manager.py:155-158 | Every operation is attempted, last first. The files and overall success are exactly `RollbackAll`'s. |
| Transactions.TransactionManager.Rollback | scripts/common/transaction_manager.py:143-168 | It is refused while Idle. Otherwise the files become `RollbackAll` of the operations. It goes Idle and reports overall success, unless the unlink fails; then it raises and stays Active. |
| Transactions.TransactionManager.Recover | scripts/common/transaction_manager.py:222-257 | The reported ids, files and journal directory are exactly those of `RecoverFrom` over the listing. |
| Scoped.WithTransaction | scripts/common/transaction_manager.py:277-299 | A begin refused while Active changes nothing. A begin whose journal write fails propagates, leaving the manager Active with no operations and the journal as that write left it. Otherwise the work runs. On a normal return the work's value is returned and its writes stay. On a raise the registered operations are rolled back over the work's writes and the error is re-raised, unless the rollback's unlink raised instead. The manager goes Idle and the journal file goes iff it can be unlinked. If it cannot, the manager stays Active, and the journal keeps the last snapshot: the marked operations after a commit, the registered ones after a rollback. An interruption outside `Exception` (`KeyboardInterrupt`, `SystemExit`) passes through line 295 uncaught: the manager stays Active with the registered operations, the work's writes stay, and the journal is left as a crash leaves it. |
| Scoped.RunSteps | scripts/common/transaction_manager.py:291-292 | While the work runs, its operations are registered in order, the journal mirrors them and its writes reach the disk. |
| Scoped.RunStep | scripts/common/transaction_manager.py:292 | One step: a registration appends its operation and rewrites the journal; a write changes only its file. |
| Scoped.Finish | scripts/common/transaction_manager.py:291-297 | A normal return commits and hands back the value, leaving the files as they are. A raise rolls back and re-raises, or raises the rollback's own error. The journal goes and the manager turns Idle iff the unlink succeeds; otherwise the manager stays Active with the journal as commit or rollback left it. An interruption passes through and changes nothing. |
| Scenarios.RollbackRestoresOriginal | tests/test_integration.py:123-160 | Overwriting a backed-up file and rolling back restores its original content. It reports success and leaves no journal file. |
| Scenarios.CommitKeepsWrite | scripts/common/transaction_manager.py:114-141 | Committing keeps the new content, goes Idle and leaves no journal file. |
| Scenarios.CrashThenRecover | scripts/common/transaction_manager.py:222-257 | After a crash with two registered writes, a fresh manager's sweep restores both files, reports the transaction and removes its journal. |
| Scenarios.TwoOpCrashRecovered | scripts/common/transaction_manager.py:222-257 | The sweep result for that crashed journal: the id is reported, the file is removed and both targets hold their backups. |
| Scenarios.BothRestored | scripts/common/transaction_manager.py:155-158 | Rolling back two operations on different files restores both. |
| Scenarios.RecoverDuringActiveTransaction | scripts/common/transaction_manager.py:222-257 | A sweep run while a transaction is active undoes it and removes its journal, while the manager still believes it is Active. |

## Left out

- Real I/O is left out. The disk is two maps, the protected files and the
  journal directory, and JSON text is represented by the decoded dictionary.
  Encoding, indentation and JSON value types are not modelled: every field
  has the type the manager writes, and metadata values are strings.
- Clock readings are left out. `datetime.now()` and `datetime.utcnow()` are
  parameters (`stamp`, `now`).
- Directory order is left out. The order in which `glob("*.json")` lists the
  journal directory is a parameter (`listing`). Each listed name is one the
  `*.json` pattern matches.
- Faults are fixed per disk. Which copies, journal writes and unlinks fail is
  a constant of the disk, not something that varies from one call to the
  next. A failed `copy2` is modelled as changing nothing, so a partially
  written target is not modelled.
- The journal directory is assumed to exist. Its creation (`mkdir`) in
  `__init__` is not modelled.
- Object aliasing is left out. Operations are values, so the caller's own
  `TransactionOperation` objects are not modelled. In Python, the caller's
  objects are marked completed by commit too.
- Journal.LogName: ids are assumed to be plain file names. The source joins
  the id onto the journal directory with pathlib (line 220), so an id
  containing `/` puts its journal in a subdirectory. An absolute id puts it
  outside the directory. Either way, `glob("*.json")` (line 231) never lists
  that journal. The model keeps every journal in the one directory map.
- Journal.LogNameInjective: holds for journal names as strings. pathlib
  treats `x.json` and `./x.json` as one file, so ids such as `x` and `./x`
  share a journal in the source. The model assumes each file has one
  spelling.
- Restoration.Copy2: paths are compared as strings. `shutil.copy2`
  (line 184) also raises `SameFileError` for two spellings of one file, or
  for hard links to it. The model assumes each file has one spelling, so
  those cases are not modelled.
- Scoped.WithTransaction: the global singleton (`get_transaction_manager`)
  and the module-level forwarders (lines 260-326) are not modelled. The
  manager is passed in instead.
- Scoped.WithTransaction: an `add_operation` failure inside the guarded work
  is not modelled. With a fixed fault and a successful begin, the add cannot
  fail.
- Scoped.WithTransaction: the guarded work is modelled as a fixed list of
  registrations and writes followed by a return or a raise. Arbitrary code
  is not modelled.
- FileSystem.Disk.Backup: `sys.exit(1)` on a missing file is modelled as
  `None` with no change. A `copy2` that raises is also modelled as `None`.
  The printed messages are left out.
