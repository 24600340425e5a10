/** The file system the manager works against: the protected files, the
    journal directory, and which of its operations fail. */
module FileSystem {
  import opened Common
  import opened Journal
  import opened Restoration

  class Disk {
    /** The protected files (targets and their backups). */
    var files: Files
    /** The journal directory, by file name. */
    var journal: map<string, Entry>
    /** Targets `shutil.copy2` cannot write (permissions, missing parent). */
    const unwritable: set<Path>
    /** How writing a journal file behaves. */
    const writeFault: WriteFault
    /** Journal files that cannot be unlinked. */
    const undeletable: set<string>

    constructor (files: Files, journal: map<string, Entry>, unwritable: set<Path>, writeFault: WriteFault, undeletable: set<string>)
      ensures this.files == files && this.journal == journal
      ensures this.unwritable == unwritable && this.writeFault == writeFault && this.undeletable == undeletable
    {
      this.files := files;
      this.journal := journal;
      this.unwritable := unwritable;
      this.writeFault := writeFault;
      this.undeletable := undeletable;
    }

    /** A caller's own write to a protected file (the mutation a transaction guards). */
    method Write(path: Path, content: Content)
      modifies this
      ensures files == old(files)[path := content] && journal == old(journal)
    {
      files := files[path := content];
    }

    /** `shutil.copy2`. */
    method Copy(src: Path, dst: Path) returns (ok: bool)
      modifies this
      ensures Restored(ok, files) == Copy2(src, dst, old(files), unwritable)
      ensures journal == old(journal)
    {
      if src !in files || src == dst || dst in unwritable {
        ok := false;
      } else {
        files := files[dst := files[src]];
        ok := true;
      }
    }

    /** `utils.backup_file`: a missing file is refused; otherwise the file is
        copied next to itself with a `.backup` suffix. */
    method Backup(path: Path) returns (r: Option<Path>)
      modifies this
      ensures journal == old(journal)
      ensures path !in old(files) ==> r == None && files == old(files)
      ensures path in old(files) ==>
        var b := path + ".backup";
        && Restored(r.Some?, files) == Copy2(path, b, old(files), unwritable)
        && (r.Some? ==> r.value == b && files[b] == old(files)[path])
    {
      if path !in files {
        return None;
      }
      var b := path + ".backup";
      assert b != path by { assert |b| == |path| + 7; }
      var ok := Copy(path, b);
      r := if ok then Some(b) else None;
    }

    /** Opening a journal file for writing and dumping `doc` into it. */
    method WriteJournal(name: string, doc: RecordDict) returns (ok: bool)
      modifies this
      ensures ok == writeFault.Healthy?
      ensures journal == AfterSave(old(journal), name, doc, writeFault)
      ensures files == old(files)
    {
      match writeFault
      case Healthy =>
        journal := journal[name := Parsed(doc)];
        ok := true;
      case OpenFails =>
        ok := false;
      case DumpFails =>
        journal := journal[name := Corrupt];
        ok := false;
    }

    /** `Path.unlink` on a journal file; a missing file also raises. */
    method Unlink(name: string) returns (ok: bool)
      modifies this
      ensures ok <==> name in old(journal) && name !in undeletable
      ensures journal == if ok then old(journal) - {name} else old(journal)
      ensures files == old(files)
    {
      ok := name in journal && name !in undeletable;
      if ok {
        journal := journal - {name};
      }
    }
  }
}
