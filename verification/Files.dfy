/**
  src/files.c in its own form: the offsets array that is filled descriptor by descriptor, the loop
  that seeks the files back, and the loop that replaces the threads' tables.
 */
module Files {
  import opened Basics
  import opened FilesSpec
  import opened FilesTheorems

  class OpenFiles {
    var tables: map<nat, Table>
    var threads: seq<nat>
    var current: nat
    var files: map<nat, File>
    var snapTable: Option<nat>
    var offsets: array?<int>

    ghost function Abs(): Process
      reads this
    {
      Process(tables, threads, current, files)
    }

    ghost function Snapshot(): FilesSnap
      reads this, offsets
    {
      if snapTable.Some? && offsets != null then FilesSnap.Files(snapTable.value, offsets[..]) else NoFiles
    }

    constructor (p: Process)
      ensures Abs() == p && Snapshot() == NoFiles
    {
      tables, threads, current, files := p.tables, p.threads, p.current, p.files;
      snapTable, offsets := None, null;
    }

    /** `iterate_fd` with `save_file_offset`, over an array set to -1: every access is within the array. */
    method SaveOffsets(fds: map<nat, nat>, saved: array<int>)
      modifies saved
      ensures saved[..] == SavedOffsets(fds, files, saved.Length)
      ensures forall fd :: 0 <= fd < saved.Length ==>
                if fd in fds && fds[fd] in files && !files[fds[fd]].kind.NoSeek? then saved[fd] == files[fds[fd]].pos
                else saved[fd] < 0
    {
      for i := 0 to saved.Length
        invariant forall j :: 0 <= j < i ==> saved[j] == -1
      {
        saved[i] := -1;
      }
      for fd := 0 to saved.Length
        invariant saved[..fd] == SavedOffsets(fds, files, fd)
        invariant forall j :: fd <= j < saved.Length ==> saved[j] == -1
      {
        if fd in fds && fds[fd] in files {
          saved[fd] := Tell(files[fds[fd]]);
        }
        assert saved[..fd + 1] == saved[..fd] + [saved[fd]];
      }
      assert saved[..] == saved[..saved.Length];
      forall fd | 0 <= fd < saved.Length
        ensures if fd in fds && fds[fd] in files && !files[fds[fd]].kind.NoSeek? then saved[fd] == files[fds[fd]].pos
                else saved[fd] < 0
      {
        SavedPosition(fds, files, saved.Length, fd);
        assert saved[fd] == saved[..][fd];
      }
    }

    /** `take_files_snapshot`. */
    method TakeFilesSnapshot(fdsOption: bool, k: Choice) returns (error: int)
      requires Inv(Abs(), NoFiles) && Snapshot() == NoFiles && ChoiceOk(Abs(), k, CurrentTable(Abs()))
      modifies this
      ensures (Abs(), Snapshot(), error) == TakeFiles(old(Abs()), NoFiles, fdsOption, k)
    {
      if !fdsOption {
        snapTable, offsets := None, null;
        return 0;
      }
      if !k.dupOk { return ENOMEM; }
      var fds := tables[threads[current]].fds;
      tables := tables[k.newId := DupTable(tables[threads[current]], k.maxFds)];
      if !k.allocOk {
        tables := PutTable(tables, k.newId);
        return ENOMEM;
      }
      var saved := new int[k.maxFds];
      SaveOffsets(fds, saved);
      snapTable, offsets := Some(k.newId), saved;
      return 0;
    }

    /** `iterate_fd` with `restore_file_offset`: it stops at the first error, and every access is within the array. */
    method RestoreOffsets(fds: map<nat, nat>, max: nat) returns (error: int)
      requires offsets != null && forall fd :: fd in fds ==> fd < offsets.Length
      modifies this`files
      ensures (error, files) == SeekAll(fds, offsets[..], old(files), 0, max)
    {
      var fd := 0;
      while fd < max
        invariant 0 <= fd <= max
        invariant SeekAll(fds, offsets[..], files, fd, max) == SeekAll(fds, offsets[..], old(files), 0, max)
      {
        if fd in fds && fds[fd] in files && offsets[fd] >= 0 {
          var (res, file) := SeekTo(files[fds[fd]], offsets[fd]);
          files := files[fds[fd] := file];
          if res < 0 { return res; }
          if res != offsets[fd] { return 1; }
        }
        fd := fd + 1;
      }
      return 0;
    }

    /** The loop over the threads of the group. */
    method ReplaceTables(from: nat, to: nat)
      modifies this`tables, this`threads
      ensures Abs() == SwitchThreads(old(Abs()), from, to, 0)
    {
      var i := 0;
      while i < |threads|
        invariant 0 <= i <= |threads| && |threads| == |old(threads)|
        invariant SwitchThreads(Abs(), from, to, i) == SwitchThreads(old(Abs()), from, to, 0)
      {
        if threads[i] == from {
          if i != current { tables := GetTable(tables, to); }
          threads := threads[i := to];
          tables := PutTable(tables, from);
        }
        i := i + 1;
      }
    }

    /** `recover_files_snapshot`. */
    method RecoverFilesSnapshot(fdsOption: bool, k: Choice) returns (error: int)
      requires Inv(Abs(), Snapshot())
      requires Snapshot().Files? ==> ChoiceOk(Abs(), k, Snapshot().table)
      modifies this`tables, this`threads, this`files
      ensures (Abs(), error) == RecoverFiles(old(Abs()), old(Snapshot()), fdsOption, k)
      ensures Snapshot() == old(Snapshot())
    {
      if !fdsOption { return 0; }
      if snapTable.None? || offsets == null { return EINVAL; }
      if !k.dupOk { return ENOMEM; }
      var fds := tables[snapTable.value].fds;
      tables := tables[k.newId := DupTable(tables[snapTable.value], k.maxFds)];
      error := RestoreOffsets(fds, k.maxFds);
      if error != 0 {
        tables := PutTable(tables, k.newId);
      } else {
        ReplaceTables(threads[current], k.newId);
      }
    }

    /** `clean_files_snapshot`. */
    method CleanFilesSnapshot()
      requires Inv(Abs(), Snapshot())
      modifies this
      ensures Snapshot() == NoFiles && (old(Snapshot()).Files? ==> Abs() == CleanFiles(old(Abs()), old(Snapshot())))
    {
      if snapTable.Some? {
        tables := PutTable(tables, snapTable.value);
        snapTable := None;
      }
      offsets := null;
    }
  }
}
