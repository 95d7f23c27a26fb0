/**
  The open-file snapshot of src/files.c on values: reference-counted descriptor tables shared by
  threads, and file positions shared by descriptors.
 */
module FilesSpec {
  const ESPIPE := -29
  const EINVAL := -22
  const ENOMEM := -12

  /** How a file answers a seek: not at all, up to a largest position, or by stopping at one. */
  datatype Kind = NoSeek | Seeks(max: nat) | Clamps(max: nat)

  /** One open file description; descriptors that share it share its position. */
  datatype File = File(pos: nat, kind: Kind)

  /** One `struct files_struct`; `external` are references held outside this process. */
  datatype Table = Table(fds: map<nat, nat>, maxFds: nat, count: nat, external: nat)

  /** The tables by identity, the table of each thread, which thread is current, and all open files. */
  datatype Process = Process(tables: map<nat, Table>, threads: seq<nat>, current: nat, files: map<nat, File>)

  /** `open_files_snapshot`: both pointers, or neither. */
  datatype FilesSnap = NoFiles | Files(table: nat, offsets: seq<int>)

  // ---- Kernel calls -----------------------------------------------------------------------------------

  /** `vfs_llseek(file, 0, SEEK_CUR)`. */
  function Tell(f: File): int {
    if f.kind.NoSeek? then ESPIPE else f.pos
  }

  /** `vfs_llseek(file, offset, SEEK_SET)`: the result, and the file afterwards. */
  function SeekTo(f: File, offset: nat): (int, File) {
    match f.kind
    case NoSeek => (ESPIPE, f)
    case Seeks(max) => if offset <= max then (offset, File(offset, f.kind)) else (EINVAL, f)
    case Clamps(max) => if offset <= max then (offset, File(offset, f.kind)) else (max, File(max, f.kind))
  }

  /** `dup_fd`: a new table with one reference and the same open files. */
  function DupTable(t: Table, maxFds: nat): Table {
    Table(t.fds, maxFds, 1, 0)
  }

  /** `put_files_struct`: the table goes with its last reference. */
  function PutTable(tables: map<nat, Table>, id: nat): map<nat, Table> {
    if id !in tables then tables
    else if tables[id].count <= 1 then tables - {id}
    else tables[id := Table(tables[id].fds, tables[id].maxFds, tables[id].count - 1, tables[id].external)]
  }

  function GetTable(tables: map<nat, Table>, id: nat): map<nat, Table> {
    if id !in tables then tables
    else tables[id := Table(tables[id].fds, tables[id].maxFds, tables[id].count + 1, tables[id].external)]
  }

  // ---- The reference counts ------------------------------------------------------------------------------

  function SnapRefs(snap: FilesSnap): multiset<nat> {
    if snap.Files? then multiset{snap.table} else multiset{}
  }

  /** Each table's count is the number of threads, snapshot slots and outside holders, and of `local` references. */
  ghost predicate CountsMatch(p: Process, snap: FilesSnap, local: multiset<nat>) {
    forall id :: id in p.tables ==>
      p.tables[id].count == multiset(p.threads)[id] + SnapRefs(snap)[id] + local[id] + p.tables[id].external
  }

  /** Everything referred to exists, and everything that exists is referred to. */
  ghost predicate Held(p: Process, snap: FilesSnap, local: multiset<nat>) {
    && (forall id :: id in p.tables ==> p.tables[id].count > 0)
    && (forall i :: 0 <= i < |p.threads| ==> p.threads[i] in p.tables)
    && (snap.Files? ==> snap.table in p.tables)
    && (forall id :: id in local ==> id in p.tables)
  }

  ghost predicate Counted(p: Process, snap: FilesSnap, local: multiset<nat>) {
    CountsMatch(p, snap, local) && Held(p, snap, local)
  }

  /** Open descriptors lie within their table, and name open files. */
  ghost predicate TablesOk(p: Process) {
    forall id, fd :: id in p.tables && fd in p.tables[id].fds ==>
      fd < p.tables[id].maxFds && p.tables[id].fds[fd] in p.files
  }

  /** The snapshot's table is its own: no thread has it, and nothing outside either. */
  ghost predicate SnapOwn(p: Process, snap: FilesSnap) {
    snap.Files? ==>
      && snap.table in p.tables && snap.table !in p.threads && p.tables[snap.table].external == 0
      && |snap.offsets| == p.tables[snap.table].maxFds
  }

  /** The offsets are one position for each file, whichever descriptor it was read through. */
  ghost predicate OffsetsAgree(fds: map<nat, nat>, offsets: seq<int>, at: map<nat, int>) {
    forall fd :: fd in fds ==> fd < |offsets| && fds[fd] in at && offsets[fd] == at[fds[fd]]
  }

  ghost predicate Inv(p: Process, snap: FilesSnap) {
    p.current < |p.threads| && Counted(p, snap, multiset{}) && TablesOk(p) && SnapOwn(p, snap)
  }

  lemma ThreadHolds(threads: seq<nat>, i: nat)
    requires i < |threads|
    ensures multiset(threads)[threads[i]] > 0
  {
    assert threads[i] in threads;
  }

  lemma SwitchThread(threads: seq<nat>, i: nat, id: nat)
    requires i < |threads|
    ensures forall t :: multiset(threads[i := id])[t]
                        == multiset(threads)[t] - (if t == threads[i] then 1 else 0) + (if t == id then 1 else 0)
  {
    ThreadHolds(threads, i);
    assert multiset(threads[i := id]) == multiset(threads) - multiset{threads[i]} + multiset{id};
  }

  // ---- Saving and restoring the positions -------------------------------------------------------------------

  /** The offsets array that `iterate_fd` with `save_file_offset` leaves: -1 where nothing is open. */
  function SavedOffsets(fds: map<nat, nat>, files: map<nat, File>, n: nat): (offsets: seq<int>)
    ensures |offsets| == n
  {
    if n == 0 then []
    else SavedOffsets(fds, files, n - 1)
         + [if n - 1 in fds && fds[n - 1] in files then Tell(files[fds[n - 1]]) else -1]
  }

  lemma {:induction false} SavedAt(fds: map<nat, nat>, files: map<nat, File>, n: nat, fd: nat)
    requires fd < n
    ensures SavedOffsets(fds, files, n)[fd] == if fd in fds && fds[fd] in files then Tell(files[fds[fd]]) else -1
  {
    if fd < n - 1 { SavedAt(fds, files, n - 1, fd); }
  }

  /** What was saved: the position of a file that has one, and otherwise nothing that a restore would seek to. */
  lemma SavedPosition(fds: map<nat, nat>, files: map<nat, File>, n: nat, fd: nat)
    requires fd < n
    ensures var saved := SavedOffsets(fds, files, n)[fd];
            if fd in fds && fds[fd] in files && !files[fds[fd]].kind.NoSeek? then saved == files[fds[fd]].pos else saved < 0
  {
    SavedAt(fds, files, n, fd);
  }

  /** `iterate_fd` with `restore_file_offset`, from descriptor `fd` on: the first error, and the files then. */
  function SeekAll(fds: map<nat, nat>, offsets: seq<int>, files: map<nat, File>, fd: nat, max: nat): (int, map<nat, File>)
    decreases max - fd
  {
    if fd >= max then (0, files)
    else if fd !in fds || fds[fd] !in files || fd >= |offsets| || offsets[fd] < 0 then
      SeekAll(fds, offsets, files, fd + 1, max)
    else
      var (res, file) := SeekTo(files[fds[fd]], offsets[fd]);
      var moved := files[fds[fd] := file];
      if res < 0 then (res, moved)
      else if res != offsets[fd] then (1, moved)
      else SeekAll(fds, offsets, moved, fd + 1, max)
  }

  /** Whether every saved position is still one that its file can be brought to. */
  ghost predicate Seekable(fds: map<nat, nat>, offsets: seq<int>, files: map<nat, File>, fd: nat, max: nat) {
    forall d :: fd <= d < max && d in fds && fds[d] in files && d < |offsets| && offsets[d] >= 0 ==>
      !files[fds[d]].kind.NoSeek? && offsets[d] <= files[fds[d]].kind.max
  }

  /**
    The seeks succeed iff every saved position can be reached; then every file is at the position saved
    for it, even one that several descriptors share, and no other file has moved.
   */
  lemma {:induction false} SeekAllOk(fds: map<nat, nat>, offsets: seq<int>, files: map<nat, File>, at: map<nat, int>, fd: nat, max: nat)
    requires OffsetsAgree(fds, offsets, at)
    ensures var (error, files') := SeekAll(fds, offsets, files, fd, max);
            && files'.Keys == files.Keys
            && (error == 0 <==> Seekable(fds, offsets, files, fd, max))
            && (forall f :: f in files ==> files'[f].kind == files[f].kind)
            && (forall f :: f in files && files'[f] != files[f] ==> exists d :: fd <= d < max && d in fds && fds[d] == f)
            && (forall f :: f in files && f in at && at[f] == files[f].pos && error == 0 ==> files'[f] == files[f])
            && (error == 0 ==> forall d :: fd <= d < max && d in fds && fds[d] in files && offsets[d] >= 0 ==>
                  files'[fds[d]].pos == offsets[d])
    decreases max - fd
  {
    if fd < max {
      if fd !in fds || fds[fd] !in files || fd >= |offsets| || offsets[fd] < 0 {
        SeekAllOk(fds, offsets, files, at, fd + 1, max);
      } else {
        var (res, file) := SeekTo(files[fds[fd]], offsets[fd]);
        var moved := files[fds[fd] := file];
        SeekAllOk(fds, offsets, moved, at, fd + 1, max);
        assert at[fds[fd]] == offsets[fd];
        assert fd <= fd < max && fds[fd] == fds[fd];
      }
    }
  }
}
