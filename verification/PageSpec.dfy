/**
  The copy-on-write page engine of src/memory.c as functions on values: the record kept for each
  page, the hooks that the fault and unmap paths call, and the walk over the dirty list that
  puts memory back.
 */
module PageSpec {
  import opened Basics
  import opened Kernel

  /** The SNAPSHOT_PRIVATE, SNAPSHOT_COW and SNAPSHOT_NONE_PTE bits; setters only ever add one. */
  datatype Prot = Prot(isPrivate: bool, isCow: bool, isNonePte: bool)

  /** One `struct snapshot_page`. */
  datatype Rec = Rec(prot: Prot, data: Option<Content>, copied: bool, hadPte: bool, dirty: bool, inList: bool)

  /** The page part of a `struct snapshot`: `ss_pages`, `dirty_pages` and `snapshotted_vmas`. */
  datatype Snap = Snap(records: map<nat, Rec>, dirtyList: seq<nat>, areas: seq<Area>)

  datatype State = State(mem: Mem, snap: Snap)

  // ---- Taking the snapshot ------------------------------------------------------------------

  function Put(snap: Snap, p: nat, r: Rec): Snap {
    Snap(snap.records[p := r], snap.dirtyList, snap.areas)
  }

  /** `list_add_tail` on the dirty list. */
  function Append(snap: Snap, p: nat): Snap {
    Snap(snap.records, snap.dirtyList + [p], snap.areas)
  }

  /** A reused record keeps its buffer; everything else starts afresh. */
  function AddedRec(snap: Snap, p: nat, prot: Prot, hadPte: bool): Rec {
    Rec(prot, if p in snap.records then snap.records[p].data else None, false, hadPte, false, false)
  }

  function MakePage(st: State, p: nat): State {
    if p !in st.mem.ptes then
      State(st.mem, Put(st.snap, p, AddedRec(st.snap, p, Prot(false, false, true), false)))
    else if st.mem.ptes[p].writable then
      State(WriteProtect(st.mem, p), Put(st.snap, p, AddedRec(st.snap, p, Prot(true, false, false), true)))
    else
      State(st.mem, Put(st.snap, p, AddedRec(st.snap, p, Prot(false, true, false), true)))
  }

  function MakePages(st: State, pages: seq<nat>): State
    decreases |pages|
  {
    if pages == [] then st else MakePages(MakePage(st, pages[0]), pages[1..])
  }

  // ---- Hooks --------------------------------------------------------------------------------

  /** Whether `record_dirty_page` returns the record rather than NULL. */
  predicate Records(snap: Snap, p: nat) {
    p in snap.records && !snap.records[p].dirty && !snap.records[p].prot.isNonePte
  }

  /** The record once dirty: the take-time content is copied out the first time only. */
  function DirtyRec(r: Rec, c: Content): Rec {
    Rec(r.prot, if r.copied then r.data else Some(c), true, r.hadPte, true, true)
  }

  /** `record_dirty_page`, where `c` is what the entry's frame holds. */
  function RecordDirty(snap: Snap, p: nat, c: Content): Snap {
    if !Records(snap, p) then snap
    else
      var put := Put(snap, p, DirtyRec(snap.records[p], c));
      if snap.records[p].inList then put else Append(put, p)
  }

  /** The write-protect fault hook handles the fault itself exactly for a newly dirty private page. */
  predicate WpHandles(snap: Snap, p: nat) {
    Records(snap, p) && snap.records[p].prot.isPrivate
  }

  function WpHook(st: State, p: nat): State {
    State(if WpHandles(st.snap, p) then MakeWritable(st.mem, p) else st.mem,
          RecordDirty(st.snap, p, Contents(st.mem, p)))
  }

  /** The record that the hook on fresh anonymous frames finds, or creates on demand. */
  function RmapRec(snap: Snap, p: nat): Rec {
    if p in snap.records then snap.records[p] else Rec(Prot(false, false, true), None, false, false, false, false)
  }

  /** The hook on attaching a fresh anonymous frame to `p`. */
  function RmapHook(snap: Snap, p: nat): Snap {
    if p !in snap.records && !InAreas(snap.areas, p) then snap
    else
      var r := RmapRec(snap, p);
      var put := Put(snap, p, Rec(r.prot, r.data, r.copied, true, r.dirty, r.inList || r.prot.isNonePte));
      if r.prot.isNonePte && !r.inList then Append(put, p) else put
  }

  /** The unmap hook: every entry the page walk meets is offered to `record_dirty_page`. */
  function UnmapHook(st: State, visited: seq<nat>): State
    decreases |visited|
  {
    if visited == [] then st
    else UnmapHook(State(st.mem, RecordDirty(st.snap, visited[0], Contents(st.mem, visited[0]))), visited[1..])
  }

  // ---- What the process and the kernel do ----------------------------------------------------

  /** Makes `p` writable the way a store to it does, running the hooks on the way. */
  function WriteFault(st: State, p: nat, reuse: bool): State {
    if p !in st.mem.ptes then
      State(CowFault(st.mem, p), RmapHook(st.snap, p))
    else if st.mem.ptes[p].writable then
      st
    else if WpHandles(st.snap, p) then
      WpHook(st, p)
    else
      // The original handler: it may keep an exclusively owned frame, and copies any other.
      var hooked := WpHook(st, p);
      if reuse && Exclusive(st.mem, p) then State(MakeWritable(hooked.mem, p), hooked.snap)
      else State(CowFault(hooked.mem, p), RmapHook(hooked.snap, p))
  }

  /** A store of `c` to page `p`, by the process or by `copy_to_user`; an unmapped page refuses it. */
  function Write(st: State, p: nat, c: Content, reuse: bool): State {
    if p !in st.mem.mapped then st
    else
      var ready := WriteFault(st, p, reuse);
      State(Store(ready.mem, p, c), ready.snap)
  }

  function Read(st: State, p: nat): State {
    if p in st.mem.mapped && p !in st.mem.ptes then State(MapBacking(st.mem, p), st.snap) else st
  }

  function Munmap(st: State, lo: nat, hi: nat, visited: seq<nat>): State {
    var hooked := UnmapHook(st, visited);
    State(UnmapRange(hooked.mem, lo, hi), hooked.snap)
  }

  function Mmap(st: State, lo: nat, hi: nat, files: map<nat, nat>): State {
    State(MapPages(st.mem, Range(lo, hi), files), st.snap)
  }

  // ---- Recovering ----------------------------------------------------------------------------

  /** The end of each iteration of the recovery loop: `r` becomes the record of `p`, off the list. */
  function Unlist(snap: Snap, p: nat, prot: Prot, hadPte: bool, dirty: bool): Snap
    requires p in snap.records
  {
    Snap(snap.records[p := Rec(prot, snap.records[p].data, snap.records[p].copied, hadPte, dirty, false)],
         Without(snap.dirtyList, p), snap.areas)
  }

  function SavedCopy(r: Rec): Content {
    if r.data.Some? then r.data.value else ZERO_PAGE
  }

  /**
    What the kernel decides page by page: whether a store keeps an exclusively owned frame, and whether the
    page table of a page that is not mapped has gone with the last area in it.
   */
  datatype Choices = Choices(reuse: set<nat>, gone: set<nat>)

  /** The page table of `p` is gone, so that `walk_page_table` finds no entry to protect. */
  predicate TableGone(m: Mem, p: nat, choices: Choices) {
    p in choices.gone && p !in m.ptes
  }

  /** One iteration of the loop over the dirty list. */
  function RecoverPage(st: State, p: nat, choices: Choices): State
    requires p in st.snap.records
  {
    var r := st.snap.records[p];
    if r.dirty && r.copied then
      var back := Write(st, p, SavedCopy(r), p in choices.reuse);
      if TableGone(back.mem, p, choices) then
        // The early `continue`: the page is clean now, but stays on the list and as it was protected.
        State(back.mem, Put(back.snap, p, Rec(r.prot, r.data, r.copied, true, false, r.inList)))
      else
        State(WriteProtect(back.mem, p), Unlist(back.snap, p, Prot(true, r.prot.isCow, r.prot.isNonePte), true, false))
    else if !r.prot.isPrivate && r.prot.isNonePte && r.hadPte then
      State(Zap(st.mem, p), Unlist(st.snap, p, r.prot, false, r.dirty))
    else
      State(st.mem, Unlist(st.snap, p, r.prot, r.hadPte, r.dirty))
  }

  function RecoverPages(st: State, pages: seq<nat>, choices: Choices): State
    decreases |pages|
  {
    if pages == [] then st
    else if pages[0] !in st.snap.records then RecoverPages(st, pages[1..], choices)
    else RecoverPages(RecoverPage(st, pages[0], choices), pages[1..], choices)
  }
}
