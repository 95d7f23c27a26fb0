/**
  What every step of the page engine keeps, and why it makes the incremental restore exact.
 */
module PageInvariant {
  import opened Basics
  import opened Kernel
  import opened PageSpec

  /** The memory as `take` found it, and the pages whose entries its walk reached. */
  datatype Origin = Origin(mem: Mem, reached: set<nat>)

  /** Pages whose content the snapshot answers for: of a selected area, and not blocked while present. */
  ghost predicate Tracked(o: Origin, areas: seq<Area>, p: nat) {
    InAreas(areas, p) && (p in o.mem.ptes ==> p in o.reached)
  }

  /** A record whose page had content of its own at the time of the snapshot. */
  ghost predicate SavedRecOk(m: Mem, o: Origin, p: nat, r: Rec) {
    && (r.prot.isPrivate || r.prot.isCow)
    && p in o.reached && p in o.mem.ptes
    && r.inList == r.dirty
    && (r.dirty ==> r.copied)
    && (r.copied ==> r.data == Some(Contents(o.mem, p)))
    && (!r.dirty ==> p in m.ptes && !m.ptes[p].writable && Contents(m, p) == Contents(o.mem, p))
    && (!r.dirty && r.prot.isPrivate ==> Exclusive(m, p))
  }

  /** A record whose page had no entry at the time of the snapshot. */
  ghost predicate EmptyRecOk(m: Mem, o: Origin, p: nat, r: Rec, tracked: bool) {
    && !r.dirty && !r.copied && !r.prot.isPrivate && !r.prot.isCow
    && r.hadPte == r.inList
    && (tracked ==> p !in o.mem.ptes && (!r.inList ==> Untouched(m, p)))
  }

  ghost predicate RecOk(st: State, o: Origin, p: nat)
    requires p in st.snap.records
  {
    var r := st.snap.records[p];
    && InAreas(st.snap.areas, p)
    && if r.prot.isNonePte then EmptyRecOk(st.mem, o, p, r, Tracked(o, st.snap.areas, p))
       else SavedRecOk(st.mem, o, p, r)
  }

  /** The list and the `in_dirty_list` flags agree, and no page is listed twice. */
  ghost predicate ListOk(snap: Snap) {
    && NoDup(snap.dirtyList)
    && (forall p :: p in snap.dirtyList <==> p in snap.records && snap.records[p].inList)
  }

  /** Nothing outside this page table ever sees a change. */
  ghost predicate ForeignKept(m: Mem, o: Origin) {
    && m.foreign == o.mem.foreign
    && |o.mem.frames| <= |m.frames|
    && (forall f :: f in m.foreign ==> f < |o.mem.frames| && m.frames[f] == o.mem.frames[f])
  }

  ghost predicate Inv(st: State, o: Origin) {
    && WellFormed(o.mem)
    && WellFormed(st.mem)
    && ForeignKept(st.mem, o)
    && ListOk(st.snap)
    && (forall p :: p in st.snap.records ==> RecOk(st, o, p))
    && (forall p :: Tracked(o, st.snap.areas, p) && p !in st.snap.records ==>
          p !in o.mem.ptes && Untouched(st.mem, p))
  }

  // ---- Memory lemmas --------------------------------------------------------------------------

  /** A change to the entry and frame of `p` alone, which no other page shares. */
  ghost predicate OnlyAt(m: Mem, m': Mem, p: nat) {
    && m'.mapped == m.mapped && m'.files == m.files
    && (forall q :: q != p ==> (q in m'.ptes <==> q in m.ptes))
    && (forall q :: q != p && q in m.ptes ==> m'.ptes[q] == m.ptes[q] && Contents(m', q) == Contents(m, q))
    && (forall q :: q != p && Exclusive(m, q) ==> Exclusive(m', q))
  }

  lemma AttachFrameAt(m: Mem, p: nat, c: Content)
    requires WellFormed(m) && p in m.mapped
    ensures OnlyAt(m, AttachFrame(m, p, c), p)
    ensures Exclusive(AttachFrame(m, p, c), p) && Contents(AttachFrame(m, p, c), p) == c
  {
    var m' := AttachFrame(m, p, c);
    assert forall q :: q != p && q in m.ptes ==> m'.ptes[q] == m.ptes[q];
    assert forall q :: q != p && q in m.ptes && Exclusive(m, q) ==> Exclusive(m', q);
  }

  lemma AttachFrameOk(m: Mem, p: nat, c: Content, o: Origin)
    requires WellFormed(m) && p in m.mapped && ForeignKept(m, o)
    ensures WellFormed(AttachFrame(m, p, c)) && ForeignKept(AttachFrame(m, p, c), o)
    ensures OnlyAt(m, AttachFrame(m, p, c), p)
    ensures Exclusive(AttachFrame(m, p, c), p) && Contents(AttachFrame(m, p, c), p) == c
  {
    var m' := AttachFrame(m, p, c);
    AttachFrameAt(m, p, c);
    hide Exclusive, Contents;
    assert forall q :: q in m'.ptes && m'.ptes[q].writable ==> q == p || (m.ptes[q].writable && Exclusive(m, q));
  }

  lemma StoreOk(m: Mem, p: nat, c: Content, o: Origin)
    requires WellFormed(m) && ForeignKept(m, o) && Exclusive(m, p)
    ensures WellFormed(Store(m, p, c)) && ForeignKept(Store(m, p, c), o)
    ensures OnlyAt(m, Store(m, p, c), p)
    ensures Exclusive(Store(m, p, c), p) && Contents(Store(m, p, c), p) == c
    ensures Store(m, p, c).ptes == m.ptes
  {
    var m' := Store(m, p, c);
    assert forall q :: Exclusive(m, q) ==> Exclusive(m', q);
  }

  lemma SetWritableOk(m: Mem, p: nat, writable: bool, o: Origin)
    requires WellFormed(m) && ForeignKept(m, o) && p in m.ptes
    requires writable ==> Exclusive(m, p)
    ensures var m' := WithPte(m, p, Pte(m.ptes[p].frame, writable));
            && WellFormed(m') && ForeignKept(m', o) && OnlyAt(m, m', p)
            && Contents(m', p) == Contents(m, p)
            && (Exclusive(m, p) ==> Exclusive(m', p))
  {
    var m' := WithPte(m, p, Pte(m.ptes[p].frame, writable));
    assert forall q :: q in m'.ptes <==> q in m.ptes;
    assert forall q :: q in m.ptes ==> m'.ptes[q].frame == m.ptes[q].frame;
    assert forall q :: Exclusive(m, q) ==> Exclusive(m', q);
  }

  // ---- Dirty list lemmas ----------------------------------------------------------------------

  lemma RecordDirtyListOk(snap: Snap, p: nat, c: Content)
    requires ListOk(snap)
    ensures ListOk(RecordDirty(snap, p, c))
  {
    var snap' := RecordDirty(snap, p, c);
    if Records(snap, p) && !snap.records[p].inList {
      assert p !in snap.dirtyList;
      assert snap'.dirtyList == snap.dirtyList + [p];
    }
  }

  lemma RmapHookListOk(snap: Snap, p: nat)
    requires ListOk(snap)
    ensures ListOk(RmapHook(snap, p))
  {
    var snap' := RmapHook(snap, p);
    if snap'.dirtyList != snap.dirtyList {
      assert p !in snap.dirtyList;
      assert snap'.dirtyList == snap.dirtyList + [p];
    }
  }

  lemma UnlistOk(snap: Snap, p: nat, prot: Prot, hadPte: bool, dirty: bool)
    requires ListOk(snap) && p in snap.records
    ensures ListOk(Unlist(snap, p, prot, hadPte, dirty))
  {
    WithoutOk(snap.dirtyList, p);
  }

  // ---- Steps keep the invariant -----------------------------------------------------------------

  /** It is enough to look at the one page that a step changes. */
  lemma ChangedAt(st: State, st': State, o: Origin, p: nat)
    requires Inv(st, o)
    requires WellFormed(st'.mem) && ForeignKept(st'.mem, o) && OnlyAt(st.mem, st'.mem, p)
    requires st'.snap.areas == st.snap.areas && ListOk(st'.snap)
    requires forall q :: q != p ==> (q in st'.snap.records <==> q in st.snap.records)
    requires forall q :: q != p && q in st.snap.records ==> st'.snap.records[q] == st.snap.records[q]
    requires p in st'.snap.records ==> RecOk(st', o, p)
    requires Tracked(o, st.snap.areas, p) && p !in st'.snap.records ==> p !in o.mem.ptes && Untouched(st'.mem, p)
    ensures Inv(st', o)
  {
    forall q | q in st'.snap.records ensures RecOk(st', o, q) {
      if q != p { assert RecOk(st, o, q); }
    }
  }

  lemma RecordDirtyInv(st: State, o: Origin, p: nat)
    requires Inv(st, o)
    ensures Inv(State(st.mem, RecordDirty(st.snap, p, Contents(st.mem, p))), o)
  {
    RecordDirtyListOk(st.snap, p, Contents(st.mem, p));
    if Records(st.snap, p) { assert RecOk(st, o, p); }
    ChangedAt(st, State(st.mem, RecordDirty(st.snap, p, Contents(st.mem, p))), o, p);
  }

  /** Whenever the fault hook makes an entry writable by itself, nothing else refers to the frame. */
  lemma HandledFaultIsExclusive(st: State, o: Origin, p: nat)
    requires Inv(st, o) && WpHandles(st.snap, p)
    ensures Exclusive(st.mem, p) && !st.mem.ptes[p].writable && Contents(st.mem, p) == Contents(o.mem, p)
  {
    assert RecOk(st, o, p);
  }

  /** Once `record_dirty_page` has seen the page, making it writable in place is harmless. */
  lemma MakeWritableInv(st: State, o: Origin, p: nat)
    requires Inv(st, o) && p in st.mem.ptes && !Records(st.snap, p) && Exclusive(st.mem, p)
    ensures Inv(State(MakeWritable(st.mem, p), st.snap), o)
  {
    SetWritableOk(st.mem, p, true, o);
    if p in st.snap.records { assert RecOk(st, o, p); }
    ChangedAt(st, State(MakeWritable(st.mem, p), st.snap), o, p);
  }

  /** Once `record_dirty_page` has seen the page, or if it is absent, the kernel may give it a frame of its own. */
  lemma CowFaultInv(st: State, o: Origin, p: nat)
    requires Inv(st, o) && p in st.mem.mapped && (p in st.mem.ptes ==> !Records(st.snap, p))
    ensures Inv(State(CowFault(st.mem, p), RmapHook(st.snap, p)), o)
  {
    AttachFrameOk(st.mem, p, Contents(st.mem, p), o);
    RmapHookListOk(st.snap, p);
    if p in st.snap.records { assert RecOk(st, o, p); }
    ChangedAt(st, State(CowFault(st.mem, p), RmapHook(st.snap, p)), o, p);
  }

  /** After a write fault the entry is writable, and the page reads as before. */
  lemma WriteFaultInv(st: State, o: Origin, p: nat, reuse: bool)
    requires Inv(st, o) && p in st.mem.mapped
    ensures Inv(WriteFault(st, p, reuse), o)
  {
    if p !in st.mem.ptes {
      CowFaultInv(st, o, p);
    } else if !st.mem.ptes[p].writable {
      var hooked := State(st.mem, RecordDirty(st.snap, p, Contents(st.mem, p)));
      RecordDirtyInv(st, o, p);
      if WpHandles(st.snap, p) {
        HandledFaultIsExclusive(st, o, p);
        MakeWritableInv(hooked, o, p);
      } else if reuse && Exclusive(st.mem, p) {
        MakeWritableInv(hooked, o, p);
      } else {
        CowFaultInv(hooked, o, p);
      }
    }
  }

  lemma WriteFaultMem(st: State, o: Origin, p: nat, reuse: bool)
    requires Inv(st, o) && p in st.mem.mapped
    ensures var st' := WriteFault(st, p, reuse);
            && OnlyAt(st.mem, st'.mem, p) && st'.snap.areas == st.snap.areas
            && p in st'.mem.ptes && st'.mem.ptes[p].writable
            && Contents(st'.mem, p) == Contents(st.mem, p)
  {
    if p !in st.mem.ptes {
      AttachFrameOk(st.mem, p, Contents(st.mem, p), o);
    } else if !st.mem.ptes[p].writable {
      if WpHandles(st.snap, p) {
        HandledFaultIsExclusive(st, o, p);
        SetWritableOk(st.mem, p, true, o);
      } else if reuse && Exclusive(st.mem, p) {
        SetWritableOk(st.mem, p, true, o);
      } else {
        AttachFrameOk(st.mem, p, Contents(st.mem, p), o);
      }
    }
  }

  lemma WriteInv(st: State, o: Origin, p: nat, c: Content, reuse: bool)
    requires Inv(st, o)
    ensures var st' := Write(st, p, c, reuse);
            && Inv(st', o) && OnlyAt(st.mem, st'.mem, p) && st'.snap.areas == st.snap.areas
            && (p in st.mem.mapped ==> p in st'.mem.ptes && st'.mem.ptes[p].writable && Contents(st'.mem, p) == c)
  {
    if p in st.mem.mapped {
      var ready := WriteFault(st, p, reuse);
      WriteFaultInv(st, o, p, reuse);
      WriteFaultMem(st, o, p, reuse);
      StoreOk(ready.mem, p, c, o);
      if p in ready.snap.records { assert RecOk(ready, o, p); }
      ChangedAt(ready, Write(st, p, c, reuse), o, p);
    }
  }

  lemma MapBackingOk(m: Mem, p: nat, o: Origin)
    requires WellFormed(m) && ForeignKept(m, o) && p in m.mapped && p !in m.ptes
    ensures WellFormed(MapBacking(m, p)) && ForeignKept(MapBacking(m, p), o) && OnlyAt(m, MapBacking(m, p), p)
    ensures Contents(MapBacking(m, p), p) == Contents(m, p)
  {
    var m' := MapBacking(m, p);
    assert forall q :: q != p && Exclusive(m, q) ==> Exclusive(m', q);
  }

  lemma ReadInv(st: State, o: Origin, p: nat)
    requires Inv(st, o)
    ensures Inv(Read(st, p), o) && OnlyAt(st.mem, Read(st, p).mem, p)
    ensures Contents(Read(st, p).mem, p) == Contents(st.mem, p)
  {
    var st' := Read(st, p);
    if p in st.mem.mapped && p !in st.mem.ptes {
      MapBackingOk(st.mem, p, o);
      if p in st.snap.records { assert RecOk(st, o, p); }
      ChangedAt(st, st', o, p);
    }
  }
}
