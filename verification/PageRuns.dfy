/**
  Runs of a process under a snapshot, over any number of restores: whatever it did to its
  memory, each restore brings every tracked page back to what it held at the take.
 */
module PageRuns {
  import opened Basics
  import opened Kernel
  import opened PageSpec
  import opened PageInvariant
  import opened SweepSpec

  // ---- Unmapping and sweeping -------------------------------------------------------------------

  /** Losing the entries of pages that are saved, empty or unrecorded, and any change of the mapped set. */
  lemma DropEntriesInv(st: State, m: Mem, o: Origin)
    requires Inv(st, o)
    requires m.frames == st.mem.frames && m.foreign == st.mem.foreign
    requires forall p :: p in m.ptes ==>
               p in st.mem.ptes && m.ptes[p] == st.mem.ptes[p] && p in m.mapped && Backing(m, p) == Backing(st.mem, p)
    requires forall p :: p in m.files ==> p in m.mapped && m.files[p] in m.foreign
    requires forall p :: p in st.mem.ptes && p !in m.ptes ==> !Records(st.snap, p)
    ensures Inv(State(m, st.snap), o)
  {
    assert forall p :: p in m.ptes && Exclusive(st.mem, p) ==> Exclusive(m, p);
    assert forall p :: Untouched(st.mem, p) ==> Untouched(m, p);
    forall p | p in st.snap.records ensures RecOk(State(m, st.snap), o, p) {
      assert RecOk(st, o, p);
    }
  }

  lemma {:induction false} UnmapHookInv(st: State, o: Origin, visited: seq<nat>)
    requires Inv(st, o)
    ensures var st' := UnmapHook(st, visited);
            && Inv(st', o) && st'.mem == st.mem && st'.snap.areas == st.snap.areas
            && (forall p :: !Records(st.snap, p) || p in visited ==> !Records(st'.snap, p))
    decreases |visited|
  {
    if visited != [] {
      var first := State(st.mem, RecordDirty(st.snap, visited[0], Contents(st.mem, visited[0])));
      RecordDirtyInv(st, o, visited[0]);
      UnmapHookInv(first, o, visited[1..]);
      assert visited == [visited[0]] + visited[1..];
    }
  }

  lemma MunmapInv(st: State, o: Origin, lo: nat, hi: nat, visited: seq<nat>)
    requires Inv(st, o)
    requires forall p :: p in st.mem.ptes && lo <= p < hi ==> p in visited
    ensures Inv(Munmap(st, lo, hi, visited), o)
  {
    UnmapHookInv(st, o, visited);
    var hooked := UnmapHook(st, visited);
    DropEntriesInv(hooked, UnmapRange(hooked.mem, lo, hi), o);
  }

  /** The page-level effect of the sweep: pages outside all snapshot areas lose their entries and files. */
  ghost function SweepMem(m: Mem, cur: seq<Area>, ss: seq<SnapVma>): Mem {
    Mem(set p: nat | p < ULONG_MAX && Swept(cur, ss, p),
        map p | p in m.ptes && InVmas(ss, p) :: m.ptes[p], m.frames, m.foreign,
        map p | p in m.files && InVmas(ss, p) :: m.files[p])
  }

  /** `cur` is the kernel's list of the process' areas. */
  ghost predicate Describes(cur: seq<Area>, m: Mem) {
    Sorted(cur) && forall p: nat :: InAreas(cur, p) <==> p in m.mapped
  }

  /** The selected areas are among all the areas of the snapshot. */
  ghost predicate SelectedFrom(areas: seq<Area>, ss: seq<SnapVma>) {
    && SortedVmas(ss)
    && (forall j :: 0 <= j < |ss| ==> ss[j].area.end < ULONG_MAX)
    && (forall p: nat :: InAreas(areas, p) ==> InVmas(ss, p))
  }

  lemma RefilledIsElsewhere(cur: seq<Area>, ss: seq<SnapVma>, p: nat)
    requires SortedVmas(ss) && InVmas(ss, p)
    ensures !Refilled(cur, ss, p)
  {
    if Refilled(cur, ss, p) { RefilledIsOutside(cur, ss, p); }
  }

  /** The sweep on a page of a snapshot area. */
  lemma SweptPage(m: Mem, cur: seq<Area>, ss: seq<SnapVma>, p: nat)
    requires Describes(cur, m) && SortedVmas(ss) && (forall j :: 0 <= j < |ss| ==> ss[j].area.end < ULONG_MAX)
    requires InVmas(ss, p)
    ensures var m' := SweepMem(m, cur, ss);
            && (p in m'.mapped <==> p in m.mapped || InAnonVmas(ss, p))
            && Contents(m', p) == Contents(m, p) && Backing(m', p) == Backing(m, p)
  {
    RefilledIsElsewhere(cur, ss, p);
    assert p < ULONG_MAX && (Swept(cur, ss, p) <==> InAreas(cur, p) || InAnonVmas(ss, p));
    hide Swept, InAnonVmas, SortedVmas;
  }

  /** The sweep disturbs no record and no content, and maps of the selected pages those it can remake. */
  lemma SweepInv(st: State, o: Origin, cur: seq<Area>, ss: seq<SnapVma>)
    requires Inv(st, o) && Describes(cur, st.mem) && SelectedFrom(st.snap.areas, ss)
    ensures Inv(State(SweepMem(st.mem, cur, ss), st.snap), o)
    ensures forall p :: InAreas(st.snap.areas, p) ==>
              && (p in SweepMem(st.mem, cur, ss).mapped <==> p in st.mem.mapped || InAnonVmas(ss, p))
              && Contents(SweepMem(st.mem, cur, ss), p) == Contents(st.mem, p)
              && Backing(SweepMem(st.mem, cur, ss), p) == Backing(st.mem, p)
  {
    var m := SweepMem(st.mem, cur, ss);
    forall p: nat | InVmas(ss, p)
      ensures p in m.mapped <==> p in st.mem.mapped || InAnonVmas(ss, p)
      ensures Contents(m, p) == Contents(st.mem, p) && Backing(m, p) == Backing(st.mem, p)
    {
      SweptPage(st.mem, cur, ss, p);
    }
    forall p | p in st.snap.records ensures InVmas(ss, p) {
      assert RecOk(st, o, p);
    }
    hide Contents, Backing, Swept, InAnonVmas, Describes, SortedVmas;
    DropEntriesInv(st, m, o);
  }

  // ---- Recovering ---------------------------------------------------------------------------------

  /** Copying a saved page back fires hooks, but none of them touches the list being walked. */
  lemma CopyBackKeepsList(st: State, p: nat, c: Content, reuse: bool)
    requires p in st.snap.records && st.snap.records[p].dirty && !st.snap.records[p].prot.isNonePte
    ensures var back := Write(st, p, c, reuse).snap;
            && back.dirtyList == st.snap.dirtyList && back.areas == st.snap.areas
            && back.records.Keys == st.snap.records.Keys
            && (forall q :: q in st.snap.records && q != p ==> back.records[q] == st.snap.records[q])
            && (var r := st.snap.records[p];
                back.records[p] == r || back.records[p] == Rec(r.prot, r.data, r.copied, true, r.dirty, r.inList))
  {
  }

  /** What keeps the walk over the list safe: the flags agree with it, and a dirty page is listed and has its copy. */
  ghost predicate ListStable(snap: Snap) {
    && ListOk(snap)
    && (forall p :: p in snap.records && snap.records[p].dirty ==>
          snap.records[p].inList && snap.records[p].copied && !snap.records[p].prot.isNonePte)
  }

  lemma InvIsStable(st: State, o: Origin)
    requires Inv(st, o)
    ensures ListStable(st.snap)
  {
    forall p | p in st.snap.records && st.snap.records[p].dirty
      ensures st.snap.records[p].inList && st.snap.records[p].copied && !st.snap.records[p].prot.isNonePte
    {
      assert RecOk(st, o, p);
    }
  }

  /** A dirty page that is not mapped, and whose page table is gone: it stays on the list. */
  predicate Stranded(st: State, p: nat, choices: Choices) {
    p in st.snap.records && st.snap.records[p].dirty && p !in st.mem.mapped && TableGone(st.mem, p, choices)
  }

  lemma WriteMaps(st: State, p: nat, c: Content, reuse: bool)
    ensures p in Write(st, p, c, reuse).mem.ptes <==> p in st.mem.ptes || p in st.mem.mapped
  {
    hide Contents, Exclusive;
  }

  /** A listed page found clean. */
  lemma CleanedStable(snap: Snap, p: nat, prot: Prot)
    requires ListStable(snap) && p in snap.dirtyList
    ensures var r := snap.records[p];
            && ListStable(Put(snap, p, Rec(r.prot, r.data, r.copied, true, false, r.inList)))
            && ListStable(Unlist(snap, p, prot, true, false))
  {
    UnlistOk(snap, p, prot, true, false);
    hide Without;
  }

  lemma CopyBackList(st: State, p: nat, choices: Choices)
    requires ListStable(st.snap) && p in st.snap.dirtyList && st.snap.records[p].dirty
    ensures var r := st.snap.records[p];
            var back := Write(st, p, SavedCopy(r), p in choices.reuse).snap;
            && ListStable(back) && back.dirtyList == st.snap.dirtyList && back.areas == st.snap.areas && p in back.records
            && (p in Write(st, p, SavedCopy(r), p in choices.reuse).mem.ptes <==> p in st.mem.ptes || p in st.mem.mapped)
            && (p !in st.mem.mapped ==> back == st.snap)
  {
    var r := st.snap.records[p];
    CopyBackKeepsList(st, p, SavedCopy(r), p in choices.reuse);
    WriteMaps(st, p, SavedCopy(r), p in choices.reuse);
    assert p !in st.mem.mapped ==> Write(st, p, SavedCopy(r), p in choices.reuse) == st;
    hide Write, SavedCopy;
  }

  /** Copying a page back: it leaves the list unless it is stranded. */
  lemma CopyBackStable(st: State, p: nat, choices: Choices)
    requires ListStable(st.snap) && p in st.snap.dirtyList && st.snap.records[p].dirty
    ensures var snap := RecoverPage(st, p, choices).snap;
            && ListStable(snap) && p in snap.records && !snap.records[p].dirty && snap.areas == st.snap.areas
            && snap.dirtyList == if Stranded(st, p, choices) then st.snap.dirtyList else Without(st.snap.dirtyList, p)
  {
    var r := st.snap.records[p];
    var back := Write(st, p, SavedCopy(r), p in choices.reuse);
    CopyBackList(st, p, choices);
    CleanedStable(st.snap, p, Prot(true, r.prot.isCow, r.prot.isNonePte));
    CleanedStable(back.snap, p, Prot(true, r.prot.isCow, r.prot.isNonePte));
    assert st.snap.records[p].copied;
    hide Write, Without, SavedCopy, ListStable;
  }

  /** No hook that the copy back fires alters the list being walked; the page leaves it unless it is stranded. */
  lemma RecoverPageStable(st: State, p: nat, choices: Choices)
    requires ListStable(st.snap) && p in st.snap.dirtyList
    ensures var snap := RecoverPage(st, p, choices).snap;
            && ListStable(snap) && p in snap.records && !snap.records[p].dirty && snap.areas == st.snap.areas
            && snap.dirtyList == if Stranded(st, p, choices) then st.snap.dirtyList else Without(st.snap.dirtyList, p)
  {
    var r := st.snap.records[p];
    if r.dirty {
      CopyBackStable(st, p, choices);
      hide *;
    } else {
      UnlistOk(st.snap, p, r.prot, r.hadPte, r.dirty);
      UnlistOk(st.snap, p, r.prot, false, r.dirty);
      hide Write, Without;
    }
  }

  lemma WriteFrame(st: State, q: nat, c: Content, reuse: bool, p: nat)
    requires q in st.snap.records && p in st.snap.records && p != q
    ensures var st' := Write(st, q, c, reuse);
            && q in st'.snap.records && p in st'.snap.records && st'.snap.records[p] == st.snap.records[p]
            && st'.mem.mapped == st.mem.mapped && (p in st'.mem.ptes <==> p in st.mem.ptes)
  {
    hide Contents, Exclusive;
  }

  /** Recovering one page leaves another as it is. */
  lemma RecoverPageFrame(st: State, q: nat, choices: Choices, p: nat)
    requires q in st.snap.records && p in st.snap.records && p != q
    ensures var st' := RecoverPage(st, q, choices);
            && p in st'.snap.records && st'.snap.records[p] == st.snap.records[p]
            && st'.mem.mapped == st.mem.mapped && (p in st'.mem.ptes <==> p in st.mem.ptes)
  {
    if st.snap.records[q].dirty && st.snap.records[q].copied {
      WriteFrame(st, q, SavedCopy(st.snap.records[q]), q in choices.reuse, p);
    }
    hide Without, Write, SavedCopy;
  }

  /** Whatever is mapped: of the pages walked exactly the stranded ones are still listed, and none is dirty. */
  lemma {:induction false} RecoverPagesStable(st: State, pages: seq<nat>, choices: Choices)
    requires ListStable(st.snap) && NoDup(pages) && forall p :: p in pages ==> p in st.snap.dirtyList
    ensures var snap := RecoverPages(st, pages, choices).snap;
            && ListStable(snap) && snap.areas == st.snap.areas && st.snap.records.Keys <= snap.records.Keys
            && (forall p :: p in st.snap.records && p !in pages ==> snap.records[p] == st.snap.records[p])
            && (forall p :: p in pages ==> !snap.records[p].dirty && (p in snap.dirtyList <==> Stranded(st, p, choices)))
    decreases |pages|
  {
    if pages != [] {
      var p, rest := pages[0], pages[1..];
      var next := RecoverPage(st, p, choices);
      assert pages == [p] + rest && p !in rest;
      RecoverPageStable(st, p, choices);
      WithoutOk(st.snap.dirtyList, p);
      forall q | q in st.snap.records && q != p
        ensures q in next.snap.records && next.snap.records[q] == st.snap.records[q]
        ensures q in rest ==> (Stranded(next, q, choices) <==> Stranded(st, q, choices))
      {
        RecoverPageFrame(st, p, choices, q);
      }
      hide RecoverPage, Without, ListStable, Stranded;
      RecoverPagesStable(next, rest, choices);
    }
  }

  /** The walk over the whole list: exactly the stranded pages are left on it, and no page is dirty. */
  lemma WalkLeavesStranded(st: State, choices: Choices)
    requires ListStable(st.snap)
    ensures var snap := RecoverPages(st, st.snap.dirtyList, choices).snap;
            && ListStable(snap) && snap.areas == st.snap.areas
            && (forall p :: p in snap.records ==> !snap.records[p].dirty)
            && (forall p :: p in snap.dirtyList <==> Stranded(st, p, choices))
  {
    var list := st.snap.dirtyList;
    RecoverPagesStable(st, list, choices);
    var snap := RecoverPages(st, list, choices).snap;
    RecoverPagesKeys(st, list, choices);
    hide RecoverPages;
    forall p | p in st.snap.records && p !in list ensures !snap.records[p].dirty && p !in snap.dirtyList && !Stranded(st, p, choices) {}
  }

  lemma {:induction false} RecoverPagesKeys(st: State, pages: seq<nat>, choices: Choices)
    requires forall p :: p in pages ==> p in st.snap.records
    ensures RecoverPages(st, pages, choices).snap.records.Keys == st.snap.records.Keys
    decreases |pages|
  {
    if pages != [] {
      assert pages == [pages[0]] + pages[1..];
      RecoverPagesKeys(RecoverPage(st, pages[0], choices), pages[1..], choices);
    }
  }

  /** Nothing but `p` changes, and `p` leaves the list. */
  ghost predicate PageRecovered(st: State, st': State, p: nat) {
    && OnlyAt(st.mem, st'.mem, p) && st'.snap.areas == st.snap.areas
    && st'.snap.dirtyList == Without(st.snap.dirtyList, p)
    && st'.snap.records.Keys == st.snap.records.Keys
    && (forall q :: q in st.snap.records && q != p ==> st'.snap.records[q] == st.snap.records[q])
  }

  /** The page just copied back becomes a clean, write-protected private page. */
  lemma CleanedInv(back: State, o: Origin, p: nat, prot: Prot)
    requires Inv(back, o) && p in back.snap.records && back.snap.records[p].dirty
    requires prot.isPrivate && !prot.isNonePte
    requires Exclusive(back.mem, p) && Contents(back.mem, p) == Contents(o.mem, p)
    ensures Inv(State(WriteProtect(back.mem, p), Unlist(back.snap, p, prot, true, false)), o)
    ensures OnlyAt(back.mem, WriteProtect(back.mem, p), p)
  {
    assert RecOk(back, o, p);
    SetWritableOk(back.mem, p, false, o);
    UnlistOk(back.snap, p, prot, true, false);
    ChangedAt(back, State(WriteProtect(back.mem, p), Unlist(back.snap, p, prot, true, false)), o, p);
  }

  lemma ZapOk(m: Mem, p: nat, o: Origin)
    requires WellFormed(m) && ForeignKept(m, o)
    ensures WellFormed(Zap(m, p)) && ForeignKept(Zap(m, p), o) && OnlyAt(m, Zap(m, p), p)
    ensures Untouched(Zap(m, p), p)
  {
    var m' := Zap(m, p);
    assert forall q :: q in m'.ptes <==> q in m.ptes && q != p;
    assert forall q :: q != p && Exclusive(m, q) ==> Exclusive(m', q);
  }

  lemma ZappedInv(st: State, o: Origin, p: nat)
    requires Inv(st, o) && p in st.snap.dirtyList && st.snap.records[p].prot.isNonePte
    ensures Inv(State(Zap(st.mem, p), Unlist(st.snap, p, st.snap.records[p].prot, false, st.snap.records[p].dirty)), o)
    ensures OnlyAt(st.mem, Zap(st.mem, p), p)
  {
    var m, r := Zap(st.mem, p), st.snap.records[p];
    assert RecOk(st, o, p);
    ZapOk(st.mem, p, o);
    UnlistOk(st.snap, p, r.prot, false, r.dirty);
    ChangedAt(st, State(m, Unlist(st.snap, p, r.prot, false, r.dirty)), o, p);
  }

  lemma OnlyAtCompose(m: Mem, m1: Mem, m2: Mem, p: nat)
    requires OnlyAt(m, m1, p) && OnlyAt(m1, m2, p)
    ensures OnlyAt(m, m2, p)
  {
  }

  lemma CopiedBackIsExclusive(st: State, p: nat)
    requires WellFormed(st.mem) && p in st.mem.ptes && st.mem.ptes[p].writable
    ensures Exclusive(st.mem, p)
  {
  }

  /** The write of the saved copy, before the page is protected again. */
  lemma CopiedBack(st: State, o: Origin, p: nat, choices: Choices)
    requires Inv(st, o) && p in st.snap.dirtyList && st.snap.records[p].dirty && p in st.mem.mapped
    ensures var r := st.snap.records[p];
            var back := Write(st, p, SavedCopy(r), p in choices.reuse);
            && Inv(back, o) && OnlyAt(st.mem, back.mem, p) && back.snap.areas == st.snap.areas
            && p in back.snap.records && back.snap.records[p].dirty && !r.prot.isNonePte
            && Exclusive(back.mem, p) && Contents(back.mem, p) == Contents(o.mem, p)
            && back.snap.dirtyList == st.snap.dirtyList && back.snap.records.Keys == st.snap.records.Keys
            && (forall q :: q in st.snap.records && q != p ==> back.snap.records[q] == st.snap.records[q])
            && RecoverPage(st, p, choices)
               == State(WriteProtect(back.mem, p), Unlist(back.snap, p, Prot(true, r.prot.isCow, r.prot.isNonePte), true, false))
  {
    var r := st.snap.records[p];
    assert RecOk(st, o, p);
    WriteInv(st, o, p, SavedCopy(r), p in choices.reuse);
    CopyBackKeepsList(st, p, SavedCopy(r), p in choices.reuse);
    CopiedBackIsExclusive(Write(st, p, SavedCopy(r), p in choices.reuse), p);
    hide Write, Inv, OnlyAt, WriteProtect, Unlist;
  }

  lemma UnlistedIsRecovered(st: State, back: State, m: Mem, p: nat, prot: Prot)
    requires p in back.snap.records && OnlyAt(st.mem, m, p)
    requires back.snap.areas == st.snap.areas && back.snap.dirtyList == st.snap.dirtyList
    requires back.snap.records.Keys == st.snap.records.Keys
    requires forall q :: q in st.snap.records && q != p ==> back.snap.records[q] == st.snap.records[q]
    ensures PageRecovered(st, State(m, Unlist(back.snap, p, prot, true, false)), p)
  {
    hide OnlyAt, Without;
  }

  lemma CopyBackInv(st: State, o: Origin, p: nat, choices: Choices)
    requires Inv(st, o) && p in st.snap.dirtyList && st.snap.records[p].dirty && p in st.mem.mapped
    ensures Inv(RecoverPage(st, p, choices), o) && PageRecovered(st, RecoverPage(st, p, choices), p)
  {
    var r := st.snap.records[p];
    var prot := Prot(true, r.prot.isCow, r.prot.isNonePte);
    var back := Write(st, p, SavedCopy(r), p in choices.reuse);
    CopiedBack(st, o, p, choices);
    hide *;
    CleanedInv(back, o, p, prot);
    OnlyAtCompose(st.mem, back.mem, WriteProtect(back.mem, p), p);
    UnlistedIsRecovered(st, back, WriteProtect(back.mem, p), p, prot);
  }

  lemma RecoverPageInv(st: State, o: Origin, p: nat, choices: Choices)
    requires Inv(st, o) && p in st.snap.dirtyList
    requires st.snap.records[p].dirty ==> p in st.mem.mapped
    ensures Inv(RecoverPage(st, p, choices), o) && PageRecovered(st, RecoverPage(st, p, choices), p)
  {
    if st.snap.records[p].dirty {
      CopyBackInv(st, o, p, choices);
      hide *;
    } else {
      assert RecOk(st, o, p);
      ZappedInv(st, o, p);
    }
  }

  ghost predicate DirtyMapped(st: State) {
    forall p :: p in st.snap.records && st.snap.records[p].dirty ==> p in st.mem.mapped
  }

  /** A page that is not on the list is not given an entry by the loop. */
  lemma RecoverPageKeepsAbsent(st: State, p: nat, choices: Choices)
    requires p in st.snap.records
    ensures forall q :: q != p ==> (q in RecoverPage(st, p, choices).mem.ptes <==> q in st.mem.ptes)
  {
    hide Contents, Exclusive, Without;
  }

  lemma {:induction false} RecoverPagesKeepsAbsent(st: State, pages: seq<nat>, choices: Choices)
    ensures forall q :: q !in pages ==> (q in RecoverPages(st, pages, choices).mem.ptes <==> q in st.mem.ptes)
    decreases |pages|
  {
    if pages != [] {
      assert pages == [pages[0]] + pages[1..];
      var next := if pages[0] in st.snap.records then RecoverPage(st, pages[0], choices) else st;
      if pages[0] in st.snap.records { RecoverPageKeepsAbsent(st, pages[0], choices); }
      hide RecoverPage;
      RecoverPagesKeepsAbsent(next, pages[1..], choices);
    }
  }

  /** One iteration of the loop, seen from the whole list. */
  lemma RecoverFirst(st: State, o: Origin, choices: Choices)
    requires Inv(st, o) && DirtyMapped(st) && st.snap.dirtyList != []
    ensures var p := st.snap.dirtyList[0];
            var next := RecoverPage(st, p, choices);
            && p in st.snap.records && Inv(next, o) && DirtyMapped(next) && next.snap.areas == st.snap.areas
            && next.mem.mapped == st.mem.mapped && next.mem.files == st.mem.files
            && next.snap.dirtyList == st.snap.dirtyList[1..]
            && (forall q :: q != p ==> Contents(next.mem, q) == Contents(st.mem, q))
            && (forall q :: q in st.snap.dirtyList[1..] ==> q in st.snap.dirtyList)
  {
    var p := st.snap.dirtyList[0];
    RecoverPageInv(st, o, p, choices);
    hide Inv, RecoverPage, Contents, Exclusive;
    assert st.snap.dirtyList == [p] + st.snap.dirtyList[1..];
    var next := RecoverPage(st, p, choices);
    forall q | q != p ensures Contents(next.mem, q) == Contents(st.mem, q) {
      OnlyAtContents(st, next, o, p, q);
    }
  }

  lemma OnlyAtContents(st: State, st': State, o: Origin, p: nat, q: nat)
    requires Inv(st, o) && Inv(st', o) && OnlyAt(st.mem, st'.mem, p) && q != p
    ensures Contents(st'.mem, q) == Contents(st.mem, q)
  {
    assert Backing(st.mem, q) in st.mem.foreign;
  }

  lemma {:induction false} RecoverPagesInv(st: State, o: Origin, choices: Choices)
    requires Inv(st, o) && DirtyMapped(st)
    ensures var st' := RecoverPages(st, st.snap.dirtyList, choices);
            && Inv(st', o) && st'.snap.areas == st.snap.areas && st'.snap.dirtyList == []
            && st'.mem.mapped == st.mem.mapped && st'.mem.files == st.mem.files
            && (forall q :: q !in st.snap.dirtyList ==> Contents(st'.mem, q) == Contents(st.mem, q))
    decreases |st.snap.dirtyList|
  {
    var pages := st.snap.dirtyList;
    if pages != [] {
      RecoverFirst(st, o, choices);
      hide Inv, RecoverPage, Contents, DirtyMapped;
      RecoverPagesInv(RecoverPage(st, pages[0], choices), o, choices);
    }
  }

  /** A listed page that had no entry at the take has none afterwards. */
  lemma {:induction false} ListedEmptyPageIsZapped(st: State, pages: seq<nat>, choices: Choices, q: nat)
    requires NoDup(pages) && q in pages && q in st.snap.records
    requires var r := st.snap.records[q]; r.prot.isNonePte && !r.prot.isPrivate && r.hadPte && !r.dirty
    ensures q !in RecoverPages(st, pages, choices).mem.ptes
    decreases |pages|
  {
    var p, rest := pages[0], pages[1..];
    assert pages == [p] + rest && p !in rest;
    if p == q {
      RecoverPagesKeepsAbsent(RecoverPage(st, p, choices), rest, choices);
    } else {
      if p in st.snap.records { RecoverPageFrame(st, p, choices, q); }
      ListedEmptyPageIsZapped(if p in st.snap.records then RecoverPage(st, p, choices) else st, rest, choices, q);
    }
  }

  /** What a restore gives a page: its take-time content, or, if it was absent then, what backs it now. */
  function RestoredContent(m: Mem, o: Origin, p: nat): Content {
    if p in o.mem.ptes then Contents(o.mem, p) else FrameContent(m, Backing(m, p))
  }

  ghost predicate Restored(m: Mem, o: Origin, areas: seq<Area>) {
    forall p :: Tracked(o, areas, p) && p in m.mapped ==> Contents(m, p) == RestoredContent(m, o, p)
  }

  /** With the list empty, the invariant alone says that memory is as it was: nothing else needs restoring. */
  lemma EmptyListIsRestored(st: State, o: Origin)
    requires Inv(st, o) && st.snap.dirtyList == []
    ensures Restored(st.mem, o, st.snap.areas)
    ensures forall p :: p in st.snap.records ==> !st.snap.records[p].dirty && !st.snap.records[p].inList
  {
    forall p | p in st.snap.records
      ensures !st.snap.records[p].dirty && !st.snap.records[p].inList
      ensures Tracked(o, st.snap.areas, p) ==> Contents(st.mem, p) == RestoredContent(st.mem, o, p)
    {
      assert RecOk(st, o, p) && p !in st.snap.dirtyList;
    }
  }

  // ---- Taking -------------------------------------------------------------------------------------

  function Take(m: Mem, areas: seq<Area>, pages: seq<nat>): State {
    MakePages(State(m, Snap(map[], [], areas)), pages)
  }

  /** What holds while the take is under way: pages not yet reached are as they were. */
  ghost predicate TakeInv(st: State, o: Origin) {
    && Inv(st, o)
    && st.snap.dirtyList == []
    && st.mem.mapped == o.mem.mapped && st.mem.files == o.mem.files && st.mem.frames == o.mem.frames
    && (forall p :: p in st.mem.ptes <==> p in o.mem.ptes)
    && (forall p :: p in st.mem.ptes ==> st.mem.ptes[p].frame == o.mem.ptes[p].frame)
    && (forall p :: p in st.mem.ptes && p !in o.reached ==> st.mem.ptes[p] == o.mem.ptes[p])
    && (forall p :: p in st.snap.records ==> p in o.reached)
  }

  lemma AddedRecordInv(st: State, m: Mem, o: Origin, p: nat, r: Rec)
    requires TakeInv(st, o) && p !in o.reached && InAreas(st.snap.areas, p)
    requires WellFormed(m) && ForeignKept(m, o) && OnlyAt(st.mem, m, p)
    requires !r.inList && !r.dirty && !r.copied
    requires r.prot.isNonePte ==>
               p !in m.ptes && p !in o.mem.ptes && r.prot == Prot(false, false, true) && !r.hadPte
    requires !r.prot.isNonePte ==>
               && p in m.ptes && p in o.mem.ptes && !m.ptes[p].writable && Contents(m, p) == Contents(o.mem, p)
               && (r.prot.isPrivate || r.prot.isCow) && (r.prot.isPrivate ==> Exclusive(m, p))
    ensures Inv(State(m, Put(st.snap, p, r)), Origin(o.mem, o.reached + {p}))
  {
    var st', o' := State(m, Put(st.snap, p, r)), Origin(o.mem, o.reached + {p});
    forall q | q in st'.snap.records ensures RecOk(st', o', q) {
      if q != p { assert RecOk(st, o, q); }
    }
    forall q | Tracked(o', st'.snap.areas, q) && q !in st'.snap.records
      ensures q !in o.mem.ptes && Untouched(st'.mem, q)
    {
      assert Tracked(o, st.snap.areas, q);
    }
  }

  lemma MakePageInv(st: State, o: Origin, p: nat)
    requires TakeInv(st, o) && p !in o.reached && InAreas(st.snap.areas, p)
    ensures TakeInv(MakePage(st, p), Origin(o.mem, o.reached + {p}))
    ensures MakePage(st, p).snap.areas == st.snap.areas
  {
    var st' := MakePage(st, p);
    if p in st.mem.ptes && st.mem.ptes[p].writable {
      SetWritableOk(st.mem, p, false, o);
    }
    AddedRecordInv(st, st'.mem, o, p, st'.snap.records[p]);
  }

  lemma {:induction false} MakePagesInv(st: State, o: Origin, pages: seq<nat>)
    requires TakeInv(st, o) && NoDup(pages)
    requires forall p :: p in pages ==> p !in o.reached && InAreas(st.snap.areas, p)
    ensures TakeInv(MakePages(st, pages), Origin(o.mem, o.reached + set p | p in pages))
    ensures MakePages(st, pages).snap.areas == st.snap.areas
    decreases |pages|
  {
    hide TakeInv, MakePage;
    if pages == [] {
      assert o.reached + (set p | p in pages) == o.reached;
    } else {
      var rest := pages[1..];
      assert pages == [pages[0]] + rest;
      MakePageInv(st, o, pages[0]);
      MakePagesInv(MakePage(st, pages[0]), Origin(o.mem, o.reached + {pages[0]}), rest);
      assert o.reached + {pages[0]} + (set p | p in rest) == o.reached + set p | p in pages;
    }
  }

  /** What the walk of the take hands to `make_snapshot_page`. */
  ghost predicate TakeOk(m: Mem, areas: seq<Area>, pages: seq<nat>) {
    && WellFormed(m) && NoDup(pages)
    && (forall p :: p in pages ==> InAreas(areas, p))
  }

  ghost function OriginOf(m: Mem, pages: seq<nat>): Origin {
    Origin(m, set p | p in pages)
  }

  lemma TakeStartsInv(m: Mem, areas: seq<Area>, pages: seq<nat>)
    requires TakeOk(m, areas, pages)
    ensures Inv(Take(m, areas, pages), OriginOf(m, pages)) && Take(m, areas, pages).snap.areas == areas
    ensures Restored(Take(m, areas, pages).mem, OriginOf(m, pages), areas)
    ensures Take(m, areas, pages).mem.mapped == m.mapped && Take(m, areas, pages).mem.files == m.files
    ensures Take(m, areas, pages).mem.frames == m.frames
    ensures Take(m, areas, pages).snap.dirtyList == []
    ensures forall p :: p in Take(m, areas, pages).snap.records ==> !Take(m, areas, pages).snap.records[p].dirty
    ensures forall p :: p !in pages ==> p !in Take(m, areas, pages).snap.records
    ensures forall p :: p in Take(m, areas, pages).mem.ptes <==> p in m.ptes
    ensures forall p :: p !in pages && p in m.ptes ==>
              p in Take(m, areas, pages).mem.ptes && Take(m, areas, pages).mem.ptes[p] == m.ptes[p]
  {
    var start, o := State(m, Snap(map[], [], areas)), Origin(m, {});
    assert TakeInv(start, o);
    MakePagesInv(start, o, pages);
    assert o.reached + (set p | p in pages) == OriginOf(m, pages).reached;
    EmptyListIsRestored(Take(m, areas, pages), OriginOf(m, pages));
  }

  /** A record as the take makes it, of a page with entry `pte` or without one. */
  predicate IsTakenRec(r: Rec, pte: Option<Pte>) {
    && !r.copied && !r.dirty && !r.inList && r.hadPte == pte.Some?
    && r.prot == Prot(pte.Some? && pte.value.writable, pte.Some? && !pte.value.writable, pte.None?)
  }

  function EntryOf(m: Mem, p: nat): Option<Pte> {
    if p in m.ptes then Some(m.ptes[p]) else None
  }

  /** A page reached by the walk is recorded as private iff its entry was writable, and none stays writable. */
  lemma {:induction false} PageIsRecorded(st: State, pages: seq<nat>, p: nat)
    requires NoDup(pages)
    ensures var st' := MakePages(st, pages);
            && (p in pages ==> p in st'.snap.records && IsTakenRec(st'.snap.records[p], EntryOf(st.mem, p)))
            && (p in pages && p in st.mem.ptes ==> EntryOf(st'.mem, p) == Some(Pte(st.mem.ptes[p].frame, false)))
            && (p !in pages ==> EntryOf(st'.mem, p) == EntryOf(st.mem, p))
            && (p !in pages && p in st.snap.records ==> p in st'.snap.records && st'.snap.records[p] == st.snap.records[p])
    decreases |pages|
  {
    if pages != [] {
      PageIsRecorded(MakePage(st, pages[0]), pages[1..], p);
      assert pages == [pages[0]] + pages[1..];
      hide MakePages;
    }
  }

  // ---- Runs ---------------------------------------------------------------------------------------

  /** What stays fixed while a snapshot is held: the MMAP option and the areas listed at the take. */
  datatype Session = Session(traceMmap: bool, allVmas: seq<SnapVma>)

  datatype Step =
    | DoWrite(page: nat, content: Content, reuse: bool)
    | DoRead(page: nat)
    | DoMunmap(lo: nat, hi: nat, visited: seq<nat>)
    | DoMmap(lo: nat, hi: nat, files: map<nat, nat>)
    | DoRecover(cur: seq<Area>, choices: Choices)

  ghost function SweptState(st: State, s: Session, cur: seq<Area>): State {
    if s.traceMmap then State(SweepMem(st.mem, cur, s.allVmas), st.snap) else st
  }

  /** `recover_memory_snapshot`: the sweep, if asked for, then the dirty list. */
  ghost function Recover(st: State, s: Session, cur: seq<Area>, choices: Choices): State {
    RecoverPages(SweptState(st, s, cur), st.snap.dirtyList, choices)
  }

  ghost function Exec(st: State, s: Session, step: Step): State {
    match step
    case DoWrite(p, c, reuse) => Write(st, p, c, reuse)
    case DoRead(p) => Read(st, p)
    case DoMunmap(lo, hi, visited) => Munmap(st, lo, hi, visited)
    case DoMmap(lo, hi, files) => Mmap(st, lo, hi, files)
    case DoRecover(cur, choices) => Recover(st, s, cur, choices)
  }

  /** What the kernel guarantees of a step. */
  ghost predicate KernelAllows(st: State, step: Step) {
    match step
    case DoWrite(_, _, _) => true
    case DoRead(_) => true
    case DoMunmap(lo, hi, visited) =>
      && PageAligned(lo) && PageAligned(hi)
      && (forall p :: p in st.mem.ptes && lo <= p < hi ==> p in visited)
      && (forall p :: p in visited ==> lo <= p < hi)
    case DoMmap(lo, hi, files) =>
      && PageAligned(lo) && PageAligned(hi)
      && (forall p :: lo <= p < hi ==> p !in st.mem.mapped)
      && (forall p :: p in files ==> lo <= p < hi && files[p] in st.mem.foreign)
    case DoRecover(cur, _) => Describes(cur, st.mem)
  }

  /** Besides, no saved page is still unmapped when a restore comes to write it back. */
  ghost predicate Enabled(st: State, s: Session, step: Step) {
    KernelAllows(st, step) && (step.DoRecover? ==> DirtyMapped(SweptState(st, s, step.cur)))
  }

  ghost function Run(st: State, s: Session, steps: seq<Step>): State
    decreases |steps|
  {
    if steps == [] then st else Run(Exec(st, s, steps[0]), s, steps[1..])
  }

  ghost predicate ValidRun(st: State, s: Session, steps: seq<Step>)
    decreases |steps|
  {
    steps == [] || (Enabled(st, s, steps[0]) && ValidRun(Exec(st, s, steps[0]), s, steps[1..]))
  }

  lemma {:induction false} RunSnoc(st: State, s: Session, steps: seq<Step>, step: Step)
    requires ValidRun(st, s, steps) && Enabled(Run(st, s, steps), s, step)
    ensures ValidRun(st, s, steps + [step]) && Run(st, s, steps + [step]) == Exec(Run(st, s, steps), s, step)
    decreases |steps|
  {
    hide Enabled, Exec;
    var all := steps + [step];
    if steps == [] {
      assert all[1..] == [];
    } else {
      RunSnoc(Exec(st, s, steps[0]), s, steps[1..], step);
      assert all[1..] == steps[1..] + [step];
    }
  }

  /** A run that the kernel allows, whatever it leaves unmapped at a restore. */
  ghost predicate KernelRun(st: State, s: Session, steps: seq<Step>)
    decreases |steps|
  {
    steps == [] || (KernelAllows(st, steps[0]) && KernelRun(Exec(st, s, steps[0]), s, steps[1..]))
  }

  lemma SweptStateInv(st: State, o: Origin, s: Session, cur: seq<Area>)
    requires Inv(st, o) && SelectedFrom(st.snap.areas, s.allVmas) && Describes(cur, st.mem)
    ensures Inv(SweptState(st, s, cur), o)
  {
    if s.traceMmap { SweepInv(st, o, cur, s.allVmas); }
  }

  lemma ExecInv(st: State, o: Origin, s: Session, step: Step)
    requires Inv(st, o) && SelectedFrom(st.snap.areas, s.allVmas) && Enabled(st, s, step)
    ensures Inv(Exec(st, s, step), o) && Exec(st, s, step).snap.areas == st.snap.areas
  {
    match step
    case DoWrite(p, c, reuse) => WriteInv(st, o, p, c, reuse);
    case DoRead(p) => ReadInv(st, o, p);
    case DoMunmap(lo, hi, visited) =>
      UnmapHookInv(st, o, visited);
      MunmapInv(st, o, lo, hi, visited);
    case DoMmap(lo, hi, files) => DropEntriesInv(st, MapPages(st.mem, Range(lo, hi), files), o);
    case DoRecover(cur, choices) =>
      SweptStateInv(st, o, s, cur);
      RecoverPagesInv(SweptState(st, s, cur), o, choices);
  }

  lemma {:induction false} RunInv(st: State, o: Origin, s: Session, steps: seq<Step>)
    requires Inv(st, o) && SelectedFrom(st.snap.areas, s.allVmas) && ValidRun(st, s, steps)
    ensures Inv(Run(st, s, steps), o) && Run(st, s, steps).snap.areas == st.snap.areas
    decreases |steps|
  {
    if steps != [] {
      ExecInv(st, o, s, steps[0]);
      RunInv(Exec(st, s, steps[0]), o, s, steps[1..]);
    }
  }
}
