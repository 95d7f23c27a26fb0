/**
  Restores that find a saved page unmapped: the page is marked clean though nothing was written back.
  Every other page is restored all the same; but the lost one, mapped again, lets a store through to a
  frame that others see.
 */
module PageLoss {
  import opened Basics
  import opened Kernel
  import opened PageSpec
  import opened PageInvariant
  import opened PageRuns
  import opened SweepSpec

  // ---- The other pages ----------------------------------------------------------------------------

  /** The dirty pages that a restore cannot write back. */
  function LostPages(st: State): set<nat> {
    set p | p in st.snap.records && st.snap.records[p].dirty && p !in st.mem.mapped
  }

  function Except(pages: seq<nat>, lost: set<nat>): seq<nat> {
    if pages == [] then []
    else (if pages[0] in lost then [] else [pages[0]]) + Except(pages[1..], lost)
  }

  lemma {:induction false} ExceptOk(pages: seq<nat>, lost: set<nat>)
    ensures forall p :: p in Except(pages, lost) <==> p in pages && p !in lost
    ensures NoDup(pages) ==> NoDup(Except(pages, lost))
  {
    if pages != [] {
      var rest := Except(pages[1..], lost);
      ExceptOk(pages[1..], lost);
      assert pages == [pages[0]] + pages[1..];
      if NoDup(pages) {
        assert pages[0] !in pages[1..];
        forall i, j | 0 <= i < j < 1 + |rest| ensures ([pages[0]] + rest)[i] != ([pages[0]] + rest)[j] {
          assert rest[j - 1] in rest;
        }
      }
    }
  }

  /** The same memory, and the same records but for those of some absent pages. */
  ghost predicate SameBut(a: State, b: State, lost: set<nat>) {
    && a.mem == b.mem && a.snap.areas == b.snap.areas
    && (forall p :: p in lost ==> p !in a.mem.mapped && p !in a.mem.ptes)
    && (forall p :: p !in lost ==> (p in a.snap.records <==> p in b.snap.records))
    && (forall p :: p !in lost && p in a.snap.records ==> a.snap.records[p] == b.snap.records[p])
  }

  lemma WriteFaultSame(a: State, b: State, p: nat, reuse: bool, lost: set<nat>)
    requires SameBut(a, b, lost) && p in a.snap.records && p !in lost
    ensures SameBut(WriteFault(a, p, reuse), WriteFault(b, p, reuse), lost)
    ensures p in WriteFault(a, p, reuse).snap.records && p in WriteFault(b, p, reuse).snap.records
  {
    hide Exclusive, Contents;
  }

  lemma WriteSame(a: State, b: State, p: nat, c: Content, reuse: bool, lost: set<nat>)
    requires SameBut(a, b, lost) && p in a.snap.records && p !in lost
    ensures SameBut(Write(a, p, c, reuse), Write(b, p, c, reuse), lost)
    ensures p in Write(a, p, c, reuse).snap.records && p in Write(b, p, c, reuse).snap.records
  {
    WriteFaultSame(a, b, p, reuse, lost);
    hide WriteFault;
  }

  lemma CopyBackSame(a: State, b: State, p: nat, choices: Choices, lost: set<nat>)
    requires SameBut(a, b, lost) && p in a.snap.records && p !in lost
    requires a.snap.records[p].dirty && a.snap.records[p].copied
    ensures SameBut(RecoverPage(a, p, choices), RecoverPage(b, p, choices), lost)
  {
    WriteSame(a, b, p, SavedCopy(a.snap.records[p]), p in choices.reuse, lost);
    hide Write, Without, Zap, WriteProtect, SavedCopy, TableGone;
  }

  lemma RecoverPageSame(a: State, b: State, p: nat, choices: Choices, lost: set<nat>)
    requires SameBut(a, b, lost) && p in a.snap.records && p !in lost
    ensures SameBut(RecoverPage(a, p, choices), RecoverPage(b, p, choices), lost)
  {
    if a.snap.records[p].dirty && a.snap.records[p].copied {
      CopyBackSame(a, b, p, choices, lost);
      hide *;
    } else {
      hide Write, Without, Zap, WriteProtect, SavedCopy;
    }
  }

  lemma RecoverLostPage(a: State, b: State, p: nat, choices: Choices, lost: set<nat>)
    requires SameBut(a, b, lost) && p in a.snap.records && p in lost
    ensures SameBut(RecoverPage(a, p, choices), b, lost)
  {
    hide WriteFault, Without;
    assert a.mem.ptes - {p} == a.mem.ptes;
  }

  /** The loop does to the other pages what it would do if the absent ones were not listed. */
  lemma {:induction false} RecoverPagesSame(a: State, b: State, pages: seq<nat>, choices: Choices, lost: set<nat>)
    requires SameBut(a, b, lost)
    ensures SameBut(RecoverPages(a, pages, choices), RecoverPages(b, Except(pages, lost), choices), lost)
    decreases |pages|
  {
    if pages != [] {
      var p, rest := pages[0], pages[1..];
      var a' := if p in a.snap.records then RecoverPage(a, p, choices) else a;
      if p in lost {
        if p in a.snap.records { RecoverLostPage(a, b, p, choices, lost); }
        assert [] + Except(rest, lost) == Except(rest, lost);
        RecoverPagesSame(a', b, rest, choices, lost);
      } else {
        var b' := if p in b.snap.records then RecoverPage(b, p, choices) else b;
        if p in a.snap.records { RecoverPageSame(a, b, p, choices, lost); }
        assert ([p] + Except(rest, lost))[1..] == Except(rest, lost);
        RecoverPagesSame(a', b', rest, choices, lost);
      }
    }
  }

  /** The snapshot without the records of the lost pages is one that answers for all the others. */
  lemma ForgetInv(st: State, o: Origin)
    requires Inv(st, o)
    ensures var lost := LostPages(st);
            var b := State(st.mem, Snap(st.snap.records - lost, Except(st.snap.dirtyList, lost), st.snap.areas));
            && SameBut(st, b, lost) && DirtyMapped(b) && Inv(b, Origin(o.mem, o.reached - lost))
  {
    var lost, o' := LostPages(st), Origin(o.mem, o.reached - LostPages(st));
    var b := State(st.mem, Snap(st.snap.records - lost, Except(st.snap.dirtyList, lost), st.snap.areas));
    ExceptOk(st.snap.dirtyList, lost);
    forall p | p in b.snap.records ensures RecOk(b, o', p) {
      assert RecOk(st, o, p);
    }
    forall p | p in lost ensures p in o.mem.ptes {
      assert RecOk(st, o, p);
    }
  }

  /** A restore restores every tracked page that is mapped, whichever others have been lost. */
  lemma RestoreOk(st: State, o: Origin, choices: Choices)
    requires Inv(st, o)
    ensures var end := RecoverPages(st, st.snap.dirtyList, choices);
            && end.mem.mapped == st.mem.mapped && end.mem.files == st.mem.files
            && Restored(end.mem, o, st.snap.areas) && WellFormed(end.mem) && ForeignKept(end.mem, o)
            && (forall p :: p !in st.snap.dirtyList ==> Contents(end.mem, p) == Contents(st.mem, p))
  {
    var lost, o' := LostPages(st), Origin(o.mem, o.reached - LostPages(st));
    var b := State(st.mem, Snap(st.snap.records - lost, Except(st.snap.dirtyList, lost), st.snap.areas));
    ForgetInv(st, o);
    ExceptOk(st.snap.dirtyList, lost);
    RecoverPagesSame(st, b, st.snap.dirtyList, choices, lost);
    RecoverPagesInv(b, o', choices);
    EmptyListIsRestored(RecoverPages(b, b.snap.dirtyList, choices), o');
  }

  // ---- Whole pages ----------------------------------------------------------------------------------

  ghost predicate AlignedVmas(ss: seq<SnapVma>) {
    forall j :: 0 <= j < |ss| ==> PageAligned(ss[j].area.start) && PageAligned(ss[j].area.end)
  }

  /** Address `a` lies in page `p`. */
  predicate InPage(p: nat, a: nat) {
    PageAligned(p) && p <= a < p + PAGE_SIZE
  }

  /** The kernel maps whole pages. */
  ghost predicate WholePages(mapped: set<nat>) {
    forall p, a :: InPage(p, a) ==> (a in mapped <==> p in mapped)
  }

  lemma AlignedBounds(lo: nat, hi: nat, p: nat, a: nat)
    requires PageAligned(lo) && PageAligned(hi) && InPage(p, a)
    ensures lo <= a < hi <==> lo <= p < hi
  {
  }

  lemma VmasWholePages(ss: seq<SnapVma>, p: nat, a: nat)
    requires AlignedVmas(ss) && InPage(p, a)
    ensures InVmas(ss, a) <==> InVmas(ss, p)
    ensures InAnonVmas(ss, a) <==> InAnonVmas(ss, p)
  {
    forall j | 0 <= j < |ss| ensures Contains(ss[j].area, a) <==> Contains(ss[j].area, p) {
      AlignedBounds(ss[j].area.start, ss[j].area.end, p, a);
    }
  }

  lemma RefilledWholePages(cur: seq<Area>, ss: seq<SnapVma>, p: nat, a: nat)
    requires AlignedVmas(ss) && InPage(p, a)
    ensures Refilled(cur, ss, a) <==> Refilled(cur, ss, p)
  {
    forall j | 0 <= j < |ss| - 1
      ensures ss[j].area.end <= a < ss[j + 1].area.start <==> ss[j].area.end <= p < ss[j + 1].area.start
    {
      AlignedBounds(ss[j].area.end, ss[j + 1].area.start, p, a);
    }
  }

  lemma SweptWholePages(m: Mem, cur: seq<Area>, ss: seq<SnapVma>)
    requires WholePages(m.mapped) && Describes(cur, m) && SortedVmas(ss) && AlignedVmas(ss)
    requires forall j :: 0 <= j < |ss| ==> ss[j].area.end < ULONG_MAX
    ensures WholePages(SweepMem(m, cur, ss).mapped)
  {
    forall p: nat, a: nat | InPage(p, a) ensures a in SweepMem(m, cur, ss).mapped <==> p in SweepMem(m, cur, ss).mapped {
      VmasWholePages(ss, p, a);
      RefilledWholePages(cur, ss, p, a);
      SweptHere(m, cur, ss, a);
      SweptHere(m, cur, ss, p);
      hide Describes, SortedVmas, AlignedVmas, SweepMem, InVmas, InAnonVmas, Refilled;
    }
  }

  /** What the sweep leaves at one address. */
  lemma SweptHere(m: Mem, cur: seq<Area>, ss: seq<SnapVma>, a: nat)
    requires Describes(cur, m) && SortedVmas(ss) && forall j :: 0 <= j < |ss| ==> ss[j].area.end < ULONG_MAX
    ensures a in SweepMem(m, cur, ss).mapped
            <==> (InVmas(ss, a) && (a in m.mapped || InAnonVmas(ss, a))) || Refilled(cur, ss, a)
  {
  }

  lemma RangeWholePages(mapped: set<nat>, lo: nat, hi: nat)
    requires WholePages(mapped) && PageAligned(lo) && PageAligned(hi)
    ensures WholePages(mapped + Range(lo, hi)) && WholePages(mapped - Range(lo, hi))
  {
    forall p: nat, a: nat | InPage(p, a) ensures a in Range(lo, hi) <==> p in Range(lo, hi) {
      AlignedBounds(lo, hi, p, a);
    }
  }

  lemma {:induction false} RecoverPagesMapped(st: State, pages: seq<nat>, choices: Choices)
    ensures RecoverPages(st, pages, choices).mem.mapped == st.mem.mapped
    decreases |pages|
  {
    if pages != [] {
      var next := if pages[0] in st.snap.records then RecoverPage(st, pages[0], choices) else st;
      RecoverPagesMapped(next, pages[1..], choices);
    }
  }

  /** Every step maps and unmaps whole pages. */
  lemma ExecWholePages(st: State, s: Session, step: Step)
    requires WholePages(st.mem.mapped) && KernelAllows(st, step) && AlignedVmas(s.allVmas)
    requires SelectedFrom(st.snap.areas, s.allVmas)
    ensures WholePages(Exec(st, s, step).mem.mapped)
  {
    match step
    case DoWrite(_, _, _) =>
    case DoRead(_) =>
    case DoMunmap(lo, hi, visited) =>
      UnmapHookMem(st, visited);
      RangeWholePages(st.mem.mapped, lo, hi);
    case DoMmap(lo, hi, _) => RangeWholePages(st.mem.mapped, lo, hi);
    case DoRecover(cur, choices) =>
      if s.traceMmap { SweptWholePages(st.mem, cur, s.allVmas); }
      RecoverPagesMapped(SweptState(st, s, cur), st.snap.dirtyList, choices);
  }

  lemma {:induction false} UnmapHookMem(st: State, visited: seq<nat>)
    ensures UnmapHook(st, visited).mem == st.mem
    decreases |visited|
  {
    if visited != [] {
      UnmapHookMem(State(st.mem, RecordDirty(st.snap, visited[0], Contents(st.mem, visited[0]))), visited[1..]);
    }
  }

  lemma {:induction false} RunWholePages(st: State, o: Origin, s: Session, steps: seq<Step>)
    requires Inv(st, o) && SelectedFrom(st.snap.areas, s.allVmas) && ValidRun(st, s, steps)
    requires WholePages(st.mem.mapped) && AlignedVmas(s.allVmas)
    ensures WholePages(Run(st, s, steps).mem.mapped)
    decreases |steps|
  {
    if steps != [] {
      ExecInv(st, o, s, steps[0]);
      ExecWholePages(st, s, steps[0]);
      RunWholePages(Exec(st, s, steps[0]), o, s, steps[1..]);
    }
  }

  // ---- The lost page ----------------------------------------------------------------------------------

  /** A page that is marked clean and private though nothing is there. */
  ghost predicate Forgotten(st: State, p: nat) {
    && p in st.snap.records && !st.snap.records[p].dirty
    && st.snap.records[p].prot.isPrivate && !st.snap.records[p].prot.isNonePte
    && p !in st.mem.mapped && p !in st.mem.ptes
  }

  lemma {:induction false} RecoverPagesFrame(st: State, pages: seq<nat>, choices: Choices, p: nat)
    requires p !in pages && p in st.snap.records
    ensures var st' := RecoverPages(st, pages, choices);
            && p in st'.snap.records && st'.snap.records[p] == st.snap.records[p]
            && st'.mem.mapped == st.mem.mapped && (p in st'.mem.ptes <==> p in st.mem.ptes)
    decreases |pages|
  {
    if pages != [] {
      assert pages == [pages[0]] + pages[1..];
      var next := if pages[0] in st.snap.records then RecoverPage(st, pages[0], choices) else st;
      if pages[0] in st.snap.records { RecoverPageFrame(st, pages[0], choices, p); }
      hide RecoverPage;
      RecoverPagesFrame(next, pages[1..], choices, p);
    }
  }

  /** What becomes of a lost page: it is marked clean, and private unless its page table is gone. */
  lemma {:induction false} LostPageEnds(st: State, pages: seq<nat>, choices: Choices, p: nat)
    requires NoDup(pages) && p in pages && p in st.snap.records
    requires st.snap.records[p].dirty && st.snap.records[p].copied && p !in st.mem.mapped && p !in st.mem.ptes
    ensures var end, r := RecoverPages(st, pages, choices), st.snap.records[p];
            && p in end.snap.records && !end.snap.records[p].dirty && p !in end.mem.mapped && p !in end.mem.ptes
            && end.snap.records[p].prot == if p in choices.gone then r.prot else Prot(true, r.prot.isCow, r.prot.isNonePte)
    decreases |pages|
  {
    assert pages == [pages[0]] + pages[1..];
    var next := if pages[0] in st.snap.records then RecoverPage(st, pages[0], choices) else st;
    if pages[0] == p {
      assert p !in pages[1..];
      assert next.mem.mapped == st.mem.mapped && p !in next.mem.ptes && p in next.snap.records;
      hide RecoverPage;
      RecoverPagesFrame(next, pages[1..], choices, p);
    } else {
      if pages[0] in st.snap.records { RecoverPageFrame(st, pages[0], choices, p); }
      hide RecoverPage;
      LostPageEnds(next, pages[1..], choices, p);
    }
  }

  /** A process maps a forgotten page again, reads it, and stores to it: the store lands in the zero page. */
  lemma ForgottenPageWritesZeroPage(st: State, s: Session, p: nat, c: Content)
    requires Forgotten(st, p) && PageAligned(p) && WholePages(st.mem.mapped)
    requires |st.mem.frames| > ZERO_FRAME && p !in st.mem.files
    ensures var run := [DoMmap(p, p + PAGE_SIZE, map[]), DoRead(p), DoWrite(p, c, false)];
            KernelRun(st, s, run) && Run(st, s, run).mem.frames == st.mem.frames[ZERO_FRAME := c]
  {
    var run := [DoMmap(p, p + PAGE_SIZE, map[]), DoRead(p), DoWrite(p, c, false)];
    var st1 := Exec(st, s, run[0]);
    forall a: nat | p <= a < p + PAGE_SIZE ensures a !in st.mem.mapped {
      assert InPage(p, a);
    }
    assert p in Range(p, p + PAGE_SIZE);
    assert p in st1.mem.mapped && Backing(st1.mem, p) == ZERO_FRAME;
    var st2 := Exec(st1, s, run[1]);
    assert st2.mem.ptes[p] == Pte(ZERO_FRAME, false) && WpHandles(st2.snap, p);
    var st3 := Exec(st2, s, run[2]);
    assert run[1..] == [run[1], run[2]] && run[1..][1..] == [run[2]] && run[1..][1..][1..] == [];
    assert KernelRun(st2, s, [run[2]]) && KernelRun(st1, s, run[1..]);
    assert Run(st2, s, [run[2]]) == Run(st3, s, []) == st3;
  }

  // ---- When sharing stays safe --------------------------------------------------------------------------

  ghost predicate NoRestore(steps: seq<Step>) {
    forall i :: 0 <= i < |steps| ==> !steps[i].DoRecover?
  }

  /** No frame that something else saw at the take has changed. */
  ghost predicate OthersUnharmed(m: Mem, o: Origin) {
    forall f :: f in o.mem.foreign ==> f < |o.mem.frames| && f < |m.frames| && m.frames[f] == o.mem.frames[f]
  }

  /** Whatever the process does until the next restore, nobody else sees a change. */
  ghost predicate StaysSafe(st: State, s: Session, o: Origin) {
    forall steps: seq<Step> :: NoRestore(steps) && KernelRun(st, s, steps) ==> OthersUnharmed(Run(st, s, steps).mem, o)
  }

  lemma {:induction false} NoRestoreInv(st: State, o: Origin, s: Session, steps: seq<Step>)
    requires Inv(st, o) && SelectedFrom(st.snap.areas, s.allVmas) && NoRestore(steps) && KernelRun(st, s, steps)
    ensures OthersUnharmed(Run(st, s, steps).mem, o)
    decreases |steps|
  {
    if steps != [] {
      ExecInv(st, o, s, steps[0]);
      NoRestoreInv(Exec(st, s, steps[0]), o, s, steps[1..]);
    }
  }

  /** The pages of a lost one: saved at the take, and therefore aligned. */
  lemma LostPage(st: State, o: Origin, p: nat)
    requires Inv(st, o) && p in LostPages(st)
    ensures p in o.mem.ptes && p in st.snap.dirtyList && p !in st.mem.ptes && p !in st.mem.files
    ensures st.snap.records[p].copied && !st.snap.records[p].prot.isNonePte
  {
    assert RecOk(st, o, p);
  }

  /** A page whose loss does harm: lost, and private or about to be marked so. */
  predicate Harmful(st: State, p: nat, choices: Choices) {
    p in LostPages(st) && (p !in choices.gone || st.snap.records[p].prot.isPrivate)
  }

  /** From any state of the invariant with such a page: the walk over the dirty list, then a store to that page. */
  lemma LostPageStore(st: State, o: Origin, s: Session, choices: Choices, p: nat, c: Content)
    requires Inv(st, o) && Harmful(st, p, choices) && PageAligned(p) && WholePages(st.mem.mapped)
    ensures var end := RecoverPages(st, st.snap.dirtyList, choices);
            var run := [DoMmap(p, p + PAGE_SIZE, map[]), DoRead(p), DoWrite(p, c, false)];
            && KernelRun(end, s, run) && ZERO_FRAME < |Run(end, s, run).mem.frames|
            && Run(end, s, run).mem.frames[ZERO_FRAME] == c
  {
    var end := RecoverPages(st, st.snap.dirtyList, choices);
    LostPage(st, o, p);
    LostPageEnds(st, st.snap.dirtyList, choices, p);
    RestoreOk(st, o, choices);
    RecoverKeepsFrames(st, st.snap.dirtyList, choices);
    assert Forgotten(end, p) && |end.mem.frames| > ZERO_FRAME && p !in end.mem.files;
    hide Inv, RecoverPages, LostPages, Restored, Forgotten, WellFormed, ForeignKept;
    ForgottenPageWritesZeroPage(end, s, p, c);
  }

  lemma LossHarms(st: State, o: Origin, s: Session, choices: Choices, p: nat)
    requires Inv(st, o) && Harmful(st, p, choices) && PageAligned(p) && WholePages(st.mem.mapped)
    ensures !StaysSafe(RecoverPages(st, st.snap.dirtyList, choices), s, o)
  {
    var end, c := RecoverPages(st, st.snap.dirtyList, choices), seq(PAGE_SIZE, i => 1 as Byte);
    var run := [DoMmap(p, p + PAGE_SIZE, map[]), DoRead(p), DoWrite(p, c, false)];
    LostPageStore(st, o, s, choices, p, c);
    assert |o.mem.frames| > ZERO_FRAME && ZERO_FRAME in o.mem.foreign && o.mem.frames[ZERO_FRAME] == ZERO_PAGE;
    hide Inv, RecoverPages, Harmful, WholePages;
    assert c[0] != ZERO_PAGE[0];
    RunHarms(end, s, o, run);
  }

  lemma RunHarms(st: State, s: Session, o: Origin, run: seq<Step>)
    requires KernelRun(st, s, run) && NoRestore(run)
    requires ZERO_FRAME in o.mem.foreign && ZERO_FRAME < |o.mem.frames|
    requires ZERO_FRAME < |Run(st, s, run).mem.frames| ==>
               Run(st, s, run).mem.frames[ZERO_FRAME] != o.mem.frames[ZERO_FRAME]
    ensures !StaysSafe(st, s, o)
  {
    assert !OthersUnharmed(Run(st, s, run).mem, o);
  }

  lemma {:induction false} RecoverKeepsFrames(st: State, pages: seq<nat>, choices: Choices)
    ensures |RecoverPages(st, pages, choices).mem.frames| >= |st.mem.frames|
    decreases |pages|
  {
    if pages != [] {
      var next := if pages[0] in st.snap.records then RecoverPage(st, pages[0], choices) else st;
      RecoverKeepsFrames(next, pages[1..], choices);
    }
  }

  // ---- Lost pages that do no harm -----------------------------------------------------------------------

  /** The same memory, and the same records but for those of pages that the fault hook will not handle. */
  ghost predicate SameFaults(a: State, b: State, lost: set<nat>) {
    && a.mem == b.mem && a.snap.areas == b.snap.areas
    && (forall p :: p !in lost ==> (p in a.snap.records <==> p in b.snap.records))
    && (forall p :: p !in lost && p in a.snap.records ==> a.snap.records[p] == b.snap.records[p])
    && (forall p :: p in lost && p in a.snap.records ==> !a.snap.records[p].prot.isPrivate)
    && (forall p :: p in lost && p in b.snap.records ==> !b.snap.records[p].prot.isPrivate)
  }

  lemma RecordDirtySame(a: State, b: State, p: nat, c: Content, lost: set<nat>)
    requires SameFaults(a, b, lost)
    ensures SameFaults(State(a.mem, RecordDirty(a.snap, p, c)), State(b.mem, RecordDirty(b.snap, p, c)), lost)
    ensures WpHandles(a.snap, p) <==> WpHandles(b.snap, p)
  {
  }

  lemma RmapHookSame(a: State, b: State, p: nat, lost: set<nat>)
    requires SameFaults(a, b, lost)
    ensures SameFaults(State(a.mem, RmapHook(a.snap, p)), State(b.mem, RmapHook(b.snap, p)), lost)
  {
  }

  lemma WriteFaultSameFaults(a: State, b: State, p: nat, reuse: bool, lost: set<nat>)
    requires SameFaults(a, b, lost)
    ensures SameFaults(WriteFault(a, p, reuse), WriteFault(b, p, reuse), lost)
  {
    if p !in a.mem.ptes {
      RmapHookSame(a, b, p, lost);
      hide RmapHook, CowFault;
    } else if !a.mem.ptes[p].writable {
      var content := Contents(a.mem, p);
      var a', b' := State(a.mem, RecordDirty(a.snap, p, content)), State(b.mem, RecordDirty(b.snap, p, content));
      RecordDirtySame(a, b, p, content, lost);
      RmapHookSame(a', b', p, lost);
      hide RecordDirty, RmapHook, WpHandles, Exclusive, Contents, CowFault, MakeWritable;
    }
  }

  lemma WriteSameFaults(a: State, b: State, p: nat, c: Content, reuse: bool, lost: set<nat>)
    requires SameFaults(a, b, lost)
    ensures SameFaults(Write(a, p, c, reuse), Write(b, p, c, reuse), lost)
  {
    WriteFaultSameFaults(a, b, p, reuse, lost);
    hide WriteFault, Store;
  }

  lemma {:induction false} UnmapHookSame(a: State, b: State, visited: seq<nat>, lost: set<nat>)
    requires SameFaults(a, b, lost)
    ensures SameFaults(UnmapHook(a, visited), UnmapHook(b, visited), lost)
    decreases |visited|
  {
    if visited != [] {
      var p, c := visited[0], Contents(a.mem, visited[0]);
      RecordDirtySame(a, b, p, c, lost);
      hide RecordDirty;
      UnmapHookSame(State(a.mem, RecordDirty(a.snap, p, c)), State(b.mem, RecordDirty(b.snap, p, c)), visited[1..], lost);
    }
  }

  lemma {:induction false} NoRestoreSame(a: State, b: State, s: Session, steps: seq<Step>, lost: set<nat>)
    requires SameFaults(a, b, lost) && NoRestore(steps) && KernelRun(a, s, steps)
    ensures KernelRun(b, s, steps) && Run(a, s, steps).mem == Run(b, s, steps).mem
    decreases |steps|
  {
    if steps != [] {
      var step := steps[0];
      match step {
        case DoWrite(p, c, reuse) => WriteSameFaults(a, b, p, c, reuse, lost);
        case DoRead(_) =>
        case DoMunmap(_, _, visited) => UnmapHookSame(a, b, visited, lost);
        case DoMmap(_, _, _) =>
        case DoRecover(_, _) =>
      }
      assert !step.DoRecover? && SameFaults(Exec(a, s, step), Exec(b, s, step), lost);
      hide Exec, SameFaults;
      NoRestoreSame(Exec(a, s, step), Exec(b, s, step), s, steps[1..], lost);
    }
  }

  /** With no harmful page the walk leaves a state that faults as one of the invariant does. */
  lemma HarmlessLoss(st: State, o: Origin, choices: Choices) returns (b: State, o': Origin)
    requires Inv(st, o) && forall p :: !Harmful(st, p, choices)
    ensures SameFaults(RecoverPages(st, st.snap.dirtyList, choices), b, LostPages(st))
    ensures Inv(b, o') && b.snap.areas == st.snap.areas && o'.mem == o.mem
  {
    var lost, list := LostPages(st), st.snap.dirtyList;
    o' := Origin(o.mem, o.reached - lost);
    var forgot := State(st.mem, Snap(st.snap.records - lost, Except(list, lost), st.snap.areas));
    ForgetInv(st, o);
    ExceptOk(list, lost);
    RecoverPagesSame(st, forgot, list, choices, lost);
    RecoverPagesInv(forgot, o', choices);
    b := RecoverPages(forgot, forgot.snap.dirtyList, choices);
    RecoverPagesKeys(forgot, forgot.snap.dirtyList, choices);
    forall p | p in lost
      ensures p in RecoverPages(st, list, choices).snap.records
      ensures !RecoverPages(st, list, choices).snap.records[p].prot.isPrivate
    {
      assert !Harmful(st, p, choices);
      LostPage(st, o, p);
      LostPageEnds(st, list, choices, p);
    }
    hide Inv, RecoverPages, Except;
  }

  /**
    After a walk over the dirty list nothing the process does, short of another restore, can change a frame
    that others see, iff every dirty page was mapped, or else has lost its page table and was never private.
   */
  lemma StaysSafeIff(st: State, o: Origin, s: Session, choices: Choices)
    requires Inv(st, o) && SelectedFrom(st.snap.areas, s.allVmas) && WholePages(st.mem.mapped)
    requires forall p :: p in o.mem.ptes ==> PageAligned(p)
    ensures StaysSafe(RecoverPages(st, st.snap.dirtyList, choices), s, o) <==> forall p :: !Harmful(st, p, choices)
  {
    var end := RecoverPages(st, st.snap.dirtyList, choices);
    if p :| Harmful(st, p, choices) {
      LostPage(st, o, p);
      LossHarms(st, o, s, choices, p);
    } else {
      var b, o' := HarmlessLoss(st, o, choices);
      forall steps | NoRestore(steps) && KernelRun(end, s, steps) ensures OthersUnharmed(Run(end, s, steps).mem, o) {
        NoRestoreSame(end, b, s, steps, LostPages(st));
        NoRestoreInv(b, o', s, steps);
      }
    }
  }
}
