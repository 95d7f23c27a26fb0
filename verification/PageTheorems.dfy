/**
  The main results about the page engine, and the places where the code falls short of what its
  users would expect, each with the exact condition under which it does not.
 */
module PageTheorems {
  import opened Basics
  import opened Kernel
  import opened PageSpec
  import opened PageInvariant
  import opened PageRuns
  import opened PageLoss
  import opened SweepSpec

  // ---- Every restore ------------------------------------------------------------------------------

  /** What is true just after a restore; pages still listed are clean ones that could not be written back. */
  ghost predicate BackToOrigin(st: State, o: Origin) {
    && Restored(st.mem, o, st.snap.areas)
    && ListOk(st.snap)
    && (forall p :: p in st.snap.records ==> !st.snap.records[p].dirty)
  }

  /** A restore of any state that a run can reach. */
  lemma RestoreIsExact(st: State, o: Origin, s: Session, cur: seq<Area>, choices: Choices)
    requires Inv(st, o) && SelectedFrom(st.snap.areas, s.allVmas) && Describes(cur, st.mem)
    ensures var end := Recover(st, s, cur, choices);
            && BackToOrigin(end, o) && end.snap.areas == st.snap.areas
            && (forall p :: p in end.snap.dirtyList <==> Stranded(SweptState(st, s, cur), p, choices))
            && WellFormed(end.mem) && ForeignKept(end.mem, o)
            && end.mem.mapped == SweptState(st, s, cur).mem.mapped && end.mem.files == SweptState(st, s, cur).mem.files
            && (forall p :: p !in st.snap.dirtyList ==> Contents(end.mem, p) == Contents(SweptState(st, s, cur).mem, p))
  {
    var swept := SweptState(st, s, cur);
    SweptStateInv(st, o, s, cur);
    InvIsStable(swept, o);
    WalkLeavesStranded(swept, choices);
    RestoreOk(swept, o, choices);
  }

  /**
    For every run of stores, loads, unmaps, maps and earlier restores after a take, the restore at its end
    gives every tracked page that is mapped its take-time content (or, if it was absent then, what backs it
    now), and leaves no page dirty; on the list stay exactly the dirty pages that are not mapped and whose
    page table is gone.  The earlier restores must have found their dirty pages mapped; the last one may not.
   */
  lemma EveryRestoreIsExact(m: Mem, areas: seq<Area>, pages: seq<nat>, s: Session, before: seq<Step>,
                            cur: seq<Area>, choices: Choices)
    requires TakeOk(m, areas, pages) && SelectedFrom(areas, s.allVmas)
    requires ValidRun(Take(m, areas, pages), s, before) && Describes(cur, Run(Take(m, areas, pages), s, before).mem)
    ensures var st := Run(Take(m, areas, pages), s, before);
            var end := Recover(st, s, cur, choices);
            && BackToOrigin(end, OriginOf(m, pages)) && end.snap.areas == areas
            && (forall p :: p in end.snap.dirtyList <==> Stranded(SweptState(st, s, cur), p, choices))
  {
    TakeStartsInv(m, areas, pages);
    RunInv(Take(m, areas, pages), OriginOf(m, pages), s, before);
    RestoreIsExact(Run(Take(m, areas, pages), s, before), OriginOf(m, pages), s, cur, choices);
  }

  // ---- Replaced pages -----------------------------------------------------------------------------

  /** A page that was absent at the take and whose mapping has since been replaced by one that reads differently. */
  ghost predicate Replaced(m: Mem, o: Origin, p: nat) {
    p !in o.mem.ptes && FrameContent(m, Backing(m, p)) != Contents(o.mem, p)
  }

  /** What backs a page reads the same in any two states of a run. */
  lemma SameBacking(m: Mem, m': Mem, o: Origin, p: nat)
    requires WellFormed(m) && WellFormed(m') && ForeignKept(m, o) && ForeignKept(m', o) && Backing(m, p) == Backing(m', p)
    ensures FrameContent(m, Backing(m, p)) == FrameContent(m', Backing(m', p))
  {
    assert Backing(m, p) in m.foreign && Backing(m', p) in m'.foreign;
  }

  lemma SweptContents(st: State, o: Origin, s: Session, cur: seq<Area>, p: nat)
    requires Inv(st, o) && SelectedFrom(st.snap.areas, s.allVmas) && Describes(cur, st.mem) && InAreas(st.snap.areas, p)
    ensures var swept := SweptState(st, s, cur);
            && Inv(swept, o) && swept.snap == st.snap
            && Contents(swept.mem, p) == Contents(st.mem, p) && Backing(swept.mem, p) == Backing(st.mem, p)
  {
    SweptStateInv(st, o, s, cur);
    if s.traceMmap { SweepInv(st, o, cur, s.allVmas); }
  }

  /** A restore does not change what backs a selected page. */
  lemma RestoreKeepsBacking(st: State, o: Origin, s: Session, cur: seq<Area>, choices: Choices, p: nat)
    requires Inv(st, o) && SelectedFrom(st.snap.areas, s.allVmas) && Describes(cur, st.mem) && InAreas(st.snap.areas, p)
    ensures var end := Recover(st, s, cur, choices).mem;
            && Backing(end, p) == Backing(st.mem, p)
            && FrameContent(end, Backing(end, p)) == FrameContent(st.mem, Backing(st.mem, p))
  {
    SweptContents(st, o, s, cur, p);
    RestoreIsExact(st, o, s, cur, choices);
    SameBacking(st.mem, Recover(st, s, cur, choices).mem, o, p);
  }

  /** A tracked page that is mapped after a restore holds its take-time content iff it was not replaced before. */
  lemma RestoredUnlessReplaced(st: State, o: Origin, s: Session, cur: seq<Area>, choices: Choices, p: nat)
    requires Inv(st, o) && SelectedFrom(st.snap.areas, s.allVmas) && Describes(cur, st.mem)
    requires Tracked(o, st.snap.areas, p) && p in SweptState(st, s, cur).mem.mapped
    ensures Contents(Recover(st, s, cur, choices).mem, p) == Contents(o.mem, p) <==> !Replaced(st.mem, o, p)
  {
    RestoreIsExact(st, o, s, cur, choices);
    RestoreKeepsBacking(st, o, s, cur, choices, p);
  }

  /** The run maps no file over page `p`. */
  ghost predicate NoFileAt(steps: seq<Step>, p: nat) {
    forall i :: 0 <= i < |steps| && steps[i].DoMmap? ==> p !in steps[i].files
  }

  /** The run unmaps nothing over page `p`. */
  ghost predicate NotUnmapped(steps: seq<Step>, p: nat) {
    forall i :: 0 <= i < |steps| && steps[i].DoMunmap? ==> !(steps[i].lo <= p < steps[i].hi)
  }

  lemma AnonymousStep(st: State, o: Origin, s: Session, step: Step, p: nat)
    requires Inv(st, o) && SelectedFrom(st.snap.areas, s.allVmas) && Enabled(st, s, step)
    requires (step.DoMmap? ==> p !in step.files) && p !in st.mem.files
    ensures p !in Exec(st, s, step).mem.files
  {
    match step
    case DoWrite(q, c, reuse) => WriteInv(st, o, q, c, reuse);
    case DoRead(_) =>
    case DoMunmap(_, _, visited) => UnmapHookMem(st, visited);
    case DoMmap(_, _, _) =>
    case DoRecover(cur, choices) => RestoreIsExact(st, o, s, cur, choices);
  }

  /** An anonymous page stays anonymous in a run that maps no file over it. */
  lemma {:induction false} AnonymousStays(st: State, o: Origin, s: Session, steps: seq<Step>, p: nat)
    requires Inv(st, o) && SelectedFrom(st.snap.areas, s.allVmas) && ValidRun(st, s, steps)
    requires NoFileAt(steps, p) && p !in st.mem.files
    ensures p !in Run(st, s, steps).mem.files
    decreases |steps|
  {
    if steps != [] {
      ExecInv(st, o, s, steps[0]);
      AnonymousStep(st, o, s, steps[0], p);
      hide Inv, SelectedFrom, Enabled, Exec;
      AnonymousStays(Exec(st, s, steps[0]), o, s, steps[1..], p);
    }
  }

  lemma MappedStep(st: State, o: Origin, s: Session, step: Step, p: nat)
    requires Inv(st, o) && SelectedFrom(st.snap.areas, s.allVmas) && Enabled(st, s, step)
    requires (step.DoMunmap? ==> !(step.lo <= p < step.hi)) && p in st.mem.mapped && InAreas(st.snap.areas, p)
    ensures p in Exec(st, s, step).mem.mapped && Backing(Exec(st, s, step).mem, p) == Backing(st.mem, p)
  {
    match step
    case DoWrite(q, c, reuse) => WriteInv(st, o, q, c, reuse);
    case DoRead(_) =>
    case DoMunmap(_, _, visited) => UnmapHookMem(st, visited);
    case DoMmap(_, _, _) =>
    case DoRecover(cur, choices) =>
      RestoreKeepsBacking(st, o, s, cur, choices, p);
      RestoredPagesAreMapped(st, o, s, cur, choices, p);
  }

  /** A selected page that is mapped stays so, and backed as it is, in a run that does not unmap it, whatever else it does. */
  lemma {:induction false} MappedStays(st: State, o: Origin, s: Session, steps: seq<Step>, p: nat)
    requires Inv(st, o) && SelectedFrom(st.snap.areas, s.allVmas) && ValidRun(st, s, steps)
    requires NotUnmapped(steps, p) && p in st.mem.mapped && InAreas(st.snap.areas, p)
    ensures p in Run(st, s, steps).mem.mapped && Backing(Run(st, s, steps).mem, p) == Backing(st.mem, p)
    decreases |steps|
  {
    if steps != [] {
      ExecInv(st, o, s, steps[0]);
      MappedStep(st, o, s, steps[0], p);
      hide Inv, SelectedFrom, Enabled, Exec, Backing;
      MappedStays(Exec(st, s, steps[0]), o, s, steps[1..], p);
    }
  }

  /** So neither the one nor the other is replaced. */
  lemma NotReplaced(m: Mem, areas: seq<Area>, pages: seq<nat>, s: Session, steps: seq<Step>, p: nat)
    requires TakeOk(m, areas, pages) && SelectedFrom(areas, s.allVmas) && ValidRun(Take(m, areas, pages), s, steps)
    requires InAreas(areas, p)
    requires (NoFileAt(steps, p) && p !in m.files) || (NotUnmapped(steps, p) && p in m.mapped)
    ensures !Replaced(Run(Take(m, areas, pages), s, steps).mem, OriginOf(m, pages), p)
  {
    var start, o := Take(m, areas, pages), OriginOf(m, pages);
    TakeStartsInv(m, areas, pages);
    RunInv(start, o, s, steps);
    if NoFileAt(steps, p) && p !in m.files {
      AnonymousStays(start, o, s, steps, p);
    } else {
      MappedStays(start, o, s, steps, p);
    }
    SameBacking(m, Run(start, s, steps).mem, o, p);
    hide Take, Run, ValidRun, Inv;
  }

  /** Unmaps an untouched page and maps frame `f` of a file in its place. */
  function ReplaceRun(p: nat, f: nat): seq<Step> {
    [DoMunmap(p, p + PAGE_SIZE, []), DoMmap(p, p + PAGE_SIZE, map[p := f])]
  }

  lemma Replacing(m: Mem, areas: seq<Area>, pages: seq<nat>, s: Session, p: nat, f: nat)
    requires TakeOk(m, areas, pages) && PageAligned(p) && p in m.mapped && p !in m.ptes && f in m.foreign
    requires forall q :: q in m.ptes ==> PageAligned(q)
    ensures var start, run := Take(m, areas, pages), ReplaceRun(p, f);
            && ValidRun(start, s, run) && Run(start, s, run).snap == start.snap
            && Backing(Run(start, s, run).mem, p) == f && Run(start, s, run).mem.mapped == m.mapped + Range(p, p + PAGE_SIZE)
  {
    var start, run := Take(m, areas, pages), ReplaceRun(p, f);
    TakeStartsInv(m, areas, pages);
    forall q | q in start.mem.ptes ensures !(p <= q < p + PAGE_SIZE) {
      PagesApart(p, q);
    }
    hide Take, TakeOk;
    ReplacingSteps(start, s, p, f);
    hide *;
  }

  lemma ReplacingSteps(start: State, s: Session, p: nat, f: nat)
    requires PageAligned(p) && f in start.mem.foreign
    requires forall q :: q in start.mem.ptes ==> !(p <= q < p + PAGE_SIZE)
    ensures var run := ReplaceRun(p, f);
            && ValidRun(start, s, run) && Run(start, s, run).snap == start.snap
            && Backing(Run(start, s, run).mem, p) == f
            && Run(start, s, run).mem.mapped == start.mem.mapped + Range(p, p + PAGE_SIZE)
  {
    var run := ReplaceRun(p, f);
    var st1 := Exec(start, s, run[0]);
    assert st1 == State(UnmapRange(start.mem, p, p + PAGE_SIZE), start.snap);
    var st2 := Exec(st1, s, run[1]);
    assert p in Range(p, p + PAGE_SIZE);
    assert st2.mem.mapped == start.mem.mapped + Range(p, p + PAGE_SIZE) && Backing(st2.mem, p) == f;
    assert Enabled(start, s, run[0]) && Enabled(st1, s, run[1]);
    assert run == [run[0]] + [run[1]] && [run[1]] == [run[1]] + [];
    hide Exec, Enabled, Backing, UnmapRange, Range, PageAligned;
    assert ValidRun(st2, s, []) && Run(st2, s, []) == st2;
    assert run[1..] == [run[1]] && run[1..][1..] == [];
    assert ValidRun(st1, s, run[1..]) && Run(st1, s, run[1..]) == st2;
  }

  lemma PagesApart(p: nat, q: nat)
    requires PageAligned(p) && PageAligned(q)
    ensures p <= q < p + PAGE_SIZE ==> p == q
  {
  }

  /**
    Every page that was absent at the take can be replaced, with MMAP as without: the process unmaps it and
    maps a file there, and the next restore leaves it showing the file.
   */
  lemma ReplacedPageShowsFile(m: Mem, areas: seq<Area>, pages: seq<nat>, s: Session, p: nat, f: nat,
                              cur: seq<Area>, choices: Choices)
    requires TakeOk(m, areas, pages) && SelectedFrom(areas, s.allVmas) && forall q :: q in m.ptes ==> PageAligned(q)
    requires PageAligned(p) && p in m.mapped && p !in m.ptes && f in m.foreign && InAreas(areas, p)
    requires Describes(cur, Run(Take(m, areas, pages), s, ReplaceRun(p, f)).mem)
    ensures var start, run := Take(m, areas, pages), ReplaceRun(p, f) + [DoRecover(cur, choices)];
            && ValidRun(start, s, run) && p in Run(start, s, run).mem.mapped
            && Contents(Run(start, s, run).mem, p) == FrameContent(m, f)
  {
    var start, o := Take(m, areas, pages), OriginOf(m, pages);
    var st := Run(start, s, ReplaceRun(p, f));
    TakeStartsInv(m, areas, pages);
    Replacing(m, areas, pages, s, p, f);
    RunInv(start, o, s, ReplaceRun(p, f));
    ShowsFile(st, o, s, cur, choices, p, f);
    assert Enabled(st, s, DoRecover(cur, choices)) && Exec(st, s, DoRecover(cur, choices)) == Recover(st, s, cur, choices);
    RunSnoc(start, s, ReplaceRun(p, f), DoRecover(cur, choices));
    SameFrame(m, Recover(st, s, cur, choices).mem, o, f);
    hide *;
  }

  lemma ShowsFile(st: State, o: Origin, s: Session, cur: seq<Area>, choices: Choices, p: nat, f: nat)
    requires Inv(st, o) && SelectedFrom(st.snap.areas, s.allVmas) && Describes(cur, st.mem)
    requires InAreas(st.snap.areas, p) && p !in o.mem.ptes && p in st.mem.mapped && Backing(st.mem, p) == f
    ensures var end := Recover(st, s, cur, choices).mem;
            && WellFormed(end) && ForeignKept(end, o) && p in end.mapped && Contents(end, p) == FrameContent(end, f)
  {
    RestoreIsExact(st, o, s, cur, choices);
    RestoreKeepsBacking(st, o, s, cur, choices, p);
    RestoredPagesAreMapped(st, o, s, cur, choices, p);
  }

  lemma SameFrame(m: Mem, m': Mem, o: Origin, f: nat)
    requires WellFormed(m) && ForeignKept(m', o) && m == o.mem && f in m.foreign
    ensures FrameContent(m', f) == FrameContent(m, f)
  {
  }

  /** For one: a page of anonymous memory held zeroes at the take, and shows the file `d` after the restore. */
  lemma ReplacedPageExists(traceMmap: bool, d: Content)
    ensures var page, end := PAGE_SIZE, 2 * PAGE_SIZE;
            var m := Mem(Range(page, end), map[], [ZERO_PAGE, d], {ZERO_FRAME, 1}, map[]);
            var areas, s := [Area(page, end)], Session(traceMmap, [SnapVma(Area(page, end), true)]);
            var run := ReplaceRun(page, 1) + [DoRecover(areas, TABLES_KEPT)];
            && TakeOk(m, areas, []) && SelectedFrom(areas, s.allVmas) && ValidRun(Take(m, areas, []), s, run)
            && Contents(m, page) == ZERO_PAGE && Contents(Run(Take(m, areas, []), s, run).mem, page) == d
  {
    var page, end := PAGE_SIZE, 2 * PAGE_SIZE;
    var m := Mem(Range(page, end), map[], [ZERO_PAGE, d], {ZERO_FRAME, 1}, map[]);
    var areas, s := [Area(page, end)], Session(traceMmap, [SnapVma(Area(page, end), true)]);
    assert Contains(areas[0], page);
    forall p: nat | InAreas(areas, p) ensures InVmas(s.allVmas, p) { assert Contains(s.allVmas[0].area, p); }
    Replacing(m, areas, [], s, page, 1);
    assert Range(page, end) + Range(page, end) == Range(page, end);
    RangeDescribed(page, end, Run(Take(m, areas, []), s, ReplaceRun(page, 1)).mem);
    hide Take, Run, ValidRun, ReplaceRun;
    ReplacedPageShowsFile(m, areas, [], s, page, 1, areas, TABLES_KEPT);
  }

  /** Of the selected pages a restore leaves mapped those that were and, under MMAP, the anonymous ones. */
  lemma RestoredPagesAreMapped(st: State, o: Origin, s: Session, cur: seq<Area>, choices: Choices, p: nat)
    requires Inv(st, o) && SelectedFrom(st.snap.areas, s.allVmas) && Describes(cur, st.mem)
    requires InAreas(st.snap.areas, p)
    ensures p in Recover(st, s, cur, choices).mem.mapped
            <==> p in st.mem.mapped || (s.traceMmap && InAnonVmas(s.allVmas, p))
  {
    if s.traceMmap { SweepInv(st, o, cur, s.allVmas); }
    RestoreIsExact(st, o, s, cur, choices);
  }

  /** A page of an area that was listed but not selected: a restore leaves alone what is there. */
  lemma UnselectedPageIsKept(st: State, o: Origin, s: Session, cur: seq<Area>, choices: Choices, p: nat)
    requires Inv(st, o) && SelectedFrom(st.snap.areas, s.allVmas) && Describes(cur, st.mem)
    requires InVmas(s.allVmas, p) && !InAreas(st.snap.areas, p)
    ensures var end := Recover(st, s, cur, choices).mem;
            && Contents(end, p) == Contents(st.mem, p) && p !in st.snap.records
            && (p in end.mapped <==> p in st.mem.mapped || (s.traceMmap && InAnonVmas(s.allVmas, p)))
  {
    forall q | q in st.snap.records ensures InAreas(st.snap.areas, q) { assert RecOk(st, o, q); }
    RestoreIsExact(st, o, s, cur, choices);
    if s.traceMmap { SweptPage(st.mem, cur, s.allVmas, p); }
    hide Inv, Recover, SweepMem;
  }

  // ---- Sharing ------------------------------------------------------------------------------------

  /**
    At every point of every run the fault hook only ever makes an exclusively owned frame writable,
    and no frame that anything else can see has changed: not by the process, not by a restore.
   */
  lemma SharingIsSafe(m: Mem, areas: seq<Area>, pages: seq<nat>, s: Session, steps: seq<Step>)
    requires TakeOk(m, areas, pages) && SelectedFrom(areas, s.allVmas)
    requires ValidRun(Take(m, areas, pages), s, steps)
    ensures var st := Run(Take(m, areas, pages), s, steps);
            && (forall p :: p in st.mem.ptes && WpHandles(st.snap, p) ==> Exclusive(st.mem, p))
            && OthersUnharmed(st.mem, OriginOf(m, pages))
  {
    var st, o := Run(Take(m, areas, pages), s, steps), OriginOf(m, pages);
    TakeStartsInv(m, areas, pages);
    RunInv(Take(m, areas, pages), o, s, steps);
    forall p | WpHandles(st.snap, p) ensures Exclusive(st.mem, p) {
      HandledFaultIsExclusive(st, o, p);
    }
  }

  /**
    Why the runs above ask that restores find their dirty pages mapped: after a restore nothing the process
    does short of another restore can change a frame that others see, iff each dirty page was mapped, or else
    had lost its page table and was not private.
   */
  lemma SharingLastsIff(m: Mem, areas: seq<Area>, pages: seq<nat>, s: Session, before: seq<Step>,
                        cur: seq<Area>, choices: Choices)
    requires TakeOk(m, areas, pages) && SelectedFrom(areas, s.allVmas)
    requires WholePages(m.mapped) && AlignedVmas(s.allVmas) && forall p :: p in m.ptes ==> PageAligned(p)
    requires ValidRun(Take(m, areas, pages), s, before) && Describes(cur, Run(Take(m, areas, pages), s, before).mem)
    ensures var st := Run(Take(m, areas, pages), s, before);
            StaysSafe(Recover(st, s, cur, choices), s, OriginOf(m, pages))
            <==> forall p :: !Harmful(SweptState(st, s, cur), p, choices)
  {
    var start, o := Take(m, areas, pages), OriginOf(m, pages);
    TakeStartsInv(m, areas, pages);
    RunInv(start, o, s, before);
    RunWholePages(start, o, s, before);
    var st := Run(start, s, before);
    SweptStateInv(st, o, s, cur);
    if s.traceMmap { SweptWholePages(st.mem, cur, s.allVmas); }
    StaysSafeIff(SweptState(st, s, cur), o, s, choices);
  }

  /** Under MMAP the restore finds them so iff no dirty page lies in a lost area that is not anonymous. */
  lemma DirtyMappedIff(st: State, o: Origin, s: Session, cur: seq<Area>)
    requires Inv(st, o) && SelectedFrom(st.snap.areas, s.allVmas) && Describes(cur, st.mem) && s.traceMmap
    ensures DirtyMapped(SweptState(st, s, cur))
            <==> forall p :: p in st.snap.records && st.snap.records[p].dirty && !InAnonVmas(s.allVmas, p) ==>
                   InAreas(cur, p)
  {
    SweepInv(st, o, cur, s.allVmas);
    forall p | p in st.snap.records ensures InAreas(st.snap.areas, p) && (p in st.mem.mapped <==> InAreas(cur, p)) {
      assert RecOk(st, o, p);
    }
  }

  /** So under MMAP, with anonymous areas only, every run that the kernel allows will do. */
  lemma {:induction false} AnonymousRunIsValid(st: State, o: Origin, s: Session, steps: seq<Step>)
    requires Inv(st, o) && SelectedFrom(st.snap.areas, s.allVmas) && KernelRun(st, s, steps)
    requires s.traceMmap && forall p: nat :: InAreas(st.snap.areas, p) ==> InAnonVmas(s.allVmas, p)
    ensures ValidRun(st, s, steps)
    decreases |steps|
  {
    if steps != [] {
      if steps[0].DoRecover? {
        forall p | p in st.snap.records ensures InAnonVmas(s.allVmas, p) { assert RecOk(st, o, p); }
        DirtyMappedIff(st, o, s, steps[0].cur);
      }
      ExecInv(st, o, s, steps[0]);
      AnonymousRunIsValid(Exec(st, s, steps[0]), o, s, steps[1..]);
    }
  }

  /**
    The first store after a take to a page that was there.  If it was writable, the hook takes the fault: the
    page keeps its frame and no other is allocated.  If not, it is left to the kernel, which copies the frame
    unless it may keep it.  Either way the take-time content is saved, and the page is the first on the list.
   */
  lemma FirstStore(m: Mem, areas: seq<Area>, pages: seq<nat>, p: nat, c: Content, reuse: bool)
    requires TakeOk(m, areas, pages) && p in pages && p in m.ptes
    ensures var start := Take(m, areas, pages);
            var written := Write(start, p, c, reuse);
            && (WpHandles(start.snap, p) <==> m.ptes[p].writable)
            && EntryOf(start.mem, p) == Some(Pte(m.ptes[p].frame, false))
            && p in written.snap.records && written.snap.records[p].data == Some(Contents(m, p))
            && written.snap.dirtyList == [p] && Contents(written.mem, p) == c
            && (m.ptes[p].writable ==>
                  EntryOf(written.mem, p) == Some(Pte(m.ptes[p].frame, true)) && |written.mem.frames| == |m.frames|)
            && (!m.ptes[p].writable && !reuse ==>
                  EntryOf(written.mem, p) == Some(Pte(|m.frames|, true)) && |written.mem.frames| == |m.frames| + 1)
  {
    TakenPage(m, areas, pages, p);
    hide *;
    WrittenFirst(Take(m, areas, pages), OriginOf(m, pages), m.ptes[p], p, c, reuse);
  }

  lemma TakenPage(m: Mem, areas: seq<Area>, pages: seq<nat>, p: nat)
    requires TakeOk(m, areas, pages) && p in pages && p in m.ptes
    ensures var start := Take(m, areas, pages);
            && Inv(start, OriginOf(m, pages)) && start.snap.dirtyList == [] && start.mem.frames == m.frames
            && p in start.mem.mapped && EntryOf(start.mem, p) == Some(Pte(m.ptes[p].frame, false))
            && p in start.snap.records && IsTakenRec(start.snap.records[p], Some(m.ptes[p]))
            && Contents(start.mem, p) == Contents(m, p)
  {
    TakeStartsInv(m, areas, pages);
    PageIsRecorded(State(m, Snap(map[], [], areas)), pages, p);
    hide MakePages;
  }

  lemma WrittenFirst(start: State, o: Origin, pte: Pte, p: nat, c: Content, reuse: bool)
    requires Inv(start, o) && start.snap.dirtyList == [] && p in start.mem.mapped
    requires EntryOf(start.mem, p) == Some(Pte(pte.frame, false))
    requires p in start.snap.records && IsTakenRec(start.snap.records[p], Some(pte))
    ensures var written := Write(start, p, c, reuse);
            && (WpHandles(start.snap, p) <==> pte.writable)
            && p in written.snap.records && written.snap.records[p].data == Some(Contents(start.mem, p))
            && written.snap.dirtyList == [p] && Contents(written.mem, p) == c
            && (pte.writable ==>
                  EntryOf(written.mem, p) == Some(Pte(pte.frame, true)) && |written.mem.frames| == |start.mem.frames|)
            && (!pte.writable && !reuse ==>
                  && EntryOf(written.mem, p) == Some(Pte(|start.mem.frames|, true))
                  && |written.mem.frames| == |start.mem.frames| + 1)
  {
    WriteInv(start, o, p, c, reuse);
    hide Inv, Contents, Exclusive;
  }

  lemma PromotedPage(st: State, o: Origin, p: nat, choices: Choices)
    requires Inv(st, o) && p in st.snap.dirtyList && st.snap.records[p].dirty && p in st.mem.mapped
    ensures var back := RecoverPage(st, p, choices);
            && Inv(back, o) && p in back.snap.records && p in back.mem.mapped
            && var r := back.snap.records[p];
               !r.dirty && !r.inList && r.copied && r.prot.isPrivate && !r.prot.isNonePte
               && r.data == Some(Contents(o.mem, p))
  {
    RecoverPageInv(st, o, p, choices);
    assert RecOk(st, o, p);
  }

  /** A store to a clean private page with its copy saved. */
  lemma WrittenInPlace(st: State, o: Origin, p: nat, c: Content, reuse: bool)
    requires Inv(st, o) && p in st.snap.records && p in st.mem.mapped
    requires var r := st.snap.records[p]; !r.dirty && !r.inList && r.copied && r.prot.isPrivate && !r.prot.isNonePte
    ensures var st' := Write(st, p, c, reuse);
            && WpHandles(st.snap, p) && p in st.mem.ptes && !st.mem.ptes[p].writable && p in st'.mem.ptes
            && st'.mem.ptes[p].frame == st.mem.ptes[p].frame && |st'.mem.frames| == |st.mem.frames|
            && p in st'.snap.records && st'.snap.dirtyList == st.snap.dirtyList + [p]
            && st'.snap.records[p].data == st.snap.records[p].data
  {
    HandledFaultIsExclusive(st, o, p);
    assert RecOk(st, o, p);
    hide Inv, RmapHook, CowFault;
  }

  /**
    A page saved once and copied back is private from then on: its next store is taken by the hook, in
    place and with the same saved copy, so that neither the kernel nor the engine copies it again.
   */
  lemma PromotedPageIsWrittenInPlace(st: State, o: Origin, p: nat, c: Content, choices: Choices, reuse: bool)
    requires Inv(st, o) && p in st.snap.dirtyList && st.snap.records[p].dirty && p in st.mem.mapped
    ensures var back := RecoverPage(st, p, choices);
            var again := Write(back, p, c, reuse);
            && WpHandles(back.snap, p) && p in back.mem.ptes && !back.mem.ptes[p].writable
            && again.mem.ptes[p].frame == back.mem.ptes[p].frame && |again.mem.frames| == |back.mem.frames|
            && p in again.snap.dirtyList && again.snap.records[p].data == Some(Contents(o.mem, p))
  {
    var back := RecoverPage(st, p, choices);
    PromotedPage(st, o, p, choices);
    WrittenInPlace(back, o, p, c, reuse);
    var again := Write(back, p, c, reuse);
    hide Inv, Write, RecoverPage;
    assert again.snap.dirtyList[|back.snap.dirtyList|] == p;
  }

  // ---- The full copy ------------------------------------------------------------------------------

  /** A restore by brute force: every tracked page is copied back, nothing else changes. */
  ghost function FullCopyContents(m: Mem, o: Origin, areas: seq<Area>, p: nat): Content {
    if Tracked(o, areas, p) then Contents(o.mem, p) else Contents(m, p)
  }

  /** A page of a selected area that was present at the take but that the walk did not reach. */
  ghost predicate Blocked(o: Origin, areas: seq<Area>, p: nat) {
    InAreas(areas, p) && !Tracked(o, areas, p)
  }

  /**
    The restore that walks only the dirty list refines the restore that copies everything, at every
    mapped page but the blocked and the replaced ones; and it keeps the mapped set that the sweep left.
   */
  lemma RecoverRefinesFullCopy(st: State, o: Origin, s: Session, cur: seq<Area>, choices: Choices, p: nat)
    requires Inv(st, o) && SelectedFrom(st.snap.areas, s.allVmas) && Describes(cur, st.mem)
    ensures var swept, end := SweptState(st, s, cur).mem, Recover(st, s, cur, choices).mem;
            && end.mapped == swept.mapped
            && (p in swept.mapped && !Blocked(o, st.snap.areas, p) && !Replaced(st.mem, o, p) ==>
                  Contents(end, p) == FullCopyContents(swept, o, st.snap.areas, p))
  {
    RestoreIsExact(st, o, s, cur, choices);
    if p in st.snap.dirtyList { assert RecOk(st, o, p); }
    if Tracked(o, st.snap.areas, p) { RestoreKeepsBacking(st, o, s, cur, choices, p); }
    hide Inv, SweptState, Recover;
  }

  // ---- Unsaved pages ------------------------------------------------------------------------------

  /** A selected page of which the take saved nothing: it was absent, or it was present and blocked. */
  ghost predicate Unsaved(o: Origin, areas: seq<Area>, p: nat) {
    InAreas(areas, p) && (p in o.mem.ptes ==> p !in o.reached)
  }

  /**
    An unsaved page, whether it was to be restored or to be left alone, keeps its content across a restore
    iff the rmap hook has not listed it (it then has no fresh frame) or it reads anyway as what backs it: a
    listed one is thrown away.
   */
  lemma UnsavedPageKeptIff(st: State, o: Origin, s: Session, cur: seq<Area>, choices: Choices, p: nat)
    requires Inv(st, o) && SelectedFrom(st.snap.areas, s.allVmas) && Describes(cur, st.mem)
    requires Unsaved(o, st.snap.areas, p)
    ensures Contents(Recover(st, s, cur, choices).mem, p) == Contents(st.mem, p)
            <==> p !in st.snap.dirtyList || Contents(st.mem, p) == FrameContent(st.mem, Backing(st.mem, p))
    ensures p in st.snap.dirtyList ==>
              Contents(Recover(st, s, cur, choices).mem, p) == FrameContent(st.mem, Backing(st.mem, p))
  {
    SweptContents(st, o, s, cur, p);
    if p in st.snap.dirtyList {
      UnsavedPageIsZapped(st, o, s, cur, choices, p);
    } else {
      RestoreIsExact(st, o, s, cur, choices);
    }
    hide *;
  }

  lemma UnsavedPageIsZapped(st: State, o: Origin, s: Session, cur: seq<Area>, choices: Choices, p: nat)
    requires Inv(st, o) && SelectedFrom(st.snap.areas, s.allVmas) && Describes(cur, st.mem)
    requires Unsaved(o, st.snap.areas, p) && p in st.snap.dirtyList
    ensures Contents(Recover(st, s, cur, choices).mem, p) == FrameContent(st.mem, Backing(st.mem, p))
  {
    var swept := SweptState(st, s, cur);
    SweptContents(st, o, s, cur, p);
    ListedUnsavedPage(swept, o, p);
    ListedEmptyPageIsZapped(swept, swept.snap.dirtyList, choices, p);
    RestoreKeepsBacking(st, o, s, cur, choices, p);
    hide Inv, RecoverPages, SweepMem, Unsaved, Backing;
  }

  lemma ListedUnsavedPage(st: State, o: Origin, p: nat)
    requires Inv(st, o) && Unsaved(o, st.snap.areas, p) && p in st.snap.dirtyList
    ensures NoDup(st.snap.dirtyList) && p in st.snap.records
    ensures var r := st.snap.records[p]; r.prot.isNonePte && !r.prot.isPrivate && r.hadPte && !r.dirty
  {
    assert RecOk(st, o, p);
  }

  /** The store itself: it takes effect, and the hook on the fresh frame lists the page. */
  lemma UnsavedPageIsListed(st: State, o: Origin, p: nat, c: Content)
    requires Inv(st, o) && Unsaved(o, st.snap.areas, p) && p !in st.snap.dirtyList && p in st.mem.mapped
    requires p in st.mem.ptes ==> !st.mem.ptes[p].writable
    ensures var written := Write(st, p, c, false);
            && Inv(written, o) && written.snap.areas == st.snap.areas && p in written.snap.dirtyList
            && Contents(written.mem, p) == c
            && written.mem.mapped == st.mem.mapped && written.mem.files == st.mem.files
  {
    WriteInv(st, o, p, c, false);
    if p in st.snap.records { assert RecOk(st, o, p); }
    var written := Write(st, p, c, false);
    assert written.snap.dirtyList == st.snap.dirtyList + [p];
    assert written.snap.dirtyList[|st.snap.dirtyList|] == p;
  }

  lemma UnsavedStart(m: Mem, areas: seq<Area>, pages: seq<nat>, p: nat)
    requires TakeOk(m, areas, pages) && Unsaved(OriginOf(m, pages), areas, p)
    requires p in m.mapped && (p in m.ptes ==> !m.ptes[p].writable)
    ensures var start, o := Take(m, areas, pages), OriginOf(m, pages);
            && Inv(start, o) && start.snap.areas == areas && start.snap.dirtyList == []
            && (p in start.mem.ptes ==> !start.mem.ptes[p].writable) && Contents(start.mem, p) == Contents(m, p)
            && start.mem.mapped == m.mapped && Backing(start.mem, p) == Backing(m, p)
            && FrameContent(start.mem, Backing(start.mem, p)) == FrameContent(m, Backing(m, p))
  {
    TakeStartsInv(m, areas, pages);
  }

  lemma WrittenBacking(st: State, st': State, o: Origin, p: nat)
    requires Inv(st, o) && Inv(st', o) && st.mem.files == st'.mem.files
    ensures FrameContent(st.mem, Backing(st.mem, p)) == FrameContent(st'.mem, Backing(st'.mem, p))
  {
    SameBacking(st.mem, st'.mem, o, p);
  }

  /**
    A page of which nothing was saved, and which the process first touches after the take, or which is
    read-only then and is copied on write by the kernel: the next restore throws away what was stored, and
    the page reads as what backs it, zeroes if anonymous.  A page excluded from the snapshot fares no better.
   */
  lemma UnsavedPageIsLost(m: Mem, areas: seq<Area>, pages: seq<nat>, s: Session, p: nat, c: Content,
                          cur: seq<Area>, choices: Choices)
    requires TakeOk(m, areas, pages) && SelectedFrom(areas, s.allVmas) && Describes(cur, m)
    requires Unsaved(OriginOf(m, pages), areas, p) && p in m.mapped && (p in m.ptes ==> !m.ptes[p].writable)
    ensures var start := Take(m, areas, pages);
            var written := Exec(start, s, DoWrite(p, c, false));
            var end := Exec(written, s, DoRecover(cur, choices));
            && KernelAllows(start, DoWrite(p, c, false)) && KernelAllows(written, DoRecover(cur, choices))
            && Contents(start.mem, p) == Contents(m, p) && Contents(written.mem, p) == c
            && Contents(end.mem, p) == FrameContent(m, Backing(m, p)) && p in end.mem.mapped
  {
    var start, o := Take(m, areas, pages), OriginOf(m, pages);
    var written := Write(start, p, c, false);
    assert written == Exec(start, s, DoWrite(p, c, false));
    assert Recover(written, s, cur, choices) == Exec(written, s, DoRecover(cur, choices));
    UnsavedStart(m, areas, pages, p);
    UnsavedPageIsListed(start, o, p, c);
    assert Describes(cur, written.mem) && Unsaved(o, written.snap.areas, p) && InAreas(written.snap.areas, p);
    hide Take, Write, Recover, Exec, Inv, Describes, Unsaved, SelectedFrom, Contents, Backing, FrameContent;
    WrittenBacking(start, written, o, p);
    UnsavedPageIsZapped(written, o, s, cur, choices, p);
    RestoredPagesAreMapped(written, o, s, cur, choices, p);
  }

  // ---- A lost page, from the take on --------------------------------------------------------------

  const TABLES_KEPT := Choices({}, {})

  /** The unmap hook saves the only page that was taken. */
  lemma OnlyPageSaved(m: Mem, areas: seq<Area>, page: nat)
    requires page in m.ptes && m.ptes[page].writable
    ensures var start := Take(m, areas, [page]);
            var hooked := UnmapHook(start, [page]);
            && page in start.snap.records && page in hooked.snap.records && hooked.snap.records[page].dirty
            && hooked.mem == start.mem && hooked.snap.areas == areas
  {
    var start := Take(m, areas, [page]);
    assert [page][1..] == [];
    assert start == MakePages(MakePage(State(m, Snap(map[], [], areas)), page), []);
    var first := State(start.mem, RecordDirty(start.snap, page, Contents(start.mem, page)));
    assert UnmapHook(start, [page]) == UnmapHook(first, []) == first;
  }

  lemma UnmapFirstPage(m: Mem, areas: seq<Area>, page: nat, end: nat)
    requires TakeOk(m, areas, [page]) && m.ptes.Keys == {page} && m.ptes[page].writable
    requires PageAligned(page) && PageAligned(end) && page + PAGE_SIZE < end && m.mapped == Range(page, end)
    ensures var start := Take(m, areas, [page]);
            var st := Munmap(start, page, page + PAGE_SIZE, [page]);
            && Inv(st, OriginOf(m, [page])) && page in LostPages(st) && st.snap.areas == areas
            && st.mem.mapped == Range(page + PAGE_SIZE, end)
            && KernelAllows(start, DoMunmap(page, page + PAGE_SIZE, [page]))
  {
    var start, o := Take(m, areas, [page]), OriginOf(m, [page]);
    TakeStartsInv(m, areas, [page]);
    OnlyPageSaved(m, areas, page);
    hide Take;
    MunmapInv(start, o, page, page + PAGE_SIZE, [page]);
    hide TakeOk, Inv, UnmapHook;
    RangeAfterFirst(page, end);
    assert page in Range(page, page + PAGE_SIZE);
  }

  lemma RangeAfterFirst(lo: nat, hi: nat)
    requires lo + PAGE_SIZE < hi
    ensures Range(lo, hi) - Range(lo, lo + PAGE_SIZE) == Range(lo + PAGE_SIZE, hi)
  {
  }

  lemma LostAtRestore(st: State, o: Origin, s: Session, cur: seq<Area>, p: nat)
    requires Inv(st, o) && p in LostPages(st) && SelectedFrom(st.snap.areas, s.allVmas) && Describes(cur, st.mem)
    requires WholePages(st.mem.mapped) && AlignedVmas(s.allVmas) && (s.traceMmap ==> !InAnonVmas(s.allVmas, p))
    ensures var swept := SweptState(st, s, cur);
            && Inv(swept, o) && Harmful(swept, p, TABLES_KEPT) && WholePages(swept.mem.mapped)
  {
    assert RecOk(st, o, p);
    SweptStateInv(st, o, s, cur);
    if s.traceMmap {
      SweepInv(st, o, cur, s.allVmas);
      SweptWholePages(st.mem, cur, s.allVmas);
    }
  }

  /** A process with two pages, of anonymous memory or of a file, the first of which it has written to. */
  function TwoPages(ofFile: bool, c: Content, d: Content): Mem {
    Mem(Range(PAGE_SIZE, 3 * PAGE_SIZE), map[PAGE_SIZE := Pte(1, true)], [ZERO_PAGE, c, d], {ZERO_FRAME, 2},
        if ofFile then map[PAGE_SIZE := 2] else map[])
  }

  const ONE_AREA := [Area(PAGE_SIZE, 3 * PAGE_SIZE)]
  const SECOND_PAGE := [Area(2 * PAGE_SIZE, 3 * PAGE_SIZE)]

  /** Its snapshot: under MMAP of a private file mapping, without it of anonymous memory. */
  function OneSession(traceMmap: bool): Session {
    Session(traceMmap, [SnapVma(ONE_AREA[0], !traceMmap)])
  }

  /**
    It unmaps the first page, the snapshot is restored, and it maps the page again, reads it and stores to it.
    The second page stays mapped, so that the page table of both does not go.
   */
  function LossRun(d: Content): seq<Step> {
    [DoMunmap(PAGE_SIZE, 2 * PAGE_SIZE, [PAGE_SIZE]), DoRecover(SECOND_PAGE, TABLES_KEPT),
     DoMmap(PAGE_SIZE, 2 * PAGE_SIZE, map[]), DoRead(PAGE_SIZE), DoWrite(PAGE_SIZE, d, false)]
  }

  lemma TwoPagesOk(traceMmap: bool, c: Content, d: Content)
    ensures TakeOk(TwoPages(traceMmap, c, d), ONE_AREA, [PAGE_SIZE])
    ensures SelectedFrom(ONE_AREA, OneSession(traceMmap).allVmas) && AlignedVmas(OneSession(traceMmap).allVmas)
    ensures traceMmap ==> !InAnonVmas(OneSession(traceMmap).allVmas, PAGE_SIZE)
  {
    assert Contains(ONE_AREA[0], PAGE_SIZE);
    forall p: nat | InAreas(ONE_AREA, p) ensures InVmas(OneSession(traceMmap).allVmas, p) {
      assert Contains(OneSession(traceMmap).allVmas[0].area, p);
    }
    assert PAGE_SIZE in Range(PAGE_SIZE, 3 * PAGE_SIZE);
  }

  lemma RangeDescribed(lo: nat, hi: nat, m: Mem)
    requires lo < hi && PageAligned(lo) && PageAligned(hi) && m.mapped == Range(lo, hi)
    ensures Describes([Area(lo, hi)], m) && WholePages(m.mapped)
  {
    RangeWholePages({}, lo, hi);
    assert {} + Range(lo, hi) == m.mapped;
    assert [Area(lo, hi)][0] == Area(lo, hi);
  }

  /** From the restore on, once the page is gone. */
  lemma LostRun(st: State, o: Origin, s: Session, cur: seq<Area>, p: nat, d: Content)
    requires Inv(st, o) && p in LostPages(st) && SelectedFrom(st.snap.areas, s.allVmas) && Describes(cur, st.mem)
    requires WholePages(st.mem.mapped) && AlignedVmas(s.allVmas) && (s.traceMmap ==> !InAnonVmas(s.allVmas, p))
    requires PageAligned(p)
    ensures var run := [DoRecover(cur, TABLES_KEPT), DoMmap(p, p + PAGE_SIZE, map[]), DoRead(p), DoWrite(p, d, false)];
            KernelRun(st, s, run) && FrameContent(Run(st, s, run).mem, ZERO_FRAME) == d
  {
    var run := [DoRecover(cur, TABLES_KEPT), DoMmap(p, p + PAGE_SIZE, map[]), DoRead(p), DoWrite(p, d, false)];
    LostAtRestore(st, o, s, cur, p);
    LostPageStore(SweptState(st, s, cur), o, s, TABLES_KEPT, p, d);
    RecoverStep(st, s, cur, TABLES_KEPT);
    assert run[0] == DoRecover(cur, TABLES_KEPT);
    assert run[1..] == [DoMmap(p, p + PAGE_SIZE, map[]), DoRead(p), DoWrite(p, d, false)];
    hide Inv, SelectedFrom, WholePages, LostPages, AlignedVmas, Describes, Harmful, RecoverPages;
    hide SweptState, Exec, KernelAllows;
  }

  lemma RecoverStep(st: State, s: Session, cur: seq<Area>, choices: Choices)
    requires Describes(cur, st.mem)
    ensures var swept, step := SweptState(st, s, cur), DoRecover(cur, choices);
            KernelAllows(st, step) && Exec(st, s, step) == RecoverPages(swept, swept.snap.dirtyList, choices)
  {
  }

  /** With MMAP as without, the store in that run lands in the zero page, which every process shares. */
  lemma LostPageWritesZeroPage(traceMmap: bool, c: Content, d: Content)
    ensures var m, s := TwoPages(traceMmap, c, d), OneSession(traceMmap);
            && TakeOk(m, ONE_AREA, [PAGE_SIZE]) && SelectedFrom(ONE_AREA, s.allVmas)
            && KernelRun(Take(m, ONE_AREA, [PAGE_SIZE]), s, LossRun(d))
            && FrameContent(Run(Take(m, ONE_AREA, [PAGE_SIZE]), s, LossRun(d)).mem, ZERO_FRAME) == d
  {
    var m, s, run := TwoPages(traceMmap, c, d), OneSession(traceMmap), LossRun(d);
    var start, o := Take(m, ONE_AREA, [PAGE_SIZE]), OriginOf(m, [PAGE_SIZE]);
    TwoPagesOk(traceMmap, c, d);
    UnmapFirstPage(m, ONE_AREA, PAGE_SIZE, 3 * PAGE_SIZE);
    RangeDescribed(2 * PAGE_SIZE, 3 * PAGE_SIZE, Exec(start, s, run[0]).mem);
    LostRun(Exec(start, s, run[0]), o, s, SECOND_PAGE, PAGE_SIZE, d);
    hide Take, Munmap, Inv, KernelAllows, SelectedFrom;
    assert run[1..] == [DoRecover(SECOND_PAGE, TABLES_KEPT), DoMmap(PAGE_SIZE, PAGE_SIZE + PAGE_SIZE, map[]),
                        DoRead(PAGE_SIZE), DoWrite(PAGE_SIZE, d, false)];
  }
}
