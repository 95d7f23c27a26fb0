/**
  What a user of a snapshot may rely on, and what a restore does that was asked for without one.
 */
module Restore {
  import opened Basics
  import opened Kernel
  import opened PageSpec
  import opened PageInvariant
  import opened PageRuns
  import opened PageTheorems
  import opened WalkSpec
  import opened WalkTheorems
  import opened TakeSpec
  import opened Brk
  import TasksSpec
  import TasksTheorems
  import TasksRuns

  /** A snapshot taken by the rule, with lists that do not clash, then a run, then a restore of the areas `cur`. */
  ghost predicate RestoredAfter(rule: Rule, vmas: seq<Vma>, m: Mem, s: Session, before: seq<Step>, cur: seq<Area>) {
    && VmasOk(vmas) && FilterAligned(rule.filter) && !Clashes(rule.filter)
    && WellFormed(m) && TablesComplete(m, Selected(rule, vmas)) && s.allVmas == AllVmas(vmas)
    && ValidRun(TakeBy(rule, vmas, m), s, before) && Describes(cur, Run(TakeBy(rule, vmas, m), s, before).mem)
  }

  ghost function TakeBy(rule: Rule, vmas: seq<Vma>, m: Mem): State {
    Take(m, AreasOf(Selected(rule, vmas)), PagesTaken(rule, vmas))
  }

  ghost function OriginBy(rule: Rule, vmas: seq<Vma>, m: Mem): Origin {
    OriginOf(m, PagesTaken(rule, vmas))
  }

  /**
    What the module is for.  A snapshot; then any run of stores, loads, unmaps, maps and earlier restores,
    each of which finds its dirty pages mapped.  Page `p` of a selected private area, which had no frame at
    the take or passes the filter, is mapped after the next restore iff it still was before, or MMAP is on
    and its area was anonymous.  If it is mapped it holds what it held at the take, unless it was absent then
    and had been replaced by a mapping that reads differently.  That takes an unmap of the page, and a file
    if it was anonymous: otherwise it does hold it.
   */
  lemma SnapshotRestores(rule: Rule, vmas: seq<Vma>, m: Mem, s: Session, before: seq<Step>,
                         cur: seq<Area>, choices: Choices, v: Vma, p: nat)
    requires RestoredAfter(rule, vmas, m, s, before, cur)
    requires v in vmas && Selects(rule, v) && !v.shared && Contains(v.area, p) && (p in m.ptes ==> Flat(rule.filter, p))
    ensures var st, o := Run(TakeBy(rule, vmas, m), s, before), OriginBy(rule, vmas, m);
            var end := Recover(st, s, cur, choices).mem;
            && (p in end.mapped <==> p in st.mem.mapped || (s.traceMmap && v.isAnonymous))
            && (p in end.mapped ==> (Contents(end, p) == Contents(m, p) <==> !Replaced(st.mem, o, p)))
            && (p in m.mapped && NotUnmapped(before, p) ==> p in end.mapped && Contents(end, p) == Contents(m, p))
            && (p !in m.files && NoFileAt(before, p) && p in end.mapped ==> Contents(end, p) == Contents(m, p))
  {
    hide VmasOk, TablesComplete, Clashes, FilterAligned, WellFormed, TakeOk, SelectedFrom, Inv, ValidRun, Run, MakePages;
    var areas, pages := AreasOf(Selected(rule, vmas)), PagesTaken(rule, vmas);
    var start, o := Take(m, areas, pages), OriginOf(m, pages);
    TakeIsFlat(rule, vmas, m);
    SelectedFromAll(rule, vmas);
    AnonymousVma(rule, vmas, v, p);
    TakeStartsInv(m, areas, pages);
    RunInv(start, o, s, before);
    var st := Run(start, s, before);
    RestoredPagesAreMapped(st, o, s, cur, choices, p);
    RestoreIsExact(st, o, s, cur, choices);
    if p in Recover(st, s, cur, choices).mem.mapped { RestoredUnlessReplaced(st, o, s, cur, choices, p); }
    if p in m.mapped && NotUnmapped(before, p) {
      NotReplaced(m, areas, pages, s, before, p);
      MappedStays(start, o, s, before, p);
    }
    if p !in m.files && NoFileAt(before, p) {
      NotReplaced(m, areas, pages, s, before, p);
    }
  }

  // ---- What is restored, by options and ranges --------------------------------------------------------------

  /**
    A writable private area with nothing asked for but perhaps the exclusion of other pages, or of a stack
    that lies elsewhere: a page mapped at the take and never unmapped is mapped and as taken.
   */
  lemma WritablePageIsRestored(rule: Rule, vmas: seq<Vma>, m: Mem, s: Session, before: seq<Step>,
                               cur: seq<Area>, choices: Choices, v: Vma, p: nat)
    requires RestoredAfter(rule, vmas, m, s, before, cur)
    requires v in vmas && v.writable && !v.shared && Contains(v.area, p) && p in m.mapped && NotUnmapped(before, p)
    requires !rule.filter.blockOthers
    requires rule.noStack ==> rule.startStack < v.area.start || v.area.end < rule.startStack
    requires forall r :: r in rule.filter.block ==> r.end <= p || p + PAGE_SIZE <= r.start
    ensures var end := Recover(Run(TakeBy(rule, vmas, m), s, before), s, cur, choices).mem;
            p in end.mapped && Contents(end, p) == Contents(m, p)
  {
    SelectedIff(rule, vmas, v);
    SelectedMembers(rule, vmas);
    FlatIff(rule.filter, p);
    hide *;
    SnapshotRestores(rule, vmas, m, s, before, cur, choices, v, p);
  }

  /** A page in a range asked for is restored whatever the options, and even if its area is read-only. */
  lemma IncludedPageIsRestored(rule: Rule, vmas: seq<Vma>, m: Mem, s: Session, before: seq<Step>,
                               cur: seq<Area>, choices: Choices, v: Vma, p: nat)
    requires RestoredAfter(rule, vmas, m, s, before, cur)
    requires v in vmas && !v.shared && Contains(v.area, p) && p in m.mapped && NotUnmapped(before, p)
    requires InAreas(rule.filter.allow, p)
    requires forall r :: r in rule.filter.block ==> r.end <= p || p + PAGE_SIZE <= r.start
    ensures var end := Recover(Run(TakeBy(rule, vmas, m), s, before), s, cur, choices).mem;
            p in end.mapped && Contents(end, p) == Contents(m, p)
  {
    var i :| 0 <= i < |rule.filter.allow| && Contains(rule.filter.allow[i], p);
    var r := rule.filter.allow[i];
    assert r in rule.filter.allow && r.start < v.area.end && v.area.start < r.end;
    assert r.start < p + PAGE_SIZE && p < r.end;
    SelectedIff(rule, vmas, v);
    SelectedMembers(rule, vmas);
    FlatIff(rule.filter, p);
    hide *;
    SnapshotRestores(rule, vmas, m, s, before, cur, choices, v, p);
  }

  /**
    An area that no range asked for touches, and that is read-only or shared, or that the options BLOCK or
    NOSTACK leave out (with NOSTACK also one that ends where the stack starts): no page of it is recorded,
    and a restore leaves there what the run has put there.
   */
  lemma UnselectedAreaIsKept(rule: Rule, vmas: seq<Vma>, m: Mem, s: Session, before: seq<Step>,
                             cur: seq<Area>, choices: Choices, v: Vma, p: nat)
    requires RestoredAfter(rule, vmas, m, s, before, cur) && v in vmas && Contains(v.area, p)
    requires forall r :: r in rule.filter.allow ==> r.end <= v.area.start || v.area.end <= r.start
    requires || !v.writable || v.shared || rule.filter.blockOthers
             || (rule.noStack && v.area.start <= rule.startStack <= v.area.end)
    ensures var st := Run(TakeBy(rule, vmas, m), s, before);
            var end := Recover(st, s, cur, choices).mem;
            && p !in st.snap.records && Contents(end, p) == Contents(st.mem, p)
            && (p in end.mapped <==> p in st.mem.mapped || (s.traceMmap && v.isAnonymous && !v.shared))
  {
    var areas, pages := AreasOf(Selected(rule, vmas)), PagesTaken(rule, vmas);
    var start, o := Take(m, areas, pages), OriginOf(m, pages);
    SelectedIff(rule, vmas, v);
    TakeIsFlat(rule, vmas, m);
    SelectedFromAll(rule, vmas);
    AnonymousVma(rule, vmas, v, p);
    UnselectedIsOutside(rule, vmas, v, p);
    TakeStartsInv(m, areas, pages);
    RunInv(start, o, s, before);
    hide VmasOk, TablesComplete, Clashes, FilterAligned, WellFormed, TakeOk, SelectedFrom, Inv, ValidRun, Run, MakePages;
    UnselectedPageIsKept(Run(start, s, before), o, s, cur, choices, p);
  }

  // ---- Excluded pages --------------------------------------------------------------------------------------

  /**
    A page that is excluded from the snapshot should be left alone.  One in a selected area keeps its content
    across a restore iff the rmap hook has not listed it, or it reads as what backs it anyway.
   */
  lemma ExcludedPageKeptIff(rule: Rule, vmas: seq<Vma>, m: Mem, s: Session, before: seq<Step>,
                            cur: seq<Area>, choices: Choices, v: Vma, p: nat)
    requires RestoredAfter(rule, vmas, m, s, before, cur)
    requires v in vmas && Selects(rule, v) && !v.shared && Contains(v.area, p)
    requires (exists r :: r in rule.filter.block && r.start < p + PAGE_SIZE && p < r.end)
             || (rule.filter.blockOthers && forall r :: r in rule.filter.allow ==> r.end <= p || p + PAGE_SIZE <= r.start)
    ensures var st := Run(TakeBy(rule, vmas, m), s, before);
            Contents(Recover(st, s, cur, choices).mem, p) == Contents(st.mem, p)
            <==> p !in st.snap.dirtyList || Contents(st.mem, p) == FrameContent(st.mem, Backing(st.mem, p))
  {
    hide VmasOk, TablesComplete, Clashes, FilterAligned, WellFormed, TakeOk, SelectedFrom, Inv, ValidRun, Run, MakePages;
    var areas, pages := AreasOf(Selected(rule, vmas)), PagesTaken(rule, vmas);
    var start, o := Take(m, areas, pages), OriginOf(m, pages);
    TakeIsFlat(rule, vmas, m);
    SelectedFromAll(rule, vmas);
    AnonymousVma(rule, vmas, v, p);
    FlatIff(rule.filter, p);
    TakeStartsInv(m, areas, pages);
    RunInv(start, o, s, before);
    assert Unsaved(o, areas, p);
    UnsavedPageKeptIff(Run(start, s, before), o, s, cur, choices, p);
  }

  // ---- Without a snapshot ---------------------------------------------------------------------------

  /**
    A restore for a task that has only added ranges: it reports success, and the break of 0 that it puts
    back is one that `restore_brk` accepts, whatever the areas; everything below the break is unmapped.
   */
  lemma RestoreWithoutSnapshotUnmaps(cpus: nat, steps: seq<TasksTheorems.Step>, t: nat, i: nat, areas: seq<Area>, brk: nat)
    requires TasksTheorems.ValidRun(cpus, steps) && t != 0 && TasksRuns.RangeStands(steps, t, i)
    ensures var (ret, restored) := TasksSpec.RecoverSnapshot(TasksTheorems.Run(TasksTheorems.Idle(cpus), steps), t);
            && ret == 0 && restored.Some? && Restorable(areas, brk, restored.value.brk)
            && forall a: nat :: BrkMapped(areas, brk, restored.value.brk, a) <==> InAreas(areas, a) && PageAlign(brk) <= a
  {
    TasksRuns.HonestRestoreIff(cpus, steps, t);
  }
}
