/**
  `take_memory_snapshot` as functions of the process' areas: which of them are listed, which are
  selected, and which of their pages the walk hands to the page engine.
 */
module TakeSpec {
  import opened Basics
  import opened Kernel
  import opened PageInvariant
  import opened PageRuns
  import opened SweepSpec
  import opened SweepLoop
  import opened SweepTheorems
  import opened WalkSpec
  import opened WalkTheorems

  /** One area of the process: its flags, and the entries of the page tables below it. */
  datatype Vma = Vma(area: Area, writable: bool, shared: bool, isAnonymous: bool, entries: seq<Entry>)

  /** The options of the take that matter here, and where the stack starts. */
  datatype Rule = Rule(filter: Filter, noStack: bool, startStack: nat)

  predicate IsStack(rule: Rule, v: Vma) {
    v.area.start <= rule.startStack && v.area.end >= rule.startStack
  }

  /** An allowed range selects any area it touches; otherwise only private writable areas qualify. */
  predicate Selects(rule: Rule, v: Vma) {
    || AllowedBy(rule.filter, v.area.start, v.area.end).Some?
    || (v.writable && !v.shared && !rule.filter.blockOthers && !(rule.noStack && IsStack(rule, v)))
  }

  function SnapVmaOf(v: Vma): SnapVma {
    SnapVma(v.area, v.isAnonymous && !v.shared)
  }

  function AllVmas(vmas: seq<Vma>): (all: seq<SnapVma>)
    ensures |all| == |vmas| && forall i :: 0 <= i < |vmas| ==> all[i] == SnapVmaOf(vmas[i])
  {
    if vmas == [] then [] else [SnapVmaOf(vmas[0])] + AllVmas(vmas[1..])
  }

  function Selected(rule: Rule, vmas: seq<Vma>): seq<Vma> {
    if vmas == [] then []
    else (if Selects(rule, vmas[0]) then [vmas[0]] else []) + Selected(rule, vmas[1..])
  }

  function AreasOf(vmas: seq<Vma>): (areas: seq<Area>)
    ensures |areas| == |vmas| && forall i :: 0 <= i < |vmas| ==> areas[i] == vmas[i].area
  {
    if vmas == [] then [] else [vmas[0].area] + AreasOf(vmas[1..])
  }

  function EntriesOf(vmas: seq<Vma>): seq<Entry> {
    if vmas == [] then [] else vmas[0].entries + EntriesOf(vmas[1..])
  }

  /** The pages that reach `make_snapshot_page`: one walk over the selected areas, memory carried across them. */
  function PagesTaken(rule: Rule, vmas: seq<Vma>): seq<nat> {
    Walk(rule.filter, NO_MEMO, EntriesOf(Selected(rule, vmas))).0
  }

  // ---- The lists of areas ----------------------------------------------------------------------------------

  ghost predicate VmasOk(vmas: seq<Vma>) {
    && Sorted(AreasOf(vmas))
    && (forall i :: 0 <= i < |vmas| ==> EntriesOk(vmas[i].entries, vmas[i].area.start, vmas[i].area.end))
    && (forall i :: 0 <= i < |vmas| ==> vmas[i].area.end < ULONG_MAX)
  }

  lemma TailOk(vmas: seq<Vma>)
    requires VmasOk(vmas) && vmas != []
    ensures VmasOk(vmas[1..])
    ensures forall v :: v in vmas[1..] ==> vmas[0].area.end <= v.area.start
  {
    var areas := AreasOf(vmas);
    assert areas[1..] == AreasOf(vmas[1..]);
    SortedParts(areas[..1], areas[1..]);
    assert areas[..1] + areas[1..] == areas;
    forall v | v in vmas[1..] ensures vmas[0].area.end <= v.area.start {
      var i :| 0 <= i < |vmas[1..]| && vmas[1..][i] == v;
      assert areas[0].end <= areas[i + 1].start;
    }
  }

  lemma {:induction false} SelectedMembers(rule: Rule, vmas: seq<Vma>)
    ensures forall v :: v in Selected(rule, vmas) <==> v in vmas && Selects(rule, v)
  {
    if vmas != [] {
      SelectedMembers(rule, vmas[1..]);
      assert vmas == [vmas[0]] + vmas[1..];
      var head := if Selects(rule, vmas[0]) then [vmas[0]] else [];
      assert Selected(rule, vmas) == head + Selected(rule, vmas[1..]);
    }
  }

  /** In terms of the area's own flags and of the ranges: when it is selected. */
  lemma SelectedIff(rule: Rule, vmas: seq<Vma>, v: Vma)
    requires v in vmas
    ensures v in Selected(rule, vmas)
            <==> || (exists r :: r in rule.filter.allow && r.start < v.area.end && v.area.start < r.end)
                 || (v.writable && !v.shared && !rule.filter.blockOthers
                     && (rule.noStack ==> rule.startStack < v.area.start || v.area.end < rule.startStack))
  {
    SelectedMembers(rule, vmas);
    OverlapIff(rule.filter.allow, v.area.start, v.area.end);
  }

  lemma ConsOk(v: Vma, rest: seq<Vma>)
    requires VmasOk(rest) && v.area.start < v.area.end < ULONG_MAX && EntriesOk(v.entries, v.area.start, v.area.end)
    requires forall w :: w in rest ==> v.area.end <= w.area.start
    ensures VmasOk([v] + rest)
  {
    hide EntriesOk, AreasOf;
    var all := [v] + rest;
    assert forall i :: 0 < i < |all| ==> all[i] == rest[i - 1] && all[i] in rest;
    forall i, j | 0 <= i < j < |all| ensures AreasOf(all)[i].end <= AreasOf(all)[j].start {
      if i > 0 { assert AreasOf(rest)[i - 1].end <= AreasOf(rest)[j - 1].start; }
    }
    forall i | 0 <= i < |all| ensures all[i].area.start < all[i].area.end {
      if i > 0 { assert AreasOf(rest)[i - 1] == all[i].area; }
    }
  }

  /** The selected areas are exactly those passing the rule, in the same order, and so still sorted. */
  lemma {:induction false} SelectedOk(rule: Rule, vmas: seq<Vma>)
    requires VmasOk(vmas)
    ensures VmasOk(Selected(rule, vmas))
    ensures forall v :: v in Selected(rule, vmas) <==> v in vmas && Selects(rule, v)
  {
    SelectedMembers(rule, vmas);
    if vmas != [] {
      TailOk(vmas);
      SelectedOk(rule, vmas[1..]);
      var rest := Selected(rule, vmas[1..]);
      assert AreasOf(vmas)[0] == vmas[0].area;
      if Selects(rule, vmas[0]) {
        ConsOk(vmas[0], rest);
      } else {
        assert Selected(rule, vmas) == rest;
      }
    }
  }

  lemma AllVmasSorted(vmas: seq<Vma>)
    requires VmasOk(vmas)
    ensures SortedVmas(AllVmas(vmas))
  {
    assert forall i :: 0 <= i < |vmas| ==> AllVmas(vmas)[i].area == AreasOf(vmas)[i];
  }

  /** The early exit of `is_snapshotted_address` is sound because of the order, so it is plain membership. */
  lemma {:induction false} InSelectedIff(vmas: seq<Vma>, p: nat)
    ensures InAreas(AreasOf(vmas), p) <==> exists v :: v in vmas && Contains(v.area, p)
  {
    if InAreas(AreasOf(vmas), p) {
      var i :| 0 <= i < |AreasOf(vmas)| && Contains(AreasOf(vmas)[i], p);
      assert vmas[i] in vmas;
    }
    if v :| v in vmas && Contains(v.area, p) {
      var i :| 0 <= i < |vmas| && vmas[i] == v;
      assert Contains(AreasOf(vmas)[i], p);
    }
  }

  // ---- The pages that the walk reaches ------------------------------------------------------------------------

  ghost predicate Ascending(pages: seq<nat>, lo: nat, hi: nat) {
    && (forall i :: 0 <= i < |pages| ==> lo <= pages[i] < hi)
    && (forall i, j :: 0 <= i < j < |pages| ==> pages[i] < pages[j])
  }

  lemma AscendingConcat(a: seq<nat>, b: seq<nat>, lo: nat, mid: nat, hi: nat)
    requires Ascending(a, lo, mid) && Ascending(b, mid, hi) && lo <= mid <= hi
    ensures Ascending(a + b, lo, hi)
  {
  }

  lemma {:induction false} EntryPagesAscending(e: Entry)
    requires EntryOk(e)
    ensures Ascending(PagesOf(e), Lo(e), Hi(e))
    decreases e, 1
  {
    match e
    case PageEntry(addr) =>
    case TableEntry(lo, hi, _, entries) => PagesAscending(entries, lo, hi);
  }

  lemma {:induction false} PagesAscending(es: seq<Entry>, lo: nat, hi: nat)
    requires EntriesOk(es, lo, hi) && lo <= hi
    ensures Ascending(Pages(es), lo, hi)
    decreases es, 0
  {
    if es != [] {
      EntryPagesAscending(es[0]);
      PagesAscending(es[1..], Hi(es[0]), hi);
      AscendingConcat(PagesOf(es[0]), Pages(es[1..]), lo, Hi(es[0]), hi);
    }
  }

  lemma EntriesInOrder(a: seq<Entry>, lo: nat, hi: nat)
    requires EntriesOk(a, lo, hi) && a != []
    ensures Hi(a[0]) <= hi && EntryOk(a[0]) && Lo(a[0]) < Hi(a[0])
  {
  }

  lemma {:induction false} EntriesConcat(a: seq<Entry>, b: seq<Entry>, lo: nat, mid: nat, hi: nat)
    requires EntriesOk(a, lo, mid) && EntriesOk(b, mid, hi) && lo <= mid <= hi
    ensures EntriesOk(a + b, lo, hi)
    ensures Pages(a + b) == Pages(a) + Pages(b)
  {
    hide EntryOk, PagesOf, Lo, Hi;
    if a == [] {
      assert a + b == b;
    } else {
      EntriesInOrder(a, lo, mid);
      EntriesConcat(a[1..], b, Hi(a[0]), mid, hi);
      assert (a + b)[1..] == a[1..] + b;
    }
  }

  lemma {:induction false} EntriesOfOk(vmas: seq<Vma>, lo: nat)
    requires VmasOk(vmas) && (vmas != [] ==> lo <= vmas[0].area.start) && lo <= ULONG_MAX
    ensures EntriesOk(EntriesOf(vmas), lo, ULONG_MAX)
    ensures forall p :: p in Pages(EntriesOf(vmas)) ==> InAreas(AreasOf(vmas), p)
  {
    if vmas != [] {
      var v := vmas[0];
      TailOk(vmas);
      assert v.area.start < v.area.end by { assert AreasOf(vmas)[0] == v.area; }
      assert vmas[1..] != [] ==> vmas[1..][0] in vmas[1..];
      EntriesOfOk(vmas[1..], v.area.end);
      EntriesWiden(v.entries, lo, v.area.start, v.area.end);
      EntriesConcat(v.entries, EntriesOf(vmas[1..]), lo, v.area.end, ULONG_MAX);
      PagesAscending(v.entries, v.area.start, v.area.end);
      forall p | p in Pages(EntriesOf(vmas)) ensures InAreas(AreasOf(vmas), p) {
        if p in Pages(v.entries) {
          assert Contains(AreasOf(vmas)[0], p);
        } else {
          var i :| 0 <= i < |AreasOf(vmas[1..])| && Contains(AreasOf(vmas[1..])[i], p);
          assert Contains(AreasOf(vmas)[i + 1], p);
        }
      }
    }
  }

  lemma EntriesWiden(es: seq<Entry>, lo: nat, lo': nat, hi: nat)
    requires EntriesOk(es, lo', hi) && lo <= lo'
    ensures EntriesOk(es, lo, hi)
  {
  }

  lemma {:induction false} TakenOk(f: Filter, pages: seq<nat>, lo: nat, hi: nat)
    requires Ascending(pages, lo, hi) && lo <= hi
    ensures Ascending(Taken(f, pages), lo, hi)
    ensures forall p :: p in Taken(f, pages) <==> p in pages && Flat(f, p)
  {
    if pages != [] {
      var rest := pages[1..];
      assert pages == [pages[0]] + rest;
      TakenOk(f, rest, pages[0] + 1, hi);
    }
  }

  /** The kernel's page tables: every page of the memory that lies in the areas has an entry. */
  ghost predicate TablesComplete(m: Mem, vmas: seq<Vma>) {
    forall p :: p in m.ptes && InAreas(AreasOf(vmas), p) ==> p in Pages(EntriesOf(vmas))
  }

  /**
    The take hands the page engine each selected page once, and tracks exactly the pages of selected
    areas that had no frame or pass the filter.
   */
  lemma TakeIsFlat(rule: Rule, vmas: seq<Vma>, m: Mem)
    requires VmasOk(vmas) && FilterAligned(rule.filter) && !Clashes(rule.filter)
    requires WellFormed(m) && TablesComplete(m, Selected(rule, vmas))
    ensures var areas, pages := AreasOf(Selected(rule, vmas)), PagesTaken(rule, vmas);
            && TakeOk(m, areas, pages)
            && (forall p :: p in pages <==> p in Pages(EntriesOf(Selected(rule, vmas))) && Flat(rule.filter, p))
            && (forall p :: Tracked(OriginOf(m, pages), areas, p) <==>
                  InAreas(areas, p) && (p in m.ptes ==> Flat(rule.filter, p)))
  {
    var sel, f := Selected(rule, vmas), rule.filter;
    SelectedOk(rule, vmas);
    EntriesOfOk(sel, 0);
    WalkIsFlat(f, NO_MEMO, EntriesOf(sel), 0, ULONG_MAX);
    PagesAscending(EntriesOf(sel), 0, ULONG_MAX);
    TakenOk(f, Pages(EntriesOf(sel)), 0, ULONG_MAX);
  }

  /** What the restore theorems ask of the areas of the snapshot: the selected ones are among those listed. */
  lemma SelectedFromAll(rule: Rule, vmas: seq<Vma>)
    requires VmasOk(vmas)
    ensures SelectedFrom(AreasOf(Selected(rule, vmas)), AllVmas(vmas))
  {
    var sel := Selected(rule, vmas);
    SelectedOk(rule, vmas);
    AllVmasSorted(vmas);
    forall p: nat | InAreas(AreasOf(sel), p) ensures InVmas(AllVmas(vmas), p) {
      InSelectedIff(sel, p);
      var v :| v in sel && Contains(v.area, p);
      var i :| 0 <= i < |vmas| && vmas[i] == v;
      assert Contains(AllVmas(vmas)[i].area, p);
    }
  }

  lemma OneArea(vmas: seq<Vma>, v: Vma, w: Vma, p: nat)
    requires VmasOk(vmas) && v in vmas && w in vmas && Contains(v.area, p) && Contains(w.area, p)
    ensures v == w
  {
    var i :| 0 <= i < |vmas| && vmas[i] == v;
    var j :| 0 <= j < |vmas| && vmas[j] == w;
    assert AreasOf(vmas)[i] == v.area && AreasOf(vmas)[j] == w.area;
  }

  /** The pages of an area that is listed but not selected are in no selected area. */
  lemma UnselectedIsOutside(rule: Rule, vmas: seq<Vma>, v: Vma, p: nat)
    requires VmasOk(vmas) && v in vmas && v !in Selected(rule, vmas) && Contains(v.area, p)
    ensures InVmas(AllVmas(vmas), p) && !InAreas(AreasOf(Selected(rule, vmas)), p)
  {
    var i :| 0 <= i < |vmas| && vmas[i] == v;
    assert Contains(AllVmas(vmas)[i].area, p);
    SelectedMembers(rule, vmas);
    InSelectedIff(Selected(rule, vmas), p);
    forall w | w in Selected(rule, vmas) && Contains(w.area, p) ensures w == v { OneArea(vmas, v, w, p); }
  }

  /** The sweep can remake a page iff the area that held it was anonymous private. */
  lemma AnonymousVma(rule: Rule, vmas: seq<Vma>, v: Vma, p: nat)
    requires VmasOk(vmas) && v in vmas && Contains(v.area, p)
    ensures InAnonVmas(AllVmas(vmas), p) <==> v.isAnonymous && !v.shared
    ensures Selects(rule, v) ==> InAreas(AreasOf(Selected(rule, vmas)), p)
  {
    var i :| 0 <= i < |vmas| && vmas[i] == v;
    AllVmasSorted(vmas);
    OneVma(AllVmas(vmas), i, p);
    SelectedMembers(rule, vmas);
    InSelectedIff(Selected(rule, vmas), p);
  }
}
