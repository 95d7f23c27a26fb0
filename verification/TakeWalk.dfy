/**
  `take_memory_snapshot` in its own form: the loop over the process' areas, and the walk callbacks
  with the two remembered addresses, which call the page engine as they go.
 */
module TakeWalk {
  import opened Basics
  import opened Kernel
  import opened PageSpec
  import opened PageEngine
  import opened PageTable
  import opened SweepSpec
  import opened WalkSpec
  import opened TakeSpec
  import opened PageRuns

  lemma {:induction false} MakePagesConcat(st: State, a: seq<nat>, b: seq<nat>)
    ensures MakePages(st, a + b) == MakePages(MakePages(st, a), b)
    decreases |a|
  {
    if a == [] {
      assert a + b == b;
    } else {
      MakePagesConcat(MakePage(st, a[0]), a[1..], b);
      assert (a + b)[1..] == a[1..] + b;
    }
  }

  lemma {:induction false} WalkConcat(f: Filter, m: Memo, a: seq<Entry>, b: seq<Entry>)
    ensures Walk(f, m, a + b).0 == Walk(f, m, a).0 + Walk(f, Walk(f, m, a).1, b).0
    ensures Walk(f, m, a + b).1 == Walk(f, Walk(f, m, a).1, b).1
    decreases |a|
  {
    if a == [] {
      assert a + b == b;
    } else {
      WalkConcat(f, WalkOne(f, m, a[0]).1, a[1..], b);
      assert (a + b)[1..] == a[1..] + b;
    }
  }

  function WithAreas(st: State, areas: seq<Area>): State {
    State(st.mem, Snap(st.snap.records, st.snap.dirtyList, areas))
  }

  /** Recording pages does not depend on the list of selected areas. */
  lemma {:induction false} MakePagesAreas(st: State, areas: seq<Area>, pages: seq<nat>)
    ensures MakePages(WithAreas(st, areas), pages) == WithAreas(MakePages(st, pages), areas)
    decreases |pages|
  {
    if pages != [] {
      assert MakePage(WithAreas(st, areas), pages[0]) == WithAreas(MakePage(st, pages[0]), areas);
      MakePagesAreas(MakePage(st, pages[0]), areas, pages[1..]);
    }
  }

  lemma SelectedHead(rule: Rule, v: Vma, rest: seq<Vma>)
    ensures Selected(rule, [v] + rest) == (if Selects(rule, v) then [v] else []) + Selected(rule, rest)
  {
    assert ([v] + rest)[1..] == rest;
  }

  lemma {:induction false} SelectedConcat(rule: Rule, a: seq<Vma>, b: seq<Vma>)
    ensures Selected(rule, a + b) == Selected(rule, a) + Selected(rule, b)
  {
    if a == [] {
      assert a + b == b;
    } else {
      var rest := a[1..];
      SelectedHead(rule, a[0], rest + b);
      SelectedHead(rule, a[0], rest);
      SelectedConcat(rule, rest, b);
      assert a == [a[0]] + rest && a + b == [a[0]] + (rest + b);
      hide Selected, Selects;
    }
  }

  lemma AllVmasAppend(vmas: seq<Vma>, v: Vma)
    ensures AllVmas(vmas + [v]) == AllVmas(vmas) + [SnapVmaOf(v)]
  {
  }

  lemma PrefixOk(vmas: seq<Vma>, i: nat)
    requires VmasOk(vmas) && i <= |vmas|
    ensures VmasOk(vmas[..i])
  {
    assert forall k :: 0 <= k < i ==> AreasOf(vmas[..i])[k] == AreasOf(vmas)[k];
  }

  class Walker {
    const filter: Filter
    const engine: Engine
    var nextAllowedAddress: nat
    var nextBlockedAddress: nat

    ghost function Remembered(): Memo
      reads this
    {
      Memo(nextAllowedAddress, nextBlockedAddress)
    }

    constructor (filter: Filter, engine: Engine)
      ensures this.filter == filter && this.engine == engine && Remembered() == NO_MEMO
    {
      this.filter, this.engine := filter, engine;
      nextAllowedAddress, nextBlockedAddress := 0, 0;
    }

    /** `intersect_blocklist` and `intersect_allowlist`. */
    static method FirstOverlap(ranges: seq<Area>, addr: nat, next: nat) returns (r: Option<Area>)
      ensures r == Intersect(ranges, addr, next)
    {
      var i := 0;
      while i < |ranges|
        invariant 0 <= i <= |ranges|
        invariant Intersect(ranges[i..], addr, next) == Intersect(ranges, addr, next)
      {
        if next > ranges[i].start && addr < ranges[i].end { return Some(ranges[i]); }
        i := i + 1;
      }
      return None;
    }

    /** `snapshot_walk_check_range`. */
    method CheckRange(addr: nat, next: nat) returns (action: Action)
      modifies this
      ensures (action, Remembered()) == Check(filter, old(Remembered()), addr, next)
    {
      if next < nextBlockedAddress { return Continue; }
      if next < nextAllowedAddress { return Subtree; }
      var blocked := FirstOverlap(filter.block, addr, next);
      if blocked.Some? && blocked.value.start <= addr && blocked.value.end >= next {
        nextBlockedAddress := blocked.value.end;
        return Continue;
      }
      var allowed := FirstOverlap(filter.allow, addr, next);
      if allowed.Some? {
        if allowed.value.start <= addr && allowed.value.end >= next {
          nextAllowedAddress := allowed.value.end;
        }
        return Subtree;
      }
      if filter.blockOthers {
        nextBlockedAddress := next;
        return Continue;
      }
      if blocked.None? { nextAllowedAddress := next; }
      return Subtree;
    }

    /** The callback for one entry and, unless it says to skip, the walk of what is below it. */
    method WalkEntry(e: Entry)
      requires engine.Valid()
      modifies this, engine, engine.table, engine.table.buckets, engine.pages
      ensures engine.Valid() && engine.areas == old(engine.areas)
      ensures engine.Abs() == MakePages(old(engine.Abs()), WalkOne(filter, old(Remembered()), e).0)
      ensures Remembered() == WalkOne(filter, old(Remembered()), e).1
      ensures old(engine.pages) <= engine.pages && fresh(engine.pages - old(engine.pages))
      decreases e, 1
    {
      hide Engine.RecordsOk, Table.Valid, Check, MakePage;
      match e {
        case PageEntry(addr) =>
          var action := CheckRange(addr, addr + PAGE_SIZE);
          if action != Continue {
            engine.MakeSnapshotPage(addr);
            assert [addr][1..] == [];
          }
        case TableEntry(lo, hi, prunes, entries) =>
          var action := CheckRange(lo, hi);
          if !(prunes && action == Continue) { WalkEntries(entries); }
      }
    }

    /** The walk over the entries of one table, in order. */
    method WalkEntries(es: seq<Entry>)
      requires engine.Valid()
      modifies this, engine, engine.table, engine.table.buckets, engine.pages
      ensures engine.Valid() && engine.areas == old(engine.areas)
      ensures engine.Abs() == MakePages(old(engine.Abs()), Walk(filter, old(Remembered()), es).0)
      ensures Remembered() == Walk(filter, old(Remembered()), es).1
      ensures old(engine.pages) <= engine.pages && fresh(engine.pages - old(engine.pages))
      decreases es, 0
    {
      hide Engine.RecordsOk, Table.Valid, WalkOne, MakePages;
      ghost var start, pages: seq<nat> := engine.Abs(), [];
      var i := 0;
      assert es[0..] == es;
      MakeNoPages(start);
      while i < |es|
        invariant 0 <= i <= |es| && engine.Valid() && engine.areas == old(engine.areas)
        invariant old(engine.pages) <= engine.pages && fresh(engine.pages - old(engine.pages))
        invariant engine.Abs() == MakePages(start, pages)
        invariant Walk(filter, old(Remembered()), es).0 == pages + Walk(filter, Remembered(), es[i..]).0
        invariant Walk(filter, old(Remembered()), es).1 == Walk(filter, Remembered(), es[i..]).1
      {
        assert es[i..][0] == es[i] && es[i..][1..] == es[i + 1..];
        ghost var found := WalkOne(filter, Remembered(), es[i]).0;
        WalkEntry(es[i]);
        MakePagesConcat(start, pages, found);
        pages := pages + found;
        i := i + 1;
      }
      assert Walk(filter, old(Remembered()), es).0 == pages;
    }

    lemma MakeNoPages(st: State)
      ensures MakePages(st, []) == st
    {
    }

    static lemma PrefixSorted(rule: Rule, vmas: seq<Vma>, i: nat)
      requires VmasOk(vmas) && i <= |vmas|
      ensures Sorted(AreasOf(Selected(rule, vmas[..i])))
    {
      PrefixOk(vmas, i);
      SelectedOk(rule, vmas[..i]);
    }

    static lemma SelectedOne(rule: Rule, v: Vma)
      ensures Selected(rule, [v]) == if Selects(rule, v) then [v] else []
    {
      assert [v][1..] == [] && Selected(rule, []) == [];
    }

    static lemma NextInPrefix(rule: Rule, front: seq<Vma>, v: Vma)
      ensures Selected(rule, front + [v]) == Selected(rule, front) + (if Selects(rule, v) then [v] else [])
      ensures AllVmas(front + [v]) == AllVmas(front) + [SnapVmaOf(v)]
    {
      AllVmasAppend(front, v);
      SelectedConcat(rule, front, [v]);
      SelectedOne(rule, v);
    }

    /** One more selected area keeps the list sorted, and is walked after those before it. */
    static lemma NextVma(rule: Rule, vmas: seq<Vma>, i: nat)
      requires VmasOk(vmas) && i < |vmas|
      ensures Sorted(AreasOf(Selected(rule, vmas[..i + 1])))
      ensures Selected(rule, vmas[..i + 1]) == Selected(rule, vmas[..i]) + (if Selects(rule, vmas[i]) then [vmas[i]] else [])
      ensures Selected(rule, vmas[i..]) == (if Selects(rule, vmas[i]) then [vmas[i]] else []) + Selected(rule, vmas[i + 1..])
      ensures AllVmas(vmas[..i + 1]) == AllVmas(vmas[..i]) + [SnapVmaOf(vmas[i])]
    {
      PrefixSorted(rule, vmas, i + 1);
      hide *;
      assert vmas[..i + 1] == vmas[..i] + [vmas[i]] && vmas[i..] == [vmas[i]] + vmas[i + 1..];
      NextInPrefix(rule, vmas[..i], vmas[i]);
      SelectedHead(rule, vmas[i], vmas[i + 1..]);
    }

    static lemma AreasAppend(vmas: seq<Vma>, v: Vma)
      ensures AreasOf(vmas + [v]) == AreasOf(vmas) + [v.area]
    {
    }

    static lemma EntriesHead(v: Vma, rest: seq<Vma>)
      ensures EntriesOf([v] + rest) == v.entries + EntriesOf(rest)
    {
      assert ([v] + rest)[1..] == rest;
    }

    /** Walks one more selected area. */
    method TakeVma(v: Vma, ghost start: State, ghost pages: seq<nat>)
      requires engine.Valid() && Sorted(engine.areas + [v.area])
      requires engine.Abs() == MakePages(WithAreas(start, engine.areas), pages)
      modifies this, engine, engine.table, engine.table.buckets, engine.pages
      ensures engine.Valid() && engine.areas == old(engine.areas) + [v.area]
      ensures engine.Abs() == MakePages(WithAreas(start, engine.areas), pages + Walk(filter, old(Remembered()), v.entries).0)
      ensures Remembered() == Walk(filter, old(Remembered()), v.entries).1
      ensures old(engine.pages) <= engine.pages && fresh(engine.pages - old(engine.pages))
    {
      hide Engine.RecordsOk, Table.Valid, Walk, MakePages;
      ghost var before := engine.areas;
      MakePagesAreas(start, before, pages);
      engine.areas := engine.areas + [v.area];
      MakePagesAreas(start, engine.areas, pages);
      assert engine.Abs() == MakePages(WithAreas(start, engine.areas), pages);
      ghost var found := Walk(filter, Remembered(), v.entries).0;
      WalkEntries(v.entries);
      MakePagesConcat(WithAreas(start, engine.areas), pages, found);
    }

    /** What the loop over the areas has done, and what the rest of its walk will take. */
    ghost predicate Progress(rule: Rule, vmas: seq<Vma>, i: nat, start: State, pages: seq<nat>)
      requires i <= |vmas|
      reads this, engine
    {
      && engine.areas == AreasOf(Selected(rule, vmas[..i]))
      && engine.Abs() == MakePages(WithAreas(start, engine.areas), pages)
      && PagesTaken(rule, vmas) == pages + Walk(filter, Remembered(), EntriesOf(Selected(rule, vmas[i..]))).0
    }

    /** One iteration of the loop over the areas. */
    method TakeNext(rule: Rule, vmas: seq<Vma>, i: nat, ghost start: State, ghost pages: seq<nat>) returns (ghost pages': seq<nat>)
      requires engine.Valid() && rule.filter == filter && VmasOk(vmas) && i < |vmas|
      requires Progress(rule, vmas, i, start, pages)
      modifies this, engine, engine.table, engine.table.buckets, engine.pages
      ensures engine.Valid() && Progress(rule, vmas, i + 1, start, pages')
      ensures old(engine.pages) <= engine.pages && fresh(engine.pages - old(engine.pages))
    {
      hide Engine.RecordsOk, Table.Valid, Walk, MakePages, VmasOk, Sorted, Selects;
      var v := vmas[i];
      NextVma(rule, vmas, i);
      var selected := VmaSelected(rule, v);
      if selected {
        AreasAppend(Selected(rule, vmas[..i]), v);
        EntriesHead(v, Selected(rule, vmas[i + 1..]));
        WalkConcat(filter, Remembered(), v.entries, EntriesOf(Selected(rule, vmas[i + 1..])));
        pages' := pages + Walk(filter, Remembered(), v.entries).0;
        TakeVma(v, start, pages);
      } else {
        assert Selected(rule, vmas[..i + 1]) == Selected(rule, vmas[..i]);
        assert Selected(rule, vmas[i..]) == Selected(rule, vmas[i + 1..]);
        pages' := pages;
      }
    }

    /** `take_memory_snapshot`: the lists of areas and the page records it leaves, for any options and address space. */
    method TakeMemorySnapshot(rule: Rule, vmas: seq<Vma>) returns (allVmas: seq<SnapVma>)
      requires engine.Valid() && engine.Snapshot() == Snap(map[], [], [])
      requires Remembered() == NO_MEMO && rule.filter == filter && VmasOk(vmas)
      modifies this, engine, engine.table, engine.table.buckets, engine.pages
      ensures allVmas == AllVmas(vmas)
      ensures engine.Valid() && engine.areas == AreasOf(Selected(rule, vmas))
      ensures engine.Abs() == Take(old(engine.mem), AreasOf(Selected(rule, vmas)), PagesTaken(rule, vmas))
    {
      hide Engine.RecordsOk, Table.Valid, Walk, MakePages, VmasOk, Sorted, Selects, SnapVmaOf;
      allVmas := [];
      ghost var start, pages: seq<nat> := engine.Abs(), [];
      MakeNoPages(start);
      assert vmas[0..] == vmas && vmas[..0] == [];
      for i := 0 to |vmas|
        invariant engine.Valid() && Progress(rule, vmas, i, start, pages)
        invariant allVmas == AllVmas(vmas[..i])
        invariant old(engine.pages) <= engine.pages && fresh(engine.pages - old(engine.pages))
      {
        NextVma(rule, vmas, i);
        allVmas := allVmas + [SnapVmaOf(vmas[i])];
        pages := TakeNext(rule, vmas, i, start, pages);
      }
      assert vmas[..|vmas|] == vmas && vmas[|vmas|..] == [];
      WalkNothing(filter, Remembered());
      assert PagesTaken(rule, vmas) == pages;
    }

    static lemma WalkNothing(f: Filter, m: Memo)
      ensures Walk(f, m, EntriesOf([])).0 == []
    {
    }

    /** The tests of the loop over the areas, in order. */
    method VmaSelected(rule: Rule, v: Vma) returns (selected: bool)
      requires rule.filter == filter
      ensures selected == Selects(rule, v)
    {
      var allowed := FirstOverlap(filter.allow, v.area.start, v.area.end);
      if allowed.None? {
        if !v.writable { return false; }
        if v.shared { return false; }
        if filter.blockOthers { return false; }
        if rule.noStack && IsStack(rule, v) { return false; }
      }
      return true;
    }
  }
}
