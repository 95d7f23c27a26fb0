/**
  The pruned walk takes the same pages as a page-by-page filter over the same entries: for every
  tree of page tables iff the two lists of ranges do not meet in one particular way.
 */
module WalkTheorems {
  import opened Basics
  import opened Kernel
  import opened WalkSpec

  /**
    The way in which the lists may not meet.  Some range [x, n) lies in the first allowed range that
    overlaps it and is not covered by the first blocked one that does; so the walk remembers that
    everything up to the end of the allowed range may be taken.  A page from x on, short of the last
    one, is blocked nevertheless.
   */
  ghost predicate Clash(f: Filter, x: nat, n: nat, q: nat) {
    && PageAligned(x) && PageAligned(n) && PageAligned(q) && x < n && x <= q
    && AllowedBy(f, x, n).Some? && Covers(AllowedBy(f, x, n).value, x, n)
    && (BlockedBy(f, x, n).Some? ==> !Covers(BlockedBy(f, x, n).value, x, n))
    && q + PAGE_SIZE < AllowedBy(f, x, n).value.end
    && BlockedBy(f, q, q + PAGE_SIZE).Some?
  }

  ghost predicate Clashes(f: Filter) {
    exists x: nat, n: nat, q: nat :: Clash(f, x, n, q)
  }

  /** What the remembered addresses promise about the pages from `pos` on. */
  ghost predicate MemoOk(f: Filter, m: Memo, pos: nat) {
    forall p :: pos <= p && PageAligned(p) ==>
      && (p + PAGE_SIZE < m.nextBlocked ==> !Flat(f, p))
      && (p + PAGE_SIZE < m.nextAllowed ==> Flat(f, p))
  }

  /** No page of [lo, hi) is to be taken. */
  ghost predicate NoneTaken(f: Filter, lo: nat, hi: nat) {
    forall p :: lo <= p && p + PAGE_SIZE <= hi && PageAligned(p) ==> !Flat(f, p)
  }

  lemma CheckOk(f: Filter, m: Memo, addr: nat, next: nat)
    requires FilterAligned(f) && !Clashes(f) && MemoOk(f, m, addr)
    requires PageAligned(addr) && PageAligned(next) && addr < next
    ensures MemoOk(f, Check(f, m, addr, next).1, addr)
    ensures Check(f, m, addr, next).0 == Continue ==> NoneTaken(f, addr, next)
  {
    var (action, m') := Check(f, m, addr, next);
    forall p | addr <= p && PageAligned(p)
      ensures p + PAGE_SIZE < m'.nextBlocked ==> !Flat(f, p)
      ensures p + PAGE_SIZE < m'.nextAllowed ==> Flat(f, p)
      ensures action == Continue && p + PAGE_SIZE <= next ==> !Flat(f, p)
    {
      CheckPage(f, m, addr, next, p);
    }
  }

  lemma CheckPage(f: Filter, m: Memo, addr: nat, next: nat, p: nat)
    requires FilterAligned(f) && !Clashes(f) && MemoOk(f, m, addr)
    requires PageAligned(addr) && PageAligned(next) && addr < next && addr <= p && PageAligned(p)
    ensures var (action, m') := Check(f, m, addr, next);
            && (p + PAGE_SIZE < m'.nextBlocked ==> !Flat(f, p))
            && (p + PAGE_SIZE < m'.nextAllowed ==> Flat(f, p))
            && (action == Continue && p + PAGE_SIZE <= next ==> !Flat(f, p))
  {
    var (action, m') := Check(f, m, addr, next);
    var b, a := BlockedBy(f, addr, next), AllowedBy(f, addr, next);
    if next < m.nextBlocked || next < m.nextAllowed {
    } else if b.Some? && Covers(b.value, addr, next) {
      if p + PAGE_SIZE <= b.value.end {
        assert Overlaps(b.value, p, p + PAGE_SIZE) && b.value in f.block;
      }
    } else if a.Some? {
      if Covers(a.value, addr, next) && p + PAGE_SIZE < a.value.end {
        assert Overlaps(a.value, p, p + PAGE_SIZE) && a.value in f.allow;
        assert !Clash(f, addr, next, p);
      }
    }
  }

  /** On a single page the decision is the page's own. */
  lemma CheckPte(f: Filter, m: Memo, addr: nat)
    requires FilterAligned(f) && !Clashes(f) && MemoOk(f, m, addr) && PageAligned(addr)
    ensures Check(f, m, addr, addr + PAGE_SIZE).0 == Subtree <==> Flat(f, addr)
  {
    var b := BlockedBy(f, addr, addr + PAGE_SIZE);
    if b.Some? { PageIsCovered(b.value, addr); }
    CheckOk(f, m, addr, addr + PAGE_SIZE);
    hide Clashes, FilterAligned, Intersect, MemoOk;
  }

  lemma PageIsCovered(r: Area, addr: nat)
    requires PageAligned(r.start) && PageAligned(r.end) && PageAligned(addr) && Overlaps(r, addr, addr + PAGE_SIZE)
    ensures Covers(r, addr, addr + PAGE_SIZE)
  {
    var s, e, a := r.start / PAGE_SIZE, r.end / PAGE_SIZE, addr / PAGE_SIZE;
    assert r.start == s * PAGE_SIZE && r.end == e * PAGE_SIZE && addr == a * PAGE_SIZE;
  }

  lemma {:induction false} TakenConcat(f: Filter, a: seq<nat>, b: seq<nat>)
    ensures Taken(f, a + b) == Taken(f, a) + Taken(f, b)
  {
    hide Flat;
    if a == [] {
      assert a + b == b;
    } else {
      TakenConcat(f, a[1..], b);
      assert (a + b)[1..] == a[1..] + b;
    }
  }

  lemma {:induction false} NothingTakenBelow(f: Filter, e: Entry)
    requires EntryOk(e) && NoneTaken(f, Lo(e), Hi(e))
    ensures Taken(f, PagesOf(e)) == []
    decreases e, 1
  {
    if e.TableEntry? { NothingTaken(f, e.entries, e.lo, e.hi); }
  }

  lemma {:induction false} NothingTaken(f: Filter, es: seq<Entry>, lo: nat, hi: nat)
    requires EntriesOk(es, lo, hi) && NoneTaken(f, lo, hi)
    ensures Taken(f, Pages(es)) == []
    decreases es, 0
  {
    if es != [] {
      NothingTakenBelow(f, es[0]);
      NothingTaken(f, es[1..], Hi(es[0]), hi);
      TakenConcat(f, PagesOf(es[0]), Pages(es[1..]));
    }
  }

  lemma {:induction false} WalkOneIsFlat(f: Filter, m: Memo, e: Entry)
    requires FilterAligned(f) && !Clashes(f) && MemoOk(f, m, Lo(e)) && EntryOk(e)
    ensures WalkOne(f, m, e).0 == Taken(f, PagesOf(e)) && MemoOk(f, WalkOne(f, m, e).1, Hi(e))
    decreases e, 1
  {
    hide Check, Flat, Clashes, NoneTaken, FilterAligned;
    var (action, m') := Check(f, m, Lo(e), Hi(e));
    CheckOk(f, m, Lo(e), Hi(e));
    match e
    case PageEntry(addr) => CheckPte(f, m, addr);
    case TableEntry(lo, hi, prunes, entries) =>
      if prunes && action == Continue {
        NothingTaken(f, entries, lo, hi);
      } else {
        WalkIsFlat(f, m', entries, lo, hi);
      }
  }

  /** Despite the remembered addresses and the skipped subtrees, exactly the pages that pass the filter are taken. */
  lemma {:induction false} WalkIsFlat(f: Filter, m: Memo, es: seq<Entry>, lo: nat, hi: nat)
    requires FilterAligned(f) && !Clashes(f) && MemoOk(f, m, lo) && EntriesOk(es, lo, hi) && lo <= hi
    ensures Walk(f, m, es).0 == Taken(f, Pages(es)) && MemoOk(f, Walk(f, m, es).1, hi)
    decreases es, 0
  {
    if es != [] {
      WalkOneIsFlat(f, m, es[0]);
      EntriesEnd(es[1..], Hi(es[0]), hi);
      WalkIsFlat(f, WalkOne(f, m, es[0]).1, es[1..], Hi(es[0]), hi);
      TakenConcat(f, PagesOf(es[0]), Pages(es[1..]));
    }
  }

  lemma EntriesEnd(es: seq<Entry>, lo: nat, hi: nat)
    requires EntriesOk(es, lo, hi) && lo <= hi
    ensures lo <= hi
  {
  }

  /** A single page behind a table that left memo `m`. */
  lemma LeafOk(f: Filter, m: Memo, lo: nat, q: nat, hi: nat)
    requires PageAligned(q) && lo <= q && q + PAGE_SIZE <= hi && Check(f, m, q, q + PAGE_SIZE).0 == Subtree
    ensures EntriesOk([PageEntry(q)], lo, hi) && Pages([PageEntry(q)]) == [q] && Walk(f, m, [PageEntry(q)]).0 == [q]
  {
    assert (q + PAGE_SIZE) % PAGE_SIZE == 0 by { assert q == q / PAGE_SIZE * PAGE_SIZE; }
    var leaf := [PageEntry(q)];
    assert leaf[1..] == [] && EntryOk(leaf[0]);
    hide Check;
  }

  /** Ranges that clash mislead the walk: it takes a blocked page. */
  lemma ClashMisleads(f: Filter, x: nat, n: nat, q: nat) returns (es: seq<Entry>)
    requires FilterAligned(f) && Clash(f, x, n, q)
    ensures EntriesOk(es, x, n + q + PAGE_SIZE) && Pages(es) == [q]
    ensures Walk(f, NO_MEMO, es).0 == [q] && Taken(f, Pages(es)) == []
  {
    var m := Memo(AllowedBy(f, x, n).value.end, 0);
    assert Check(f, NO_MEMO, x, n) == (Subtree, m) && Check(f, m, q, q + PAGE_SIZE) == (Subtree, m);
    assert Taken(f, [q]) == [] by { assert !Flat(f, q) && [q][1..] == []; }
    var leaf := [PageEntry(q)];
    if q < n {
      PageBefore(q, n);
      LeafOk(f, m, x, q, n);
      es := [TableEntry(x, n, true, leaf)];
      assert es[1..] == [];
    } else {
      LeafOk(f, m, n, q, n + q + PAGE_SIZE);
      var table := TableEntry(x, n, true, []);
      es := [table] + leaf;
      assert es[1..] == leaf;
      assert WalkOne(f, NO_MEMO, table) == ([], m);
      assert PagesOf(table) == [];
    }
  }

  lemma PageBefore(q: nat, n: nat)
    requires PageAligned(q) && PageAligned(n) && q < n
    ensures q + PAGE_SIZE <= n
  {
    var a, b := q / PAGE_SIZE, n / PAGE_SIZE;
    assert q == a * PAGE_SIZE && n == b * PAGE_SIZE;
  }

  ghost predicate WalksFlat(f: Filter, es: seq<Entry>, lo: nat, hi: nat) {
    lo <= hi && EntriesOk(es, lo, hi) ==> Walk(f, NO_MEMO, es).0 == Taken(f, Pages(es))
  }

  /** The walk takes the pages of the flat filter, on every tree of page tables, iff the lists do not clash. */
  lemma WalkIsFlatIff(f: Filter)
    requires FilterAligned(f)
    ensures (forall es, lo, hi :: WalksFlat(f, es, lo, hi)) <==> !Clashes(f)
  {
    if Clashes(f) {
      var x: nat, n: nat, q: nat :| Clash(f, x, n, q);
      var es := ClashMisleads(f, x, n, q);
      assert !WalksFlat(f, es, x, n + q + PAGE_SIZE);
    } else {
      forall es, lo, hi ensures WalksFlat(f, es, lo, hi) {
        if lo <= hi && EntriesOk(es, lo, hi) { WalkIsFlat(f, NO_MEMO, es, lo, hi); }
      }
    }
  }

  // ---- The decision in terms of the ranges -----------------------------------------------------------------

  lemma OverlapIff(ranges: seq<Area>, addr: nat, next: nat)
    ensures Intersect(ranges, addr, next).Some? <==> exists r :: r in ranges && r.start < next && addr < r.end
  {
    if r :| r in ranges && r.start < next && addr < r.end {
      var i :| 0 <= i < |ranges| && ranges[i] == r;
      assert Overlaps(ranges[i], addr, next);
    }
  }

  /** Whichever range a search finds first: a page is taken iff no excluded range touches it, and under BLOCK an included one does. */
  lemma FlatIff(f: Filter, p: nat)
    ensures Flat(f, p)
            <==> (forall r :: r in f.block ==> r.end <= p || p + PAGE_SIZE <= r.start)
                 && (f.blockOthers ==> exists r :: r in f.allow && r.start < p + PAGE_SIZE && p < r.end)
  {
    OverlapIff(f.block, p, p + PAGE_SIZE);
    OverlapIff(f.allow, p, p + PAGE_SIZE);
  }

  lemma TouchedIsIn(ranges: seq<Area>, p: nat)
    requires (forall r :: r in ranges ==> PageAligned(r.start) && PageAligned(r.end)) && PageAligned(p)
    ensures Intersect(ranges, p, p + PAGE_SIZE).Some? <==> InAreas(ranges, p)
  {
    OverlapIff(ranges, p, p + PAGE_SIZE);
    forall r | r in ranges ensures r.start < p + PAGE_SIZE && p < r.end <==> Contains(r, p) {
      if r.start < p + PAGE_SIZE && p < r.end { PageIsCovered(r, p); }
    }
    if InAreas(ranges, p) {
      var i :| 0 <= i < |ranges| && Contains(ranges[i], p);
      assert ranges[i] in ranges;
    }
    if r :| r in ranges && Contains(r, p) {
      var i :| 0 <= i < |ranges| && ranges[i] == r;
    }
  }

  /** So for whole pages, the walk takes on every tree of page tables the pages outside the one list and, under BLOCK, inside the other. */
  lemma {:induction false} TakenPagesIff(f: Filter, es: seq<Entry>, lo: nat, hi: nat)
    requires FilterAligned(f) && !Clashes(f) && EntriesOk(es, lo, hi) && lo <= hi
    ensures forall p :: p in Walk(f, NO_MEMO, es).0
              <==> p in Pages(es) && !InAreas(f.block, p) && (f.blockOthers ==> InAreas(f.allow, p))
  {
    WalkIsFlat(f, NO_MEMO, es, lo, hi);
    TakenMembers(f, Pages(es));
    PagesAligned(es, lo, hi);
    forall p | p in Pages(es)
      ensures Flat(f, p) <==> !InAreas(f.block, p) && (f.blockOthers ==> InAreas(f.allow, p))
    {
      TouchedIsIn(f.block, p);
      TouchedIsIn(f.allow, p);
    }
  }

  lemma {:induction false} TakenMembers(f: Filter, pages: seq<nat>)
    ensures forall p :: p in Taken(f, pages) <==> p in pages && Flat(f, p)
  {
    if pages != [] {
      hide Flat;
      TakenMembers(f, pages[1..]);
      assert pages == [pages[0]] + pages[1..];
    }
  }

  lemma {:induction false} EntryPagesAligned(e: Entry)
    requires EntryOk(e)
    ensures forall p :: p in PagesOf(e) ==> PageAligned(p)
    decreases e, 1
  {
    match e
    case PageEntry(_) =>
    case TableEntry(lo, hi, _, entries) => PagesAligned(entries, lo, hi);
  }

  lemma {:induction false} PagesAligned(es: seq<Entry>, lo: nat, hi: nat)
    requires EntriesOk(es, lo, hi)
    ensures forall p :: p in Pages(es) ==> PageAligned(p)
    decreases es, 0
  {
    if es != [] {
      EntryPagesAligned(es[0]);
      PagesAligned(es[1..], Hi(es[0]), hi);
    }
  }

  /** Lists with no page in common do not clash. */
  lemma DisjointListsDoNotClash(f: Filter)
    requires FilterAligned(f)
    requires forall a, b, p: nat :: a in f.allow && b in f.block && PageAligned(p)
               ==> !(Overlaps(a, p, p + PAGE_SIZE) && Overlaps(b, p, p + PAGE_SIZE))
    ensures !Clashes(f)
  {
  }
}
