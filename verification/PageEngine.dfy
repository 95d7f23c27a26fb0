/**
  The page engine in its own form: `struct snapshot_page` objects, found through the hash table and
  threaded on the dirty list, which the hooks and the recovery loop update in place.

  Each method is proved to do to the abstract state what the function of PageSpec says.
 */
module PageEngine {
  import opened Basics
  import opened Kernel
  import opened PageSpec
  import opened PageTable
  import opened PageRuns

  function Bases(pages: seq<SnapshotPage>): (bases: seq<nat>)
    ensures |bases| == |pages|
    ensures forall i :: 0 <= i < |pages| ==> bases[i] == pages[i].pageBase
  {
    if pages == [] then [] else [pages[0].pageBase] + Bases(pages[1..])
  }

  lemma BasesAppend(pages: seq<SnapshotPage>, sp: SnapshotPage)
    ensures Bases(pages + [sp]) == Bases(pages) + [sp.pageBase]
  {
  }

  lemma {:induction false} UnlinkedBases(pages: seq<SnapshotPage>, sp: SnapshotPage)
    requires forall q :: q in pages && q.pageBase == sp.pageBase ==> q == sp
    ensures Bases(Without(pages, sp)) == Without(Bases(pages), sp.pageBase)
    ensures forall q :: q in Without(pages, sp) ==> q in pages
  {
    if pages != [] {
      UnlinkedBases(pages[1..], sp);
    }
  }

  lemma WriteKeepsRecord(st: State, p: nat, c: Content, reuse: bool)
    requires p in st.snap.records
    ensures p in Write(st, p, c, reuse).snap.records
    ensures Write(st, p, c, reuse).snap.records[p].prot == st.snap.records[p].prot
  {
  }

  /** The walk over the list, from position `at` on: the page there is recovered, and the walk goes on behind it. */
  lemma NextInWalk(st: State, at: nat, choices: Choices)
    requires ListStable(st.snap) && at < |st.snap.dirtyList|
    ensures var list := st.snap.dirtyList;
            var p, stays := list[at], Stranded(st, list[at], choices);
            && p in st.snap.records && (st.snap.records[p].dirty ==> st.snap.records[p].copied)
            && var next := RecoverPage(st, p, choices);
               && ListStable(next.snap) && next.snap.dirtyList == (if stays then list else list[..at] + list[at + 1..])
               && RecoverPages(next, next.snap.dirtyList[if stays then at + 1 else at..], choices)
                  == RecoverPages(st, list[at..], choices)
  {
    var list := st.snap.dirtyList;
    var p := list[at];
    assert p in list;
    RecoverPageStable(st, p, choices);
    WithoutAt(list, at);
    assert list[at..][0] == p && list[at..][1..] == list[at + 1..];
    assert (list[..at] + list[at + 1..])[at..] == list[at + 1..];
    hide ListStable, RecoverPage, Stranded, Without;
  }

  lemma BasesConcat(a: seq<SnapshotPage>, b: seq<SnapshotPage>)
    ensures Bases(a + b) == Bases(a) + Bases(b)
  {
    var all, parts := Bases(a + b), Bases(a) + Bases(b);
    forall i | 0 <= i < |all| ensures all[i] == parts[i] {
      assert (a + b)[i] == if i < |a| then a[i] else b[i - |a|];
    }
  }

  lemma BasesWithout(named: seq<SnapshotPage>, at: nat)
    requires at < |named|
    ensures Bases(named[..at] + named[at + 1..]) == Bases(named)[..at] + Bases(named)[at + 1..]
  {
    var front, back := named[..at], named[at + 1..];
    BasesConcat(front, back);
    BasesConcat(front, named[at..]);
    assert front + named[at..] == named && named[at..][1..] == back;
    CutAt(Bases(front), named[at].pageBase, Bases(back));
    assert Bases(named) == Bases(front) + ([named[at].pageBase] + Bases(back));
    hide *;
  }

  lemma CutAt(front: seq<nat>, p: nat, back: seq<nat>)
    ensures (front + ([p] + back))[..|front|] == front
    ensures (front + ([p] + back))[|front| + 1..] == back
  {
  }

  class Engine {
    const table: Table
    var dirtyPages: seq<SnapshotPage>
    var areas: seq<Area>
    var mem: Mem
    ghost var records: map<nat, Rec>
    ghost var pages: set<SnapshotPage>

    /** The abstract records are what the objects in the table hold, and the list holds records of the table. */
    ghost predicate RecordsOk()
      reads this`records, this`pages, this`dirtyPages, table, pages
    {
      && records.Keys == table.index.Keys
      && (forall p :: p in records ==>
            table.index[p] in pages && table.index[p].pageBase == p && records[p] == table.index[p].Value())
      && (forall sp :: sp in pages ==> sp.pageBase in records && table.index[sp.pageBase] == sp)
      && (forall sp :: sp in dirtyPages ==> sp in pages)
    }

    ghost predicate Valid()
      reads this`records, this`pages, this`dirtyPages, this`areas, table, table.buckets, pages
    {
      table.Valid() && RecordsOk() && Sorted(areas)
    }

    ghost function Snapshot(): Snap
      reads this`records, this`dirtyPages, this`areas
    {
      Snap(records, Bases(dirtyPages), areas)
    }

    ghost function Abs(): State
      reads this
    {
      State(mem, Snapshot())
    }

    /** What the table holds for one page. */
    lemma Lookup(p: nat)
      requires RecordsOk()
      ensures p in records <==> p in table.index
      ensures p in records ==>
                && table.index[p] in pages && table.index[p].pageBase == p && records[p] == table.index[p].Value()
    {
    }

    /** With every other record object untouched, the abstract records change at `sp` alone. */
    twostate lemma RecordUpdated(new sp: SnapshotPage)
      requires old(RecordsOk())
      requires table.index == old(table.index)[sp.pageBase := sp]
      requires sp in old(pages) || sp.pageBase !in old(records)
      requires records == old(records)[sp.pageBase := sp.Value()] && pages == old(pages) + {sp}
      requires forall q :: q in old(pages) && q != sp ==> q.Value() == old(q.Value())
      requires forall q :: q in dirtyPages ==> q in old(dirtyPages) || q == sp
      ensures RecordsOk()
    {
      forall p | p in records
        ensures table.index[p] in pages && table.index[p].pageBase == p && records[p] == table.index[p].Value()
      {
        if p != sp.pageBase {
          var q := old(table.index)[p];
          assert q in old(pages) && q != sp;
        }
      }
    }

    constructor (hash: nat -> nat, mem: Mem)
      ensures Valid() && Abs() == State(mem, Snap(map[], [], []))
      ensures fresh(table) && fresh(table.buckets) && pages == {}
    {
      this.mem := mem;
      table := new Table(hash);
      dirtyPages, areas, records, pages := [], [], map[], {};
    }

    /** The new or reused record of `p` at the take. */
    method PutRecord(p: nat, prot: Prot, hadPte: bool)
      requires Valid()
      modifies this`records, this`pages, table, table.buckets, pages
      ensures Valid() && Snapshot() == Put(old(Snapshot()), p, AddedRec(old(Snapshot()), p, prot, hadPte))
      ensures old(pages) <= pages && fresh(pages - old(pages))
    {
      hide Table.Valid, RecordsOk;
      Lookup(p);
      hide Sorted, Bases;
      ghost var snap := Snapshot();
      ghost var r := AddedRec(snap, p, prot, hadPte);
      var sp := table.AddSnapshotPage(p, true, prot, hadPte);
      assert sp.Value() == r;
      hide AddedRec, SnapshotPage.Value;
      records, pages := records[p := sp.Value()], pages + {sp};
      RecordUpdated(sp);
    }

    method MakeSnapshotPage(p: nat)
      requires Valid()
      modifies this, table, table.buckets, pages
      ensures Valid() && Abs() == MakePage(old(Abs()), p) && areas == old(areas)
      ensures old(pages) <= pages && fresh(pages - old(pages))
    {
      hide Table.Valid, RecordsOk;
      if p !in mem.ptes {
        PutRecord(p, Prot(false, false, true), false);
      } else if mem.ptes[p].writable {
        mem := WriteProtect(mem, p);
        PutRecord(p, Prot(true, false, false), true);
      } else {
        PutRecord(p, Prot(false, true, false), true);
      }
    }

    /** Returns the record only when it has just become dirty. */
    method RecordDirtyPage(p: nat, c: Content) returns (sp: SnapshotPage?)
      requires Valid()
      modifies this`dirtyPages, this`records, pages
      ensures Valid() && Snapshot() == RecordDirty(old(Snapshot()), p, c)
      ensures sp == if PageSpec.Records(old(Snapshot()), p) then table.index[p] else null
    {
      hide Table.Valid, RecordsOk;
      Lookup(p);
      sp := table.Get(p);
      if sp == null || sp.dirty || sp.prot.isNonePte {
        sp := null;
      } else {
        if !sp.inList {
          BasesAppend(dirtyPages, sp);
          dirtyPages := dirtyPages + [sp];
        }
        sp.BecomeDirty(c);
        records := records[p := sp.Value()];
        RecordUpdated(sp);
      }
    }

    /** The hook on `do_wp_page`; when it handles the fault, the original function is skipped. */
    method DoWpPageHook(p: nat) returns (handled: bool)
      requires Valid()
      modifies this`dirtyPages, this`records, this`mem, pages
      ensures Valid() && Abs() == WpHook(old(Abs()), p)
      ensures handled == WpHandles(old(Snapshot()), p)
    {
      hide Table.Valid, RecordsOk;
      var sp := RecordDirtyPage(p, Contents(mem, p));
      Lookup(p);
      handled := sp != null && sp.prot.isPrivate;
      if handled {
        mem := MakeWritable(mem, p);
      }
    }

    /** The early exit is sound because the selected areas are sorted. */
    method IsSnapshottedAddress(p: nat) returns (found: bool)
      requires Sorted(areas)
      ensures found == InAreas(areas, p)
    {
      var i := 0;
      while i < |areas|
        invariant 0 <= i <= |areas|
        invariant forall k :: 0 <= k < i ==> !Contains(areas[k], p)
      {
        if areas[i].start <= p && p < areas[i].end {
          assert Contains(areas[i], p);
          return true;
        }
        if areas[i].start > p { break; }
        i := i + 1;
      }
      return false;
    }

    /** A record made on demand for a page that had no entry at the take. */
    method AddEmptyRecord(p: nat) returns (sp: SnapshotPage)
      requires Valid() && p !in records
      modifies this`records, this`pages, table, table.buckets
      ensures Valid() && table.index == old(table.index)[p := sp] && fresh(sp) && sp.pageBase == p && pages == old(pages) + {sp}
      ensures Snapshot() == Put(old(Snapshot()), p, RmapRec(old(Snapshot()), p))
    {
      hide Table.Valid, RecordsOk;
      Lookup(p);
      sp := table.AddSnapshotPage(p, false, Prot(false, false, true), false);
      records, pages := records[p := sp.Value()], pages + {sp};
      RecordUpdated(sp);
    }

    /** The page now has a frame of its own; if it had none at the take, it goes on the list. */
    method TouchRecord(sp: SnapshotPage)
      requires Valid() && sp.pageBase in records && table.index[sp.pageBase] == sp
      modifies this`dirtyPages, this`records, pages
      ensures Valid() && Snapshot() == RmapHook(old(Snapshot()), sp.pageBase)
    {
      hide Table.Valid, RecordsOk;
      Lookup(sp.pageBase);
      sp.hadPte := true;
      if sp.prot.isNonePte && !sp.inList {
        sp.inList := true;
        BasesAppend(dirtyPages, sp);
        dirtyPages := dirtyPages + [sp];
      }
      records := records[sp.pageBase := sp.Value()];
      RecordUpdated(sp);
    }

    /** The hook on `page_add_new_anon_rmap`. */
    method PageAddNewAnonRmapHook(p: nat)
      requires Valid()
      modifies this`dirtyPages, this`records, this`pages, table, table.buckets, pages
      ensures Valid() && Snapshot() == RmapHook(old(Snapshot()), p)
      ensures old(pages) <= pages && fresh(pages - old(pages))
    {
      hide Table.Valid, RecordsOk;
      Lookup(p);
      var sp := table.Get(p);
      if sp == null {
        var tracked := IsSnapshottedAddress(p);
        if !tracked { return; }
        sp := AddEmptyRecord(p);
        Lookup(p);
      }
      TouchRecord(sp);
    }

    /** The hook on `__do_munmap`, over the entries its page walk meets. */
    method DoMunmapHook(visited: seq<nat>)
      requires Valid()
      modifies this`dirtyPages, this`records, pages
      ensures Valid() && Abs() == UnmapHook(old(Abs()), visited)
    {
      hide Table.Valid, RecordsOk;
      var i := 0;
      while i < |visited|
        invariant 0 <= i <= |visited| && Valid()
        invariant UnmapHook(Abs(), visited[i..]) == UnmapHook(old(Abs()), visited)
      {
        var sp := RecordDirtyPage(visited[i], Contents(mem, visited[i]));
        assert visited[i..][1..] == visited[i + 1..];
        i := i + 1;
      }
    }

    /** A store to a page, by the process or by `copy_to_user`, through the kernel's fault path and the hooks. */
    method StoreToPage(p: nat, c: Content, reuse: bool)
      requires Valid()
      modifies this, table, table.buckets, pages
      ensures Valid() && Abs() == Write(old(Abs()), p, c, reuse) && areas == old(areas)
      ensures old(pages) <= pages && fresh(pages - old(pages))
    {
      hide Table.Valid, RecordsOk;
      if p !in mem.mapped { return; }
      if p !in mem.ptes {
        PageAddNewAnonRmapHook(p);
        mem := CowFault(mem, p);
      } else if !mem.ptes[p].writable {
        var handled := DoWpPageHook(p);
        if !handled {
          if reuse && Exclusive(mem, p) {
            mem := MakeWritable(mem, p);
          } else {
            PageAddNewAnonRmapHook(p);
            mem := CowFault(mem, p);
          }
        }
      }
      mem := Store(mem, p, c);
    }

    lemma ListedIsUnique(sp: SnapshotPage)
      requires RecordsOk() && sp in pages
      ensures forall q :: q in dirtyPages && q.pageBase == sp.pageBase ==> q == sp
      ensures sp.pageBase in records && table.index[sp.pageBase] == sp
    {
    }

    /** The fields and the list, at the end of an iteration of the recovery loop. */
    method ListDel(sp: SnapshotPage, prot: Prot, hadPte: bool, dirty: bool)
      requires Valid() && sp in pages
      modifies this`dirtyPages, this`records, pages
      ensures Valid() && sp.pageBase in old(records)
      ensures Snapshot() == Unlist(old(Snapshot()), sp.pageBase, prot, hadPte, dirty)
      ensures dirtyPages == Without(old(dirtyPages), sp)
    {
      hide Table.Valid, RecordsOk;
      ListedIsUnique(sp);
      Lookup(sp.pageBase);
      UnlinkedBases(dirtyPages, sp);
      sp.prot, sp.hadPte, sp.dirty, sp.inList := prot, hadPte, dirty, false;
      dirtyPages := Without(dirtyPages, sp);
      records := records[sp.pageBase := sp.Value()];
      RecordUpdated(sp);
    }

    /** The early `continue`: the page is clean, and stays on the list. */
    method Skip(sp: SnapshotPage)
      requires Valid() && sp in pages && sp.pageBase in records
      modifies this`records, pages
      ensures Valid()
      ensures var r := old(records[sp.pageBase]);
              Snapshot() == Put(old(Snapshot()), sp.pageBase, Rec(r.prot, r.data, r.copied, true, false, r.inList))
    {
      hide Table.Valid, RecordsOk;
      ListedIsUnique(sp);
      Lookup(sp.pageBase);
      sp.dirty, sp.hadPte := false, true;
      records := records[sp.pageBase := sp.Value()];
      RecordUpdated(sp);
    }

    /** The body of the loop over the dirty list; whether the page stays on it. */
    method RecoverOne(sp: SnapshotPage, choices: Choices) returns (stays: bool)
      requires Valid() && sp in pages && sp.pageBase in records && (sp.dirty ==> sp.copied)
      modifies this, table, table.buckets, pages
      ensures Valid() && Abs() == RecoverPage(old(Abs()), sp.pageBase, choices)
      ensures stays == Stranded(old(Abs()), sp.pageBase, choices)
      ensures old(pages) <= pages && fresh(pages - old(pages))
    {
      hide Table.Valid, RecordsOk;
      ListedIsUnique(sp);
      Lookup(sp.pageBase);
      stays := false;
      if sp.dirty && sp.copied {
        stays := CopyBack(sp, choices);
      } else if sp.prot.isPrivate {
        ListDel(sp, sp.prot, sp.hadPte, sp.dirty);
      } else if sp.prot.isNonePte && sp.hadPte {
        mem := Zap(mem, sp.pageBase);
        ListDel(sp, sp.prot, false, sp.dirty);
      } else {
        ListDel(sp, sp.prot, sp.hadPte, sp.dirty);
      }
    }

    method CopyBack(sp: SnapshotPage, choices: Choices) returns (stays: bool)
      requires Valid() && sp in pages && sp.pageBase in records && sp.dirty && sp.copied
      modifies this, table, table.buckets, pages
      ensures Valid() && Abs() == RecoverPage(old(Abs()), sp.pageBase, choices)
      ensures stays == Stranded(old(Abs()), sp.pageBase, choices)
      ensures old(pages) <= pages && fresh(pages - old(pages))
    {
      hide Table.Valid, RecordsOk;
      ListedIsUnique(sp);
      Lookup(sp.pageBase);
      var p := sp.pageBase;
      WriteKeepsRecord(Abs(), p, SavedCopy(sp.Value()), p in choices.reuse);
      WriteMaps(Abs(), p, SavedCopy(sp.Value()), p in choices.reuse);
      StoreToPage(p, SavedCopy(sp.Value()), p in choices.reuse);
      ListedIsUnique(sp);
      Lookup(p);
      stays := TableGone(mem, p, choices);
      if stays {
        Skip(sp);
      } else {
        ListDel(sp, Prot(true, sp.prot.isCow, sp.prot.isNonePte), true, false);
        mem := WriteProtect(mem, p);
      }
    }

    lemma ListedAreRecorded()
      requires RecordsOk()
      ensures forall i :: 0 <= i < |dirtyPages| ==>
                dirtyPages[i] in pages && dirtyPages[i].pageBase in records && Bases(dirtyPages)[i] == dirtyPages[i].pageBase
      ensures forall i :: 0 <= i < |dirtyPages| && dirtyPages[i].pageBase in records ==>
                records[dirtyPages[i].pageBase] == dirtyPages[i].Value()
    {
    }

    /** The records on the list are those that its page bases name. */
    lemma NamedByBases(named: seq<SnapshotPage>)
      requires RecordsOk() && Bases(named) == Bases(dirtyPages) && forall sp :: sp in named ==> sp in pages
      ensures named == dirtyPages
    {
      forall i | 0 <= i < |named| ensures named[i] == dirtyPages[i] {
        assert Bases(named)[i] == named[i].pageBase && Bases(dirtyPages)[i] == dirtyPages[i].pageBase;
        assert named[i] in named && dirtyPages[i] in dirtyPages;
      }
    }

    /** One iteration, at position `at` of the list. */
    method RecoverNext(sp: SnapshotPage, ghost at: nat, choices: Choices) returns (stays: bool)
      requires Valid() && ListStable(Snapshot()) && at < |dirtyPages| && dirtyPages[at] == sp
      modifies this, table, table.buckets, pages
      ensures Valid() && ListStable(Snapshot())
      ensures dirtyPages == if stays then old(dirtyPages) else old(dirtyPages[..at] + dirtyPages[at + 1..])
      ensures RecoverPages(Abs(), Snapshot().dirtyList[if stays then at + 1 else at..], choices)
              == RecoverPages(old(Abs()), old(Snapshot().dirtyList[at..]), choices)
      ensures old(pages) <= pages && fresh(pages - old(pages))
    {
      hide Table.Valid, RecordsOk, ListStable, RecoverPage, RecoverPages, Stranded, Sorted;
      ghost var before := dirtyPages;
      ListedAreRecorded();
      NextInWalk(Abs(), at, choices);
      BasesWithout(before, at);
      stays := RecoverOne(sp, choices);
      NamedByBases(if stays then before else before[..at] + before[at + 1..]);
    }

    /**
      The loop over the dirty list, which saves each page's successor before working on the page; pages that
      stay are left behind, `at` of them so far.
     */
    method RecoverDirtyPages(choices: Choices)
      requires Valid() && ListStable(Snapshot())
      modifies this, table, table.buckets, pages
      ensures Valid()
      ensures Abs() == RecoverPages(old(Abs()), old(Snapshot().dirtyList), choices)
      ensures old(pages) <= pages && fresh(pages - old(pages))
    {
      hide Table.Valid, RecordsOk, ListStable;
      var at := 0;
      var sp: SnapshotPage? := if dirtyPages == [] then null else dirtyPages[0];
      assert Snapshot().dirtyList[0..] == Snapshot().dirtyList;
      while sp != null
        invariant Valid() && ListStable(Snapshot())
        invariant 0 <= at <= |dirtyPages|
        invariant if at == |dirtyPages| then sp == null else sp == dirtyPages[at]
        invariant old(pages) <= pages && fresh(pages - old(pages))
        invariant RecoverPages(Abs(), Snapshot().dirtyList[at..], choices)
                  == RecoverPages(old(Abs()), old(Snapshot().dirtyList), choices)
        decreases |dirtyPages| - at
      {
        ListedAreRecorded();
        var n: SnapshotPage? := if at + 1 < |dirtyPages| then dirtyPages[at + 1] else null;
        var stays := RecoverNext(sp, at, choices);
        if stays { at := at + 1; }
        sp := n;
      }
    }
  }
}
