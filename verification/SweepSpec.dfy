/**
  What `restore_vmas` leaves mapped, as a predicate on addresses, and when that is what a
  restore ought to leave mapped.
 */
module SweepSpec {
  import opened Basics

  /** The largest address; the sweep uses it as the position of an exhausted list. */
  const ULONG_MAX := 0xFFFF_FFFF_FFFF_FFFF

  /** One `struct snapshot_vma` of `all_vmas`. */
  datatype SnapVma = SnapVma(area: Area, isAnonymousPrivate: bool)

  ghost predicate SortedVmas(ss: seq<SnapVma>) {
    && (forall j :: 0 <= j < |ss| ==> ss[j].area.start < ss[j].area.end)
    && (forall i, j :: 0 <= i < j < |ss| ==> ss[i].area.end <= ss[j].area.start)
  }

  predicate InVmas(ss: seq<SnapVma>, a: nat) {
    exists j :: 0 <= j < |ss| && Contains(ss[j].area, a)
  }

  predicate InAnonVmas(ss: seq<SnapVma>, a: nat) {
    exists j :: 0 <= j < |ss| && ss[j].isAnonymousPrivate && Contains(ss[j].area, a)
  }

  /** All the areas end below the sentinel. */
  ghost predicate Bounded(cur: seq<Area>, ss: seq<SnapVma>) {
    && (forall k :: 0 <= k < |cur| ==> cur[k].end < ULONG_MAX)
    && (forall j :: 0 <= j < |ss| ==> ss[j].area.end < ULONG_MAX)
  }

  /** What a restore should map: what the snapshot had, where it survives or can be remade. */
  predicate Wanted(cur: seq<Area>, ss: seq<SnapVma>, a: nat) {
    InVmas(ss, a) && (InAreas(cur, a) || InAnonVmas(ss, a))
  }

  /** The current area `v` reaches into both snapshot areas around the gap [left.end, right.start). */
  predicate Straddles(v: Area, left: SnapVma, right: SnapVma) {
    v.start < left.area.end < right.area.start < v.end
  }

  /** `a` lies in a gap that one current area fills and overlaps on both sides, before an anonymous area. */
  predicate Refilled(cur: seq<Area>, ss: seq<SnapVma>, a: nat) {
    exists k, j :: 0 <= k < |cur| && 0 <= j < |ss| - 1 && Straddles(cur[k], ss[j], ss[j + 1])
      && ss[j].area.end <= a < ss[j + 1].area.start && ss[j + 1].isAnonymousPrivate
  }

  /** What the sweep does leave mapped. */
  predicate Swept(cur: seq<Area>, ss: seq<SnapVma>, a: nat) {
    Wanted(cur, ss, a) || Refilled(cur, ss, a)
  }

  ghost predicate NoRefill(cur: seq<Area>, ss: seq<SnapVma>) {
    forall k, j :: 0 <= k < |cur| && 0 <= j < |ss| - 1 && Straddles(cur[k], ss[j], ss[j + 1])
      ==> !ss[j + 1].isAnonymousPrivate
  }

  lemma GapIsOutside(ss: seq<SnapVma>, j: nat, a: nat)
    requires SortedVmas(ss) && j < |ss| - 1 && ss[j].area.end <= a < ss[j + 1].area.start
    ensures !InVmas(ss, a)
  {
    forall i | 0 <= i < |ss| ensures !Contains(ss[i].area, a) {
      if i < j { assert ss[i].area.end <= ss[j].area.start; }
      if i > j + 1 { assert ss[j + 1].area.end <= ss[i].area.start; }
    }
  }

  /** The sweep maps exactly the wanted addresses iff no filled gap precedes an anonymous area. */
  lemma SweptIsWantedIff(cur: seq<Area>, ss: seq<SnapVma>)
    requires SortedVmas(ss)
    ensures (forall a: nat :: Swept(cur, ss, a) <==> Wanted(cur, ss, a)) <==> NoRefill(cur, ss)
  {
    if !NoRefill(cur, ss) {
      var k, j :| 0 <= k < |cur| && 0 <= j < |ss| - 1 && Straddles(cur[k], ss[j], ss[j + 1])
        && ss[j + 1].isAnonymousPrivate;
      var a := ss[j].area.end;
      assert Refilled(cur, ss, a);
      GapIsOutside(ss, j, a);
      assert Swept(cur, ss, a) && !Wanted(cur, ss, a);
    }
  }

  lemma RefilledIsOutside(cur: seq<Area>, ss: seq<SnapVma>, a: nat)
    requires SortedVmas(ss) && Refilled(cur, ss, a)
    ensures !InVmas(ss, a)
  {
    var j :| 0 <= j < |ss| - 1 && ss[j].area.end <= a < ss[j + 1].area.start;
    GapIsOutside(ss, j, a);
  }
}
