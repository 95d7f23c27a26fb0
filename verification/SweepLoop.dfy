/**
  The merge loop of `restore_vmas` on values, with the process' list of areas live: an unmap that
  splits the area under the iterator leaves the iterator on the lower part.
 */
module SweepLoop {
  import opened Basics
  import opened SweepSpec

  datatype Op = Unmap(lo: nat, hi: nat) | Map(lo: nat, hi: nat) | Missing(lo: nat, hi: nat)

  /**
    One moment of the loop: `done` are the live areas in front of `vma_iter`, `rest` starts at it;
    `ss` starts at `ss_vma_iter`; `log` are the operations so far.
   */
  datatype Live = Live(done: seq<Area>, rest: seq<Area>, ss: seq<SnapVma>, inVma: bool, inSs: bool,
                       cursor: nat, log: seq<Op>)

  function NextVmaPos(s: Live): nat {
    if s.rest == [] then ULONG_MAX else if s.inVma then s.rest[0].end else s.rest[0].start
  }

  function NextSsPos(s: Live): nat {
    if s.ss == [] then ULONG_MAX else if s.inSs then s.ss[0].area.end else s.ss[0].area.start
  }

  function NextCursor(s: Live): nat {
    if NextVmaPos(s) <= NextSsPos(s) then NextVmaPos(s) else NextSsPos(s)
  }

  /** What is left of area `v` once [lo, hi) is unmapped; the first part remains the node it was. */
  function Punch(v: Area, lo: nat, hi: nat): seq<Area> {
    (if v.start < lo then [Area(v.start, lo)] else []) + (if hi < v.end then [Area(hi, v.end)] else [])
  }

  predicate Unmaps(s: Live) {
    NextCursor(s) != s.cursor && s.inVma && !s.inSs
  }

  predicate Maps(s: Live) {
    NextCursor(s) != s.cursor && !s.inVma && s.inSs && s.ss != [] && s.ss[0].isAnonymousPrivate
  }

  predicate Misses(s: Live) {
    NextCursor(s) != s.cursor && !s.inVma && s.inSs && s.ss != [] && !s.ss[0].isAnonymousPrivate
  }

  function OpOf(s: Live): seq<Op> {
    if Unmaps(s) then [Unmap(s.cursor, NextCursor(s))]
    else if Maps(s) then [Map(s.cursor, NextCursor(s))]
    else if Misses(s) then [Missing(s.cursor, NextCursor(s))]
    else []
  }

  /** The area under the iterator after the operation. */
  function Kept(s: Live): seq<Area>
    requires s.rest != []
  {
    if Unmaps(s) then Punch(s.rest[0], s.cursor, NextCursor(s)) else [s.rest[0]]
  }

  function Inserted(s: Live): seq<Area> {
    if Maps(s) then [Area(s.cursor, NextCursor(s))] else []
  }

  predicate LeavesVma(s: Live) {
    s.rest != [] && s.inVma && NextCursor(s) == NextVmaPos(s)
  }

  predicate LeavesSs(s: Live) {
    s.ss != [] && s.inSs && NextCursor(s) == NextSsPos(s)
  }

  function Step(s: Live): Live {
    Live(s.done + Inserted(s) + (if LeavesVma(s) then Kept(s) else []),
         if s.rest == [] then [] else if LeavesVma(s) then s.rest[1..] else Kept(s) + s.rest[1..],
         if LeavesSs(s) then s.ss[1..] else s.ss,
         if NextCursor(s) == NextVmaPos(s) then !s.inVma else s.inVma,
         if NextCursor(s) == NextSsPos(s) then !s.inSs else s.inSs,
         NextCursor(s),
         s.log + OpOf(s))
  }

  // ---- The invariant ------------------------------------------------------------------------------

  /** The snapshot area that `ss_vma_iter` points to, as an index. */
  function SsIndex(s: Live, all: seq<SnapVma>): int {
    |all| - |s.ss|
  }

  /** `ss` is what remains of the snapshot's areas. */
  ghost predicate SsPart(s: Live, all: seq<SnapVma>) {
    && SortedVmas(all) && |s.ss| <= |all| && s.ss == all[|all| - |s.ss|..]
    && (forall j :: 0 <= j < |all| ==> all[j].area.end < ULONG_MAX)
  }

  lemma SsHead(s: Live, all: seq<SnapVma>)
    requires SsPart(s, all) && s.ss != []
    ensures s.ss[0] == all[SsIndex(s, all)] && s.ss[1..] == all[SsIndex(s, all) + 1..]
    ensures s.ss[0].area.start < s.ss[0].area.end < ULONG_MAX
    ensures |s.ss| > 1 ==> s.ss[0].area.end <= s.ss[1].area.start && s.ss[1] == all[SsIndex(s, all) + 1]
  {
  }

  ghost predicate Shape(s: Live, cur: seq<Area>, all: seq<SnapVma>, k: nat) {
    && Sorted(cur) && Bounded(cur, all) && SsPart(s, all)
    && k <= |cur|
    && Sorted(s.done + s.rest)
    && (forall i :: 0 <= i < |s.done| ==> s.done[i].end <= s.cursor)
    && s.cursor < ULONG_MAX
  }

  /** `in_ss_vmas` describes the snapshot areas at the cursor. */
  ghost predicate SsSync(s: Live, all: seq<SnapVma>) {
    && (s.inSs ==> s.ss != [] && s.ss[0].area.start <= s.cursor < s.ss[0].area.end)
    && (s.ss != [] && !s.inSs ==> s.cursor <= s.ss[0].area.start)
    && (0 < SsIndex(s, all) <= |all| ==> all[SsIndex(s, all) - 1].area.end <= s.cursor)
  }

  /** `in_vmas` describes the original areas at the cursor; of the one under the iterator a part may be gone. */
  ghost predicate VmaSync(s: Live, cur: seq<Area>, k: nat)
    requires k <= |cur|
  {
    && |s.rest| == |cur| - k
    && (s.rest != [] ==> s.rest[1..] == cur[k + 1..] && s.rest[0].end == cur[k].end && cur[k].start <= s.rest[0].start)
    && (s.rest != [] && !s.inVma ==> s.rest[0] == cur[k] && s.cursor <= cur[k].start)
    && (s.inVma ==> s.rest != [] && s.rest[0].start <= s.cursor < s.rest[0].end)
    && (k > 0 ==> cur[k - 1].end <= s.cursor)
  }

  /** Inside a current area but outside the snapshot's, the cursor got there by entering the one or leaving the other. */
  ghost predicate Entered(s: Live, cur: seq<Area>, all: seq<SnapVma>, k: nat)
    requires k <= |cur|
  {
    s.inVma && !s.inSs && s.rest != [] && k < |cur| ==>
      && (s.rest[0].start == s.cursor ==> cur[k].start == s.cursor)
      && (s.rest[0].start < s.cursor ==> 0 < SsIndex(s, all) <= |all| && all[SsIndex(s, all) - 1].area.end == s.cursor)
  }

  ghost predicate Sync(s: Live, cur: seq<Area>, all: seq<SnapVma>, k: nat) {
    Shape(s, cur, all, k) && SsSync(s, all) && VmaSync(s, cur, k) && Entered(s, cur, all, k)
  }

  /** The gap before `ss[0]` has just been cut out of an area that reaches into both its neighbours. */
  ghost predicate CutGap(s: Live, cur: seq<Area>, all: seq<SnapVma>, k: nat, c: nat) {
    var j := SsIndex(s, all);
    && Shape(s, cur, all, k) && k < |cur|
    && s.ss != [] && s.inSs && j > 0 && all[j - 1].area.end == c < s.ss[0].area.start
    && Straddles(cur[k], all[j - 1], all[j])
  }

  /** The iterator is still on the part below the gap, and the cursor above it. */
  ghost predicate Behind(s: Live, cur: seq<Area>, all: seq<SnapVma>, k: nat, c: nat) {
    && CutGap(s, cur, all, k, c)
    && s.inVma && |s.rest| == |cur| - k + 1
    && s.cursor == s.ss[0].area.start
    && s.rest[0].end == c
    && s.rest[1] == Area(s.ss[0].area.start, cur[k].end) && s.rest[2..] == cur[k + 1..]
  }

  /** The cursor has gone back to the start of the gap. */
  ghost predicate SteppedBack(s: Live, cur: seq<Area>, all: seq<SnapVma>, k: nat, c: nat) {
    && Sorted(cur) && Bounded(cur, all) && k < |cur|
    && SsPart(s, all) && 0 < |s.ss| < |all|
    && Sorted(s.done + s.rest)
    && (forall i :: 0 <= i < |s.done| ==> s.done[i].end <= s.cursor)
    && s.inSs && !s.inVma && s.cursor == c
    && all[SsIndex(s, all) - 1].area.end == c < s.ss[0].area.start
    && Straddles(cur[k], all[SsIndex(s, all) - 1], s.ss[0])
    && |s.rest| == |cur| - k
    && s.rest[0] == Area(s.ss[0].area.start, cur[k].end) && s.rest[1..] == cur[k + 1..]
  }

  // ---- Steps between the three situations -----------------------------------------------------------

  /** The situation in which the cursor goes back. */
  predicate Splits(s: Live) {
    && s.rest != [] && s.ss != [] && s.inVma && !s.inSs
    && s.rest[0].start < s.cursor < s.ss[0].area.start < s.rest[0].end
  }

  lemma SortedSplice(a: seq<Area>, mid: seq<Area>, b: seq<Area>, lo: nat, hi: nat)
    requires Sorted(a) && Sorted(mid) && Sorted(b) && lo <= hi
    requires forall i :: 0 <= i < |a| ==> a[i].end <= lo
    requires forall i :: 0 <= i < |mid| ==> lo <= mid[i].start && mid[i].end <= hi
    requires forall i :: 0 <= i < |b| ==> hi <= b[i].start
    ensures Sorted(a + mid + b)
  {
  }

  lemma SortedParts(a: seq<Area>, b: seq<Area>)
    requires Sorted(a + b)
    ensures Sorted(a) && Sorted(b)
    ensures forall i, j :: 0 <= i < |a| && 0 <= j < |b| ==> a[i].end <= b[j].start
  {
    assert forall i :: 0 <= i < |a| ==> (a + b)[i] == a[i];
    assert forall j :: 0 <= j < |b| ==> (a + b)[|a| + j] == b[j];
  }

  lemma PunchSorted(done: seq<Area>, v: Area, tail: seq<Area>, lo: nat, hi: nat)
    requires Sorted(done + [v] + tail) && v.start <= lo < hi <= v.end
    ensures Sorted(done + Punch(v, lo, hi) + tail)
  {
    SortedParts(done + [v], tail);
    SortedParts(done, [v]);
    assert (done + [v])[|done|] == v;
    SortedSplice(done, Punch(v, lo, hi), tail, v.start, v.end);
  }

  lemma InsertSorted(done: seq<Area>, rest: seq<Area>, lo: nat, hi: nat)
    requires Sorted(done + rest) && lo < hi
    requires forall i :: 0 <= i < |done| ==> done[i].end <= lo
    requires rest != [] ==> hi <= rest[0].start
    ensures Sorted(done + [Area(lo, hi)] + rest)
  {
    SortedParts(done, rest);
    forall i | 0 <= i < |rest| ensures hi <= rest[i].start {
      if i > 0 { assert rest[0].end <= rest[i].start; }
    }
    SortedSplice(done, [Area(lo, hi)], rest, lo, hi);
  }

  /** The live list after a step, whichever side of the iterator its parts are on. */
  lemma StepList(s: Live)
    requires s.inVma ==> s.rest != []
    ensures Step(s).done + Step(s).rest ==
            if Unmaps(s) then s.done + Punch(s.rest[0], s.cursor, NextCursor(s)) + s.rest[1..]
            else if Maps(s) then s.done + [Area(s.cursor, NextCursor(s))] + s.rest
            else s.done + s.rest
  {
  }

  lemma StepSorted(s: Live)
    requires Sorted(s.done + s.rest)
    requires forall i :: 0 <= i < |s.done| ==> s.done[i].end <= s.cursor
    requires s.inVma ==> s.rest != []
    requires !s.inVma && s.rest != [] ==> NextCursor(s) <= s.rest[0].start
    requires Unmaps(s) ==> s.rest[0].start <= s.cursor < NextCursor(s) <= s.rest[0].end
    requires s.cursor <= NextCursor(s)
    ensures Sorted(Step(s).done + Step(s).rest)
  {
    StepList(s);
    if Unmaps(s) {
      assert s.done + s.rest == s.done + [s.rest[0]] + s.rest[1..];
      PunchSorted(s.done, s.rest[0], s.rest[1..], s.cursor, NextCursor(s));
    } else if Maps(s) {
      InsertSorted(s.done, s.rest, s.cursor, NextCursor(s));
    }
  }

  lemma DonePart(s: Live)
    requires Sorted(s.done + s.rest)
    requires forall i :: 0 <= i < |s.done| ==> s.done[i].end <= s.cursor
    requires s.cursor <= NextCursor(s)
    requires Unmaps(s) && LeavesVma(s) ==> s.rest[0].start <= s.cursor
    ensures forall i :: 0 <= i < |Step(s).done| ==> Step(s).done[i].end <= NextCursor(s)
  {
  }

  /** Moving on within the snapshot's area, or up to the next one. */
  lemma SsStay(s: Live, s': Live, all: seq<SnapVma>)
    requires SsPart(s, all) && SsSync(s, all) && s.cursor <= NextCursor(s) < ULONG_MAX && !LeavesSs(s)
    requires s'.ss == s.ss && s'.cursor == NextCursor(s)
    requires s'.inSs == if NextCursor(s) == NextSsPos(s) then !s.inSs else s.inSs
    ensures SsSync(s', all) && SsPart(s', all)
  {
    hide NextVmaPos;
    if s.ss != [] { SsHead(s, all); }
    hide SortedVmas;
  }

  /** Leaving the snapshot's area. */
  lemma SsLeave(s: Live, s': Live, all: seq<SnapVma>)
    requires SsPart(s, all) && SsSync(s, all) && s.cursor <= NextCursor(s) < ULONG_MAX && LeavesSs(s)
    requires s'.ss == s.ss[1..] && s'.cursor == NextCursor(s) && !s'.inSs
    ensures SsSync(s', all) && SsPart(s', all)
  {
    hide NextVmaPos;
    SsHead(s, all);
    var j := SsIndex(s, all);
    assert |s'.ss| == |s.ss| - 1 && SsIndex(s', all) == j + 1;
    assert s'.ss != [] ==> s'.ss[0] == s.ss[1];
    hide SortedVmas, NextCursor;
  }

  lemma SsStep(s: Live, all: seq<SnapVma>)
    requires SsPart(s, all) && SsSync(s, all) && s.cursor <= NextCursor(s) < ULONG_MAX
    ensures SsSync(Step(s), all) && SsPart(Step(s), all)
  {
    hide SsPart, SsSync, Kept, Inserted, OpOf;
    if LeavesSs(s) { SsLeave(s, Step(s), all); } else { SsStay(s, Step(s), all); }
  }

  lemma VmaStep(s: Live, cur: seq<Area>, k: nat)
    requires Sorted(cur) && k <= |cur| && VmaSync(s, cur, k) && s.cursor <= NextCursor(s) < ULONG_MAX && !Splits(s)
    requires s.inVma && !s.inSs && NextCursor(s) == NextSsPos(s) ==> s.ss != []
    ensures !LeavesVma(s) || k + 1 <= |cur|
    ensures VmaSync(Step(s), cur, if LeavesVma(s) then k + 1 else k)
  {
    assert s.rest != [] ==> cur[k + 1..] == s.rest[1..];
    assert k + 1 < |cur| ==> cur[k + 1..][0] == cur[k + 1] && cur[k + 1..][1..] == cur[k + 2..];
  }

  lemma VmaPosAhead(s: Live, cur: seq<Area>, all: seq<SnapVma>, k: nat)
    requires Sorted(cur) && Bounded(cur, all) && k <= |cur| && VmaSync(s, cur, k)
    ensures s.rest == [] ==> NextVmaPos(s) == ULONG_MAX
    ensures s.rest != [] ==> s.cursor <= NextVmaPos(s) < ULONG_MAX
  {
    if s.rest != [] { assert cur[k].start < cur[k].end < ULONG_MAX; }
  }

  lemma SsPosAhead(s: Live, all: seq<SnapVma>)
    requires SsPart(s, all) && SsSync(s, all)
    ensures s.ss == [] ==> NextSsPos(s) == ULONG_MAX
    ensures s.ss != [] ==> s.cursor <= NextSsPos(s) < ULONG_MAX
  {
    if s.ss != [] { SsHead(s, all); }
  }

  lemma SyncAdvances(s: Live, cur: seq<Area>, all: seq<SnapVma>, k: nat)
    requires Sorted(cur) && Bounded(cur, all) && SsPart(s, all) && k <= |cur| && SsSync(s, all) && VmaSync(s, cur, k)
    requires s.rest != [] || s.ss != []
    ensures s.cursor <= NextCursor(s) < ULONG_MAX
  {
    VmaPosAhead(s, cur, all, k);
    SsPosAhead(s, all);
    hide Sorted, Bounded, SsPart, SsSync, VmaSync, NextVmaPos, NextSsPos;
  }

  lemma EnteredStep(s: Live, cur: seq<Area>, all: seq<SnapVma>, k: nat)
    requires Sync(s, cur, all, k) && (s.rest != [] || s.ss != []) && !Splits(s)
    ensures !LeavesVma(s) || k + 1 <= |cur|
    ensures Entered(Step(s), cur, all, if LeavesVma(s) then k + 1 else k)
  {
    SyncAdvances(s, cur, all, k);
    if s.ss != [] { SsHead(s, all); }
    assert k + 1 < |cur| ==> cur[k + 1..][0] == cur[k + 1];
  }

  /** Short of a split, the flags keep describing both lists, and the cursor does not go back. */
  lemma SyncStep(s: Live, cur: seq<Area>, all: seq<SnapVma>, k: nat)
    requires Sync(s, cur, all, k) && (s.rest != [] || s.ss != []) && !Splits(s)
    ensures s.cursor <= NextCursor(s) < ULONG_MAX
    ensures !LeavesVma(s) || k + 1 <= |cur|
    ensures Sync(Step(s), cur, all, if LeavesVma(s) then k + 1 else k)
  {
    SyncAdvances(s, cur, all, k);
    StepSorted(s);
    DonePart(s);
    SsStep(s, all);
    VmaStep(s, cur, k);
    EnteredStep(s, cur, all, k);
  }

  /** Unmapping strictly inside the current area leaves the iterator below the gap. */
  lemma SplitStep(s: Live, cur: seq<Area>, all: seq<SnapVma>, k: nat)
    requires Sync(s, cur, all, k) && Splits(s)
    ensures Behind(Step(s), cur, all, k, s.cursor)
  {
    SyncAdvances(s, cur, all, k);
    SsHead(s, all);
    SsStep(s, all);
    StepSorted(s);
    DonePart(s);
    assert Punch(s.rest[0], s.cursor, NextCursor(s))
           == [Area(s.rest[0].start, s.cursor), Area(NextCursor(s), s.rest[0].end)];
  }

  lemma BehindList(s: Live, cur: seq<Area>, all: seq<SnapVma>, k: nat, c: nat)
    requires Behind(s, cur, all, k, c)
    ensures NextVmaPos(s) == c < s.cursor && NextSsPos(s) > s.cursor
    ensures s.rest == [s.rest[0], s.rest[1]] + cur[k + 1..] && s.rest[1..] == [s.rest[1]] + cur[k + 1..]
    ensures forall i :: 0 <= i < |s.done| ==> s.done[i].end <= c
  {
    SsHead(s, all);
    SortedParts(s.done, s.rest);
    assert s.rest == [s.rest[0], s.rest[1]] + s.rest[2..];
  }

  lemma BehindStep(s: Live, cur: seq<Area>, all: seq<SnapVma>, k: nat, c: nat)
    requires Behind(s, cur, all, k, c)
    ensures SteppedBack(Step(s), cur, all, k, c) && NextCursor(s) == c < s.cursor
    ensures LeavesVma(s) && !LeavesSs(s)
  {
    BehindList(s, cur, all, k, c);
    assert LeavesVma(s) && !LeavesSs(s) && !Unmaps(s) && !Maps(s) && !Misses(s);
    hide NextVmaPos, NextSsPos, LeavesVma, LeavesSs, Unmaps, Maps, Misses, SortedVmas, Sorted;
    var s' := Step(s);
    assert s'.done == s.done + [s.rest[0]] && s'.rest == s.rest[1..];
    assert s'.done + s'.rest == s.done + s.rest;
  }

  lemma SteppedBackStep(s: Live, cur: seq<Area>, all: seq<SnapVma>, k: nat, c: nat)
    requires SteppedBack(s, cur, all, k, c)
    ensures Sync(Step(s), cur, all, k) && !LeavesVma(s) && !LeavesSs(s)
    ensures NextCursor(s) == s.ss[0].area.start
  {
    SsHead(s, all);
    StepSorted(s);
    DonePart(s);
  }
}
