/**
  `recover_threads_snapshot`: the walk around the circular list of a thread group that kills every
  thread but the snapshot's owner, taking and dropping a reference at each step.
 */
module Threads {
  import opened Basics

  /** How many threads the walk visits: it stops behind the first one that is no longer alive, or at the leader. */
  function Visited(alive: seq<bool>): (n: nat)
    ensures n <= |alive|
    ensures alive != [] ==> n > 0
    ensures forall i :: 0 <= i < n - 1 ==> alive[i]
    ensures 0 < n < |alive| ==> !alive[n - 1]
  {
    if alive == [] then 0 else if !alive[0] then 1 else 1 + Visited(alive[1..])
  }

  /** The first `n` threads but the owner. */
  function Others(owner: nat, n: nat): (s: seq<nat>)
    ensures forall t: nat :: t in s <==> t < n && t != owner
    ensures NoDup(s)
  {
    if n == 0 then []
    else
      var before := Others(owner, n - 1);
      assert forall i :: 0 <= i < |before| ==> before[i] in before;
      if n - 1 == owner then before else before + [n - 1]
  }

  /** Thread `t` comes after the dead thread `d`. */
  predicate Behind(alive: seq<bool>, d: nat, t: nat) {
    d < t < |alive| && !alive[d]
  }

  /** Every thread but the owner is signalled iff none but the owner comes after a dead one. */
  ghost predicate AllSignalled(alive: seq<bool>, owner: nat) {
    forall t: nat :: t < |alive| && t != owner ==> t in Others(owner, Visited(alive))
  }

  ghost predicate NoneBehind(alive: seq<bool>, owner: nat) {
    forall d: nat, t: nat :: Behind(alive, d, t) ==> t == owner
  }

  lemma AllSignalledIff(alive: seq<bool>, owner: nat)
    ensures AllSignalled(alive, owner) <==> NoneBehind(alive, owner)
  {
    var n := Visited(alive);
    if AllSignalled(alive, owner) {
      forall d: nat, t: nat | Behind(alive, d, t) ensures t == owner {
        assert t in Others(owner, n) ==> d < n - 1;
      }
    }
    if NoneBehind(alive, owner) {
      forall t: nat | t < |alive| && t != owner ensures t in Others(owner, n) {
        assert n <= t ==> Behind(alive, n - 1, t);
      }
    }
  }

  /** A thread group: the threads in list order from the leader on, their reference counts, and the signals sent. */
  class Group {
    const alive: seq<bool>
    var refs: seq<nat>
    var killed: seq<nat>

    ghost predicate Valid()
      reads this
    {
      |refs| == |alive| && alive != []
    }

    constructor (alive: seq<bool>, refs: seq<nat>)
      requires |refs| == |alive| && alive != []
      ensures Valid() && this.alive == alive && this.refs == refs && killed == []
    {
      this.alive, this.refs, killed := alive, refs, [];
    }

    /** The counts `base` with the walk's own reference to thread `t`, if it has one. */
    static ghost function Holding(base: seq<nat>, t: Option<nat>): seq<nat>
      requires t.Some? ==> t.value < |base|
    {
      if t.Some? then base[t.value := base[t.value] + 1] else base
    }

    /** `next_tid`: the next thread, held, unless this one is dead or the next is the leader; this one is let go. */
    method NextTid(start: nat, ghost base: seq<nat>) returns (pos: Option<nat>)
      requires Valid() && start < |refs| && |base| == |refs| && refs == Holding(base, Some(start))
      modifies this`refs
      ensures pos == if alive[start] && start + 1 < |alive| then Some(start + 1) else None
      ensures refs == Holding(base, pos)
    {
      pos := None;
      if alive[start] {
        var next := if start + 1 == |alive| then 0 else start + 1;
        if next != 0 {
          refs := refs[next := refs[next] + 1];
          pos := Some(next);
        }
      }
      refs := refs[start := refs[start] - 1];
    }

    /** The walk ends, signals each visited thread but the owner once, in order, and leaves every count as it was. */
    method RecoverThreads(owner: nat)
      requires Valid()
      modifies this`refs, this`killed
      ensures Valid() && refs == old(refs)
      ensures killed == old(killed) + Others(owner, Visited(alive))
    {
      hide Others;
      var t := Some(0);
      refs := refs[0 := refs[0] + 1];
      ghost var seen := 0;
      NoOthers(owner);
      assert alive[0..] == alive;
      while t.Some?
        invariant Valid() && seen <= |alive|
        invariant t.Some? ==> t.value == seen < |alive| && Visited(alive) == seen + Visited(alive[seen..])
        invariant t.None? ==> seen == Visited(alive)
        invariant refs == Holding(old(refs), t)
        invariant killed == old(killed) + Others(owner, seen)
        decreases |alive| - seen, t
      {
        OneMore(owner, seen);
        if t.value != owner { killed := killed + [t.value]; }
        assert alive[seen..][1..] == alive[seen + 1..];
        t := NextTid(t.value, old(refs));
        seen := seen + 1;
      }
    }

    static lemma NoOthers(owner: nat)
      ensures Others(owner, 0) == []
    {
    }

    static lemma OneMore(owner: nat, n: nat)
      ensures Others(owner, n + 1) == Others(owner, n) + if n != owner then [n] else []
    {
    }
  }
}
