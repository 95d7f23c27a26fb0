/**
  Over all runs of calls and lookups on any number of CPUs: the cache answers as the list would, and
  what a take saved is what every restore puts back until the snapshot is cleaned.
 */
module TasksTheorems {
  import opened Basics
  import opened TasksSpec

  lemma {:induction false} FindAt(list: seq<Data>, i: nat)
    requires i < |list| && forall j :: 0 <= j < i ==> list[j].tsk != list[i].tsk
    ensures Find(list, list[i].tsk) == Some(list[i])
  {
    if i > 0 { FindAt(list[1..], i - 1); }
  }

  lemma {:induction false} UpdatedFinds(list: seq<Data>, d: Data)
    ensures forall t :: t != d.tsk ==> Find(Updated(list, d), t) == Find(list, t)
    ensures Find(Updated(list, d), d.tsk) == if Find(list, d.tsk).Some? then Some(d) else None
  {
    if list != [] && list[0].tsk != d.tsk {
      UpdatedFinds(list[1..], d);
      assert Updated(list, d)[1..] == Updated(list[1..], d);
    } else if list != [] {
      assert Updated(list, d)[1..] == list[1..];
    }
  }

  lemma {:induction false} UpdatedAt(list: seq<Data>, d: Data)
    ensures |Updated(list, d)| == |list|
    ensures forall i :: 0 <= i < |list| ==>
              Updated(list, d)[i] == list[i] || (list[i].tsk == d.tsk && Updated(list, d)[i] == d)
  {
    if list != [] && list[0].tsk != d.tsk {
      UpdatedAt(list[1..], d);
      assert Updated(list, d)[1..] == Updated(list[1..], d);
    } else if list != [] {
      assert Updated(list, d)[1..] == list[1..];
    }
  }

  ghost predicate DistinctTasks(list: seq<Data>) {
    forall i, j :: 0 <= i < j < |list| ==> list[i].tsk != list[j].tsk
  }

  lemma {:induction false} RemovedMembers(list: seq<Data>, t: nat)
    requires DistinctTasks(list)
    ensures forall d :: d in Removed(list, t) <==> d in list && d.tsk != t
  {
    if list != [] {
      assert list == [list[0]] + list[1..];
      assert forall d :: d in list[1..] ==> d.tsk != list[0].tsk;
      RemovedMembers(list[1..], t);
    }
  }

  lemma {:induction false} RemovedDistinct(list: seq<Data>, t: nat)
    requires DistinctTasks(list)
    ensures DistinctTasks(Removed(list, t))
  {
    if list != [] && list[0].tsk != t {
      RemovedDistinct(list[1..], t);
      RemovedMembers(list[1..], t);
      var rest := Removed(list[1..], t);
      assert Removed(list, t) == [list[0]] + rest;
      forall j | 0 <= j < |rest| ensures list[0].tsk != rest[j].tsk {
        assert rest[j] in rest && rest[j] in list[1..];
      }
    }
  }

  lemma {:induction false} RemovedFinds(list: seq<Data>, t: nat)
    requires DistinctTasks(list)
    ensures forall u :: u != t ==> Find(Removed(list, t), u) == Find(list, u)
    ensures Find(Removed(list, t), t).None?
  {
    if list != [] && list[0].tsk != t {
      RemovedFinds(list[1..], t);
      assert Removed(list, t)[1..] == Removed(list[1..], t);
    }
  }

  // ---- Each call keeps the invariant ---------------------------------------------------------------------------

  lemma LookupInv(s: Tasks, cpu: nat, t: nat)
    requires Inv(s) && cpu < |s.cpus|
    ensures Inv(Lookup(s, cpu, t).1) && Lookup(s, cpu, t).1.list == s.list
  {
    var s' := Lookup(s, cpu, t).1;
    forall c | 0 <= c < |s'.cpus| ensures CacheOk(s', s'.cpus[c]) {
      assert c != cpu ==> CacheOk(s, s.cpus[c]);
      assert CacheOk(s, s.cpus[cpu]);
    }
  }

  lemma EnsureInv(s: Tasks, t: nat)
    requires Inv(s) && t != 0
    ensures Inv(Ensure(s, t))
    ensures Find(Ensure(s, t).list, t).Some? && forall u :: u != t ==> Find(Ensure(s, t).list, u) == Find(s.list, u)
  {
    var s' := Ensure(s, t);
    if s' != s {
      assert s'.list[1..] == s.list;
      forall c | 0 <= c < |s'.cpus| ensures CacheOk(s', s'.cpus[c]) {
        assert CacheOk(s, s.cpus[c]);
      }
    }
  }

  lemma EmptyCacheOk(s: Tasks)
    requires ListOk(s)
    ensures CacheOk(s, EMPTY)
  {
    assert Find(s.list, 0).None?;
  }

  /** With the cache of `t` invalidated on every CPU, only what the list says of other tasks matters. */
  lemma CachesKept(s: Tasks, s': Tasks, t: nat)
    requires Inv(s) && ListOk(s') && s'.cpus == Invalidated(s.cpus, t)
    requires forall u :: u != t ==> Find(s'.list, u) == Find(s.list, u)
    ensures Inv(s')
  {
    EmptyCacheOk(s');
    hide ListOk, Find;
    forall c | 0 <= c < |s'.cpus| ensures CacheOk(s', s'.cpus[c]) {
      assert CacheOk(s, s.cpus[c]);
    }
  }

  lemma UpdatedListOk(s: Tasks, d: Data)
    requires ListOk(s) && d.tsk != 0 && d.id < s.nextId && (d.made ==> d.had)
    requires Find(s.list, d.tsk).Some? && Find(s.list, d.tsk).value.id == d.id
    ensures ListOk(Tasks(Updated(s.list, d), s.cpus, s.nextId))
  {
    UpdatedAt(s.list, d);
    var list := Updated(s.list, d);
    forall i | 0 <= i < |s.list| ensures list[i].tsk == s.list[i].tsk && list[i].id == s.list[i].id {
      if s.list[i].tsk == d.tsk { FindAt(s.list, i); }
    }
  }

  lemma TakeInv(s: Tasks, t: nat, config: nat, regs: nat, brk: nat)
    requires Inv(s) && t != 0
    ensures Inv(TakeSnapshot(s, t, config, regs, brk).1)
    ensures forall u :: u != t ==> Find(TakeSnapshot(s, t, config, regs, brk).1.list, u) == Find(s.list, u)
  {
    EnsureInv(s, t);
    var e := Ensure(s, t);
    var d := Find(e.list, t).value;
    if !d.made {
      var d' := Data(d.id, t, true, true, config, regs, brk);
      var s' := TakeSnapshot(s, t, config, regs, brk).1;
      assert d in e.list;
      hide Updated, Ensure;
      UpdatedFinds(e.list, d');
      UpdatedListOk(e, d');
      hide ListOk, Find;
      CachesKept(e, s', t);
    }
  }

  lemma RemovedListOk(s: Tasks, t: nat)
    requires ListOk(s)
    ensures ListOk(Tasks(Removed(s.list, t), s.cpus, s.nextId))
  {
    RemovedMembers(s.list, t);
    RemovedDistinct(s.list, t);
    var list := Removed(s.list, t);
    forall i | 0 <= i < |list| ensures list[i] in s.list { assert list[i] in list; }
    forall i, j | 0 <= i < j < |list| ensures list[i].id != list[j].id {
      var k, l :| 0 <= k < |s.list| && 0 <= l < |s.list| && s.list[k] == list[i] && s.list[l] == list[j];
      assert k != l;
    }
  }

  lemma CleanInv(s: Tasks, t: nat)
    requires Inv(s) && t != 0
    ensures Inv(CleanSnapshot(s, t))
    ensures forall u :: u != t ==> Find(CleanSnapshot(s, t).list, u) == Find(s.list, u)
    ensures Find(CleanSnapshot(s, t).list, t).None?
  {
    if Find(s.list, t).Some? {
      var s' := CleanSnapshot(s, t);
      RemovedFinds(s.list, t);
      RemovedListOk(s, t);
      CachesKept(s, s', t);
    }
  }

  // ---- Runs ---------------------------------------------------------------------------------------------------

  datatype Step =
    | DoLookup(cpu: nat, task: nat)
    | DoRange(task: nat)
    | DoTake(task: nat, config: nat, regs: nat, brk: nat)
    | DoRestore(task: nat)
    | DoExit(task: nat)
    | DoClean(task: nat)
    | DoDie(task: nat)

  predicate Enabled(s: Tasks, step: Step) {
    match step
    case DoLookup(cpu, _) => cpu < |s.cpus|
    case _ => step.task != 0
  }

  function Exec(s: Tasks, step: Step): Tasks
    requires Enabled(s, step)
  {
    match step
    case DoLookup(cpu, t) => Lookup(s, cpu, t).1
    case DoRange(t) => Ensure(s, t)
    case DoTake(t, config, regs, brk) => TakeSnapshot(s, t, config, regs, brk).1
    case DoRestore(_) => s
    case DoExit(t) => ExitSnapshot(s, t).2
    case DoClean(t) => CleanSnapshot(s, t)
    case DoDie(t) => ExitHook(s, t)
  }

  lemma ExecInv(s: Tasks, step: Step)
    requires Inv(s) && Enabled(s, step)
    ensures Inv(Exec(s, step)) && |Exec(s, step).cpus| == |s.cpus|
  {
    match step
    case DoLookup(cpu, t) => LookupInv(s, cpu, t);
    case DoRange(t) => EnsureInv(s, t);
    case DoTake(t, config, regs, brk) => TakeInv(s, t, config, regs, brk);
    case DoRestore(_) =>
    case DoExit(t) => CleanInv(s, t);
    case DoClean(t) => CleanInv(s, t);
    case DoDie(t) => CleanInv(s, t);
  }

  predicate ValidRun(cpus: nat, steps: seq<Step>) {
    forall i :: 0 <= i < |steps| ==> if steps[i].DoLookup? then steps[i].cpu < cpus else steps[i].task != 0
  }

  function Run(s: Tasks, steps: seq<Step>): Tasks
    requires ValidRun(|s.cpus|, steps)
    decreases |steps|
  {
    if steps == [] then s
    else
      var s' := Exec(s, steps[0]);
      if |s'.cpus| == |s.cpus| then Run(s', steps[1..]) else s'
  }

  function Idle(cpus: nat): Tasks {
    Tasks([], seq(cpus, _ => EMPTY), 0)
  }

  lemma {:induction false} RunInv(s: Tasks, steps: seq<Step>)
    requires Inv(s) && ValidRun(|s.cpus|, steps)
    ensures Inv(Run(s, steps)) && |Run(s, steps).cpus| == |s.cpus|
    decreases |steps|
  {
    if steps != [] {
      ExecInv(s, steps[0]);
      RunInv(Exec(s, steps[0]), steps[1..]);
    }
  }

  /** What a direct search of the list would make the hooks do. */
  ghost predicate Held(s: Tasks, t: nat) {
    Find(s.list, t).Some? && Find(s.list, t).value.made
  }

  lemma LookupAgrees(s: Tasks, cpu: nat, t: nat)
    requires Inv(s) && cpu < |s.cpus|
    ensures var data := Lookup(s, cpu, t).0;
            && (data.Some? ==> IdOf(Find(s.list, t)) == data)
            && (TestsTrue(s, t, data) <==> Held(s, t))
  {
    var data := Lookup(s, cpu, t).0;
    assert CacheOk(s, s.cpus[cpu]);
    if data.Some? {
      var d := Find(s.list, t).value;
      var k :| 0 <= k < |s.list| && s.list[k] == d;
      forall i | 0 <= i < |s.list| && s.list[i].id == data.value ensures i == k {}
    }
  }

  /**
    After any run of calls and lookups, on any number of CPUs: the record a lookup through the cache
    returns is on the list, never one that was removed, and it passes the hooks' test iff the one that
    a search of the list finds does; it then is that one.
   */
  lemma CacheAgreesWithList(cpus: nat, steps: seq<Step>, cpu: nat, t: nat)
    requires ValidRun(cpus, steps) && cpu < cpus
    ensures var s := Run(Idle(cpus), steps);
            && |s.cpus| == cpus
            && var data := Lookup(s, cpu, t).0;
               && (data.Some? ==> IdOf(Find(s.list, t)) == data)
               && (TestsTrue(s, t, data) <==> Held(s, t))
  {
    RunInv(Idle(cpus), steps);
    LookupAgrees(Run(Idle(cpus), steps), cpu, t);
  }

  /**
    A lookup is remembered: until the task's cache is invalidated, the next one on the same CPU gives the
    same answer without the list, whatever has become of that; other CPUs remember what they did.
   */
  lemma LookupIsRemembered(s: Tasks, cpu: nat, t: nat, list: seq<Data>)
    requires cpu < |s.cpus|
    ensures var (data, s') := Lookup(s, cpu, t);
            && Lookup(Tasks(list, s'.cpus, s'.nextId), cpu, t) == (data, Tasks(list, s'.cpus, s'.nextId))
            && |s'.cpus| == |s.cpus| && forall c :: 0 <= c < |s.cpus| && c != cpu ==> s'.cpus[c] == s.cpus[c]
  {
  }

  // ---- The life of a snapshot ------------------------------------------------------------------------------------

  /** The step gives up the snapshot of `t`. */
  predicate Ends(s: Tasks, step: Step, t: nat) {
    || step == DoClean(t)
    || step == DoDie(t)
    || (step == DoExit(t) && Find(s.list, t).Some? && !HasFlag(Find(s.list, t).value.config, AFL_SNAPSHOT_EXIT))
  }

  lemma HeldHad(s: Tasks, t: nat)
    requires Inv(s) && Held(s, t)
    ensures Find(s.list, t).value.had
  {
    assert Find(s.list, t).value in s.list;
  }

  lemma HeldEnds(s: Tasks, step: Step, t: nat)
    requires Inv(s) && Enabled(s, step) && Held(s, t) && Ends(s, step, t)
    ensures !Held(Exec(s, step), t)
  {
    hide Inv, Removed, Invalidated;
    HeldHad(s, t);
    CleanInv(s, t);
  }

  lemma HeldKept(s: Tasks, step: Step, t: nat)
    requires Inv(s) && Enabled(s, step) && Held(s, t) && !Ends(s, step, t)
    ensures Find(Exec(s, step).list, t) == Find(s.list, t)
  {
    hide Inv, Find, Removed, Updated, Invalidated;
    match step
    case DoLookup(_, _) =>
    case DoRange(u) => EnsureInv(s, u);
    case DoTake(u, config, regs, brk) => TakeInv(s, u, config, regs, brk);
    case DoRestore(_) =>
    case DoExit(u) => CleanInv(s, u);
    case DoClean(u) => CleanInv(s, u);
    case DoDie(u) => CleanInv(s, u);
  }

  /** A held snapshot is changed by nothing, not even another take, until it is cleaned or left by an exit without EXIT. */
  lemma HeldIsFixed(s: Tasks, step: Step, t: nat)
    requires Inv(s) && Enabled(s, step) && Held(s, t)
    ensures if Ends(s, step, t) then !Held(Exec(s, step), t) else Find(Exec(s, step).list, t) == Find(s.list, t)
  {
    if Ends(s, step, t) { HeldEnds(s, step, t); } else { HeldKept(s, step, t); }
    hide Inv, Ends, Held, Exec, Enabled, Find;
  }

  /** No step of a run gives up the snapshot of `t`. */
  predicate Keeps(s: Tasks, steps: seq<Step>, t: nat)
    requires ValidRun(|s.cpus|, steps)
    decreases |steps|
  {
    steps == [] || (!Ends(s, steps[0], t) &&
                    (|Exec(s, steps[0]).cpus| == |s.cpus| ==> Keeps(Exec(s, steps[0]), steps[1..], t)))
  }

  lemma {:induction false} HeldThroughRun(s: Tasks, steps: seq<Step>, t: nat)
    requires Inv(s) && ValidRun(|s.cpus|, steps) && Held(s, t) && Keeps(s, steps, t)
    ensures Find(Run(s, steps).list, t) == Find(s.list, t)
    decreases |steps|
  {
    if steps != [] {
      HeldIsFixed(s, steps[0], t);
      ExecInv(s, steps[0]);
      HeldThroughRun(Exec(s, steps[0]), steps[1..], t);
    }
  }

  lemma TakeReturns(s: Tasks, t: nat, config: nat, regs: nat, brk: nat)
    requires Inv(s) && t != 0
    ensures TakeSnapshot(s, t, config, regs, brk).0 == if Held(s, t) then 0 else 1
  {
    EnsureInv(s, t);
    if Find(s.list, t).None? { assert Ensure(s, t).list[0].tsk == t; }
  }

  /**
    A take returns 1 iff no snapshot was held; then, however often the process runs and restores, every
    restore until the snapshot is given up puts back the registers and the break of that take.
   */
  lemma RestoresWhatWasTaken(s: Tasks, t: nat, config: nat, regs: nat, brk: nat, steps: seq<Step>)
    requires Inv(s) && t != 0 && ValidRun(|s.cpus|, steps)
    requires Keeps(TakeSnapshot(s, t, config, regs, brk).1, steps, t)
    ensures var (made, s') := TakeSnapshot(s, t, config, regs, brk);
            && (made == 1 <==> !Held(s, t))
            && (made == 1 ==>
                  RecoverSnapshot(Run(s', steps), t)
                  == (0, Some(Restoration(if HasFlag(config, AFL_SNAPSHOT_REGS) then Some(regs) else None, brk, config))))
  {
    var (made, s') := TakeSnapshot(s, t, config, regs, brk);
    TakeInv(s, t, config, regs, brk);
    EnsureInv(s, t);
    if Find(s.list, t).None? { assert Ensure(s, t).list[0].tsk == t; }
    if made == 1 {
      var e := Ensure(s, t);
      UpdatedFinds(e.list, Data(Find(e.list, t).value.id, t, true, true, config, regs, brk));
      HeldThroughRun(s', steps, t);
    }
  }
}
