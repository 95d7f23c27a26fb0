/**
  What a caller can tell from the calls made so far, without looking at any record: whether a restore's
  success is honest, and what an exit restores.
 */
module TasksRuns {
  import opened Basics
  import opened TasksSpec
  import opened TasksTheorems

  /** Where a task stands: nothing known of it, ranges added but no snapshot, or a snapshot taken. */
  datatype Standing = Nothing | RangeOnly | Taken(config: nat, regs: nat, brk: nat)

  function Next(st: Standing, step: Step, t: nat): Standing {
    match step
    case DoLookup(_, _) => st
    case DoRange(u) => if u == t && st.Nothing? then RangeOnly else st
    case DoTake(u, config, regs, brk) => if u == t && !st.Taken? then Taken(config, regs, brk) else st
    case DoRestore(_) => st
    case DoExit(u) => if u == t && st.Taken? && !HasFlag(st.config, AFL_SNAPSHOT_EXIT) then Nothing else st
    case DoClean(u) => if u == t then Nothing else st
    case DoDie(u) => if u == t && st.Taken? then Nothing else st
  }

  function StandingAfter(steps: seq<Step>, t: nat): Standing {
    if steps == [] then Nothing
    else
      var n := |steps| - 1;
      Next(StandingAfter(steps[..n], t), steps[n], t)
  }

  /** The record of `t` says where the task stands. */
  ghost predicate Agrees(s: Tasks, t: nat, st: Standing) {
    match st
    case Nothing => Find(s.list, t).None?
    case RangeOnly => Find(s.list, t).Some? && IsFresh(Find(s.list, t).value)
    case Taken(config, regs, brk) =>
      && Find(s.list, t).Some?
      && var d := Find(s.list, t).value; d.made && d.config == config && d.regs == regs && d.oldbrk == brk
  }

  /** A record as `ensure_task_data` makes it. */
  predicate IsFresh(d: Data) {
    !d.made && !d.had && d.config == 0 && d.regs == 0 && d.oldbrk == 0
  }

  lemma TakeAgrees(s: Tasks, t: nat, config: nat, regs: nat, brk: nat, st: Standing)
    requires Inv(s) && t != 0 && Agrees(s, t, st)
    ensures Agrees(TakeSnapshot(s, t, config, regs, brk).1, t, if st.Taken? then st else Taken(config, regs, brk))
  {
    EnsureInv(s, t);
    EnsureAgrees(s, t, st);
    var e := Ensure(s, t);
    UpdatedFinds(e.list, Data(Find(e.list, t).value.id, t, true, true, config, regs, brk));
  }

  lemma EnsureAgrees(s: Tasks, t: nat, st: Standing)
    requires Agrees(s, t, st)
    ensures Agrees(Ensure(s, t), t, if st.Nothing? then RangeOnly else st)
  {
  }

  lemma StepAgrees(s: Tasks, step: Step, t: nat, st: Standing)
    requires Inv(s) && Enabled(s, step) && t != 0 && Agrees(s, t, st)
    ensures Agrees(Exec(s, step), t, Next(st, step, t))
  {
    hide Inv, ListOk, Find, Updated, Removed, Invalidated, Ensure, TasksSpec.TakeSnapshot;
    if st.Taken? { HeldHad(s, t); }
    match step
    case DoLookup(_, _) =>
    case DoRange(u) =>
      EnsureInv(s, u);
      EnsureAgrees(s, t, st);
    case DoTake(u, config, regs, brk) =>
      TakeInv(s, u, config, regs, brk);
      TakeAgrees(s, t, config, regs, brk, st);
    case DoRestore(_) =>
    case DoExit(u) => CleanInv(s, u);
    case DoClean(u) => CleanInv(s, u);
    case DoDie(u) => CleanInv(s, u);
  }

  lemma {:induction false} RunSnoc(s: Tasks, steps: seq<Step>)
    requires Inv(s) && ValidRun(|s.cpus|, steps) && steps != []
    ensures var n := |steps| - 1;
            && ValidRun(|s.cpus|, steps[..n]) && Enabled(Run(s, steps[..n]), steps[n])
            && Run(s, steps) == Exec(Run(s, steps[..n]), steps[n])
    decreases |steps|
  {
    hide Inv, Exec;
    var n := |steps| - 1;
    assert Enabled(s, steps[0]);
    ExecInv(s, steps[0]);
    if n == 0 {
      assert steps[..0] == [] && steps[1..] == [];
    } else {
      var s' := Exec(s, steps[0]);
      RunSnoc(s', steps[1..]);
      assert steps[1..][..n - 1] == steps[..n][1..];
      assert Run(s, steps[..n]) == Run(s', steps[1..][..n - 1]);
    }
  }

  /** After any run the records say of each task where it stands. */
  lemma {:induction false} RunAgrees(cpus: nat, steps: seq<Step>, t: nat)
    requires ValidRun(cpus, steps) && t != 0
    ensures Agrees(Run(Idle(cpus), steps), t, StandingAfter(steps, t))
    decreases |steps|
  {
    if steps != [] {
      var front := steps[..|steps| - 1];
      RunSnoc(Idle(cpus), steps);
      RunAgrees(cpus, front, t);
      RunInv(Idle(cpus), front);
      StepAgrees(Run(Idle(cpus), front), steps[|steps| - 1], t, StandingAfter(front, t));
    }
  }

  // ---- The calls that count --------------------------------------------------------------------------------

  /** Call `i` added a range when no snapshot was held, and since then nothing was taken or cleaned. */
  predicate RangeStands(steps: seq<Step>, t: nat, i: nat) {
    && i < |steps| && steps[i] == DoRange(t) && !StandingAfter(steps[..i], t).Taken?
    && forall j :: i < j < |steps| ==> steps[j] != DoClean(t) && !(steps[j].DoTake? && steps[j].task == t)
  }

  /** Call `i` took the snapshot (it returned 1), and nothing has given it up since. */
  predicate TakeStands(steps: seq<Step>, t: nat, i: nat) {
    && i < |steps| && steps[i].DoTake? && steps[i].task == t && !StandingAfter(steps[..i], t).Taken?
    && forall j :: i < j < |steps| ==> !GivesUp(steps[j], t, steps[i].config)
  }

  predicate GivesUp(step: Step, t: nat, config: nat) {
    step == DoClean(t) || step == DoDie(t) || (step == DoExit(t) && !HasFlag(config, AFL_SNAPSHOT_EXIT))
  }

  lemma StandsFront(steps: seq<Step>, t: nat, i: nat)
    requires i < |steps| - 1
    ensures var n := |steps| - 1;
            && (RangeStands(steps, t, i) <==>
                  RangeStands(steps[..n], t, i) && steps[n] != DoClean(t) && !(steps[n].DoTake? && steps[n].task == t))
            && (TakeStands(steps, t, i) <==> TakeStands(steps[..n], t, i) && !GivesUp(steps[n], t, steps[i].config))
  {
    assert steps[..|steps| - 1][..i] == steps[..i];
  }

  lemma {:induction false} RangeOnlyIff(steps: seq<Step>, t: nat)
    ensures StandingAfter(steps, t).RangeOnly? <==> exists i: nat :: RangeStands(steps, t, i)
    decreases |steps|
  {
    if steps != [] {
      var n := |steps| - 1;
      RangeOnlyIff(steps[..n], t);
      if StandingAfter(steps, t).RangeOnly? {
        if StandingAfter(steps[..n], t).RangeOnly? {
          var i: nat :| RangeStands(steps[..n], t, i);
          StandsFront(steps, t, i);
        } else {
          assert RangeStands(steps, t, n);
        }
      }
      if i: nat :| RangeStands(steps, t, i) {
        if i < n { StandsFront(steps, t, i); }
      }
    }
  }

  lemma {:induction false} TakenIff(steps: seq<Step>, t: nat)
    ensures StandingAfter(steps, t).Taken? <==> exists i: nat :: TakeStands(steps, t, i)
    ensures forall i: nat :: TakeStands(steps, t, i) ==>
              StandingAfter(steps, t) == Taken(steps[i].config, steps[i].regs, steps[i].brk)
    decreases |steps|
  {
    if steps != [] {
      var n := |steps| - 1;
      TakenIff(steps[..n], t);
      forall i: nat | TakeStands(steps, t, i)
        ensures StandingAfter(steps, t) == Taken(steps[i].config, steps[i].regs, steps[i].brk)
      {
        if i < n { StandsFront(steps, t, i); }
      }
      if StandingAfter(steps, t).Taken? {
        if StandingAfter(steps[..n], t).Taken? {
          var i: nat :| TakeStands(steps[..n], t, i);
          StandsFront(steps, t, i);
        } else {
          assert TakeStands(steps, t, n);
        }
      }
    }
  }

  // ---- Restores and exits ------------------------------------------------------------------------------------

  /**
    After any run, a restore reports success exactly when a snapshot is held, iff no range has been added
    since the task's snapshot was last given up, with no take after it.  Otherwise it reports success all
    the same, and what it puts back is a break of 0.  With neither a range nor a take standing it reports
    failure; and it puts something back iff it reports success.
   */
  lemma HonestRestoreIff(cpus: nat, steps: seq<Step>, t: nat)
    requires ValidRun(cpus, steps) && t != 0
    ensures var s := Run(Idle(cpus), steps);
            && ((RecoverSnapshot(s, t).0 == 0 <==> Held(s, t)) <==> !exists i: nat :: RangeStands(steps, t, i))
            && ((exists i: nat :: RangeStands(steps, t, i)) ==>
                  !Held(s, t) && RecoverSnapshot(s, t) == (0, Some(Restoration(None, 0, 0))))
            && ((forall i: nat :: !RangeStands(steps, t, i) && !TakeStands(steps, t, i)) ==>
                  RecoverSnapshot(s, t) == (1, None))
            && (RecoverSnapshot(s, t).1.Some? <==> RecoverSnapshot(s, t).0 == 0)
  {
    RunAgrees(cpus, steps, t);
    RangeOnlyIff(steps, t);
    TakenIff(steps, t);
  }

  /**
    After any run, an exit restores iff the last take asked for EXIT and nothing has given its snapshot up
    since; what it then puts back is what that take saved.
   */
  lemma ExitRestoresIff(cpus: nat, steps: seq<Step>, t: nat)
    requires ValidRun(cpus, steps) && t != 0
    ensures var s := Run(Idle(cpus), steps);
            && (ExitSnapshot(s, t).0 == 0 <==>
                  exists i: nat :: TakeStands(steps, t, i) && HasFlag(steps[i].config, AFL_SNAPSHOT_EXIT))
            && (forall i: nat :: TakeStands(steps, t, i) && HasFlag(steps[i].config, AFL_SNAPSHOT_EXIT) ==>
                  ExitSnapshot(s, t).1 == Some(Restoration(
                    if HasFlag(steps[i].config, AFL_SNAPSHOT_REGS) then Some(steps[i].regs) else None,
                    steps[i].brk, steps[i].config)))
            && (ExitSnapshot(s, t).0 != 0 ==> ExitSnapshot(s, t).1.None? && !Held(ExitSnapshot(s, t).2, t))
  {
    var s := Run(Idle(cpus), steps);
    RunAgrees(cpus, steps, t);
    TakenIff(steps, t);
    RunInv(Idle(cpus), steps);
    if Held(s, t) { HeldHad(s, t); }
    CleanInv(s, t);
  }

  /** The call took a snapshot, asking for `o`. */
  ghost predicate TookWith(cpus: nat, steps: seq<Step>, t: nat, i: nat, o: Options, more: nat)
    requires ValidRun(cpus, steps)
  {
    && i < |steps| && steps[i].DoTake? && steps[i].task == t && steps[i].config == ConfigOf(o, more)
    && TakeSnapshot(Run(Idle(cpus), steps[..i]), t, steps[i].config, steps[i].regs, steps[i].brk).0 == 1
  }

  /**
    What the options decide.  Call `i` took a snapshot, and since then the task has neither cleaned it nor
    died, nor exited unless EXIT was asked for.  A restore puts back its break, and its registers if REGS was
    asked for.  An exit does just the same if EXIT was; if not, it restores nothing and gives the snapshot up.
   */
  lemma OptionsDecide(cpus: nat, steps: seq<Step>, t: nat, i: nat, o: Options, more: nat)
    requires ValidRun(cpus, steps) && t != 0 && TookWith(cpus, steps, t, i, o, more)
    requires forall j :: i < j < |steps| ==>
               steps[j] != DoClean(t) && steps[j] != DoDie(t) && (steps[j] == DoExit(t) ==> o.exit)
    ensures var s := Run(Idle(cpus), steps);
            var saved := Restoration(if o.regs then Some(steps[i].regs) else None, steps[i].brk, steps[i].config);
            && RecoverSnapshot(s, t) == (0, Some(saved))
            && (o.exit ==> ExitSnapshot(s, t) == (0, Some(saved), s))
            && (!o.exit ==> ExitSnapshot(s, t).0 == 1 && ExitSnapshot(s, t).1 == None
                            && Find(ExitSnapshot(s, t).2.list, t).None?)
  {
    var s, before := Run(Idle(cpus), steps), Run(Idle(cpus), steps[..i]);
    OptionsRead(o, more);
    RunInv(Idle(cpus), steps[..i]);
    RunAgrees(cpus, steps[..i], t);
    TakeReturns(before, t, steps[i].config, steps[i].regs, steps[i].brk);
    assert TakeStands(steps, t, i);
    TakenIff(steps, t);
    RunAgrees(cpus, steps, t);
    RunInv(Idle(cpus), steps);
    HeldHad(s, t);
    CleanInv(s, t);
    hide Run, ValidRun, StandingAfter, TakeStands, Inv, ConfigOf, TakeSnapshot;
  }
}
