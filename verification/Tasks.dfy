/**
  src/task_data.c, the cache in front of it, and the entry points of src/snapshot.c in their own
  form: a global list of `struct task_data` objects, and two per-CPU variables that point into it.
 */
module Tasks {
  import opened Basics
  import opened TasksSpec
  import opened TasksTheorems

  class TaskData {
    const tsk: nat
    ghost const id: nat
    var made: bool
    var had: bool
    var config: nat
    var regs: nat
    var oldbrk: nat

    constructor (tsk: nat, ghost id: nat)
      ensures this.tsk == tsk && this.id == id && Value() == Data(id, tsk, false, false, 0, 0, 0)
    {
      this.tsk, this.id := tsk, id;
      made, had, config, regs, oldbrk := false, false, 0, 0, 0;
    }

    ghost function Value(): Data
      reads this
    {
      Data(id, tsk, made, had, config, regs, oldbrk)
    }

    /** `initialize_snapshot`. */
    method Initialize(config: nat, regs: nat, brk: nat)
      modifies this
      ensures Value() == Data(id, tsk, true, true, config, regs, brk)
    {
      this.config := config;
      had := true;
      made := true;
      this.regs := regs;
      oldbrk := brk;
    }

    /** `recover_state`, as far as the saved values go. */
    function Restores(): (r: Restoration)
      reads this
      ensures r == RestorationOf(Value())
    {
      Restoration(if HasFlag(config, AFL_SNAPSHOT_REGS) then Some(regs) else None, oldbrk, config)
    }
  }

  lemma {:induction false} FirstUpdated(list: seq<Data>, i: nat, d: Data)
    requires i < |list| && list[i].tsk == d.tsk && forall j :: 0 <= j < i ==> list[j].tsk != d.tsk
    ensures Updated(list, d) == list[i := d]
  {
    if i > 0 { FirstUpdated(list[1..], i - 1, d); }
  }

  lemma {:induction false} FirstRemoved(list: seq<Data>, i: nat, t: nat)
    requires i < |list| && list[i].tsk == t && forall j :: 0 <= j < i ==> list[j].tsk != t
    ensures Removed(list, t) == list[..i] + list[i + 1..]
  {
    if i > 0 {
      FirstRemoved(list[1..], i - 1, t);
      assert list[..i] == [list[0]] + list[1..][..i - 1];
      assert list[i + 1..] == list[1..][i..];
    }
  }

  class TaskTable {
    var list: seq<TaskData>
    const lastTask: array<nat>
    const lastTaskData: array<TaskData?>
    ghost var values: seq<Data>
    ghost var cpus: seq<Cached>
    ghost var nextId: nat
    ghost var nodes: set<TaskData>

    ghost function Abs(): Tasks
      reads this`values, this`cpus, this`nextId
    {
      Tasks(values, cpus, nextId)
    }

    ghost predicate ListTied()
      reads this`list, this`values, this`nodes, nodes
    {
      && |values| == |list|
      && (forall i :: 0 <= i < |list| ==> list[i] in nodes && values[i] == list[i].Value())
      && (forall i, j :: 0 <= i < j < |list| ==> list[i] != list[j])
    }

    ghost predicate CacheTied()
      reads this`cpus, lastTask, lastTaskData
    {
      && |cpus| == lastTask.Length == lastTaskData.Length
      && (forall c :: 0 <= c < |cpus| ==>
            cpus[c] == Cached(lastTask[c], if lastTaskData[c] == null then None else Some(lastTaskData[c].id)))
    }

    ghost predicate Valid()
      reads this, nodes, lastTask, lastTaskData
    {
      ListTied() && CacheTied() && Inv(Abs())
    }

    /** `get_task_data`: `i` is where the record is. */
    method GetTaskData(t: nat) returns (data: TaskData?, ghost i: nat)
      requires ListTied()
      ensures data == null <==> Find(values, t).None?
      ensures data != null ==>
                && i < |list| == |values| && data == list[i] && values[i] == data.Value() && data.tsk == t && data in nodes
                && Find(values, t) == Some(values[i])
                && (forall j :: 0 <= j < i ==> values[j].tsk != t && list[j] != data)
    {
      var k := 0;
      while k < |list|
        invariant 0 <= k <= |list|
        invariant forall j :: 0 <= j < k ==> values[j].tsk != t
      {
        if list[k].tsk == t {
          FindAt(values, k);
          return list[k], k;
        }
        k := k + 1;
      }
      return null, 0;
    }

    lemma Remembered(cpu: nat)
      requires CacheTied() && cpu < |cpus|
      ensures cpu < lastTask.Length && cpu < lastTaskData.Length
      ensures cpus[cpu] == Cached(lastTask[cpu], if lastTaskData[cpu] == null then None else Some(lastTaskData[cpu].id))
    {
    }

    /** What a CPU remembers from now on. */
    method Remember(cpu: nat, t: nat, data: TaskData?)
      requires CacheTied() && cpu < |cpus|
      modifies this`cpus, lastTask, lastTaskData
      ensures CacheTied() && cpus == old(cpus)[cpu := Cached(t, if data == null then None else Some(data.id))]
    {
      lastTask[cpu] := t;
      lastTaskData[cpu] := data;
      cpus := cpus[cpu := Cached(t, if data == null then None else Some(data.id))];
    }

    /** `get_task_data_with_cache`. */
    method GetTaskDataWithCache(cpu: nat, t: nat) returns (data: TaskData?)
      requires Valid() && cpu < |cpus|
      modifies this`cpus, lastTask, lastTaskData
      ensures Valid() && Abs() == Lookup(old(Abs()), cpu, t).1
      ensures (if data == null then None else Some(data.id)) == Lookup(old(Abs()), cpu, t).0
    {
      LookupInv(Abs(), cpu, t);
      Remembered(cpu);
      hide Inv, CacheTied, ListTied, Find;
      if lastTask[cpu] == t {
        data := lastTaskData[cpu];
      } else {
        ghost var i;
        data, i := GetTaskData(t);
        Remember(cpu, t, data);
      }
    }

    /** `invalidate_task_data_cache`, over the possible CPUs. */
    method InvalidateTaskDataCache(t: nat)
      requires CacheTied()
      modifies this`cpus, lastTask, lastTaskData
      ensures CacheTied() && cpus == Invalidated(old(cpus), t)
    {
      for c := 0 to lastTask.Length
        invariant CacheTied() && |cpus| == |old(cpus)|
        invariant forall j :: 0 <= j < c ==> cpus[j] == if old(cpus)[j].task == t then EMPTY else old(cpus)[j]
        invariant forall j :: c <= j < |cpus| ==> cpus[j] == old(cpus)[j]
      {
        if lastTask[c] == t {
          lastTask[c] := 0;
          lastTaskData[c] := null;
          cpus := cpus[c := EMPTY];
        }
      }
    }

    /** `list_add_rcu`: a new record goes to the front of the list. */
    method ListAdd(data: TaskData)
      requires ListTied() && data !in nodes
      modifies this`list, this`values, this`nodes
      ensures ListTied() && |list| == |values| && list == [data] + old(list) && values == [data.Value()] + old(values)
      ensures nodes == old(nodes) + {data}
    {
      list, values, nodes := [data] + list, [data.Value()] + values, nodes + {data};
    }

    /** `list_del_rcu`. */
    method ListDel(data: TaskData, ghost i: nat)
      requires ListTied() && i < |list| == |values| && list[i] == data
      requires forall j :: 0 <= j < i ==> values[j].tsk != data.tsk
      modifies this`list, this`values
      ensures ListTied() && values == Removed(old(values), data.tsk)
    {
      FirstRemoved(values, i, data.tsk);
      WithoutAt(list, i);
      list, values := Without(list, data), values[..i] + values[i + 1..];
    }

    /** `initialize_snapshot` of a record on the list. */
    method InitializeSnapshot(data: TaskData, ghost i: nat, config: nat, regs: nat, brk: nat)
      requires ListTied() && i < |list| == |values| && list[i] == data
      requires forall j :: 0 <= j < i ==> values[j].tsk != data.tsk
      modifies this`values, nodes
      ensures ListTied() && values == Updated(old(values), Data(data.id, data.tsk, true, true, config, regs, brk))
    {
      FirstUpdated(values, i, Data(data.id, data.tsk, true, true, config, regs, brk));
      data.Initialize(config, regs, brk);
      values := values[i := data.Value()];
    }

    /** `ensure_task_data`. */
    method EnsureTaskData(t: nat) returns (data: TaskData, ghost i: nat)
      requires Valid() && t != 0
      modifies this`list, this`values, this`nextId, this`nodes
      ensures Valid() && Abs() == Ensure(old(Abs()), t)
      ensures i < |list| && |values| == |list| && data == list[i] && data.tsk == t && Find(values, t) == Some(values[i])
      ensures values[i] == data.Value() && forall j :: 0 <= j < i ==> values[j].tsk != t
      ensures old(nodes) <= nodes && fresh(nodes - old(nodes))
    {
      EnsureInv(Abs(), t);
      hide Inv, CacheTied, ListTied, Find, Updated, Removed;
      var found: TaskData?;
      found, i := GetTaskData(t);
      if found != null { return found, i; }
      data := new TaskData(t, nextId);
      i := 0;
      ListAdd(data);
      nextId := nextId + 1;
      FindAt(values, 0);
    }

    /** `take_snapshot`, as far as the records go: the memory and the files are taken by their own modules. */
    method TakeSnapshot(t: nat, config: nat, regs: nat, brk: nat) returns (made: int)
      requires Valid() && t != 0
      modifies this, nodes, lastTask, lastTaskData
      ensures Valid() && (made, Abs()) == TasksSpec.TakeSnapshot(old(Abs()), t, config, regs, brk)
      ensures made == if Held(old(Abs()), t) then 0 else 1
      ensures old(nodes) <= nodes && fresh(nodes - old(nodes))
    {
      ghost var s := Abs();
      TakeInv(s, t, config, regs, brk);
      TakeReturns(s, t, config, regs, brk);
      EnsureInv(s, t);
      ghost var e := Ensure(s, t);
      ghost var d := Find(e.list, t).value;
      assert TasksSpec.TakeSnapshot(s, t, config, regs, brk)
             == if d.made then (0, e)
                else (1, Tasks(Updated(e.list, Data(d.id, t, true, true, config, regs, brk)), Invalidated(e.cpus, t), e.nextId));
      hide TasksSpec.TakeSnapshot, Held, Inv, CacheTied, ListTied, Find, Removed, Updated, Invalidated, Ensure;
      var data, i := EnsureTaskData(t);
      if data.made { return 0; }
      InitializeSnapshot(data, i, config, regs, brk);
      InvalidateTaskDataCache(t);
      return 1;
    }

    /** `clean_snapshot`, as far as the records go. */
    method CleanSnapshot(t: nat)
      requires Valid() && t != 0
      modifies this`list, this`values, this`cpus, lastTask, lastTaskData
      ensures Valid() && Abs() == TasksSpec.CleanSnapshot(old(Abs()), t)
    {
      CleanInv(Abs(), t);
      hide Inv, CacheTied, ListTied, Find, Removed, Updated, Invalidated, TaskData.Value;
      var data, i := GetTaskData(t);
      if data == null { return; }
      assert TasksSpec.CleanSnapshot(Abs(), t) == Tasks(Removed(values, t), Invalidated(cpus, t), nextId);
      hide TasksSpec.CleanSnapshot;
      InvalidateTaskDataCache(t);
      ListDel(data, i);
    }

    /** `recover_snapshot`: what is put back is decided by the record, whether or not it holds a snapshot. */
    method RecoverSnapshot(t: nat) returns (ret: int, restored: Option<Restoration>)
      requires Valid()
      ensures (ret, restored) == TasksSpec.RecoverSnapshot(Abs(), t)
    {
      var data, i := GetTaskData(t);
      if data == null { return 1, None; }
      return 0, Some(data.Restores());
    }

    /** `exit_snapshot`. */
    method ExitSnapshot(t: nat) returns (ret: int, restored: Option<Restoration>)
      requires Valid() && t != 0
      modifies this`list, this`values, this`cpus, lastTask, lastTaskData
      ensures Valid() && (ret, restored, Abs()) == TasksSpec.ExitSnapshot(old(Abs()), t)
    {
      var data, i := GetTaskData(t);
      if data == null { return 1, None; }
      if HasFlag(data.config, AFL_SNAPSHOT_EXIT) && data.made {
        return 0, Some(data.Restores());
      }
      if data.had { CleanSnapshot(t); }
      return 1, None;
    }
  }
}
