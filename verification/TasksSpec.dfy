/**
  Snapshot records by task, the per-CPU cache in front of them, and the life of a snapshot, on
  values: src/task_data.c, the cache of src/memory.c, and src/snapshot.c.
 */
module TasksSpec {
  import opened Basics

  const AFL_SNAPSHOT_MMAP := 1
  const AFL_SNAPSHOT_BLOCK := 2
  const AFL_SNAPSHOT_FDS := 4
  const AFL_SNAPSHOT_REGS := 8
  const AFL_SNAPSHOT_EXIT := 16
  const AFL_SNAPSHOT_NOSTACK := 64

  predicate HasFlag(config: nat, flag: nat)
    requires flag > 0
  {
    config / flag % 2 == 1
  }

  // ---- The options, one by one ------------------------------------------------------------------------------

  /** What a caller of `take` asks for. */
  datatype Options = Options(mmap: bool, block: bool, fds: bool, regs: bool, exit: bool, nocow: bool, nostack: bool)

  /** The options put together by the values that the module documents, and `more` bits that mean nothing to it. */
  function ConfigOf(o: Options, more: nat): nat {
    (if o.mmap then 1 else 0) + (if o.block then 2 else 0) + (if o.fds then 4 else 0) + (if o.regs then 8 else 0)
    + (if o.exit then 16 else 0) + (if o.nocow then 32 else 0) + (if o.nostack then 64 else 0) + 128 * more
  }

  /** A flag that is a power of two is read as that bit, whatever the bits above and below it. */
  lemma FlagIsBit(high: nat, low: nat, flag: nat)
    requires low < flag
    ensures HasFlag((2 * high + 1) * flag + low, flag) && !HasFlag(2 * high * flag + low, flag)
  {
    DivOf(2 * high + 1, low, flag);
    DivOf(2 * high, low, flag);
  }

  lemma Apart(a: nat, b: nat, flag: nat)
    ensures a > b ==> a * flag >= b * flag + flag
  {
    if a > b {
      var n: nat := a - b - 1;
      assert a * flag == b * flag + flag + n * flag;
    }
  }

  lemma DivOf(q: nat, low: nat, flag: nat)
    requires low < flag
    ensures (q * flag + low) / flag == q
  {
    var d := (q * flag + low) / flag;
    assert q * flag + low == d * flag + (q * flag + low) % flag;
    Apart(d, q, flag);
    Apart(q, d, flag);
  }

  function BitOf(b: bool): nat {
    if b then 1 else 0
  }

  lemma OptionIsBit(config: nat, low: nat, flag: nat, on: bool, high: nat)
    requires low < flag && config == (2 * high + BitOf(on)) * flag + low
    ensures HasFlag(config, flag) <==> on
  {
    FlagIsBit(high, low, flag);
  }

  /** Each option is on iff it was asked for, whichever others were. */
  lemma OptionsRead(o: Options, more: nat)
    ensures var config := ConfigOf(o, more);
            && (HasFlag(config, AFL_SNAPSHOT_MMAP) <==> o.mmap)
            && (HasFlag(config, AFL_SNAPSHOT_BLOCK) <==> o.block)
            && (HasFlag(config, AFL_SNAPSHOT_FDS) <==> o.fds)
            && (HasFlag(config, AFL_SNAPSHOT_REGS) <==> o.regs)
            && (HasFlag(config, AFL_SNAPSHOT_EXIT) <==> o.exit)
            && (HasFlag(config, AFL_SNAPSHOT_NOSTACK) <==> o.nostack)
  {
    hide HasFlag;
    var config := ConfigOf(o, more);
    var exit := BitOf(o.exit) + 2 * (BitOf(o.nocow) + 2 * (BitOf(o.nostack) + 2 * more));
    var fds := BitOf(o.fds) + 2 * (BitOf(o.regs) + 2 * exit);
    var low := BitOf(o.mmap) + 2 * BitOf(o.block);
    OptionIsBit(config, 0, 1, o.mmap, BitOf(o.block) + 2 * fds);
    OptionIsBit(config, BitOf(o.mmap), 2, o.block, fds);
    OptionIsBit(config, low, 4, o.fds, BitOf(o.regs) + 2 * exit);
    OptionIsBit(config, low + 4 * BitOf(o.fds), 8, o.regs, exit);
    OptionIsBit(config, low + 4 * BitOf(o.fds) + 8 * BitOf(o.regs), 16, o.exit,
                BitOf(o.nocow) + 2 * (BitOf(o.nostack) + 2 * more));
    OptionIsBit(config, low + 4 * BitOf(o.fds) + 8 * BitOf(o.regs) + 16 * BitOf(o.exit) + 32 * BitOf(o.nocow), 64,
                o.nostack, more);
  }

  lemma Halved(n: nat) returns (bit: bool, half: nat)
    ensures n == BitOf(bit) + 2 * half
  {
    bit, half := n % 2 == 1, n / 2;
  }

  /** And every configuration is one of these. */
  lemma EveryConfig(config: nat) returns (o: Options, more: nat)
    ensures config == ConfigOf(o, more)
  {
    var mmap, block, fds, regs, exit, nocow, nostack;
    mmap, more := Halved(config);
    block, more := Halved(more);
    fds, more := Halved(more);
    regs, more := Halved(more);
    exit, more := Halved(more);
    nocow, more := Halved(more);
    nostack, more := Halved(more);
    o := Options(mmap, block, fds, regs, exit, nocow, nostack);
  }

  // ---- The records --------------------------------------------------------------------------------------------

  /** The part of a `struct task_data` that outlives a call; `id` tells one allocation from another. */
  datatype Data = Data(id: nat, tsk: nat, made: bool, had: bool, config: nat, regs: nat, oldbrk: nat)

  /** What a CPU remembers: a task, 0 for none, and its record if it had one. */
  datatype Cached = Cached(task: nat, data: Option<nat>)

  const EMPTY := Cached(0, None)

  /** The list of records, the caches of the CPUs, and a bound on the allocations so far. */
  datatype Tasks = Tasks(list: seq<Data>, cpus: seq<Cached>, nextId: nat)

  /** `get_task_data`. */
  function Find(list: seq<Data>, t: nat): (d: Option<Data>)
    ensures d.Some? ==> d.value in list && d.value.tsk == t
    ensures d.None? <==> forall i :: 0 <= i < |list| ==> list[i].tsk != t
  {
    if list == [] then None else if list[0].tsk == t then Some(list[0]) else Find(list[1..], t)
  }

  /** `ensure_task_data`. */
  function Ensure(s: Tasks, t: nat): Tasks {
    if Find(s.list, t).Some? then s
    else Tasks([Data(s.nextId, t, false, false, 0, 0, 0)] + s.list, s.cpus, s.nextId + 1)
  }

  function Removed(list: seq<Data>, t: nat): seq<Data> {
    if list == [] then [] else if list[0].tsk == t then list[1..] else [list[0]] + Removed(list[1..], t)
  }

  function Updated(list: seq<Data>, d: Data): seq<Data> {
    if list == [] then [] else if list[0].tsk == d.tsk then [d] + list[1..] else [list[0]] + Updated(list[1..], d)
  }

  /** `invalidate_task_data_cache`, on every CPU. */
  function Invalidated(cpus: seq<Cached>, t: nat): (r: seq<Cached>)
    ensures |r| == |cpus|
    ensures forall c :: 0 <= c < |cpus| ==> r[c] == if cpus[c].task == t then EMPTY else cpus[c]
  {
    if cpus == [] then []
    else [if cpus[0].task == t then EMPTY else cpus[0]] + Invalidated(cpus[1..], t)
  }

  function IdOf(d: Option<Data>): Option<nat> {
    match d
    case Some(data) => Some(data.id)
    case None => None
  }

  /** `get_task_data_with_cache`: the record it returns, by identity, and the cache afterwards. */
  function Lookup(s: Tasks, cpu: nat, t: nat): (Option<nat>, Tasks)
    requires cpu < |s.cpus|
  {
    if s.cpus[cpu].task == t then (s.cpus[cpu].data, s)
    else
      var found := IdOf(Find(s.list, t));
      (found, Tasks(s.list, s.cpus[cpu := Cached(t, found)], s.nextId))
  }

  // ---- The calls on a snapshot ----------------------------------------------------------------------------

  /** What a restore puts back: the registers if asked for, and the break. */
  datatype Restoration = Restoration(regs: Option<nat>, brk: nat, config: nat)

  function RestorationOf(d: Data): Restoration {
    Restoration(if HasFlag(d.config, AFL_SNAPSHOT_REGS) then Some(d.regs) else None, d.oldbrk, d.config)
  }

  /** `take_snapshot`. */
  function TakeSnapshot(s: Tasks, t: nat, config: nat, regs: nat, brk: nat): (int, Tasks) {
    var ensured := Ensure(s, t);
    var found := Find(ensured.list, t);
    if found.None? || found.value.made then (0, ensured)
    else
      (1, Tasks(Updated(ensured.list, Data(found.value.id, t, true, true, config, regs, brk)),
                Invalidated(ensured.cpus, t), ensured.nextId))
  }

  /** `clean_snapshot`. */
  function CleanSnapshot(s: Tasks, t: nat): Tasks {
    if Find(s.list, t).None? then s else Tasks(Removed(s.list, t), Invalidated(s.cpus, t), s.nextId)
  }

  /** `recover_snapshot`, which does not ask whether a snapshot is held. */
  function RecoverSnapshot(s: Tasks, t: nat): (int, Option<Restoration>) {
    var found := Find(s.list, t);
    if found.None? then (1, None) else (0, Some(RestorationOf(found.value)))
  }

  /** `exit_snapshot`. */
  function ExitSnapshot(s: Tasks, t: nat): (int, Option<Restoration>, Tasks) {
    var found := Find(s.list, t);
    if found.None? then (1, None, s)
    else if HasFlag(found.value.config, AFL_SNAPSHOT_EXIT) && found.value.made then
      (0, Some(RestorationOf(found.value)), s)
    else if found.value.had then (1, None, CleanSnapshot(s, t))
    else (1, None, s)
  }

  /** `do_exit_hook`, for a task that dies. */
  function ExitHook(s: Tasks, t: nat): Tasks {
    if Find(s.list, t).Some? && Find(s.list, t).value.had then CleanSnapshot(s, t) else s
  }

  // ---- The invariant -------------------------------------------------------------------------------------------

  ghost predicate ListOk(s: Tasks) {
    && (forall i :: 0 <= i < |s.list| ==> s.list[i].tsk != 0 && s.list[i].id < s.nextId)
    && (forall i, j :: 0 <= i < j < |s.list| ==> s.list[i].tsk != s.list[j].tsk && s.list[i].id != s.list[j].id)
    && (forall i :: 0 <= i < |s.list| && s.list[i].made ==> s.list[i].had)
  }

  /** A cached record is the task's own, and on the list; a cached absence means that no snapshot is held. */
  ghost predicate CacheOk(s: Tasks, c: Cached) {
    match c.data
    case Some(id) => IdOf(Find(s.list, c.task)) == Some(id)
    case None => Find(s.list, c.task).Some? ==> !Find(s.list, c.task).value.made
  }

  ghost predicate Inv(s: Tasks) {
    ListOk(s) && forall c :: 0 <= c < |s.cpus| ==> CacheOk(s, s.cpus[c])
  }

  /** `data && have_snapshot(data)`, as the hooks test it on what a lookup returns. */
  ghost predicate TestsTrue(s: Tasks, t: nat, data: Option<nat>) {
    data.Some? && exists i :: 0 <= i < |s.list| && s.list[i].id == data.value && s.list[i].made
  }
}
