/** What every step of the scheduler keeps, and what follows from it. */
module SchedulerSafety {
  import opened Wrappers
  import opened QueueSpec
  import opened Scheduler

  // ---------------------------------------------------------------- the invariant

  /** The core acts on the slot its pc names. Once it has cleared on_cpu it only looks back. */
  predicate Active(pc: Pc) {
    !pc.Idle? && !pc.Cleared? && !pc.Vacant?
  }

  predicate ActsOn(core: Core, s: nat) {
    Active(core.pc) && core.pc.slot == s
  }

  /** The core has switched away from the task in slot s and still has to read its state. */
  predicate LooksBackAt(core: Core, s: nat) {
    (core.pc.Cleared? || core.pc.Vacant?) && core.pc.slot == s
  }

  predicate Parked(t: Slot) {
    (t.state == Blocked || t.state == Ready || t.state == Dead) && t.place != InCore
  }

  predicate ExecOk(t: Slot, doing: Doing) {
    match doing
    case Plain => t.state == Running
    case Checked => t.state == Running
    case Leaving => Parked(t)
    case Chosen(_) => t.state == Running
    case Requeueing(_) => t.state == Ready && t.place == InCore
    case Rousing => Parked(t)
    case Parting => Parked(t)
  }

  /** The slot is as the core that acts on it has left it. */
  predicate ActOk(st: State, c: nat)
    requires c < |st.cores| && Active(st.cores[c].pc) && st.cores[c].pc.slot < |st.slots|
  {
    var pc := st.cores[c].pc;
    var t := st.slots[pc.slot];
    && t.onCpu == (pc.Claimed? || pc.Exec? || pc.Back?)
    && t.home == (if pc.Stealing? && pc.phase == Taken then pc.from else c)
    && match pc
       case Picked(_) => t.state == Ready && t.place == InCore
       case Started(_) => t.state == Running
       case Claimed(_) => t.state == Running
       case Exec(_, doing) => ExecOk(t, doing)
       case Back(_) => Parked(t)
       case Reaping(_) => t.state == Dead
       case PidCleared(_) => t.state == Dead && t.pid.None?
       case Stealing(_, from, _) => t.state == Ready && t.place == InCore && from < |st.cores| && from != c
  }

  /** A core's pc agrees with its current slot, and with the slot it acts on. */
  predicate PcOk(st: State, c: nat)
    requires c < |st.cores|
  {
    var core := st.cores[c];
    if core.pc.Idle? then core.current.None?
    else
      && core.pc.slot < |st.slots|
      && core.current == (if core.pc.Exec? || core.pc.Back? || core.pc.Cleared? then Some(core.pc.slot) else None)
      && (Active(core.pc) ==> ActOk(st, c))
  }

  predicate SlotOk(st: State, s: nat)
    requires s < |st.slots|
  {
    var t := st.slots[s];
    && SlotReady(st, s)
    && (t.state == Ready <==> t.place != Nowhere)
    && (t.asleep ==> t.state == Blocked)
    && (t.state == Free ==> t.pid.None?)
    && (t.pid.None? ==> t.state == Free || t.state == Creating || t.state == Dead)
    && (t.asleep ==> t.pid.Some? && (s, t.pid.value) in st.cores[t.home].sleepers)
  }

  ghost predicate Exclusive(st: State) {
    forall c, d :: 0 <= c < d < |st.cores| && Active(st.cores[c].pc) && Active(st.cores[d].pc) ==>
      st.cores[c].pc.slot != st.cores[d].pc.slot
  }

  predicate NeedsCore(t: Slot) {
    t.state == Running || t.place == InCore || t.onCpu
  }

  ghost predicate HasCore(st: State, s: nat) {
    exists c :: 0 <= c < |st.cores| && ActsOn(st.cores[c], s)
  }

  /** A task that is running, taken or on a CPU is in the hands of some core, and a dead one is
      in the hands of a core or about to be found by its home core. */
  ghost predicate AccountedFor(st: State, s: nat)
    requires s < |st.slots|
  {
    var t := st.slots[s];
    && (NeedsCore(t) ==> HasCore(st, s))
    && (t.state == Dead ==> HasCore(st, s) || (t.home < |st.cores| && LooksBackAt(st.cores[t.home], s)))
  }

  ghost predicate Local(st: State) {
    && |st.cores| > 0
    && (forall c :: 0 <= c < |st.cores| ==> PcOk(st, c))
    && (forall s :: 0 <= s < |st.slots| ==> SlotOk(st, s))
    && Exclusive(st)
    && (forall s :: 0 <= s < |st.slots| ==> AccountedFor(st, s))
  }

  predicate QueuedAt(st: State, s: nat, c: nat, l: nat) {
    s < |st.slots| && st.slots[s].place == InQueue && st.slots[s].home == c && st.slots[s].priority == l
  }

  /** Every list holds exactly the tasks that are queued, at their priority, on their home core. */
  ghost predicate QueuesOk(st: State) {
    forall c, l, s: nat :: 0 <= c < |st.cores| && 0 <= l < LEVELS ==>
      Load(st.cores[c].queue, l)[s] == if QueuedAt(st, s, c, l) then 1 else 0
  }

  /** A step that changes at most one slot and no core's pc needs checking only at that slot and
      at a core that acts on it. */
  lemma SlotStepKeepsLocal(st: State, st': State, s: nat)
    requires Local(st) && s < |st.slots|
    requires |st'.cores| == |st.cores| && |st'.slots| == |st.slots|
    requires forall x :: 0 <= x < |st.slots| && x != s ==> st'.slots[x] == st.slots[x]
    requires forall d :: 0 <= d < |st.cores| ==>
      st'.cores[d].pc == st.cores[d].pc && st'.cores[d].current == st.cores[d].current
    requires forall d, e :: 0 <= d < |st.cores| && e in st.cores[d].sleepers && e.0 != s ==>
      e in st'.cores[d].sleepers
    requires forall d :: 0 <= d < |st.cores| && ActsOn(st.cores[d], s) ==> PcOk(st', d)
    requires SlotOk(st', s)
    requires NeedsCore(st'.slots[s]) ==> NeedsCore(st.slots[s])
    requires st'.slots[s].state == Dead ==> st.slots[s].state == Dead && st'.slots[s].home == st.slots[s].home
    ensures Local(st')
  {
    forall d | 0 <= d < |st'.cores| ensures PcOk(st', d) {
      assert PcOk(st, d);
    }
    forall x | 0 <= x < |st'.slots| ensures SlotOk(st', x) {
      assert SlotOk(st, x);
    }
    forall x | 0 <= x < |st'.slots| ensures AccountedFor(st', x) {
      assert AccountedFor(st, x);
      if d :| 0 <= d < |st.cores| && ActsOn(st.cores[d], x) { assert ActsOn(st'.cores[d], x); }
    }
  }

  lemma SlotOpKeepsLocal(st: State, s: nat, op: SlotOp)
    requires Local(st) && SlotOpEnabled(st, s, op)
    ensures Local(ApplySlotOp(st, s, op))
  {
    assert SlotOk(st, s) && AccountedFor(st, s);
    forall d | 0 <= d < |st.cores| && ActsOn(st.cores[d], s)
      ensures PcOk(ApplySlotOp(st, s, op), d)
    {
      assert PcOk(st, d);
    }
    SlotStepKeepsLocal(st, ApplySlotOp(st, s, op), s);
  }

  /** A successful wake by anyone, whatever else happens to the references. */
  lemma WakeKeepsLocal(st: State, st': State, s: nat)
    requires Local(st) && s < |st.slots| && st.slots[s].state == Blocked
    requires st' == Wakes(st, s).(listed := st'.listed, held := st'.held)
    ensures Local(st')
  {
    assert SlotOk(st, s);
    forall d | 0 <= d < |st.cores| && ActsOn(st.cores[d], s) ensures PcOk(st', d) {
      assert PcOk(st, d);
    }
    SlotStepKeepsLocal(st, st', s);
  }

  /** A step of core c that changes the slot its pc names, and no other core's pc, needs
      checking only at that core and that slot. */
  lemma CoreStepKeepsLocal(st: State, st': State, c: nat, s: nat)
    requires Local(st) && c < |st.cores| && s < |st.slots|
    requires forall d :: 0 <= d < |st.cores| && d != c ==> !ActsOn(st.cores[d], s)
    requires |st'.cores| == |st.cores| && |st'.slots| == |st.slots|
    requires forall x :: 0 <= x < |st.slots| && x != s ==> st'.slots[x] == st.slots[x]
    requires forall d :: 0 <= d < |st.cores| && d != c ==>
      st'.cores[d].pc == st.cores[d].pc && st'.cores[d].current == st.cores[d].current
    requires forall d :: 0 <= d < |st.cores| ==> st.cores[d].sleepers <= st'.cores[d].sleepers
    requires st.cores[c].pc.Idle? || st.cores[c].pc.slot == s
    requires st'.cores[c].pc.Idle? || st'.cores[c].pc.slot == s
    requires PcOk(st', c) && SlotOk(st', s)
    requires NeedsCore(st'.slots[s]) ==> ActsOn(st'.cores[c], s)
    requires st'.slots[s].state == Dead ==>
      ActsOn(st'.cores[c], s) || (st'.slots[s].home == c && LooksBackAt(st'.cores[c], s))
    ensures Local(st')
  {
    forall d | 0 <= d < |st'.cores| ensures PcOk(st', d) {
      assert PcOk(st, d);
    }
    forall x | 0 <= x < |st'.slots| ensures SlotOk(st', x) {
      assert SlotOk(st, x);
    }
    forall x | 0 <= x < |st'.slots| ensures AccountedFor(st', x) {
      if x != s {
        assert AccountedFor(st, x);
        if d :| 0 <= d < |st.cores| && ActsOn(st.cores[d], x) { assert ActsOn(st'.cores[d], x); }
      }
    }
  }

  /** A core that looks back moves on without touching the slot, whoever acts on it by now. */
  lemma LookBackKeepsLocal(st: State, st': State, c: nat)
    requires Local(st) && c < |st.cores| && (st.cores[c].pc.Cleared? || st.cores[c].pc.Vacant?)
    requires st'.slots == st.slots && |st'.cores| == |st.cores| && PcOk(st', c)
    requires forall d :: 0 <= d < |st.cores| && d != c ==> st'.cores[d] == st.cores[d]
    requires st'.cores[c].sleepers == st.cores[c].sleepers
    requires var s := st.cores[c].pc.slot;
      || LooksBackAt(st'.cores[c], s)
      || (st'.cores[c].pc.Idle? && !(s < |st.slots| && st.slots[s].state == Dead && st.slots[s].home == c))
    ensures Local(st')
  {
    forall d | 0 <= d < |st'.cores| ensures PcOk(st', d) {
      assert PcOk(st, d);
    }
    forall x | 0 <= x < |st'.slots| ensures SlotOk(st', x) && AccountedFor(st', x) {
      assert SlotOk(st, x) && AccountedFor(st, x);
      if d :| 0 <= d < |st.cores| && ActsOn(st.cores[d], x) { assert ActsOn(st'.cores[d], x); }
    }
  }

  lemma TaskOpKeepsLocal(st: State, c: nat, op: TaskOp)
    requires Local(st) && TaskOpEnabled(st, c, op)
    ensures Local(ApplyTaskOp(st, c, op))
  {
    var s := st.cores[c].pc.slot;
    assert PcOk(st, c);
    assert SlotOk(st, s);
    CoreStepKeepsLocal(st, ApplyTaskOp(st, c, op), c, s);
  }

  /** Nobody else acts on the slot a core acts on, or on a dead one whose home core looks back. */
  lemma NobodyElse(st: State, c: nat, d: nat)
    requires Local(st) && c < |st.cores| && d < |st.cores| && d != c && !st.cores[c].pc.Idle?
    requires Active(st.cores[c].pc) || (st.cores[c].pc.slot < |st.slots|
      && st.slots[st.cores[c].pc.slot].state == Dead && st.slots[st.cores[c].pc.slot].home == c)
    ensures !ActsOn(st.cores[d], st.cores[c].pc.slot)
  {
    assert PcOk(st, c) && PcOk(st, d);
  }

  /** The failing branch of the scheduler loop: a core that reads Dead must be the home of the task. */
  predicate LoopCalm(st: State, c: nat, op: LoopOp)
    requires LoopOpEnabled(st, c, op)
  {
    var t := st.slots[st.cores[c].pc.slot];
    op == ReadState && t.state == Dead ==> t.home == c
  }

  lemma LoopOpKeepsLocal(st: State, c: nat, op: LoopOp)
    requires Local(st) && LoopOpEnabled(st, c, op) && LoopCalm(st, c, op)
    ensures Local(ApplyLoopOp(st, c, op))
  {
    assert PcOk(st, c);
    if Active(st.cores[c].pc) {
      ActiveOpKeepsLocal(st, c, op);
    } else if op == ReadState && st.slots[st.cores[c].pc.slot].state == Dead {
      ReadDeadKeepsLocal(st, c);
    } else {
      LookBackKeepsLocal(st, ApplyLoopOp(st, c, op), c);
    }
  }

  lemma ActiveOpKeepsLocal(st: State, c: nat, op: LoopOp)
    requires Local(st) && LoopOpEnabled(st, c, op) && Active(st.cores[c].pc)
    ensures Local(ApplyLoopOp(st, c, op))
  {
    var s, st' := st.cores[c].pc.slot, ApplyLoopOp(st, c, op);
    assert PcOk(st, c) && SlotOk(st, s);
    forall d | 0 <= d < |st.cores| && d != c ensures !ActsOn(st.cores[d], s) { NobodyElse(st, c, d); }
    CoreStepKeepsLocal(st, st', c, s);
  }

  lemma ReadDeadKeepsLocal(st: State, c: nat)
    requires Local(st) && LoopOpEnabled(st, c, ReadState)
    requires var t := st.slots[st.cores[c].pc.slot]; t.state == Dead && t.home == c
    ensures Local(ApplyLoopOp(st, c, ReadState))
  {
    var s, st' := st.cores[c].pc.slot, ApplyLoopOp(st, c, ReadState);
    assert PcOk(st, c) && SlotOk(st, s);
    forall d | 0 <= d < |st.cores| && d != c ensures !ActsOn(st.cores[d], s) { NobodyElse(st, c, d); }
    DeadIsOffCpu(st, c);
    CoreStepKeepsLocal(st, st', c, s);
  }

  /** A dead task whose home core looks back is on no CPU. */
  lemma DeadIsOffCpu(st: State, c: nat)
    requires Local(st) && c < |st.cores| && st.cores[c].pc.Vacant? && st.cores[c].pc.slot < |st.slots|
    requires st.slots[st.cores[c].pc.slot].state == Dead && st.slots[st.cores[c].pc.slot].home == c
    ensures !NeedsCore(st.slots[st.cores[c].pc.slot])
  {
    var s := st.cores[c].pc.slot;
    assert AccountedFor(st, s);
    forall d | 0 <= d < |st.cores| ensures !ActsOn(st.cores[d], s) {
      if d != c { NobodyElse(st, c, d); }
    }
  }

  /** The stolen or picked task must not be acted on by any core yet. */
  lemma TakeKeepsLocal(st: State, c: nat, k: nat, s: nat, q: Epochs, pc: Pc)
    requires Local(st) && c < |st.cores| && k < |st.cores| && s < |st.slots|
    requires st.cores[c].pc.Idle?
    requires forall d :: 0 <= d < |st.cores| ==> !ActsOn(st.cores[d], s)
    requires st.slots[s].place == InQueue && !st.slots[s].onCpu && st.slots[s].home == k
    requires pc == if k == c then Picked(s) else Stealing(s, k, Taken)
    ensures Local(Takes(st, c, k, s, q, pc))
  {
    assert PcOk(st, c);
    assert SlotOk(st, s);
    CoreStepKeepsLocal(st, Takes(st, c, k, s, q, pc), c, s);
  }

  lemma TimerWakeKeepsLocal(st: State, c: nat, e: Ref)
    requires Local(st) && Enabled(st, TimerWake(c, e))
    ensures Local(TimerWakes(st, c, e))
  {
    assert SlotOk(st, e.0);
    forall d | 0 <= d < |st.cores| && ActsOn(st.cores[d], e.0)
      ensures PcOk(TimerWakes(st, c, e), d)
    {
      assert PcOk(st, d);
    }
    SlotStepKeepsLocal(st, TimerWakes(st, c, e), e.0);
  }

  lemma DropStaleKeepsLocal(st: State, c: nat, e: Ref)
    requires Local(st) && Enabled(st, DropStale(c, e))
    ensures Local(Apply(st, DropStale(c, e)))
  {
    var st' := Apply(st, DropStale(c, e));
    assert SlotOk(st, e.0);
    forall d | 0 <= d < |st.cores| && ActsOn(st.cores[d], e.0) ensures PcOk(st', d) {
      assert PcOk(st, d);
    }
    SlotStepKeepsLocal(st, st', e.0);
  }

  // ---------------------------------------------------------------- queues

  lemma QueuesFrame(st: State, st': State)
    requires QueuesOk(st) && |st'.cores| == |st.cores| && |st'.slots| == |st.slots|
    requires forall c :: 0 <= c < |st.cores| ==> st'.cores[c].queue == st.cores[c].queue
    requires forall s, c, l :: QueuedAt(st', s, c, l) <==> QueuedAt(st, s, c, l)
    ensures QueuesOk(st')
  {
    forall c, l, s: nat | 0 <= c < |st.cores| && 0 <= l < LEVELS
      ensures Load(st'.cores[c].queue, l)[s] == if QueuedAt(st', s, c, l) then 1 else 0
    {
      assert Load(st.cores[c].queue, l)[s] == if QueuedAt(st, s, c, l) then 1 else 0;
    }
  }

  lemma PushKeepsQueues(st: State, c: nat, s: nat, to: Requeue)
    requires QueuesOk(st) && c < |st.cores| && SlotReady(st, s)
    requires st.slots[s].place != InQueue && st.slots[s].home == c
    ensures QueuesOk(PushOn(st, c, s, to))
  {
    var st' := PushOn(st, c, s, to);
    forall d, l, x: nat | 0 <= d < |st.cores| && 0 <= l < LEVELS
      ensures Load(st'.cores[d].queue, l)[x] == if QueuedAt(st', x, d, l) then 1 else 0
    {
      assert Load(st.cores[d].queue, l)[x] == if QueuedAt(st, x, d, l) then 1 else 0;
    }
  }

  lemma TakeKeepsQueues(st: State, c: nat, k: nat, s: nat, q: Epochs, pc: Pc, level: nat)
    requires QueuesOk(st) && c < |st.cores| && k < |st.cores| && s < |st.slots| && level < LEVELS
    requires Removes(st.cores[k].queue, q, s, level)
    ensures QueuedAt(st, s, k, level)
    ensures QueuesOk(Takes(st, c, k, s, q, pc))
  {
    var st' := Takes(st, c, k, s, q, pc);
    assert Load(st.cores[k].queue, level)[s] == if QueuedAt(st, s, k, level) then 1 else 0;
    forall d, l, x: nat | 0 <= d < |st.cores| && 0 <= l < LEVELS
      ensures Load(st'.cores[d].queue, l)[x] == if QueuedAt(st', x, d, l) then 1 else 0
    {
      assert Load(st.cores[d].queue, l)[x] == if QueuedAt(st, x, d, l) then 1 else 0;
    }
  }

  lemma SlotOpKeepsQueues(st: State, s: nat, op: SlotOp)
    requires Local(st) && QueuesOk(st) && SlotOpEnabled(st, s, op)
    ensures QueuesOk(ApplySlotOp(st, s, op))
  {
    assert SlotOk(st, s);
    if op == EnqueueWake {
      PushKeepsQueues(st, st.slots[s].home, s, ToExecuting);
    } else {
      QueuesFrame(st, ApplySlotOp(st, s, op));
    }
  }

  lemma TaskOpKeepsQueues(st: State, c: nat, op: TaskOp)
    requires Local(st) && QueuesOk(st) && TaskOpEnabled(st, c, op)
    ensures QueuesOk(ApplyTaskOp(st, c, op))
  {
    var s := st.cores[c].pc.slot;
    assert PcOk(st, c) && SlotOk(st, s);
    if op == PushRequeued {
      PushKeepsQueues(st, c, s, st.cores[c].pc.doing.to);
      QueuesFrame(PushOn(st, c, s, st.cores[c].pc.doing.to), ApplyTaskOp(st, c, op));
    } else {
      QueuesFrame(st, ApplyTaskOp(st, c, op));
    }
  }

  lemma LoopOpKeepsQueues(st: State, c: nat, op: LoopOp)
    requires Local(st) && QueuesOk(st) && LoopOpEnabled(st, c, op)
    ensures QueuesOk(ApplyLoopOp(st, c, op))
  {
    var s := st.cores[c].pc.slot;
    assert PcOk(st, c) && SlotOk(st, s);
    if op == StealPush {
      PushKeepsQueues(st, c, s, ToExecuting);
      QueuesFrame(PushOn(st, c, s, ToExecuting), ApplyLoopOp(st, c, op));
    } else {
      QueuesFrame(st, ApplyLoopOp(st, c, op));
    }
  }

  lemma TimerWakeKeepsQueues(st: State, c: nat, e: Ref)
    requires Local(st) && QueuesOk(st) && Enabled(st, TimerWake(c, e)) && st.slots[e.0].home == c
    ensures QueuesOk(TimerWakes(st, c, e))
  {
    assert SlotOk(st, e.0);
    var woken := SetSlot(st, e.0, st.slots[e.0].(state := Ready, asleep := false));
    var counted := SetCore(woken, c, st.cores[c].(sleepers := st.cores[c].sleepers - multiset{e},
                                                  runnable := st.cores[c].runnable + 1));
    QueuesFrame(st, counted);
    PushKeepsQueues(counted, c, e.0, ToExecuting);
  }

  // ---------------------------------------------------------------- runnable counters

  /** A task counts on its home core from the moment a waker has counted it until it leaves. */
  function SlotPart(t: Slot, k: nat): int {
    if t.home == k && (t.state == Running || (t.state == Ready && t.place != Woken)) then 1 else 0
  }

  /** What an unfinished leave or steal still owes the counter of core k. */
  function CorePart(pc: Pc, c: nat, k: nat): int {
    match pc
    case Exec(_, Leaving) => if k == c then 1 else 0
    case Stealing(_, from, Rehomed) => (if k == from then 1 else 0) - (if k == c then 1 else 0)
    case Stealing(_, _, Subtracted) => if k == c then -1 else 0
    case _ => 0
  }

  function SlotSum(slots: seq<Slot>, n: nat, k: nat): int
    requires n <= |slots|
  {
    if n == 0 then 0 else SlotSum(slots, n - 1, k) + SlotPart(slots[n - 1], k)
  }

  function CoreSum(cores: seq<Core>, n: nat, k: nat): int
    requires n <= |cores|
  {
    if n == 0 then 0 else CoreSum(cores, n - 1, k) + CorePart(cores[n - 1].pc, n - 1, k)
  }

  function Owed(st: State, k: nat): int {
    SlotSum(st.slots, |st.slots|, k) + CoreSum(st.cores, |st.cores|, k)
  }

  ghost predicate CountsOk(st: State) {
    forall k :: 0 <= k < |st.cores| ==> st.cores[k].runnable == Owed(st, k)
  }

  lemma {:induction false} SlotSumUpdate(a: seq<Slot>, b: seq<Slot>, s: nat, n: nat, k: nat)
    requires |a| == |b| && n <= |a| && s < |a|
    requires forall x :: 0 <= x < |a| && x != s ==> a[x] == b[x]
    ensures SlotSum(b, n, k) == SlotSum(a, n, k) + if s < n then SlotPart(b[s], k) - SlotPart(a[s], k) else 0
  {
    if n > 0 { SlotSumUpdate(a, b, s, n - 1, k); }
  }

  lemma {:induction false} CoreSumUpdate(a: seq<Core>, b: seq<Core>, c: nat, n: nat, k: nat)
    requires |a| == |b| && n <= |a| && c < |a|
    requires forall d :: 0 <= d < |a| && d != c ==> a[d].pc == b[d].pc
    ensures CoreSum(b, n, k)
         == CoreSum(a, n, k) + if c < n then CorePart(b[c].pc, c, k) - CorePart(a[c].pc, c, k) else 0
  {
    if n > 0 { CoreSumUpdate(a, b, c, n - 1, k); }
  }

  /** A step at slot s and core c keeps the counters when they move with its own share. */
  lemma StepKeepsCounts(st: State, st': State, c: nat, s: nat)
    requires CountsOk(st) && c < |st.cores| && s < |st.slots|
    requires |st'.cores| == |st.cores| && |st'.slots| == |st.slots|
    requires forall x :: 0 <= x < |st.slots| && x != s ==> st'.slots[x] == st.slots[x]
    requires forall d :: 0 <= d < |st.cores| && d != c ==> st'.cores[d].pc == st.cores[d].pc
    requires forall k :: 0 <= k < |st.cores| ==>
      st'.cores[k].runnable - st.cores[k].runnable ==
      SlotPart(st'.slots[s], k) - SlotPart(st.slots[s], k)
      + CorePart(st'.cores[c].pc, c, k) - CorePart(st.cores[c].pc, c, k)
    ensures CountsOk(st')
  {
    forall k | 0 <= k < |st'.cores| ensures st'.cores[k].runnable == Owed(st', k) {
      SlotSumUpdate(st.slots, st'.slots, s, |st.slots|, k);
      CoreSumUpdate(st.cores, st'.cores, c, |st.cores|, k);
    }
  }

  lemma SlotOpKeepsCounts(st: State, s: nat, op: SlotOp)
    requires Local(st) && CountsOk(st) && SlotOpEnabled(st, s, op)
    ensures CountsOk(ApplySlotOp(st, s, op))
  {
    assert SlotOk(st, s);
    StepKeepsCounts(st, ApplySlotOp(st, s, op), 0, s);
  }

  lemma TaskOpKeepsCounts(st: State, c: nat, op: TaskOp)
    requires Local(st) && CountsOk(st) && TaskOpEnabled(st, c, op)
    ensures CountsOk(ApplyTaskOp(st, c, op))
  {
    assert PcOk(st, c) && SlotOk(st, st.cores[c].pc.slot);
    var st', s := ApplyTaskOp(st, c, op), st.cores[c].pc.slot;
    forall k | 0 <= k < |st.cores|
      ensures st'.cores[k].runnable - st.cores[k].runnable ==
        SlotPart(st'.slots[s], k) - SlotPart(st.slots[s], k)
        + CorePart(st'.cores[c].pc, c, k) - CorePart(st.cores[c].pc, c, k)
    {
      TaskOpBalances(st, c, op, k);
    }
    StepKeepsCounts(st, st', c, s);
  }

  /** The counter of core k has moved by what the slot and the core that a step changes owe it more. */
  predicate Balances(st: State, st': State, s: nat, c: nat, k: nat) {
    && s < |st.slots| == |st'.slots| && c < |st.cores| == |st'.cores| && k < |st.cores|
    && st'.cores[k].runnable - st.cores[k].runnable ==
       SlotPart(st'.slots[s], k) - SlotPart(st.slots[s], k)
       + CorePart(st'.cores[c].pc, c, k) - CorePart(st.cores[c].pc, c, k)
  }

  lemma TaskOpBalances(st: State, c: nat, op: TaskOp, k: nat)
    requires Local(st) && TaskOpEnabled(st, c, op) && k < |st.cores|
    ensures Balances(st, ApplyTaskOp(st, c, op), st.cores[c].pc.slot, c, k) == true
  {
    assert PcOk(st, c) && SlotOk(st, st.cores[c].pc.slot);
    if op == Leave || op == Die || op.BlockEvent? || op == BlockSleep {
      LeavingBalances(st, c, op, k);
    } else {
      StayingBalances(st, c, op, k);
    }
  }

  lemma LeavingBalances(st: State, c: nat, op: TaskOp, k: nat)
    requires TaskOpEnabled(st, c, op) && PcOk(st, c) && SlotOk(st, st.cores[c].pc.slot) && k < |st.cores|
    requires op == Leave || op == Die || op.BlockEvent? || op == BlockSleep
    ensures Balances(st, ApplyTaskOp(st, c, op), st.cores[c].pc.slot, c, k) == true
  {
  }

  lemma StayingBalances(st: State, c: nat, op: TaskOp, k: nat)
    requires TaskOpEnabled(st, c, op) && PcOk(st, c) && SlotOk(st, st.cores[c].pc.slot) && k < |st.cores|
    requires op != Leave && op != Die && !op.BlockEvent? && op != BlockSleep
    ensures Balances(st, ApplyTaskOp(st, c, op), st.cores[c].pc.slot, c, k) == true
  {
  }

  lemma LoopOpKeepsCounts(st: State, c: nat, op: LoopOp)
    requires Local(st) && CountsOk(st) && LoopOpEnabled(st, c, op)
    ensures CountsOk(ApplyLoopOp(st, c, op))
  {
    assert PcOk(st, c) && SlotOk(st, st.cores[c].pc.slot);
    var st', s := ApplyLoopOp(st, c, op), st.cores[c].pc.slot;
    forall k | 0 <= k < |st.cores|
      ensures st'.cores[k].runnable - st.cores[k].runnable ==
        SlotPart(st'.slots[s], k) - SlotPart(st.slots[s], k)
        + CorePart(st'.cores[c].pc, c, k) - CorePart(st.cores[c].pc, c, k)
    {
      LoopOpBalances(st, c, op, k);
    }
    StepKeepsCounts(st, st', c, s);
  }

  /** Whatever a loop step does to a counter, the slot and the core that it moves owe as much. */
  lemma LoopOpBalances(st: State, c: nat, op: LoopOp, k: nat)
    requires Local(st) && LoopOpEnabled(st, c, op) && k < |st.cores|
    ensures var st', s := ApplyLoopOp(st, c, op), st.cores[c].pc.slot;
      && s < |st.slots| == |st'.slots| && |st'.cores| == |st.cores|
      && st'.cores[k].runnable - st.cores[k].runnable ==
         SlotPart(st'.slots[s], k) - SlotPart(st.slots[s], k)
         + CorePart(st'.cores[c].pc, c, k) - CorePart(st.cores[c].pc, c, k)
  {
    assert PcOk(st, c) && SlotOk(st, st.cores[c].pc.slot);
  }

  lemma {:induction false} SlotSumAtLeast(slots: seq<Slot>, n: nat, k: nat, s: nat)
    requires n <= |slots|
    ensures SlotSum(slots, n, k) >= if s < n then SlotPart(slots[s], k) else 0
  {
    if n > 0 { SlotSumAtLeast(slots, n - 1, k, s); }
  }

  /** Only core k itself can owe its own counter a negative amount. */
  lemma {:induction false} CoreSumAtLeast(cores: seq<Core>, n: nat, k: nat, c: nat)
    requires n <= |cores|
    ensures CoreSum(cores, n, k) >=
      (if c < n then CorePart(cores[c].pc, c, k) else 0)
      + (if k < n && k != c then CorePart(cores[k].pc, k, k) else 0)
  {
    if n > 0 { CoreSumAtLeast(cores, n - 1, k, c); }
  }

  /** The counter of k covers what core c adds to it, whatever core k is in the middle of. */
  lemma RunnableAtLeast(st: State, k: nat, c: nat)
    requires Local(st) && CountsOk(st) && k < |st.cores| && c < |st.cores|
    ensures st.cores[k].runnable >= 0
    ensures st.cores[k].runnable >= CorePart(st.cores[c].pc, c, k)
  {
    assert PcOk(st, k);
    var s := if st.cores[k].pc.Idle? then 0 else st.cores[k].pc.slot;
    SlotSumAtLeast(st.slots, |st.slots|, k, s);
    CoreSumAtLeast(st.cores, |st.cores|, k, c);
    CoreSumAtLeast(st.cores, |st.cores|, k, k);
  }

  // ---------------------------------------------------------------- every step

  ghost predicate Inv(st: State) {
    Local(st) && QueuesOk(st) && CountsOk(st)
  }

  /** The two branches in which the code goes wrong are not taken: a core that reads Dead after
      it has switched away is still the home of the task (kernel/src/process/scheduler.rs:666),
      and so is a core whose timer makes a blocked task ready (scheduler.rs:284-288). */
  predicate Calm(st: State, a: Action)
    requires Enabled(st, a)
  {
    match a
    case ByLoop(c, op) => LoopCalm(st, c, op)
    case TimerWake(c, e) => st.slots[e.0].home == c
    case _ => true
  }

  lemma InitHolds(st: State)
    requires Init(st)
    ensures Inv(st)
  {
    forall k, n: nat | n <= |st.slots| ensures SlotSum(st.slots, n, k) == 0 { FreeSlotsCountNothing(st, n, k); }
    forall k, n: nat | n <= |st.cores| ensures CoreSum(st.cores, n, k) == 0 { IdleCoresOweNothing(st, n, k); }
  }

  lemma {:induction false} FreeSlotsCountNothing(st: State, n: nat, k: nat)
    requires Init(st) && n <= |st.slots|
    ensures SlotSum(st.slots, n, k) == 0
  {
    if n > 0 { FreeSlotsCountNothing(st, n - 1, k); }
  }

  lemma {:induction false} IdleCoresOweNothing(st: State, n: nat, k: nat)
    requires Init(st) && n <= |st.cores|
    ensures CoreSum(st.cores, n, k) == 0
  {
    if n > 0 { IdleCoresOweNothing(st, n - 1, k); }
  }

  /** A queued task that is off its CPU, or whose home core is idle, is in nobody's hands. */
  lemma QueuedIsFree(st: State, c: nat, s: nat, l: nat)
    requires Local(st) && c < |st.cores| && QueuedAt(st, s, c, l)
    requires st.cores[c].pc.Idle? || !st.slots[s].onCpu
    ensures !st.slots[s].onCpu
    ensures forall d :: 0 <= d < |st.cores| ==> !ActsOn(st.cores[d], s)
  {
    assert SlotOk(st, s) && AccountedFor(st, s);
    forall d | 0 <= d < |st.cores| ensures !ActsOn(st.cores[d], s) {
      assert PcOk(st, d);
    }
  }

  lemma PickKeepsInv(st: State, c: nat)
    requires Inv(st) && Enabled(st, PickTask(c))
    ensures Inv(Apply(st, PickTask(c)))
  {
    var (s, q) := Pick(st.cores[c].queue).value;
    var l := PickRemoves(st.cores[c].queue);
    TakeKeepsQueues(st, c, c, s, q, Picked(s), l);
    QueuedIsFree(st, c, s, l);
    TakeKeepsLocal(st, c, c, s, q, Picked(s));
    assert SlotOk(st, s);
    StepKeepsCounts(st, Apply(st, PickTask(c)), c, s);
  }

  lemma StealKeepsInv(st: State, c: nat, k: nat)
    requires Inv(st) && Enabled(st, StealTake(c, k))
    ensures Inv(Apply(st, StealTake(c, k)))
  {
    var (s, q) := Steal(st.cores[k].queue, OnCpu(st.slots)).value;
    var l := StealRemoves(st.cores[k].queue, OnCpu(st.slots));
    TakeKeepsQueues(st, c, k, s, q, Stealing(s, k, Taken), l);
    QueuedIsFree(st, k, s, l);
    StealKeepsRest(st, c, k, s, q);
  }

  lemma StealKeepsRest(st: State, c: nat, k: nat, s: nat, q: Epochs)
    requires Inv(st) && Enabled(st, StealTake(c, k)) && s < |st.slots|
    requires st.slots[s].place == InQueue && st.slots[s].home == k && !st.slots[s].onCpu
    requires forall d :: 0 <= d < |st.cores| ==> !ActsOn(st.cores[d], s)
    ensures var st' := Takes(st, c, k, s, q, Stealing(s, k, Taken)); Local(st') && CountsOk(st')
  {
    var pc := Stealing(s, k, Taken);
    TakeKeepsLocal(st, c, k, s, q, pc);
    assert SlotOk(st, s);
    StepKeepsCounts(st, Takes(st, c, k, s, q, pc), c, s);
  }

  lemma TimerWakeKeepsInv(st: State, c: nat, e: Ref)
    requires Inv(st) && Enabled(st, TimerWake(c, e)) && st.slots[e.0].home == c
    ensures Inv(Apply(st, TimerWake(c, e)))
  {
    TimerWakeKeepsLocal(st, c, e);
    TimerWakeKeepsQueues(st, c, e);
    assert SlotOk(st, e.0);
    StepKeepsCounts(st, TimerWakes(st, c, e), c, e.0);
  }

  lemma DropStaleKeepsInv(st: State, c: nat, e: Ref)
    requires Inv(st) && Enabled(st, DropStale(c, e))
    ensures Inv(Apply(st, DropStale(c, e)))
  {
    DropStaleKeepsLocal(st, c, e);
    QueuesFrame(st, Apply(st, DropStale(c, e)));
    StepKeepsCounts(st, Apply(st, DropStale(c, e)), c, e.0);
  }

  lemma WakeHeldKeepsInv(st: State, r: Ref)
    requires Inv(st) && Enabled(st, WakeHeld(r))
    ensures Inv(Apply(st, WakeHeld(r)))
  {
    var st' := Apply(st, WakeHeld(r));
    assert SlotOk(st, r.0);
    WakeKeepsLocal(st, st', r.0);
    QueuesFrame(st, st');
    StepKeepsCounts(st, st', 0, r.0);
  }

  /** References and slices alone decide nothing. */
  lemma TickKeepsInv(st: State, c: nat)
    requires Inv(st) && Enabled(st, Tick(c))
    ensures Inv(Apply(st, Tick(c)))
  {
    var st' := Apply(st, Tick(c));
    forall d | 0 <= d < |st'.cores| ensures PcOk(st', d) { assert PcOk(st, d); }
    forall x | 0 <= x < |st'.slots| ensures SlotOk(st', x) && AccountedFor(st', x) {
      assert SlotOk(st, x) && AccountedFor(st, x);
      if d :| 0 <= d < |st.cores| && ActsOn(st.cores[d], x) { assert ActsOn(st'.cores[d], x); }
    }
    QueuesFrame(st, st');
    forall k | 0 <= k < |st'.cores| ensures st'.cores[k].runnable == Owed(st', k) {
      assert st.cores[k].runnable == Owed(st, k);
      CoreSumUpdate(st.cores, st'.cores, c, |st.cores|, k);
    }
  }

  lemma ReferencesKeepInv(st: State, st': State)
    requires Inv(st) && st' == st.(listed := st'.listed, held := st'.held)
    ensures Inv(st')
  {
    forall d | 0 <= d < |st'.cores| ensures PcOk(st', d) { assert PcOk(st, d); }
    forall x | 0 <= x < |st'.slots| ensures SlotOk(st', x) && AccountedFor(st', x) {
      assert SlotOk(st, x) && AccountedFor(st, x);
      if d :| 0 <= d < |st.cores| && ActsOn(st.cores[d], x) { assert ActsOn(st'.cores[d], x); }
    }
    QueuesFrame(st, st');
    forall k | 0 <= k < |st'.cores| ensures st'.cores[k].runnable == Owed(st', k) {
      assert st.cores[k].runnable == Owed(st, k);
    }
  }

  lemma StepKeepsInv(st: State, a: Action)
    requires Inv(st) && Enabled(st, a) && Calm(st, a)
    ensures Inv(Apply(st, a))
  {
    match a
    case OnSlot(s, op) =>
      SlotOpKeepsLocal(st, s, op);
      SlotOpKeepsQueues(st, s, op);
      SlotOpKeepsCounts(st, s, op);
    case ByTask(c, op) =>
      TaskOpKeepsLocal(st, c, op);
      TaskOpKeepsQueues(st, c, op);
      TaskOpKeepsCounts(st, c, op);
    case ByLoop(c, op) =>
      LoopOpKeepsLocal(st, c, op);
      LoopOpKeepsQueues(st, c, op);
      LoopOpKeepsCounts(st, c, op);
    case PickTask(c) => PickKeepsInv(st, c);
    case StealTake(c, k) => StealKeepsInv(st, c, k);
    case Tick(c) => TickKeepsInv(st, c);
    case TimerWake(c, e) => TimerWakeKeepsInv(st, c, e);
    case DropStale(c, e) => DropStaleKeepsInv(st, c, e);
    case CopyWaiters(_) => ReferencesKeepInv(st, Apply(st, a));
    case WakeHeld(r) => WakeHeldKeepsInv(st, r);
    case DropHeld(_) => ReferencesKeepInv(st, Apply(st, a));
  }

  // ---------------------------------------------------------------- where it fails

  /** Core d has the task in slot s in its hands, or is the one that has to free its slot. */
  predicate Holds(st: State, d: nat, s: nat)
    requires d < |st.cores| && s < |st.slots|
  {
    ActsOn(st.cores[d], s) || (st.slots[s].home == d && LooksBackAt(st.cores[d], s))
  }

  /** The first race is exact: a core that is about to read Dead frees a slot that another core
      still holds if and only if it is no longer the home of the task. */
  lemma ReapsForeignTaskIff(st: State, c: nat)
    requires Inv(st) && Enabled(st, ByLoop(c, ReadState)) && st.slots[st.cores[c].pc.slot].state == Dead
    ensures var s := st.cores[c].pc.slot; var st' := Apply(st, ByLoop(c, ReadState));
      && ActsOn(st'.cores[c], s)
      && ((exists d :: 0 <= d < |st'.cores| && d != c && Holds(st', d, s)) <==> st.slots[s].home != c)
  {
    var s, st' := st.cores[c].pc.slot, Apply(st, ByLoop(c, ReadState));
    assert AccountedFor(st, s) && SlotOk(st, s);
    if st.slots[s].home == c {
      forall d | 0 <= d < |st.cores| && d != c ensures !Holds(st', d, s) { NobodyElse(st, c, d); }
    } else if d :| 0 <= d < |st.cores| && ActsOn(st.cores[d], s) {
      assert Holds(st', d, s);
    } else {
      assert Holds(st', st.slots[s].home, s);
    }
  }

  /** The second race is exact: a timer queues the task it wakes away from its home core if and
      only if the core of the timer is no longer the home of the task. */
  lemma TimerMisplacesIff(st: State, c: nat, e: Ref)
    requires Inv(st) && Enabled(st, TimerWake(c, e))
    ensures var st' := Apply(st, TimerWake(c, e));
      && e.0 in Load(st'.cores[c].queue, st'.slots[e.0].priority)
      && ((exists d, l :: 0 <= d < |st'.cores| && 0 <= l < LEVELS && e.0 in Load(st'.cores[d].queue, l)
                          && d != st'.slots[e.0].home) <==> st.slots[e.0].home != c)
  {
    var s, st' := e.0, Apply(st, TimerWake(c, e));
    assert SlotOk(st, s);
    assert s in Load(st'.cores[c].queue, st'.slots[s].priority);
    forall d, l | 0 <= d < |st'.cores| && 0 <= l < LEVELS && d != c ensures s !in Load(st'.cores[d].queue, l) {
      assert Load(st.cores[d].queue, l)[s] == if QueuedAt(st, s, d, l) then 1 else 0;
    }
  }

  // ---------------------------------------------------------------- whole runs

  ghost predicate CalmRun(run: seq<State>, acts: seq<Action>) {
    Run(run, acts) && forall i :: 0 <= i < |acts| ==> Enabled(run[i], acts[i]) && Calm(run[i], acts[i])
  }

  lemma {:induction false} CalmRunsKeepInv(run: seq<State>, acts: seq<Action>, i: nat)
    requires CalmRun(run, acts) && i < |run|
    ensures Inv(run[i])
  {
    if i == 0 {
      InitHolds(run[0]);
    } else {
      CalmRunsKeepInv(run, acts, i - 1);
      assert Next(run[i - 1], acts[i - 1], run[i]);
      StepKeepsInv(run[i - 1], acts[i - 1]);
    }
  }

  /** A state some run of calm steps reaches. */
  ghost predicate CalmlyReachable(st: State) {
    exists run, acts, i :: CalmRun(run, acts) && 0 <= i < |run| && run[i] == st
  }

  lemma ReachableIsGood(st: State)
    requires CalmlyReachable(st)
    ensures Inv(st)
  {
    var run, acts, i :| CalmRun(run, acts) && 0 <= i < |run| && run[i] == st;
    CalmRunsKeepInv(run, acts, i);
  }

  /** Core c runs on the kernel stack of the task in slot s. */
  predicate OnStackOf(st: State, c: nat, s: nat) {
    c < |st.cores| && (st.cores[c].pc.Claimed? || st.cores[c].pc.Exec? || st.cores[c].pc.Back?)
    && st.cores[c].pc.slot == s
  }

  /** No task ever executes on two cores, and its slot is never handed to another process
      while it executes. */
  lemma NeverOnTwoCores(st: State, c: nat, d: nat, s: nat)
    requires CalmlyReachable(st)
    requires OnStackOf(st, c, s) && OnStackOf(st, d, s)
    ensures c == d
    ensures s < |st.slots| && st.slots[s].state != Free && st.slots[s].state != Creating
  {
    ReachableIsGood(st);
    assert PcOk(st, c);
  }

  /** A queued task that is still on a CPU is the current task of the core that owns the
      queue, so that core cannot pick it and a thief refuses it. */
  lemma QueuedOnCpuIsCurrentThere(st: State, s: nat, c: nat, l: nat)
    requires CalmlyReachable(st) && c < |st.cores| && l < LEVELS
    requires s in Load(st.cores[c].queue, l) && s < |st.slots| && st.slots[s].onCpu
    ensures OnStackOf(st, c, s) && st.cores[c].current == Some(s)
    ensures !Enabled(st, PickTask(c))
    ensures forall d :: Enabled(st, StealTake(d, c)) ==>
      Steal(st.cores[c].queue, OnCpu(st.slots)).value.0 != s
  {
    ReachableIsGood(st);
    assert QueuedAt(st, s, c, l);
    assert AccountedFor(st, s);
    var d :| 0 <= d < |st.cores| && ActsOn(st.cores[d], s);
    assert PcOk(st, d) && SlotOk(st, s);
    forall k | Enabled(st, StealTake(k, c))
      ensures Steal(st.cores[c].queue, OnCpu(st.slots)).value.0 != s
    {
      var _ := StealRemoves(st.cores[c].queue, OnCpu(st.slots));
    }
  }

  /** A queued task is Ready, in one list only and once, at its own priority on its home core. */
  lemma QueuedExactlyOnce(st: State, s: nat, c: nat, l: nat)
    requires CalmlyReachable(st) && c < |st.cores| && l < LEVELS
    requires s in Load(st.cores[c].queue, l)
    ensures s < |st.slots| && st.slots[s].state == Ready
    ensures st.slots[s].home == c && st.slots[s].priority == l
    ensures Load(st.cores[c].queue, l)[s] == 1
    ensures forall d, k :: 0 <= d < |st.cores| && 0 <= k < LEVELS && s in Load(st.cores[d].queue, k) ==>
      d == c && k == l
  {
    ReachableIsGood(st);
    assert QueuedAt(st, s, c, l);
    assert SlotOk(st, s);
    forall d, k | 0 <= d < |st.cores| && 0 <= k < LEVELS && s in Load(st.cores[d].queue, k)
      ensures d == c && k == l
    {
      assert QueuedAt(st, s, d, k);
    }
  }

  /** The step queues the task in slot s. */
  predicate Pushes(st: State, a: Action, s: nat)
    requires Enabled(st, a)
  {
    match a
    case OnSlot(x, EnqueueWake) => s == x
    case ByTask(c, PushRequeued) => st.cores[c].current == Some(s)
    case ByLoop(c, StealPush) => s == st.cores[c].pc.slot
    case TimerWake(c, e) => s == e.0
    case _ => false
  }

  /** A task that is about to be queued is in no list of any core, and its slot and priority are in
      range. That is what the run queues demand of a push (RunQueue.RunQueues.PushTo). */
  lemma PushedIsNowhere(st: State, a: Action, s: nat)
    requires CalmlyReachable(st) && Enabled(st, a) && Pushes(st, a, s)
    ensures s < |st.slots| && st.slots[s].priority < LEVELS
    ensures forall c, l :: 0 <= c < |st.cores| && 0 <= l < LEVELS ==> s !in Load(st.cores[c].queue, l)
  {
    ReachableIsGood(st);
    assert SlotOk(st, s);
    match a {
      case ByTask(c, _) => assert PcOk(st, c);
      case ByLoop(c, _) => assert PcOk(st, c);
      case _ =>
    }
    forall c, l | 0 <= c < |st.cores| && 0 <= l < LEVELS ensures s !in Load(st.cores[c].queue, l) {
      assert Load(st.cores[c].queue, l)[s] == if QueuedAt(st, s, c, l) then 1 else 0;
    }
  }

  /** The slot has joined the end of its level, and nothing else in the table has moved. */
  predicate JoinsEnd(q: Levels, q': Levels, s: nat, p: nat)
    requires p < LEVELS
  {
    && |q'[p]| == |q[p]| + 1 && q'[p][|q[p]|] == s
    && (forall i :: 0 <= i < |q[p]| ==> q'[p][i] == q[p][i])
    && (forall l :: 0 <= l < LEVELS && l != p ==> q'[l] == q[l])
  }

  lemma PushOnJoins(st: State, c: nat, s: nat, to: Requeue)
    requires c < |st.cores| && s < |st.slots| && st.slots[s].priority < LEVELS
    ensures var e, e' := st.cores[c].queue, PushOn(st, c, s, to).cores[c].queue; var p := st.slots[s].priority;
      if to == ToYielding then JoinsEnd(e.yielding, e'.yielding, s, p) == true && e'.executing == e.executing
      else JoinsEnd(e.executing, e'.executing, s, p) == true && e'.yielding == e.yielding
  {
  }

  /** A task is queued behind the others of its priority: in the yielding epoch if it has chosen
      that, and in the executing one after any wake or steal. */
  lemma PushedLast(st: State, a: Action, s: nat) returns (c: nat, later: bool)
    requires CalmlyReachable(st) && Enabled(st, a) && Pushes(st, a, s)
    ensures s < |st.slots| && st.slots[s].priority < LEVELS && c < |st.cores| == |Apply(st, a).cores|
    ensures c == if a.OnSlot? then st.slots[s].home else a.core
    ensures later <==> a.ByTask? && st.cores[c].pc == Exec(s, Requeueing(ToYielding))
    ensures var e, e' := st.cores[c].queue, Apply(st, a).cores[c].queue; var p := st.slots[s].priority;
      if later then JoinsEnd(e.yielding, e'.yielding, s, p) == true && e'.executing == e.executing
      else JoinsEnd(e.executing, e'.executing, s, p) == true && e'.yielding == e.yielding
    ensures forall d :: 0 <= d < |st.cores| && d != c ==> Apply(st, a).cores[d].queue == st.cores[d].queue
  {
    PushedIsNowhere(st, a, s);
    ReachableIsGood(st);
    c := if a.OnSlot? then st.slots[s].home else a.core;
    later := a.ByTask? && st.cores[c].pc == Exec(s, Requeueing(ToYielding));
    if a.ByTask? { assert PcOk(st, c); }
    PushOnJoins(st, c, s, if later then ToYielding else ToExecuting);
    SameQueue(st, a, s, c, later);
  }

  /** As far as the queues go, such a step is the push alone. */
  lemma SameQueue(st: State, a: Action, s: nat, c: nat, later: bool)
    requires Enabled(st, a) && Pushes(st, a, s) && s < |st.slots| && st.slots[s].priority < LEVELS && c < |st.cores|
    requires c == if a.OnSlot? then st.slots[s].home else a.core
    requires a.ByTask? ==> st.cores[c].pc == Exec(s, Requeueing(if later then ToYielding else ToExecuting))
    requires !a.ByTask? ==> !later
    ensures var st' := Apply(st, a);
      && |st'.cores| == |st.cores|
      && st'.cores[c].queue == PushOn(st, c, s, if later then ToYielding else ToExecuting).cores[c].queue
      && forall d :: 0 <= d < |st.cores| && d != c ==> st'.cores[d].queue == st.cores[d].queue
  {
  }

  /** A Ready task is never lost: it is queued at home, or a waker or a core still has it. */
  lemma ReadyIsNeverLost(st: State, s: nat)
    requires CalmlyReachable(st) && s < |st.slots| && st.slots[s].state == Ready
    ensures var t := st.slots[s];
            || (t.home < |st.cores| && t.priority < LEVELS && s in Load(st.cores[t.home].queue, t.priority))
            || t.place == Woken || t.place == Counted
            || exists c :: 0 <= c < |st.cores| && ActsOn(st.cores[c], s)
  {
    ReachableIsGood(st);
    assert SlotOk(st, s) && AccountedFor(st, s);
    var t := st.slots[s];
    if t.place == InQueue {
      assert QueuedAt(st, s, t.home, t.priority);
      assert Load(st.cores[t.home].queue, t.priority)[s] == 1;
    }
  }

  /** fetch_sub on a counter never meets zero. */
  lemma CountersNeverUnderflow(st: State, c: nat)
    requires CalmlyReachable(st) && c < |st.cores|
    ensures st.cores[c].runnable >= 0
    ensures Enabled(st, ByTask(c, Leave)) ==>
      st.cores[st.slots[st.cores[c].current.value].home].runnable > 0
    ensures Enabled(st, ByLoop(c, StealSubtract)) ==> st.cores[st.cores[c].pc.from].runnable > 0
  {
    ReachableIsGood(st);
    assert PcOk(st, c);
    RunnableAtLeast(st, c, c);
    if Enabled(st, ByLoop(c, StealSubtract)) { RunnableAtLeast(st, st.cores[c].pc.from, c); }
  }

  /** Nobody is in the middle of a wake, a steal, a dispatch or a departure. */
  predicate Quiet(st: State) {
    && (forall s :: 0 <= s < |st.slots| ==> st.slots[s].place == Nowhere || st.slots[s].place == InQueue)
    && (forall c :: 0 <= c < |st.cores| ==>
          st.cores[c].pc.Idle? || (st.cores[c].pc.Exec? && st.cores[c].pc.doing == Plain))
  }

  function ReadyOrRunning(slots: seq<Slot>, n: nat, c: nat): (r: set<nat>)
    requires n <= |slots|
  {
    set s | 0 <= s < n && slots[s].home == c && (slots[s].state == Ready || slots[s].state == Running)
  }

  /** Between operations a counter is the number of Ready or Running tasks of its core, and a
      task is in a run queue if and only if it is Ready. */
  lemma QuietCountersCount(st: State, c: nat, s: nat)
    requires CalmlyReachable(st) && Quiet(st) && c < |st.cores| && s < |st.slots|
    ensures st.cores[c].runnable == |ReadyOrRunning(st.slots, |st.slots|, c)|
    ensures st.slots[s].state == Ready <==>
      exists d, l :: 0 <= d < |st.cores| && 0 <= l < LEVELS && s in Load(st.cores[d].queue, l)
  {
    ReachableIsGood(st);
    QuietSlotSum(st, |st.slots|, c);
    QuietCoreSum(st, |st.cores|, c);
    assert SlotOk(st, s);
    var t := st.slots[s];
    if t.state == Ready {
      assert QueuedAt(st, s, t.home, t.priority);
      assert s in Load(st.cores[t.home].queue, t.priority);
    }
    forall d, l | 0 <= d < |st.cores| && 0 <= l < LEVELS && s in Load(st.cores[d].queue, l)
      ensures t.state == Ready
    {
      assert QueuedAt(st, s, d, l);
    }
  }

  lemma {:induction false} QuietSlotSum(st: State, n: nat, c: nat)
    requires Local(st) && Quiet(st) && n <= |st.slots|
    ensures SlotSum(st.slots, n, c) == |ReadyOrRunning(st.slots, n, c)|
  {
    if n > 0 {
      QuietSlotSum(st, n - 1, c);
      assert SlotOk(st, n - 1);
      var before := ReadyOrRunning(st.slots, n - 1, c);
      assert ReadyOrRunning(st.slots, n, c) == if SlotPart(st.slots[n - 1], c) == 1 then before + {n - 1} else before;
    }
  }

  lemma {:induction false} QuietCoreSum(st: State, n: nat, c: nat)
    requires Quiet(st) && n <= |st.cores|
    ensures CoreSum(st.cores, n, c) == 0
  {
    if n > 0 { QuietCoreSum(st, n - 1, c); }
  }

  /** The debug assertions of the code hold: a picked task is Ready, a task that blocks was
      Running, and a task that requeues itself is on its home core. */
  lemma DebugAssertionsHold(st: State, c: nat)
    requires CalmlyReachable(st) && c < |st.cores| && !st.cores[c].pc.Idle?
    ensures var pc := st.cores[c].pc;
            && pc.slot < |st.slots|
            && var t := st.slots[pc.slot];
               && (pc.Picked? ==> t.state == Ready)
               && (pc.Exec? && (pc.doing == Plain || pc.doing == Checked) ==> t.state == Running)
               && (pc.Exec? ==> t.home == c && st.cores[c].current == Some(pc.slot))
  {
    ReachableIsGood(st);
    assert PcOk(st, c);
  }
}
