/** The multi-core scheduler as a step relation over any number of cores and task slots.
    A step is one atomic operation, or one body run under a run queue lock, of
    kernel/src/process/scheduler.rs, task.rs and wait.rs. */
module Scheduler {
  import opened Wrappers
  import opened QueueSpec

  datatype TaskState = Free | Creating | Ready | Running | Blocked | Dead

  /** Who holds a Ready task: a waker that has not counted it yet, a waker that has not
      queued it yet, a run queue, or a core that took it out of one. */
  datatype Place = Nowhere | Woken | Counted | InQueue | InCore

  datatype Slot = Slot(
    pid: Option<nat>,
    state: TaskState,
    priority: nat,
    home: nat,
    onCpu: bool,
    kill: bool,
    asleep: bool,   // blocked by the sleep call rather than on a wait queue
    place: Place)

  datatype Requeue = ToExecuting | ToYielding

  const BASE_SLICE_TICKS: nat := 1

  function SliceTicks(priority: nat): nat { (priority + 1) * BASE_SLICE_TICKS }

  /** How far the task on a core is in giving its core away. */
  datatype Doing =
    | Plain                  // user code, or kernel code that does not block
    | Checked                // read "no kill pending", about to block
    | Leaving                // Blocked or Dead, still counted as runnable
    | Chosen(to: Requeue)    // giving the core away, has chosen an epoch
    | Requeueing(to: Requeue) // Ready again, not queued yet
    | Rousing                // has taken itself off a waiter list, about to wake itself
    | Parting                // only the switch to the scheduler stack is left

  datatype Phase = Taken | Rehomed | Subtracted | Added

  /** Where the scheduler loop of a core stands. */
  datatype Pc =
    | Idle
    | Picked(slot: nat)      // popped from the own queue
    | Started(slot: nat)     // state stored Running
    | Claimed(slot: nat)     // on_cpu stored true
    | Exec(slot: nat, doing: Doing)
    | Back(slot: nat)        // on the scheduler stack again
    | Cleared(slot: nat)     // on_cpu stored false
    | Vacant(slot: nat)      // current slot of the core cleared
    | Reaping(slot: nat)     // read state Dead
    | PidCleared(slot: nat)
    | Stealing(slot: nat, from: nat, phase: Phase)

  datatype Core = Core(
    pc: Pc,
    current: Option<nat>,
    runnable: int,
    queue: Epochs,
    sleepers: multiset<Ref>,     // the timer entries
    slice: nat)                  // the ticks left of the time slice

  /** A task as wait lists, timers and wakers name it: its slot and its pid. */
  type Ref = (nat, nat)

  datatype State = State(
    slots: seq<Slot>,
    cores: seq<Core>,
    nextPid: nat,
    listed: seq<multiset<Ref>>,  // the waiter list of each wait queue
    held: multiset<Ref>)         // what unfinished wake_all and request_kill calls still have to wake

  const FREE_SLOT := Slot(None, Free, 0, 0, false, false, false, Nowhere)
  const IDLE_CORE := Core(Idle, None, 0, Epochs(NO_TASKS, NO_TASKS), multiset{}, 0)

  predicate Init(st: State) {
    && |st.cores| > 0
    && (forall s :: 0 <= s < |st.slots| ==> st.slots[s] == FREE_SLOT)
    && (forall c :: 0 <= c < |st.cores| ==> st.cores[c] == IDLE_CORE)
    && (forall q :: 0 <= q < |st.listed| ==> st.listed[q] == multiset{})
    && st.held == multiset{}
  }

  /** Operations of wakers, killers and process creation on one slot. */
  datatype SlotOp =
    | Reserve | Fill(priority: nat, home: nat) | Publish
    | Kill
    | CountWake | EnqueueWake

  /** Operations of the task that runs on a core. */
  datatype TaskOp =
    | Check | Uncheck | BlockEvent(queue: nat) | BlockSleep | Leave
    | Unlist(queue: nat) | WakeSelf
    | ChooseBySlice | ChooseYield | Yield | PushRequeued
    | Die
    | SwitchOut

  /** Operations of the scheduler loop of a core on the slot its pc names. */
  datatype LoopOp =
    | Start | Claim | Enter
    | ClearCpu | ClearCurrent | ReadState | ClearPid | FreeSlot
    | StealHome | StealSubtract | StealAdd | StealPush

  datatype Action =
    | OnSlot(slot: nat, slotOp: SlotOp)
    | ByTask(core: nat, taskOp: TaskOp)
    | ByLoop(core: nat, loopOp: LoopOp)
    | PickTask(core: nat)
    | StealTake(core: nat, from: nat)
    | Tick(core: nat)
    | TimerWake(core: nat, entry: Ref)
    | DropStale(core: nat, entry: Ref)
    | CopyWaiters(queue: nat)
    | WakeHeld(ref: Ref)
    | DropHeld(ref: Ref)

  function OnCpu(slots: seq<Slot>): (r: seq<bool>)
    ensures |r| == |slots|
  {
    seq(|slots|, i requires 0 <= i < |slots| => slots[i].onCpu)
  }

  predicate SlotReady(st: State, s: nat) {
    s < |st.slots| && st.slots[s].home < |st.cores| && st.slots[s].priority < LEVELS
  }

  // When an action can be taken. The guards are the tests the code makes, plus indices
  // being in range. wake_task and the timer compare the pid before they compare and swap the
  // state, and the slot may have changed hands in between; so a wake needs no pid to match.

  predicate SlotOpEnabled(st: State, s: nat, op: SlotOp) {
    && SlotReady(st, s)
    && var t := st.slots[s];
       match op
       case Reserve => t.state == Free
       case Fill(p, h) => t.state == Creating && t.pid.None? && p < LEVELS && h < |st.cores|
       case Publish => t.state == Creating && t.pid.Some?
       case Kill => t.pid.Some?
       case CountWake => t.place == Woken
       case EnqueueWake => t.place == Counted
  }

  /** A running task acts on the current slot of its core, whatever that is. */
  predicate TaskOpEnabled(st: State, c: nat, op: TaskOp) {
    && c < |st.cores| && st.cores[c].pc.Exec?
    && st.cores[c].current.Some? && SlotReady(st, st.cores[c].current.value)
    && var t := st.slots[st.cores[c].current.value];
       var doing := st.cores[c].pc.doing;
       match op
       case Check => doing == Plain && !t.kill
       case Uncheck => doing == Checked
       case BlockEvent(q) => doing == Checked && t.state == Running && t.pid.Some? && q < |st.listed|
       case BlockSleep => doing == Checked && t.state == Running && t.pid.Some?
       case Leave => doing == Leaving
       case Unlist(q) => doing == Parting && t.pid.Some? && q < |st.listed|
       case WakeSelf => doing == Rousing
       case ChooseBySlice => doing == Plain
       case ChooseYield => doing == Plain && st.cores[c].runnable > 1
       case Yield => doing.Chosen? && t.state == Running
       case PushRequeued => doing.Requeueing?
       case Die => doing == Plain
       case SwitchOut => doing == Parting
  }

  predicate LoopOpEnabled(st: State, c: nat, op: LoopOp) {
    && c < |st.cores| && !st.cores[c].pc.Idle? && SlotReady(st, st.cores[c].pc.slot)
    && var pc := st.cores[c].pc;
       match op
       case Start => pc.Picked?
       case Claim => pc.Started?
       case Enter => pc.Claimed?
       case ClearCpu => pc.Back?
       case ClearCurrent => pc.Cleared?
       case ReadState => pc.Vacant?
       case ClearPid => pc.Reaping?
       case FreeSlot => pc.PidCleared?
       case StealHome => pc.Stealing? && pc.phase == Taken
       case StealSubtract => pc.Stealing? && pc.phase == Rehomed && pc.from < |st.cores|
       case StealAdd => pc.Stealing? && pc.phase == Subtracted
       case StealPush => pc.Stealing? && pc.phase == Added
  }

  /** The load of core k is tested before, and may have fallen by the time of the take. */
  predicate StealEnabled(st: State, c: nat, k: nat) {
    && c < |st.cores| && 1 <= k < |st.cores| && k != c
    && st.cores[c].pc.Idle?
    && InRange(st.cores[k].queue.executing, |st.slots|) && InRange(st.cores[k].queue.yielding, |st.slots|)
    && Steal(st.cores[k].queue, OnCpu(st.slots)).Some?
    && Steal(st.cores[k].queue, OnCpu(st.slots)).value.0 < |st.slots|
  }

  predicate Enabled(st: State, a: Action) {
    match a
    case OnSlot(s, op) => SlotOpEnabled(st, s, op)
    case ByTask(c, op) => TaskOpEnabled(st, c, op)
    case ByLoop(c, op) => LoopOpEnabled(st, c, op)
    case PickTask(c) => c < |st.cores| && st.cores[c].pc.Idle? && Pick(st.cores[c].queue).Some?
                        && Pick(st.cores[c].queue).value.0 < |st.slots|
    case StealTake(c, k) => StealEnabled(st, c, k)
    case Tick(c) => c < |st.cores| && st.cores[c].current.Some? && st.cores[c].current.value < |st.slots|
    case TimerWake(c, e) => c < |st.cores| && e in st.cores[c].sleepers && SlotReady(st, e.0)
                            && st.slots[e.0].state == Blocked
    case DropStale(c, e) => c < |st.cores| && e in st.cores[c].sleepers && e.0 < |st.slots|
                            && (st.slots[e.0].pid != Some(e.1) || st.slots[e.0].state != Blocked)
    case CopyWaiters(q) => q < |st.listed|
    case WakeHeld(r) => r in st.held && SlotReady(st, r.0) && st.slots[r.0].state == Blocked
    case DropHeld(r) => r in st.held && r.0 < |st.slots|
                        && (st.slots[r.0].pid != Some(r.1) || st.slots[r.0].state != Blocked)
  }

  // ------------------------------------------------------------ effect of a step

  function SetSlot(st: State, s: nat, t: Slot): State
    requires s < |st.slots|
  {
    st.(slots := st.slots[s := t])
  }

  function SetCore(st: State, c: nat, t: Core): State
    requires c < |st.cores|
  {
    st.(cores := st.cores[c := t])
  }

  function Count(st: State, c: nat, delta: int): State
    requires c < |st.cores|
  {
    SetCore(st, c, st.cores[c].(runnable := st.cores[c].runnable + delta))
  }

  function PushOn(st: State, c: nat, s: nat, to: Requeue): State
    requires c < |st.cores| && s < |st.slots| && st.slots[s].priority < LEVELS
  {
    var q := st.cores[c].queue;
    var q' := match to
              case ToExecuting => q.(executing := Push(q.executing, s, st.slots[s].priority))
              case ToYielding => q.(yielding := Push(q.yielding, s, st.slots[s].priority));
    SetCore(SetSlot(st, s, st.slots[s].(place := InQueue)), c, st.cores[c].(queue := q'))
  }

  function Goto(st: State, c: nat, pc: Pc): State
    requires c < |st.cores|
  {
    SetCore(st, c, st.cores[c].(pc := pc))
  }

  /** Core c stores `t` in slot s and moves on to `pc`. */
  function Do(st: State, c: nat, s: nat, t: Slot, pc: Pc): State
    requires c < |st.cores| && s < |st.slots|
  {
    Goto(SetSlot(st, s, t), c, pc)
  }

  function ApplySlotOp(st: State, s: nat, op: SlotOp): (r: State)
    requires SlotOpEnabled(st, s, op)
  {
    var t := st.slots[s];
    match op
    case Reserve => SetSlot(st, s, t.(state := Creating))
    case Fill(p, h) =>
      SetSlot(st, s, t.(priority := p, home := h, onCpu := false, kill := false,
                        pid := Some(st.nextPid))).(nextPid := st.nextPid + 1)
    case Publish => SetSlot(st, s, t.(state := Ready, place := Woken))
    case Kill => SetSlot(st, s, t.(kill := true)).(held := st.held + multiset{(s, t.pid.value)})
    case CountWake => Count(SetSlot(st, s, t.(place := Counted)), t.home, 1)
    case EnqueueWake => PushOn(st, t.home, s, ToExecuting)
  }

  /** The compare and swap of wake_task has made the task in slot s Ready. */
  function Wakes(st: State, s: nat): State
    requires s < |st.slots|
  {
    SetSlot(st, s, st.slots[s].(state := Ready, place := Woken, asleep := false))
  }

  function Sleeps(st: State, c: nat, s: nat): State
    requires c < |st.cores| && SlotReady(st, s) && st.slots[s].pid.Some? && st.cores[c].pc.Exec?
  {
    var h := st.slots[s].home;
    var blocked := Do(st, c, s, st.slots[s].(state := Blocked, asleep := true), Exec(st.cores[c].pc.slot, Leaving));
    SetCore(blocked, h, blocked.cores[h].(sleepers := blocked.cores[h].sleepers + multiset{(s, st.slots[s].pid.value)}))
  }

  function ApplyTaskOp(st: State, c: nat, op: TaskOp): (r: State)
    requires TaskOpEnabled(st, c, op)
  {
    var self := st.cores[c].pc.slot;
    var s := st.cores[c].current.value;
    var t := st.slots[s];
    match op
    case Check => Goto(st, c, Exec(self, Checked))
    case Uncheck => Goto(st, c, Exec(self, Plain))
    case BlockEvent(q) =>
      Do(st, c, s, t.(state := Blocked), Exec(self, Leaving))
      .(listed := st.listed[q := st.listed[q] + multiset{(s, t.pid.value)}])
    case BlockSleep => Sleeps(st, c, s)
    case Leave => Count(Goto(st, c, Exec(self, Parting)), t.home, -1)
    case Unlist(q) => Goto(st, c, Exec(self, Rousing))
                      .(listed := st.listed[q := st.listed[q] - multiset{(s, t.pid.value)}])
    case WakeSelf => Goto(if t.state == Blocked && !t.asleep then Wakes(st, s) else st, c, Exec(self, Parting))
    case ChooseBySlice => Goto(st, c, Exec(self, Chosen(if st.cores[c].slice == 0 then ToYielding else ToExecuting)))
    case ChooseYield => Goto(st, c, Exec(self, Chosen(ToYielding)))
    case Yield => Do(st, c, s, t.(state := Ready, place := InCore), Exec(self, Requeueing(st.cores[c].pc.doing.to)))
    case PushRequeued => Goto(PushOn(st, c, s, st.cores[c].pc.doing.to), c, Exec(self, Parting))
    case Die => Do(st, c, s, t.(state := Dead), Exec(self, Leaving))
    case SwitchOut => Goto(st, c, Back(self))
  }

  function ApplyLoopOp(st: State, c: nat, op: LoopOp): (r: State)
    requires LoopOpEnabled(st, c, op)
  {
    var core := st.cores[c];
    var s := core.pc.slot;
    var t := st.slots[s];
    match op
    case Start => Do(st, c, s, t.(state := Running, place := Nowhere), Started(s))
    case Claim => Do(st, c, s, t.(onCpu := true), Claimed(s))
    case Enter => SetCore(st, c, core.(pc := Exec(s, Plain), current := Some(s), slice := SliceTicks(t.priority)))
    case ClearCpu => Do(st, c, s, t.(onCpu := false), Cleared(s))
    case ClearCurrent => SetCore(st, c, core.(pc := Vacant(s), current := None))
    case ReadState => Goto(st, c, if t.state == Dead then Reaping(s) else Idle)
    case ClearPid => Do(st, c, s, t.(pid := None), PidCleared(s))
    case FreeSlot => Do(st, c, s, t.(state := Free), Idle)
    case StealHome => Do(st, c, s, t.(home := c), core.pc.(phase := Rehomed))
    case StealSubtract => Count(Goto(st, c, core.pc.(phase := Subtracted)), core.pc.from, -1)
    case StealAdd => Count(Goto(st, c, core.pc.(phase := Added)), c, 1)
    case StealPush => Goto(PushOn(st, c, s, ToExecuting), c, Idle)
  }

  /** A pick by core c from its own queue, or a steal from core k, into pc. */
  function Takes(st: State, c: nat, k: nat, s: nat, q: Epochs, pc: Pc): State
    requires c < |st.cores| && k < |st.cores| && s < |st.slots|
  {
    Goto(SetCore(SetSlot(st, s, st.slots[s].(place := InCore)), k, st.cores[k].(queue := q)), c, pc)
  }

  /** The slice after a timer tick. It is used up only if another task waits. */
  function AfterTick(slice: nat, runnable: int, priority: nat): nat {
    if slice > 1 then slice - 1 else if runnable > 1 then 0 else SliceTicks(priority)
  }

  /** The timer of core c wakes the task of entry e and queues it on core c. */
  function TimerWakes(st: State, c: nat, e: Ref): State
    requires c < |st.cores| && SlotReady(st, e.0)
  {
    var woken := SetSlot(st, e.0, st.slots[e.0].(state := Ready, asleep := false));
    var counted := SetCore(woken, c, st.cores[c].(sleepers := st.cores[c].sleepers - multiset{e},
                                                  runnable := st.cores[c].runnable + 1));
    PushOn(counted, c, e.0, ToExecuting)
  }

  function Apply(st: State, a: Action): (r: State)
    requires Enabled(st, a)
  {
    match a
    case OnSlot(s, op) => ApplySlotOp(st, s, op)
    case ByTask(c, op) => ApplyTaskOp(st, c, op)
    case ByLoop(c, op) => ApplyLoopOp(st, c, op)
    case PickTask(c) =>
      var (s, q) := Pick(st.cores[c].queue).value;
      Takes(st, c, c, s, q, Picked(s))
    case StealTake(c, k) =>
      var (s, q) := Steal(st.cores[k].queue, OnCpu(st.slots)).value;
      Takes(st, c, k, s, q, Stealing(s, k, Taken))
    case Tick(c) =>
      var core := st.cores[c];
      SetCore(st, c, core.(slice := AfterTick(core.slice, core.runnable, st.slots[core.current.value].priority)))
    case TimerWake(c, e) => TimerWakes(st, c, e)
    case DropStale(c, e) => SetCore(st, c, st.cores[c].(sleepers := st.cores[c].sleepers - multiset{e}))
    case CopyWaiters(q) => st.(held := st.held + st.listed[q], listed := st.listed[q := multiset{}])
    case WakeHeld(r) => Wakes(st, r.0).(held := st.held - multiset{r})
    case DropHeld(r) => st.(held := st.held - multiset{r})
  }

  predicate Next(st: State, a: Action, st': State) {
    Enabled(st, a) && st' == Apply(st, a)
  }

  /** Runs of the code: every state follows from the one before by an enabled action. */
  ghost predicate Run(run: seq<State>, acts: seq<Action>) {
    && |run| == |acts| + 1 && Init(run[0])
    && forall i :: 0 <= i < |acts| ==> Next(run[i], acts[i], run[i + 1])
  }

  ghost predicate Reachable(st: State) {
    exists run, acts :: Run(run, acts) && run[|run| - 1] == st
  }

  lemma ReachableNext(st: State, a: Action) returns (st': State)
    requires Reachable(st) && Enabled(st, a)
    ensures st' == Apply(st, a) && Reachable(st')
  {
    st' := Apply(st, a);
    var run, acts :| Run(run, acts) && run[|run| - 1] == st;
    var longer, more := run + [st'], acts + [a];
    forall i | 0 <= i < |more| ensures Next(longer[i], more[i], longer[i + 1]) {
      if i < |acts| {
        assert longer[i] == run[i] && longer[i + 1] == run[i + 1] && more[i] == acts[i];
        assert Next(run[i], acts[i], run[i + 1]);
      }
    }
    assert Run(longer, more);
  }
}
