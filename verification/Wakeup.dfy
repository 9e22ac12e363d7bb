/** Waiting and waking split into single atomic operations: wait queues, wake_all, kills and
    timed sleep (kernel/src/process/wait.rs and request_kill in kernel/src/process/task.rs).
    Any number of tasks, wakers and killers, interleaved in any way. */
module Wakeup {

  datatype TaskState = Running | Blocked | Ready

  /** Where a task stands in block_current_task_until_event or sleep_current_task_ms. */
  datatype TaskPc =
    | Work             // outside both calls
    | Top              // in the wait loop, about to evaluate the condition
    | TopKill          // condition was false, about to read the kill flag
    | Adding           // about to queue itself and block
    | Recheck          // blocked, about to evaluate the condition again
    | RecheckKill      // condition was false again
    | Removing         // recheck succeeded, about to leave the list
    | SelfWaking
    | SleepTop         // in the sleep loop, about to read the clock
    | SleepTopKill     // the time has not come, about to read the kill flag
    | SleepAdding      // read "no kill", about to block on a timer
    | Switching        // about to switch to the scheduler
    | Off              // off the CPU

  /** cond is what the task waits for, due that the end of its sleep has come. */
  datatype Task = Task(pc: TaskPc, state: TaskState, cond: bool, kill: bool, sleeping: bool, due: bool)

  /** wake_all copies the list under its lock, then wakes the copied tasks one by one. */
  datatype Waker = Resting | Announced | Waking(rest: multiset<nat>)
  datatype Killer = Harmless | Marked(victim: nat)

  datatype State = State(
    tasks: seq<Task>,
    wakers: seq<Waker>,
    killers: seq<Killer>,
    list: multiset<nat>,
    timers: set<nat>)

  const MAX_TASKS: nat := 64

  datatype TaskOp =
    | BeginWait | EvalCond | EvalKill | Block | EvalCondAgain | EvalKillAgain | Remove | SelfWake
    | BeginSleep | ReadClock | SleepEvalKill | SleepBlock
    | SwitchOut | Dispatch

  datatype Action =
    | ByTask(task: nat, op: TaskOp)
    | MakeTrue(waker: nat, affected: set<nat>)   // the event happens
    | MakeFalse(affected: set<nat>)              // the event is consumed
    | CopyList(waker: nat)
    | WakeOne(waker: nat, woken: nat)
    | Finish(waker: nat)
    | Mark(killer: nat, task: nat)
    | KillWake(killer: nat)
    | TimePasses(task: nat)                      // the end of its sleep comes
    | TimerFires(task: nat)

  predicate TaskOpEnabled(st: State, t: nat, op: TaskOp) {
    && t < |st.tasks|
    && var x := st.tasks[t];
       match op
       case BeginWait => x.pc == Work
       case EvalCond => x.pc == Top
       case EvalKill => x.pc == TopKill
       case Block => x.pc == Adding
       case EvalCondAgain => x.pc == Recheck
       case EvalKillAgain => x.pc == RecheckKill
       case Remove => x.pc == Removing
       case SelfWake => x.pc == SelfWaking
       case BeginSleep => x.pc == Work
       case ReadClock => x.pc == SleepTop
       case SleepEvalKill => x.pc == SleepTopKill
       case SleepBlock => x.pc == SleepAdding
       case SwitchOut => x.pc == Switching
       case Dispatch => x.pc == Off && x.state == Ready
  }

  predicate Enabled(st: State, a: Action) {
    match a
    case ByTask(t, op) => TaskOpEnabled(st, t, op)
    case MakeTrue(w, _) => w < |st.wakers| && st.wakers[w].Resting?
    case MakeFalse(_) => true
    case CopyList(w) => w < |st.wakers| && st.wakers[w].Announced?
    case WakeOne(w, t) => w < |st.wakers| && st.wakers[w].Waking? && t in st.wakers[w].rest && t < |st.tasks|
    case Finish(w) => w < |st.wakers| && st.wakers[w].Waking? && st.wakers[w].rest == multiset{}
    case Mark(k, t) => k < |st.killers| && st.killers[k].Harmless? && t < |st.tasks|
    case KillWake(k) => k < |st.killers| && st.killers[k].Marked? && st.killers[k].victim < |st.tasks|
    case TimePasses(t) => t < |st.tasks|
    case TimerFires(t) => t < |st.tasks| && t in st.timers
  }

  /** The compare-and-swap in wake_task. */
  function Woken(x: Task): Task {
    if x.state == Blocked then x.(state := Ready) else x
  }

  /** A full list first drops the entries of tasks that are not Blocked. */
  ghost function Room(st: State): multiset<nat> {
    if |st.list| < MAX_TASKS then st.list else Purged(st)
  }

  ghost function Purged(st: State): (r: multiset<nat>)
    ensures forall t: nat :: r[t] == if t < |st.tasks| && st.tasks[t].state == Blocked then st.list[t] else 0
  {
    PurgeFrom(st, st.list)
  }

  ghost function PurgeFrom(st: State, m: multiset<nat>): (r: multiset<nat>)
    ensures forall t: nat :: r[t] == if t < |st.tasks| && st.tasks[t].state == Blocked then m[t] else 0
    decreases |m|
  {
    if m == multiset{} then m
    else
      var t :| t in m;
      var rest := PurgeFrom(st, m[t := 0]);
      if t < |st.tasks| && st.tasks[t].state == Blocked then rest[t := m[t]] else rest
  }

  function SetTask(st: State, t: nat, x: Task): State
    requires t < |st.tasks|
  {
    st.(tasks := st.tasks[t := x])
  }

  ghost function ApplyTaskOp(st: State, t: nat, op: TaskOp): State
    requires TaskOpEnabled(st, t, op)
  {
    var x := st.tasks[t];
    match op
    case BeginWait => SetTask(st, t, x.(pc := Top))
    case EvalCond => SetTask(st, t, x.(pc := if x.cond then Work else TopKill))
    case EvalKill => SetTask(st, t, x.(pc := if x.kill then Work else Adding))
    case Block => SetTask(st, t, x.(pc := Recheck, state := Blocked)).(list := Room(st) + multiset{t})
    case EvalCondAgain => SetTask(st, t, x.(pc := if x.cond then Removing else RecheckKill))
    case EvalKillAgain => SetTask(st, t, x.(pc := if x.kill then Removing else Switching))
    case Remove => SetTask(st, t, x.(pc := SelfWaking)).(list := st.list - multiset{t})
    case SelfWake => SetTask(st, t, Woken(x).(pc := Switching))
    case BeginSleep => SetTask(st, t, x.(pc := SleepTop, due := false))
    case ReadClock => SetTask(st, t, x.(pc := if x.due then Work else SleepTopKill))
    case SleepEvalKill => SetTask(st, t, x.(pc := if x.kill then Work else SleepAdding))
    case SleepBlock => SetTask(st, t, x.(pc := Switching, state := Blocked, sleeping := true))
                       .(timers := st.timers + {t})
    case SwitchOut => SetTask(st, t, x.(pc := Off))
    case Dispatch => SetTask(st, t, x.(pc := if x.sleeping then SleepTop else Top, state := Running, sleeping := false))
  }

  function SetCond(tasks: seq<Task>, affected: set<nat>, value: bool): (r: seq<Task>)
    ensures |r| == |tasks|
    ensures forall t :: 0 <= t < |r| ==> r[t] == if t in affected then tasks[t].(cond := value) else tasks[t]
  {
    seq(|tasks|, t requires 0 <= t < |tasks| => if t in affected then tasks[t].(cond := value) else tasks[t])
  }

  ghost function Apply(st: State, a: Action): State
    requires Enabled(st, a)
  {
    match a
    case ByTask(t, op) => ApplyTaskOp(st, t, op)
    case MakeTrue(w, s) => st.(tasks := SetCond(st.tasks, s, true), wakers := st.wakers[w := Announced])
    case MakeFalse(s) => st.(tasks := SetCond(st.tasks, s, false))
    case CopyList(w) => st.(wakers := st.wakers[w := Waking(st.list)], list := multiset{})
    case WakeOne(w, t) =>
      SetTask(st, t, Woken(st.tasks[t])).(wakers := st.wakers[w := Waking(st.wakers[w].rest - multiset{t})])
    case Finish(w) => st.(wakers := st.wakers[w := Resting])
    case Mark(k, t) =>
      SetTask(st, t, st.tasks[t].(kill := true)).(killers := st.killers[k := Marked(t)])
    case KillWake(k) =>
      var t := st.killers[k].victim;
      SetTask(st, t, Woken(st.tasks[t])).(killers := st.killers[k := Harmless])
    case TimePasses(t) => SetTask(st, t, st.tasks[t].(due := true))
    case TimerFires(t) => SetTask(st, t, Woken(st.tasks[t])).(timers := st.timers - {t})
  }

  predicate Init(st: State) {
    && (forall t :: 0 <= t < |st.tasks| ==>
          st.tasks[t].pc == Work && st.tasks[t].state == Running && !st.tasks[t].sleeping)
    && (forall w :: 0 <= w < |st.wakers| ==> st.wakers[w].Resting?)
    && (forall k :: 0 <= k < |st.killers| ==> st.killers[k].Harmless?)
    && st.list == multiset{} && st.timers == {}
  }

  // ---------------------------------------------------------------- who owes a wake

  predicate Awake(pc: TaskPc) {
    || pc == Work || pc == Top || pc == TopKill || pc == Adding
    || pc == SleepTop || pc == SleepTopKill || pc == SleepAdding
  }

  /** Waker w has copied task t and not reached it yet. */
  predicate Carries(w: Waker, t: nat) {
    w.Waking? && t in w.rest
  }

  ghost predicate SomeoneCarries(st: State, t: nat) {
    exists w :: 0 <= w < |st.wakers| && Carries(st.wakers[w], t)
  }

  ghost predicate SomeoneAnnounced(st: State) {
    exists w :: 0 <= w < |st.wakers| && st.wakers[w].Announced?
  }

  ghost predicate SomeoneKills(st: State, t: nat) {
    exists k :: 0 <= k < |st.killers| && st.killers[k] == Marked(t)
  }

  /** Blocked on a wait queue, after the second look at the condition. */
  predicate Committed(x: Task) {
    x.state == Blocked && !x.sleeping && (x.pc == RecheckKill || x.pc == Switching || x.pc == Off)
  }

  ghost predicate TaskOk(st: State, t: nat)
    requires t < |st.tasks|
  {
    var x := st.tasks[t];
    && (x.state == Running <==> Awake(x.pc))
    && (x.sleeping ==> x.pc == Switching || x.pc == Off)
    && (x.sleeping && x.state == Blocked ==> t in st.timers)
    // a task blocked on a wait queue is on the list, or in a copy of it
    && (x.state == Blocked && !x.sleeping && x.pc != SelfWaking ==> t in st.list || SomeoneCarries(st, t))
    // and if its condition came true after it looked, the list still has to be copied
    && (Committed(x) && x.cond ==> SomeoneAnnounced(st) || SomeoneCarries(st, t))
    && (Committed(x) && x.pc != RecheckKill && x.kill ==> SomeoneKills(st, t))
  }

  ghost predicate Inv(st: State) {
    forall t :: 0 <= t < |st.tasks| ==> TaskOk(st, t)
  }

  /** Every waker stays as it is, except possibly w. */
  ghost predicate SameWakersBut(st: State, st': State, w: nat) {
    |st'.wakers| == |st.wakers| && forall v :: 0 <= v < |st.wakers| && v != w ==> st'.wakers[v] == st.wakers[v]
  }

  lemma CarriersStay(st: State, st': State, w: nat, t: nat)
    requires SameWakersBut(st, st', w)
    requires w < |st.wakers| && Carries(st.wakers[w], t) ==> Carries(st'.wakers[w], t)
    ensures SomeoneCarries(st, t) ==> SomeoneCarries(st', t)
  {
    if SomeoneCarries(st, t) {
      var v :| 0 <= v < |st.wakers| && Carries(st.wakers[v], t);
      assert Carries(st'.wakers[v], t);
    }
  }

  lemma AnnouncersStay(st: State, st': State, w: nat)
    requires SameWakersBut(st, st', w)
    requires w < |st.wakers| && st.wakers[w].Announced? ==> st'.wakers[w].Announced?
    ensures SomeoneAnnounced(st) ==> SomeoneAnnounced(st')
  {
    if SomeoneAnnounced(st) {
      var v :| 0 <= v < |st.wakers| && st.wakers[v].Announced?;
      assert st'.wakers[v].Announced?;
    }
  }

  lemma KillersStay(st: State, st': State, k: nat, t: nat)
    requires |st'.killers| == |st.killers|
    requires forall j :: 0 <= j < |st.killers| && j != k ==> st'.killers[j] == st.killers[j]
    requires k < |st.killers| && st.killers[k] == Marked(t) ==> st'.killers[k] == Marked(t)
    ensures SomeoneKills(st, t) ==> SomeoneKills(st', t)
  {
    if SomeoneKills(st, t) {
      var j :| 0 <= j < |st.killers| && st.killers[j] == Marked(t);
      assert st'.killers[j] == Marked(t);
    }
  }

  lemma TaskOpKeepsInv(st: State, t: nat, op: TaskOp)
    requires Inv(st) && TaskOpEnabled(st, t, op)
    ensures Inv(ApplyTaskOp(st, t, op))
  {
    var st' := ApplyTaskOp(st, t, op);
    forall u | 0 <= u < |st'.tasks| ensures TaskOk(st', u) {
      if u == t { OwnOpKeepsTask(st, t, op); } else { OtherOpKeepsTask(st, t, op, u); }
    }
  }

  lemma OwnOpKeepsTask(st: State, t: nat, op: TaskOp)
    requires Inv(st) && TaskOpEnabled(st, t, op)
    ensures TaskOk(ApplyTaskOp(st, t, op), t)
  {
    var st' := ApplyTaskOp(st, t, op);
    assert TaskOk(st, t);
    CarriersStay(st, st', |st.wakers|, t);
    AnnouncersStay(st, st', |st.wakers|);
    KillersStay(st, st', |st.killers|, t);
  }

  lemma OtherOpKeepsTask(st: State, t: nat, op: TaskOp, u: nat)
    requires Inv(st) && TaskOpEnabled(st, t, op) && u < |st.tasks| && u != t
    ensures TaskOk(ApplyTaskOp(st, t, op), u)
  {
    var st' := ApplyTaskOp(st, t, op);
    assert TaskOk(st, u);
    CarriersStay(st, st', |st.wakers|, u);
    AnnouncersStay(st, st', |st.wakers|);
    KillersStay(st, st', |st.killers|, u);
  }

  lemma EventKeepsInv(st: State, a: Action)
    requires Inv(st) && Enabled(st, a) && (a.MakeTrue? || a.MakeFalse? || a.Finish?)
    ensures Inv(Apply(st, a))
  {
    var st' := Apply(st, a);
    var w := if a.MakeFalse? then |st.wakers| else a.waker;
    forall u | 0 <= u < |st'.tasks| ensures TaskOk(st', u) {
      assert TaskOk(st, u);
      CarriersStay(st, st', w, u);
      AnnouncersStay(st, st', w);
      KillersStay(st, st', |st.killers|, u);
      if a.MakeTrue? { assert st'.wakers[w].Announced?; }
    }
  }

  lemma CopyKeepsInv(st: State, w: nat)
    requires Inv(st) && Enabled(st, CopyList(w))
    ensures Inv(Apply(st, CopyList(w)))
  {
    var st' := Apply(st, CopyList(w));
    forall u | 0 <= u < |st'.tasks| ensures TaskOk(st', u) {
      assert TaskOk(st, u);
      CarriersStay(st, st', w, u);
      KillersStay(st, st', |st.killers|, u);
      if u in st.list { assert Carries(st'.wakers[w], u); }
    }
  }

  lemma WakeOneKeepsInv(st: State, w: nat, t: nat)
    requires Inv(st) && Enabled(st, WakeOne(w, t))
    ensures Inv(Apply(st, WakeOne(w, t)))
  {
    var st' := Apply(st, WakeOne(w, t));
    forall u | 0 <= u < |st'.tasks| ensures TaskOk(st', u) {
      assert TaskOk(st, u);
      if u != t { CarriersStay(st, st', w, u); }
      AnnouncersStay(st, st', w);
      KillersStay(st, st', |st.killers|, u);
    }
  }

  lemma KillKeepsInv(st: State, a: Action)
    requires Inv(st) && Enabled(st, a) && (a.Mark? || a.KillWake? || a.TimePasses? || a.TimerFires?)
    ensures Inv(Apply(st, a))
  {
    var st' := Apply(st, a);
    var k := if a.TimePasses? || a.TimerFires? then |st.killers| else a.killer;
    var t := if a.KillWake? then st.killers[k].victim else a.task;
    forall u | 0 <= u < |st'.tasks| ensures TaskOk(st', u) {
      assert TaskOk(st, u);
      CarriersStay(st, st', |st.wakers|, u);
      AnnouncersStay(st, st', |st.wakers|);
      if u != t {
        KillersStay(st, st', k, u);
      } else if a.Mark? {
        assert st'.killers[k] == Marked(t);
      } else if !a.KillWake? {
        KillersStay(st, st', k, u);
      }
    }
  }

  lemma StepKeepsInv(st: State, a: Action)
    requires Inv(st) && Enabled(st, a)
    ensures Inv(Apply(st, a))
  {
    match a
    case ByTask(t, op) => TaskOpKeepsInv(st, t, op);
    case MakeTrue(_, _) => EventKeepsInv(st, a);
    case MakeFalse(_) => EventKeepsInv(st, a);
    case Finish(_) => EventKeepsInv(st, a);
    case CopyList(w) => CopyKeepsInv(st, w);
    case WakeOne(w, t) => WakeOneKeepsInv(st, w, t);
    case _ => KillKeepsInv(st, a);
  }

  ghost predicate Next(st: State, a: Action, st': State) {
    Enabled(st, a) && st' == Apply(st, a)
  }

  ghost predicate Run(run: seq<State>, acts: seq<Action>) {
    && |run| == |acts| + 1 && Init(run[0])
    && forall i :: 0 <= i < |acts| ==> Next(run[i], acts[i], run[i + 1])
  }

  lemma {:induction false} RunsKeepInv(run: seq<State>, acts: seq<Action>, i: nat)
    requires Run(run, acts) && i < |run|
    ensures Inv(run[i])
  {
    if i > 0 {
      RunsKeepInv(run, acts, i - 1);
      assert Next(run[i - 1], acts[i - 1], run[i]);
      StepKeepsInv(run[i - 1], acts[i - 1]);
    }
  }

  /** Who changes the list: a task that blocks puts itself on it, after stale entries have gone if it is
      full; one whose second look was right takes itself off; and wake_all takes it whole. */
  lemma ListChanges(st: State, a: Action, u: nat)
    requires Enabled(st, a)
    ensures Apply(st, a).list[u] ==
      if a.CopyList? then 0
      else if a == ByTask(u, Remove) then (if st.list[u] > 0 then st.list[u] - 1 else 0)
      else if a.ByTask? && a.op == Block then
        (if |st.list| < MAX_TASKS || (u < |st.tasks| && st.tasks[u].state == Blocked) then st.list[u] else 0)
        + (if a.task == u then 1 else 0)
      else st.list[u]
  {
    if a.ByTask? { OwnListChanges(st, a.task, a.op, u); }
  }

  lemma OwnListChanges(st: State, t: nat, op: TaskOp, u: nat)
    requires TaskOpEnabled(st, t, op)
    ensures ApplyTaskOp(st, t, op).list[u] ==
      if op == Remove && t == u then (if st.list[u] > 0 then st.list[u] - 1 else 0)
      else if op == Block then
        (if |st.list| < MAX_TASKS || (u < |st.tasks| && st.tasks[u].state == Blocked) then st.list[u] else 0)
        + (if t == u then 1 else 0)
      else st.list[u]
  {
  }

  /** Someone who has not finished will still wake task t. */
  ghost predicate WillBeWoken(st: State, t: nat) {
    || (SomeoneAnnounced(st) && t in st.list)
    || SomeoneCarries(st, t)
    || SomeoneKills(st, t)
  }

  /** No lost wakeup: at every point of every run, a task that is blocked past its second look
      while its condition holds or its kill flag is set has an unfinished waker or killer. */
  lemma NoLostWakeup(run: seq<State>, acts: seq<Action>, i: nat, t: nat)
    requires Run(run, acts) && i < |run| && t < |run[i].tasks|
    requires var x := run[i].tasks[t];
             x.state == Blocked && !x.sleeping && (x.pc == Switching || x.pc == Off) && (x.cond || x.kill)
    ensures WillBeWoken(run[i], t)
  {
    RunsKeepInv(run, acts, i);
    assert TaskOk(run[i], t);
  }

  /** The debt is real: the debtor's own next steps make the task Ready. */
  lemma DebtorsWake(st: State, t: nat) returns (acts: seq<Action>)
    requires t < |st.tasks| && st.tasks[t].state == Blocked && WillBeWoken(st, t)
    ensures 1 <= |acts| <= 2 && Enabled(st, acts[0])
    ensures |acts| == 2 ==> Enabled(Apply(st, acts[0]), acts[1])
    ensures forall a :: a in acts ==> a.CopyList? || a.WakeOne? || a.KillWake?
    ensures var end := if |acts| == 1 then Apply(st, acts[0]) else Apply(Apply(st, acts[0]), acts[1]);
            t < |end.tasks| && end.tasks[t] == st.tasks[t].(state := Ready)
  {
    if SomeoneCarries(st, t) {
      var w :| 0 <= w < |st.wakers| && Carries(st.wakers[w], t);
      acts := [WakeOne(w, t)];
    } else if SomeoneKills(st, t) {
      var k :| 0 <= k < |st.killers| && st.killers[k] == Marked(t);
      acts := [KillWake(k)];
    } else {
      var w :| 0 <= w < |st.wakers| && st.wakers[w].Announced?;
      acts := [CopyList(w), WakeOne(w, t)];
    }
  }

  // ---------------------------------------------------------------- when a call returns

  /** The task is in the wait call. */
  predicate Waits(x: Task) {
    && x.pc != Work && x.pc != SleepTop && x.pc != SleepTopKill && x.pc != SleepAdding
    && !(x.sleeping && (x.pc == Switching || x.pc == Off))
  }

  lemma OtherTaskLeavesPc(st: State, u: nat, op: TaskOp, t: nat)
    requires TaskOpEnabled(st, u, op) && t < |st.tasks| && u != t
    ensures var st' := ApplyTaskOp(st, u, op); t < |st'.tasks| && st'.tasks[t] == st.tasks[t]
  {
  }

  /** Nobody else moves a task on. */
  lemma OthersLeavePc(st: State, a: Action, t: nat)
    requires Enabled(st, a) && t < |st.tasks| && !(a.ByTask? && a.task == t)
    ensures var st' := Apply(st, a);
      t < |st'.tasks| && st'.tasks[t].pc == st.tasks[t].pc && st'.tasks[t].sleeping == st.tasks[t].sleeping
  {
    if a.ByTask? { OtherTaskLeavesPc(st, a.task, a.op, t); }
  }

  lemma OwnStepWaits(st: State, t: nat, op: TaskOp)
    requires TaskOpEnabled(st, t, op) && TaskOk(st, t) && Waits(st.tasks[t])
    ensures var x, st' := st.tasks[t], Apply(st, ByTask(t, op));
      && t < |st'.tasks| && (st'.tasks[t].pc == Work <==> (op == EvalCond && x.cond) || (op == EvalKill && x.kill))
      && (st'.tasks[t].pc == Work || Waits(st'.tasks[t]))
  {
  }

  lemma OwnStepSleeps(st: State, t: nat, op: TaskOp)
    requires TaskOpEnabled(st, t, op) && TaskOk(st, t) && Sleeps(st.tasks[t])
    ensures var x, st' := st.tasks[t], Apply(st, ByTask(t, op));
      && t < |st'.tasks|
      && (st'.tasks[t].pc == Work <==> (op == ReadClock && x.due) || (op == SleepEvalKill && x.kill))
      && (st'.tasks[t].pc == Work || Sleeps(st'.tasks[t]))
  {
  }

  /** A wait returns only in a step that finds the condition or the kill flag set, and a look at
      the condition at the top of the loop returns if it is. */
  lemma WaitReturnsIff(run: seq<State>, acts: seq<Action>, i: nat, t: nat)
    requires Run(run, acts) && i < |acts| && t < |run[i].tasks| && Waits(run[i].tasks[t])
    ensures t < |run[i + 1].tasks|
    ensures run[i + 1].tasks[t].pc == Work <==>
      || (acts[i] == ByTask(t, EvalCond) && run[i].tasks[t].cond)
      || (acts[i] == ByTask(t, EvalKill) && run[i].tasks[t].kill)
    ensures run[i + 1].tasks[t].pc == Work || Waits(run[i + 1].tasks[t])
  {
    assert Next(run[i], acts[i], run[i + 1]);
    RunsKeepInv(run, acts, i);
    assert TaskOk(run[i], t);
    if acts[i].ByTask? && acts[i].task == t {
      OwnStepWaits(run[i], t, acts[i].op);
    } else {
      OthersLeavePc(run[i], acts[i], t);
    }
  }

  /** The task is in the sleep call. */
  predicate Sleeps(x: Task) {
    x.pc == SleepTop || x.pc == SleepTopKill || x.pc == SleepAdding
    || (x.sleeping && (x.pc == Switching || x.pc == Off))
  }

  /** A sleep returns only in a step that finds its time over or the kill flag set. */
  lemma SleepReturnsIff(run: seq<State>, acts: seq<Action>, i: nat, t: nat)
    requires Run(run, acts) && i < |acts| && t < |run[i].tasks| && Sleeps(run[i].tasks[t])
    ensures t < |run[i + 1].tasks|
    ensures run[i + 1].tasks[t].pc == Work <==>
      || (acts[i] == ByTask(t, ReadClock) && run[i].tasks[t].due)
      || (acts[i] == ByTask(t, SleepEvalKill) && run[i].tasks[t].kill)
    ensures run[i + 1].tasks[t].pc == Work || Sleeps(run[i + 1].tasks[t])
  {
    assert Next(run[i], acts[i], run[i + 1]);
    RunsKeepInv(run, acts, i);
    assert TaskOk(run[i], t);
    if acts[i].ByTask? && acts[i].task == t {
      OwnStepSleeps(run[i], t, acts[i].op);
    } else {
      OthersLeavePc(run[i], acts[i], t);
    }
  }

  /** A sequence of steps from a given state. */
  ghost predicate Path(path: seq<State>, acts: seq<Action>) {
    |path| == |acts| + 1 && forall i :: 0 <= i < |acts| ==> Next(path[i], acts[i], path[i + 1])
  }

  lemma Longer(path: seq<State>, acts: seq<Action>, a: Action) returns (path': seq<State>, acts': seq<Action>)
    requires Path(path, acts) && Enabled(path[|acts|], a)
    ensures Path(path', acts') && path'[0] == path[0] && acts' == acts + [a]
    ensures path'[|acts'|] == Apply(path[|acts|], a)
  {
    path', acts' := path + [Apply(path[|acts|], a)], acts + [a];
    forall i | 0 <= i < |acts'| ensures Next(path'[i], acts'[i], path'[i + 1]) {
      if i < |acts| { assert Next(path[i], acts[i], path[i + 1]); }
    }
  }

  /** A waiting task that has been woken returns by its own next steps, if its condition or its
      kill flag is still set. */
  lemma WokenReturns(st: State, t: nat) returns (path: seq<State>, acts: seq<Action>)
    requires t < |st.tasks| && st.tasks[t].state == Ready && !st.tasks[t].sleeping
    requires (st.tasks[t].pc == Switching || st.tasks[t].pc == Off) && (st.tasks[t].cond || st.tasks[t].kill)
    ensures Path(path, acts) && path[0] == st && |acts| <= 4 && forall a :: a in acts ==> a.ByTask? && a.task == t
    ensures t < |path[|acts|].tasks| && path[|acts|].tasks[t].pc == Work
  {
    path, acts := [st], [];
    if st.tasks[t].pc == Switching { path, acts := Longer(path, acts, ByTask(t, SwitchOut)); }
    path, acts := Longer(path, acts, ByTask(t, Dispatch));
    path, acts := Longer(path, acts, ByTask(t, EvalCond));
    if !st.tasks[t].cond { path, acts := Longer(path, acts, ByTask(t, EvalKill)); }
  }

  /** So a wait whose condition or kill flag is set gets back to its caller: those who owe the
      wake can pay it, and the task does the rest. */
  lemma DebtorsReturn(run: seq<State>, acts0: seq<Action>, i: nat, t: nat)
    returns (path: seq<State>, acts: seq<Action>)
    requires Run(run, acts0) && i < |run| && t < |run[i].tasks|
    requires var x := run[i].tasks[t];
             x.state == Blocked && !x.sleeping && (x.pc == Switching || x.pc == Off) && (x.cond || x.kill)
    ensures Path(path, acts) && path[0] == run[i] && |acts| <= 6
    ensures forall a :: a in acts ==> a.CopyList? || a.WakeOne? || a.KillWake? || (a.ByTask? && a.task == t)
    ensures t < |path[|acts|].tasks| && path[|acts|].tasks[t].pc == Work
  {
    NoLostWakeup(run, acts0, i, t);
    var wakes := DebtorsWake(run[i], t);
    path, acts := Longer([run[i]], [], wakes[0]);
    if |wakes| == 2 { path, acts := Longer(path, acts, wakes[1]); }
    var own, steps := WokenReturns(path[|acts|], t);
    path, acts := Joined(path, acts, own, steps);
  }

  lemma Joined(p: seq<State>, a: seq<Action>, q: seq<State>, b: seq<Action>) returns (r: seq<State>, c: seq<Action>)
    requires Path(p, a) && Path(q, b) && p[|a|] == q[0]
    ensures Path(r, c) && r[0] == p[0] && c == a + b && r[|c|] == q[|b|]
  {
    r, c := p + q[1..], a + b;
    forall i | 0 <= i < |c| ensures Next(r[i], c[i], r[i + 1]) {
      if i < |a| { assert Next(p[i], a[i], p[i + 1]); } else { assert Next(q[i - |a|], b[i - |a|], q[i - |a| + 1]); }
    }
  }

  // ---------------------------------------------------------------- timed sleep

  /** A sleeper always has its timer entry, so it wakes in the end. */
  lemma SleepersHaveTimers(run: seq<State>, acts: seq<Action>, i: nat, t: nat)
    requires Run(run, acts) && i < |run| && t < |run[i].tasks|
    requires run[i].tasks[t].sleeping && run[i].tasks[t].state == Blocked
    ensures t in run[i].timers
  {
    RunsKeepInv(run, acts, i);
    assert TaskOk(run[i], t);
  }

  /** A kill was asked for, nobody is going to wake the sleeper for it. */
  ghost predicate KillLost(st: State, t: nat) {
    t < |st.tasks| && st.tasks[t].sleeping && st.tasks[t].state == Blocked && st.tasks[t].kill && !SomeoneKills(st, t)
  }

  /** The sleep call promises to return when the task is asked to exit. It does not look again
      after it has blocked, and a step loses a kill exactly when the task blocks on the timer
      after a killer has come and gone. */
  lemma SleepLosesKillIff(st: State, a: Action, t: nat)
    requires Inv(st) && Enabled(st, a) && !KillLost(st, t)
    ensures KillLost(Apply(st, a), t) <==>
      a == ByTask(t, SleepBlock) && st.tasks[t].kill && !SomeoneKills(st, t)
  {
    var st' := Apply(st, a);
    var k := if a.Mark? || a.KillWake? then a.killer else |st.killers|;
    if t < |st.tasks| {
      assert TaskOk(st, t);
      if a.Mark? && a.task == t {
        assert st'.killers[k] == Marked(t);
      } else if !(a.KillWake? && st.killers[k].victim == t) {
        KillersStay(st, st', k, t);
      }
      if a == ByTask(t, SleepBlock) { KillersStay(st', st, k, t); }
    }
  }

  function Sleeper(pc: TaskPc, state: TaskState, kill: bool, sleeping: bool, killer: Killer, timers: set<nat>): State {
    State([Task(pc, state, false, kill, sleeping, false)], [], [killer], multiset{}, timers)
  }

  lemma ReadsNoKill() returns (s0: State, s1: State, s2: State, s3: State)
    ensures Init(s0) && s3 == Sleeper(SleepAdding, Running, false, false, Harmless, {})
    ensures Next(s0, ByTask(0, BeginSleep), s1) == true && Next(s1, ByTask(0, ReadClock), s2) == true
    ensures Next(s2, ByTask(0, SleepEvalKill), s3) == true
  {
    s0 := Sleeper(Work, Running, false, false, Harmless, {});
    s1 := Sleeper(SleepTop, Running, false, false, Harmless, {});
    s2 := Sleeper(SleepTopKill, Running, false, false, Harmless, {});
    s3 := Sleeper(SleepAdding, Running, false, false, Harmless, {});
  }

  lemma IsMarked(s3: State) returns (s4: State, s5: State, s6: State)
    requires s3 == Sleeper(SleepAdding, Running, false, false, Harmless, {})
    ensures Next(s3, Mark(0, 0), s4) == true && Next(s4, KillWake(0), s5) == true
    ensures Next(s5, ByTask(0, SleepBlock), s6) == true && KillLost(s6, 0)
  {
    s4 := Sleeper(SleepAdding, Running, true, false, Marked(0), {});
    s5 := Sleeper(SleepAdding, Running, true, false, Harmless, {});
    s6 := Apply(s5, ByTask(0, SleepBlock));
    assert !SomeoneKills(s6, 0);
  }

  /** A run in which that happens: the task reads "no kill", is marked, and then blocks. */
  lemma SleepCanMissAKill() returns (run: seq<State>, acts: seq<Action>)
    ensures Run(run, acts) && KillLost(run[|acts|], 0)
  {
    acts := [ByTask(0, BeginSleep), ByTask(0, ReadClock), ByTask(0, SleepEvalKill), Mark(0, 0), KillWake(0),
             ByTask(0, SleepBlock)];
    var s0, s1, s2, s3 := ReadsNoKill();
    var s4, s5, s6 := IsMarked(s3);
    run := [s0, s1, s2, s3, s4, s5, s6];
  }
}
