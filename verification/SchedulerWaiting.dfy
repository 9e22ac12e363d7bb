/** Tasks that wait, in the scheduler machine: someone can always find a blocked task to wake it, and a
    task that has been killed does not block again. */
module SchedulerWaiting {
  import opened Wrappers
  import opened QueueSpec
  import opened Scheduler
  import opened SchedulerSafety

  // ---------------------------------------------------------------- who can find a blocked task

  /** A waiter list, or somebody who wakes tasks, has a reference to the task in slot s. */
  ghost predicate Referenced(st: State, s: nat)
    requires s < |st.slots|
  {
    var t := st.slots[s];
    t.pid.Some? && ((s, t.pid.value) in st.held || exists q :: OnList(st, q, (s, t.pid.value)))
  }

  ghost predicate OnList(st: State, q: int, r: Ref) {
    0 <= q < |st.listed| && r in st.listed[q]
  }

  /** The task has taken itself off a list and is about to wake itself. */
  ghost predicate Rouses(st: State, s: nat) {
    exists c :: IsRousing(st, c, s)
  }

  predicate IsRousing(st: State, c: int, s: nat) {
    0 <= c < |st.cores| && st.cores[c].pc == Exec(s, Rousing)
  }

  ghost predicate Findable(st: State, s: nat)
    requires s < |st.slots|
  {
    st.slots[s].state == Blocked ==> st.slots[s].asleep || Referenced(st, s) || Rouses(st, s)
  }

  ghost predicate AllFindable(st: State) {
    forall s :: 0 <= s < |st.slots| ==> Findable(st, s)
  }

  /** The references to slot s are still there, and whoever is about to wake it still is. */
  ghost predicate RefsKept(st: State, st': State, s: nat)
    requires s < |st.slots|
  {
    && |st'.slots| == |st.slots| && st'.slots[s].pid == st.slots[s].pid
    && (Referenced(st, s) ==> Referenced(st', s)) && (Rouses(st, s) ==> Rouses(st', s))
  }

  lemma SameRefs(st: State, st': State, s: nat)
    requires s < |st.slots| && |st'.slots| == |st.slots| && st'.slots[s].pid == st.slots[s].pid
    requires st.held <= st'.held && |st'.listed| == |st.listed|
    requires forall q, r :: 0 <= q < |st.listed| && r in st.listed[q] && r.0 == s ==> r in st'.listed[q]
    requires |st'.cores| == |st.cores|
    requires forall c :: 0 <= c < |st.cores| && st.cores[c].pc == Exec(s, Rousing) ==> st'.cores[c].pc == st.cores[c].pc
    ensures RefsKept(st, st', s) == true
  {
    if q :| st.slots[s].pid.Some? && OnList(st, q, (s, st.slots[s].pid.value)) {
      assert OnList(st', q, (s, st.slots[s].pid.value));
    }
    if c :| IsRousing(st, c, s) { assert IsRousing(st', c, s); }
  }

  lemma SlotOpFinds(st: State, x: nat, op: SlotOp, s: nat)
    requires Inv(st) && SlotOpEnabled(st, x, op) && s < |st.slots| && Findable(st, s)
    ensures s < |ApplySlotOp(st, x, op).slots| && Findable(ApplySlotOp(st, x, op), s)
  {
    var st' := ApplySlotOp(st, x, op);
    assert SlotOk(st, s);
    if st'.slots[s].state == Blocked { SameRefs(st, st', s); }
  }

  lemma TaskOpFinds(st: State, c: nat, op: TaskOp, s: nat)
    requires Inv(st) && TaskOpEnabled(st, c, op) && s < |st.slots| && Findable(st, s)
    ensures s < |ApplyTaskOp(st, c, op).slots| && Findable(ApplyTaskOp(st, c, op), s)
  {
    var st', own := ApplyTaskOp(st, c, op), st.cores[c].pc.slot;
    assert SlotOk(st, s) && PcOk(st, c);
    if s != own {
      SameRefs(st, st', s);
    } else if op.BlockEvent? || op.Unlist? {
      ListOpFinds(st, c, op);
    } else if st'.slots[s].state == Blocked && op != WakeSelf && op != BlockSleep {
      SameRefs(st, st', s);
    }
  }

  lemma ListOpFinds(st: State, c: nat, op: TaskOp)
    requires TaskOpEnabled(st, c, op) && PcOk(st, c) && (op.BlockEvent? || op.Unlist?)
    ensures var s, st' := st.cores[c].pc.slot, ApplyTaskOp(st, c, op); s < |st'.slots| && Findable(st', s)
  {
    var s, st' := st.cores[c].pc.slot, ApplyTaskOp(st, c, op);
    if op.BlockEvent? {
      assert OnList(st', op.queue, (s, st.slots[s].pid.value));
    } else {
      assert IsRousing(st', c, s);
    }
  }

  lemma LoopOpFinds(st: State, c: nat, op: LoopOp, s: nat)
    requires Inv(st) && LoopOpEnabled(st, c, op) && s < |st.slots| && Findable(st, s)
    ensures s < |ApplyLoopOp(st, c, op).slots| && Findable(ApplyLoopOp(st, c, op), s)
  {
    var st' := ApplyLoopOp(st, c, op);
    assert SlotOk(st, s) && PcOk(st, c);
    if st'.slots[s].state == Blocked { SameRefs(st, st', s); }
  }

  lemma CopyFinds(st: State, q: nat, s: nat)
    requires Enabled(st, CopyWaiters(q)) && s < |st.slots| && Findable(st, s)
    ensures Findable(Apply(st, CopyWaiters(q)), s)
  {
    var st' := Apply(st, CopyWaiters(q));
    if st.slots[s].pid.Some? {
      var r := (s, st.slots[s].pid.value);
      if p :| OnList(st, p, r) {
        if p != q { assert OnList(st', p, r); } else { assert r in st'.held; }
      }
    }
    if c :| IsRousing(st, c, s) { assert IsRousing(st', c, s); }
  }

  lemma OtherStepFinds(st: State, a: Action, s: nat)
    requires Inv(st) && Enabled(st, a) && s < |st.slots| && Findable(st, s)
    requires !a.OnSlot? && !a.ByTask? && !a.ByLoop? && !a.CopyWaiters?
    ensures s < |Apply(st, a).slots| && Findable(Apply(st, a), s)
  {
    var st' := Apply(st, a);
    assert SlotOk(st, s);
    if st'.slots[s].state == Blocked && !st'.slots[s].asleep {
      if a.WakeHeld? || a.DropHeld? {
        HeldFinds(st, st', a.ref, s);
      } else {
        SameRefs(st, st', s);
      }
    }
  }

  /** A reference to another task, or to one that is not blocked, is given up. */
  lemma HeldFinds(st: State, st': State, r: Ref, s: nat)
    requires s < |st.slots| == |st'.slots| && st'.slots[s] == st.slots[s] && Findable(st, s)
    requires st'.cores == st.cores && st'.listed == st.listed && st'.held == st.held - multiset{r}
    requires st.slots[s].state == Blocked && st.slots[s].pid.Some? ==> r != (s, st.slots[s].pid.value)
    ensures Findable(st', s)
  {
    if st.slots[s].pid.Some? {
      var own := (s, st.slots[s].pid.value);
      if q :| OnList(st, q, own) { assert OnList(st', q, own); }
      if r != own && own in st.held { assert own in st'.held; }
    }
    if c :| IsRousing(st, c, s) { assert IsRousing(st', c, s); }
  }

  lemma StepFinds(st: State, a: Action)
    requires Inv(st) && Enabled(st, a) && AllFindable(st)
    ensures AllFindable(Apply(st, a))
  {
    SlotsStay(st, a);
    forall s | 0 <= s < |Apply(st, a).slots| ensures Findable(Apply(st, a), s) {
      match a
      case OnSlot(x, op) => SlotOpFinds(st, x, op, s);
      case ByTask(c, op) => TaskOpFinds(st, c, op, s);
      case ByLoop(c, op) => LoopOpFinds(st, c, op, s);
      case CopyWaiters(q) => CopyFinds(st, q, s);
      case _ => OtherStepFinds(st, a, s);
    }
  }

  lemma SlotsStay(st: State, a: Action)
    requires Enabled(st, a)
    ensures |Apply(st, a).slots| == |st.slots|
  {
  }

  lemma {:induction false} RunsFind(run: seq<State>, acts: seq<Action>, i: nat)
    requires CalmRun(run, acts) && i < |run|
    ensures AllFindable(run[i])
  {
    if i > 0 {
      RunsFind(run, acts, i - 1);
      CalmRunsKeepInv(run, acts, i - 1);
      assert Next(run[i - 1], acts[i - 1], run[i]);
      StepFinds(run[i - 1], acts[i - 1]);
    }
  }

  /** A blocked task is never forgotten: it sleeps and its home core has its timer entry, or a waiter
      list or an unfinished waker or killer has a reference to it, or it is about to wake itself. */
  lemma BlockedIsFindable(st: State, s: nat)
    requires CalmlyReachable(st) && s < |st.slots| && st.slots[s].state == Blocked
    ensures var t := st.slots[s];
      && t.pid.Some? && t.home < |st.cores|
      && (|| (t.asleep && (s, t.pid.value) in st.cores[t.home].sleepers)
          || (s, t.pid.value) in st.held
          || (exists q :: 0 <= q < |st.listed| && (s, t.pid.value) in st.listed[q])
          || (exists c :: 0 <= c < |st.cores| && st.cores[c].pc == Exec(s, Rousing)))
  {
    var run, acts, i :| CalmRun(run, acts) && 0 <= i < |run| && run[i] == st;
    RunsFind(run, acts, i);
    CalmRunsKeepInv(run, acts, i);
    assert SlotOk(st, s) && Findable(st, s);
    if Referenced(st, s) {
      if q :| OnList(st, q, (s, st.slots[s].pid.value)) {}
    }
  }

  // ---------------------------------------------------------------- kills

  /** The kill flag of slot s is still set, unless its task has changed. */
  predicate KeepsKill(st: State, st': State, s: nat) {
    && s < |st.slots| == |st'.slots|
    && (st.slots[s].kill && st.slots[s].pid.Some? && st'.slots[s].pid == st.slots[s].pid ==> st'.slots[s].kill)
  }

  lemma SlotOpKeepsKill(st: State, x: nat, op: SlotOp, s: nat)
    requires SlotOpEnabled(st, x, op) && s < |st.slots|
    ensures KeepsKill(st, ApplySlotOp(st, x, op), s)
    ensures op == Kill && x == s ==> ApplySlotOp(st, x, op).slots[s].kill
  {
  }

  lemma TaskOpKeepsKill(st: State, c: nat, op: TaskOp, s: nat)
    requires TaskOpEnabled(st, c, op) && s < |st.slots|
    ensures KeepsKill(st, ApplyTaskOp(st, c, op), s)
  {
  }

  lemma LoopOpKeepsKill(st: State, c: nat, op: LoopOp, s: nat)
    requires LoopOpEnabled(st, c, op) && s < |st.slots|
    ensures KeepsKill(st, ApplyLoopOp(st, c, op), s)
  {
  }

  lemma StepKeepsKill(st: State, a: Action, st': State, s: nat)
    requires Next(st, a, st') && s < |st.slots|
    ensures KeepsKill(st, st', s) == true
    ensures a == OnSlot(s, Kill) ==> st'.slots[s].kill && st'.slots[s].pid.Some?
  {
    match a
    case OnSlot(x, op) => SlotOpKeepsKill(st, x, op, s);
    case ByTask(c, op) => TaskOpKeepsKill(st, c, op, s);
    case ByLoop(c, op) => LoopOpKeepsKill(st, c, op, s);
    case _ =>
  }

  /** Slot s is still that of the same task after step k. */
  predicate SameTask(run: seq<State>, s: nat, k: nat) {
    k + 1 < |run| && s < |run[k].slots| && s < |run[k + 1].slots| && run[k + 1].slots[s].pid == run[k].slots[s].pid
  }

  ghost predicate StaysKilled(run: seq<State>, s: nat, k: nat) {
    k + 1 < |run| && KeepsKill(run[k], run[k + 1], s)
  }

  lemma {:induction false} KilledFrom(run: seq<State>, s: nat, i: nat, j: nat)
    requires i <= j < |run| && s < |run[i].slots| && run[i].slots[s].kill && run[i].slots[s].pid.Some?
    requires forall k :: i <= k < j ==> SameTask(run, s, k)
    requires forall k :: i <= k < j ==> StaysKilled(run, s, k)
    ensures s < |run[j].slots| && run[j].slots[s].kill && run[j].slots[s].pid.Some?
    decreases j
  {
    if i < j {
      KilledFrom(run, s, i, j - 1);
      assert StaysKilled(run, s, j - 1) && SameTask(run, s, j - 1);
    }
  }

  /** Once a task has been killed it passes no check before a wait or a sleep any more, so it blocks at
      most once, if it has passed that check already. */
  lemma KilledIsStopped(run: seq<State>, acts: seq<Action>, s: nat, i: nat, j: nat)
    requires Run(run, acts) && i < j <= |acts| && acts[i] == OnSlot(s, Kill)
    requires forall k :: i <= k < j ==> SameTask(run, s, k)
    ensures s < |run[j].slots| && run[j].slots[s].kill
    ensures forall c :: 0 <= c < |run[j].cores| && run[j].cores[c].current == Some(s) ==>
      !Enabled(run[j], ByTask(c, Check))
  {
    assert SameTask(run, s, i) && Next(run[i], acts[i], run[i + 1]);
    StepKeepsKill(run[i], acts[i], run[i + 1], s);
    forall k | i < k < j ensures StaysKilled(run, s, k) {
      assert SameTask(run, s, k) && Next(run[k], acts[k], run[k + 1]);
      StepKeepsKill(run[k], acts[k], run[k + 1], s);
    }
    KilledFrom(run, s, i + 1, j);
  }
}
