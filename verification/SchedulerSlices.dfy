/** Time slices: how long one lasts, and what it decides about the epoch its task goes to. */
module SchedulerSlices {
  import opened Wrappers
  import opened QueueSpec
  import opened Scheduler
  import opened SchedulerSafety

  /** How many timer ticks core c takes in the steps from i to j. */
  function Ticks(acts: seq<Action>, c: nat, i: nat, j: nat): (n: nat)
    requires i <= j <= |acts|
    ensures n <= j - i
    decreases j
  {
    if i == j then 0 else Ticks(acts, c, i, j - 1) + if acts[j - 1] == Tick(c) then 1 else 0
  }

  lemma TakesStep(run: seq<State>, acts: seq<Action>, i: nat)
    requires Run(run, acts) && i < |acts|
    ensures |run| == |acts| + 1 && Next(run[i], acts[i], run[i + 1]) == true
  {
  }

  // ---------------------------------------------------------------- what leaves a core alone

  /** Core c stands where it stood, with the same slice. */
  predicate SameStand(st: State, st': State, c: nat) {
    && c < |st.cores| == |st'.cores| && st'.cores[c].pc == st.cores[c].pc && st'.cores[c].slice == st.cores[c].slice
  }

  predicate SameSlice(st: State, st': State, c: nat) {
    c < |st.cores| == |st'.cores| && st'.cores[c].slice == st.cores[c].slice
  }

  lemma SlotOpElsewhere(st: State, s: nat, op: SlotOp, c: nat)
    requires SlotOpEnabled(st, s, op) && c < |st.cores|
    ensures SameStand(st, ApplySlotOp(st, s, op), c)
  {
  }

  lemma TaskOpElsewhere(st: State, d: nat, op: TaskOp, c: nat)
    requires TaskOpEnabled(st, d, op) && c < |st.cores|
    ensures SameSlice(st, ApplyTaskOp(st, d, op), c) && (d != c ==> SameStand(st, ApplyTaskOp(st, d, op), c))
  {
  }

  lemma LoopOpElsewhere(st: State, d: nat, op: LoopOp, c: nat)
    requires LoopOpEnabled(st, d, op) && c < |st.cores|
    ensures d != c ==> SameStand(st, ApplyLoopOp(st, d, op), c)
    ensures !(d == c && op == Enter) ==> SameSlice(st, ApplyLoopOp(st, d, op), c)
  {
  }

  lemma OtherStepElsewhere(st: State, a: Action, c: nat)
    requires Enabled(st, a) && c < |st.cores| && !a.OnSlot? && !a.ByTask? && !a.ByLoop?
    ensures a != Tick(c) ==> SameSlice(st, Apply(st, a), c) == true
    ensures a != PickTask(c) && !(a.StealTake? && a.core == c) ==>
      c < |Apply(st, a).cores| && Apply(st, a).cores[c].pc == st.cores[c].pc
  {
  }

  /** Only a tick or a dispatch of the core itself changes its slice. */
  lemma SliceKept(st: State, a: Action, c: nat)
    requires Enabled(st, a) && c < |st.cores| && a != Tick(c) && a != ByLoop(c, Enter)
    ensures SameSlice(st, Apply(st, a), c) == true
  {
    match a
    case OnSlot(s, op) => SlotOpElsewhere(st, s, op, c);
    case ByTask(d, op) => TaskOpElsewhere(st, d, op, c);
    case ByLoop(d, op) => LoopOpElsewhere(st, d, op, c);
    case _ => OtherStepElsewhere(st, a, c);
  }

  // ---------------------------------------------------------------- how long a slice lasts

  /** The step puts a task of priority p on core c. */
  predicate Dispatches(st: State, a: Action, c: nat, p: nat) {
    a == ByLoop(c, Enter) && Enabled(st, a) && p == st.slots[st.cores[c].pc.slot].priority
  }

  /** What a step other than a dispatch does to the slice of core c. */
  predicate SliceStep(st: State, a: Action, st': State, c: nat) {
    && |st'.cores| == |st.cores|
    && (c < |st.cores| && a != Tick(c) ==> st'.cores[c].slice == st.cores[c].slice)
    && (c < |st.cores| && a == Tick(c) && st.cores[c].slice > 1 ==> st'.cores[c].slice == st.cores[c].slice - 1)
    && (c < |st.cores| && a == Tick(c) && st.cores[c].slice == 1 ==>
          (st'.cores[c].slice == 0 <==> st.cores[c].runnable > 1))
  }

  lemma OneStep(st: State, a: Action, st': State, c: nat)
    requires Next(st, a, st') && a != ByLoop(c, Enter)
    ensures SliceStep(st, a, st', c) == true
  {
    if c < |st.cores| && a != Tick(c) { SliceKept(st, a, c); } else { CoresStay(st, a); }
  }

  lemma CoresStay(st: State, a: Action)
    requires Enabled(st, a)
    ensures |Apply(st, a).cores| == |st.cores|
  {
  }

  lemma Dispatched(st: State, a: Action, st': State, c: nat, p: nat)
    requires Dispatches(st, a, c, p) && Next(st, a, st')
    ensures c < |st'.cores| && st'.cores[c].slice == p + 1
  {
  }

  /** Step i puts a task of priority p on core c, and until step j nothing else is put there. */
  ghost predicate RunsFrom(run: seq<State>, acts: seq<Action>, c: nat, i: nat, j: nat, p: nat) {
    && i < j <= |acts| && |run| == |acts| + 1 && acts[i] == ByLoop(c, Enter)
    && c < |run[i + 1].cores| && run[i + 1].cores[c].slice == p + 1
    && forall k :: i < k < j ==> acts[k] != ByLoop(c, Enter) && SliceStep(run[k], acts[k], run[k + 1], c)
  }

  lemma IsRunning(run: seq<State>, acts: seq<Action>, c: nat, i: nat, j: nat, p: nat)
    requires Run(run, acts) && i < j <= |acts| && Dispatches(run[i], acts[i], c, p)
    requires forall k :: i < k < j ==> acts[k] != ByLoop(c, Enter)
    ensures RunsFrom(run, acts, c, i, j, p)
  {
    TakesStep(run, acts, i);
    Dispatched(run[i], acts[i], run[i + 1], c, p);
    forall k | i < k < j ensures SliceStep(run[k], acts[k], run[k + 1], c) {
      TakesStep(run, acts, k);
      OneStep(run[k], acts[k], run[k + 1], c);
    }
  }

  lemma {:induction false} SliceCounts(run: seq<State>, acts: seq<Action>, c: nat, i: nat, j: nat, p: nat)
    requires RunsFrom(run, acts, c, i, j, p) && Ticks(acts, c, i, j) <= p
    ensures c < |run[j].cores| && run[j].cores[c].slice == p + 1 - Ticks(acts, c, i, j)
    decreases j
  {
    if j == i + 1 {
      assert Ticks(acts, c, i, i) == 0;
    } else {
      SliceCounts(run, acts, c, i, j - 1, p);
    }
  }

  /** The slice of a task is one tick more than its priority, and loses one with each tick. */
  lemma SliceLasts(run: seq<State>, acts: seq<Action>, c: nat, i: nat, j: nat, p: nat)
    requires Run(run, acts) && i < j <= |acts| && Dispatches(run[i], acts[i], c, p)
    requires forall k :: i < k < j ==> acts[k] != ByLoop(c, Enter)
    requires Ticks(acts, c, i, j) <= p
    ensures c < |run[j].cores| && run[j].cores[c].slice == p + 1 - Ticks(acts, c, i, j)
  {
    IsRunning(run, acts, c, i, j, p);
    SliceCounts(run, acts, c, i, j, p);
  }

  /** The tick after that uses it up, exactly if another task of the core can run. */
  lemma SliceRunsOut(run: seq<State>, acts: seq<Action>, c: nat, i: nat, j: nat, p: nat)
    requires Run(run, acts) && i < j < |acts| && Dispatches(run[i], acts[i], c, p)
    requires forall k :: i < k < j ==> acts[k] != ByLoop(c, Enter)
    requires Ticks(acts, c, i, j) == p && acts[j] == Tick(c)
    ensures c < |run[j].cores| && c < |run[j + 1].cores|
    ensures run[j + 1].cores[c].slice == 0 <==> run[j].cores[c].runnable > 1
  {
    SliceLasts(run, acts, c, i, j, p);
    TakesStep(run, acts, j);
    OneStep(run[j], acts[j], run[j + 1], c);
  }

  // ---------------------------------------------------------------- what it decides

  /** Core c is giving its task away and has chosen an epoch. */
  predicate HasChosen(st: State, c: nat, to: Requeue) {
    && c < |st.cores| && st.cores[c].pc.Exec?
    && (st.cores[c].pc.doing == Chosen(to) || st.cores[c].pc.doing == Requeueing(to))
  }

  lemma ChoiceKept(st: State, a: Action, st': State, c: nat, to: Requeue)
    requires Next(st, a, st') && HasChosen(st, c, to) && a != ByTask(c, PushRequeued)
    ensures HasChosen(st', c, to) == true
  {
    match a
    case OnSlot(s, op) => SlotOpElsewhere(st, s, op, c);
    case ByTask(d, op) => if d != c { TaskOpElsewhere(st, d, op, c); }
    case ByLoop(d, op) => LoopOpElsewhere(st, d, op, c);
    case _ => OtherStepElsewhere(st, a, c);
  }

  ghost predicate KeepsChoice(run: seq<State>, c: nat, to: Requeue, k: nat) {
    k + 1 < |run| && (HasChosen(run[k], c, to) ==> HasChosen(run[k + 1], c, to))
  }

  lemma {:induction false} ChoiceCarries(run: seq<State>, c: nat, to: Requeue, i: nat, j: nat)
    requires i <= j < |run| && HasChosen(run[i], c, to)
    requires forall k :: i <= k < j ==> KeepsChoice(run, c, to, k)
    ensures HasChosen(run[j], c, to)
    decreases j
  {
    if i < j {
      ChoiceCarries(run, c, to, i, j - 1);
      assert KeepsChoice(run, c, to, j - 1);
    }
  }

  lemma ChoiceLasts(run: seq<State>, acts: seq<Action>, c: nat, to: Requeue, i: nat, j: nat)
    requires Run(run, acts) && i <= j < |run| && HasChosen(run[i], c, to)
    requires forall k :: i <= k < j ==> acts[k] != ByTask(c, PushRequeued)
    ensures HasChosen(run[j], c, to)
  {
    forall k | i <= k < j ensures KeepsChoice(run, c, to, k) {
      TakesStep(run, acts, k);
      if HasChosen(run[k], c, to) { ChoiceKept(run[k], acts[k], run[k + 1], c, to); }
    }
    ChoiceCarries(run, c, to, i, j);
  }

  /** In any run, a task that is preempted in step i is queued again by the next push of its core:
      behind its level of the yielding epoch exactly if its slice was used up, and behind its level
      of the executing epoch otherwise. */
  lemma SliceDecides(run: seq<State>, acts: seq<Action>, c: nat, i: nat, j: nat) returns (s: nat)
    requires CalmRun(run, acts) && i < j < |acts|
    requires acts[i] == ByTask(c, ChooseBySlice) && acts[j] == ByTask(c, PushRequeued)
    requires forall k :: i < k < j ==> acts[k] != ByTask(c, PushRequeued)
    ensures c < |run[i].cores| && c < |run[j].cores| == |run[j + 1].cores| && run[j].cores[c].current == Some(s)
    ensures s < |run[j].slots| && run[j].slots[s].priority < LEVELS
    ensures var e, e' := run[j].cores[c].queue, run[j + 1].cores[c].queue; var p := run[j].slots[s].priority;
      if run[i].cores[c].slice == 0 then JoinsEnd(e.yielding, e'.yielding, s, p) && e'.executing == e.executing
      else JoinsEnd(e.executing, e'.executing, s, p) && e'.yielding == e.yielding
  {
    var to := if run[i].cores[c].slice == 0 then ToYielding else ToExecuting;
    TakesStep(run, acts, i);
    ChoiceLasts(run, acts, c, to, i + 1, j);
    TakesStep(run, acts, j);
    s := run[j].cores[c].current.value;
    Calmly(run, acts, j);
    var c', later := PushedLast(run[j], acts[j], s);
    ReachableIsGood(run[j]);
    assert PcOk(run[j], c);
  }

  lemma Calmly(run: seq<State>, acts: seq<Action>, i: nat)
    requires CalmRun(run, acts) && i < |run|
    ensures CalmlyReachable(run[i])
  {
  }
}
