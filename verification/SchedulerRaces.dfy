/** Two runs of the scheduler in which one task ends up executing on two cores, given by some of
    their states and the steps between them. They show that both conditions in
    SchedulerSafety.Calm are needed. Task 0 has priority 1 and starts on core 1; task 1 only
    makes core 1 look busy enough to steal from. */
module SchedulerRaces {
  import opened Wrappers
  import opened QueueSpec
  import opened Scheduler
  import opened SchedulerSafety

  function Task(pid: Option<nat>, state: TaskState, priority: nat, home: nat,
                onCpu: bool, asleep: bool, place: Place): Slot {
    Slot(pid, state, priority, home, onCpu, false, asleep, place)
  }

  function Busy(pc: Pc, current: Option<nat>, runnable: int, queued: seq<nat>, sleepers: multiset<Ref>,
                slice: nat): Core {
    Core(pc, current, runnable, Epochs(At1(queued), NO_TASKS), sleepers, slice)
  }

  function At1(queued: seq<nat>): Levels {
    [[], queued, [], [], [], [], [], []]
  }

  lemma QueueFacts()
    ensures At1([]) == NO_TASKS && Push(At1([]), 0, 1) == At1([0])
    ensures Pick(Epochs(At1([0]), NO_TASKS)) == Some((0, Epochs(At1([]), NO_TASKS)))
  {
    var t: Levels := At1([0]);
    assert t[1] == [0] && forall l :: 0 <= l < LEVELS && l != 1 ==> t[l] == [];
    var top := Top(t);
    assert top == 1;
    var none: seq<nat> := [];
    assert none + [0] == [0] && Push(At1([]), 0, 1)[1] == [0];
    assert t[1][1..] == none;
    var rest: Levels := t[1 := none];
    assert rest == At1([]) && PopHighest(t) == (0, rest);
    assert Push(At1([]), 0, 1) == At1([0]);
  }

  lemma StealFacts(onCpu: seq<bool>)
    requires |onCpu| == 2 && !onCpu[0]
    ensures InRange(At1([0]), 2) && InRange(NO_TASKS, 2)
    ensures Steal(Epochs(At1([0]), NO_TASKS), onCpu) == Some((0, Epochs(At1([]), NO_TASKS)))
  {
    var t: Levels := At1([0]);
    TakeFacts(t, onCpu);
  }

  lemma TakeFacts(t: Levels, onCpu: seq<bool>)
    requires |onCpu| == 2 && !onCpu[0] && t == At1([0])
    ensures InRange(t, 2) && TakeOffCpu(t, onCpu) == Some((0, At1([])))
  {
    assert forall l :: 0 <= l < LEVELS && l != 1 ==> t[l] == [];
    assert FirstOffCpu(t[1], onCpu) == 0;
    assert StealLevel(t, onCpu, LEVELS - 1) == 1;
    assert Without([0], 0) == [];
    assert t[1 := Without(t[1], 0)] == At1([]);
  }

  lemma EntryFacts()
    ensures var none, one: multiset<Ref> := multiset{}, multiset{(0, 1)};
      none + one == one && one - one == none && none - one == none
  {
  }

  // Both tasks are created and core 1 dispatches task 0.

  const P0: State :=
    State([Task(None, Free, 0, 0, false, false, Nowhere), Task(None, Free, 0, 0, false, false, Nowhere)],
          [IDLE_CORE, IDLE_CORE, IDLE_CORE],
          0, [multiset{}], multiset{})

  const P4: State :=
    State([Task(None, Free, 0, 0, false, false, Nowhere), Task(Some(0), Ready, 0, 1, false, false, Counted)],
          [IDLE_CORE, Busy(Idle, None, 1, [], multiset{}, 0), IDLE_CORE],
          1, [multiset{}], multiset{})

  const P8: State :=
    State([Task(Some(1), Ready, 1, 1, false, false, Counted), Task(Some(0), Ready, 0, 1, false, false, Counted)],
          [IDLE_CORE, Busy(Idle, None, 2, [], multiset{}, 0), IDLE_CORE],
          2, [multiset{}], multiset{})

  const P12: State :=
    State([Task(Some(1), Running, 1, 1, true, false, Nowhere), Task(Some(0), Ready, 0, 1, false, false, Counted)],
          [IDLE_CORE, Busy(Claimed(0), None, 2, [], multiset{}, 0), IDLE_CORE],
          2, [multiset{}], multiset{})

  const P13: State :=
    State([Task(Some(1), Running, 1, 1, true, false, Nowhere), Task(Some(0), Ready, 0, 1, false, false, Counted)],
          [IDLE_CORE, Busy(Exec(0, Plain), Some(0), 2, [], multiset{}, 2), IDLE_CORE],
          2, [multiset{}], multiset{})

  lemma Dispatch0()
    requires Reachable(P0)
    ensures Reachable(P4)
  {
    var s1 := ReachableNext(P0, OnSlot(1, Reserve));
    var s2 := ReachableNext(s1, OnSlot(1, Fill(0, 1)));
    var s3 := ReachableNext(s2, OnSlot(1, Publish));
    var s4 := ReachableNext(s3, OnSlot(1, CountWake));
    assert s4 == P4;
  }

  lemma Dispatch4()
    requires Reachable(P4)
    ensures Reachable(P8)
  {
    var s1 := ReachableNext(P4, OnSlot(0, Reserve));
    var s2 := ReachableNext(s1, OnSlot(0, Fill(1, 1)));
    var s3 := ReachableNext(s2, OnSlot(0, Publish));
    var s4 := ReachableNext(s3, OnSlot(0, CountWake));
    assert s4 == P8;
  }

  lemma Dispatch8()
    requires Reachable(P8)
    ensures Reachable(P12)
  {
    QueueFacts();
    var s1 := ReachableNext(P8, OnSlot(0, EnqueueWake));
    var s2 := ReachableNext(s1, PickTask(1));
    var s3 := ReachableNext(s2, ByLoop(1, Start));
    var s4 := ReachableNext(s3, ByLoop(1, Claim));
    assert s4 == P12;
  }

  lemma Dispatch12()
    requires Reachable(P12)
    ensures Reachable(P13)
  {
    var s1 := ReachableNext(P12, ByLoop(1, Enter));
    assert s1 == P13;
  }

  lemma Dispatched()
    ensures Reachable(P13)
  {
    assert Run([P0], []);
    Dispatch0();
    Dispatch4();
    Dispatch8();
    Dispatch12();
  }

  // First run. Task 0 gives core 1 away, which clears on_cpu; core 2 steals the task, runs it and
  // it dies there. Core 1 only now reads the state, finds Dead and frees the slot, which a new
  // process gets, while core 2 is still on the stack of the dead task.

  const A15: State :=
    State([Task(Some(1), Ready, 1, 1, true, false, InCore), Task(Some(0), Ready, 0, 1, false, false, Counted)],
          [IDLE_CORE, Busy(Exec(0, Requeueing(ToExecuting)), Some(0), 2, [], multiset{}, 2), IDLE_CORE],
          2, [multiset{}], multiset{})

  const A17: State :=
    State([Task(Some(1), Ready, 1, 1, false, false, InQueue), Task(Some(0), Ready, 0, 1, false, false, Counted)],
          [IDLE_CORE, Busy(Cleared(0), Some(0), 2, [0], multiset{}, 2), IDLE_CORE],
          2, [multiset{}], multiset{})

  const A21: State :=
    State([Task(Some(1), Ready, 1, 2, false, false, InCore), Task(Some(0), Ready, 0, 1, false, false, Counted)],
          [IDLE_CORE, Busy(Cleared(0), Some(0), 1, [], multiset{}, 2),
           Busy(Stealing(0, 1, Added), None, 1, [], multiset{}, 0)],
          2, [multiset{}], multiset{})

  const A25: State :=
    State([Task(Some(1), Running, 1, 2, true, false, Nowhere), Task(Some(0), Ready, 0, 1, false, false, Counted)],
          [IDLE_CORE, Busy(Cleared(0), Some(0), 1, [], multiset{}, 2), Busy(Claimed(0), None, 1, [], multiset{}, 0)],
          2, [multiset{}], multiset{})

  const A29: State :=
    State([Task(Some(1), Dead, 1, 2, true, false, Nowhere), Task(Some(0), Ready, 0, 1, false, false, Counted)],
          [IDLE_CORE, Busy(Reaping(0), None, 1, [], multiset{}, 2),
           Busy(Exec(0, Leaving), Some(0), 1, [], multiset{}, 2)],
          2, [multiset{}], multiset{})

  const A33: State :=
    State([Task(Some(2), Creating, 1, 1, false, false, Nowhere), Task(Some(0), Ready, 0, 1, false, false, Counted)],
          [IDLE_CORE, Busy(Idle, None, 1, [], multiset{}, 2), Busy(Exec(0, Leaving), Some(0), 1, [], multiset{}, 2)],
          3, [multiset{}], multiset{})

  const A37: State :=
    State([Task(Some(2), Ready, 1, 1, false, false, InCore), Task(Some(0), Ready, 0, 1, false, false, Counted)],
          [IDLE_CORE, Busy(Picked(0), None, 2, [], multiset{}, 2),
           Busy(Exec(0, Leaving), Some(0), 1, [], multiset{}, 2)],
          3, [multiset{}], multiset{})

  const A39: State :=
    State([Task(Some(2), Running, 1, 1, true, false, Nowhere), Task(Some(0), Ready, 0, 1, false, false, Counted)],
          [IDLE_CORE, Busy(Claimed(0), None, 2, [], multiset{}, 2),
           Busy(Exec(0, Leaving), Some(0), 1, [], multiset{}, 2)],
          3, [multiset{}], multiset{})

  lemma Overtaken13()
    requires Reachable(P13)
    ensures Reachable(A15)
  {
    var s1 := ReachableNext(P13, ByTask(1, ChooseBySlice));
    var s2 := ReachableNext(s1, ByTask(1, Yield));
    assert s2 == A15;
  }

  lemma Overtaken15()
    requires Reachable(A15)
    ensures Reachable(A17)
  {
    QueueFacts();
    var s1 := ReachableNext(A15, ByTask(1, PushRequeued));
    var s2 := ReachableNext(s1, ByTask(1, SwitchOut));
    var s3 := ReachableNext(s2, ByLoop(1, ClearCpu));
    assert s3 == A17;
  }

  lemma Overtaken17()
    requires Reachable(A17)
    ensures Reachable(A21)
  {
    StealFacts(OnCpu(A17.slots));
    var s1 := ReachableNext(A17, StealTake(2, 1));
    var s2 := ReachableNext(s1, ByLoop(2, StealHome));
    var s3 := ReachableNext(s2, ByLoop(2, StealSubtract));
    var s4 := ReachableNext(s3, ByLoop(2, StealAdd));
    assert s4 == A21;
  }

  lemma Overtaken21()
    requires Reachable(A21)
    ensures Reachable(A25)
  {
    QueueFacts();
    var s1 := ReachableNext(A21, ByLoop(2, StealPush));
    var s2 := ReachableNext(s1, PickTask(2));
    var s3 := ReachableNext(s2, ByLoop(2, Start));
    var s4 := ReachableNext(s3, ByLoop(2, Claim));
    assert s4 == A25;
  }

  lemma Overtaken25()
    requires Reachable(A25)
    ensures Reachable(A29)
  {
    var s1 := ReachableNext(A25, ByLoop(2, Enter));
    var s2 := ReachableNext(s1, ByTask(2, Die));
    var s3 := ReachableNext(s2, ByLoop(1, ClearCurrent));
    var s4 := ReachableNext(s3, ByLoop(1, ReadState));
    assert s4 == A29;
  }

  lemma Overtaken29()
    requires Reachable(A29)
    ensures Reachable(A33)
  {
    var s1 := ReachableNext(A29, ByLoop(1, ClearPid));
    var s2 := ReachableNext(s1, ByLoop(1, FreeSlot));
    var s3 := ReachableNext(s2, OnSlot(0, Reserve));
    var s4 := ReachableNext(s3, OnSlot(0, Fill(1, 1)));
    assert s4 == A33;
  }

  lemma Overtaken33()
    requires Reachable(A33)
    ensures Reachable(A37)
  {
    QueueFacts();
    var s1 := ReachableNext(A33, OnSlot(0, Publish));
    var s2 := ReachableNext(s1, OnSlot(0, CountWake));
    var s3 := ReachableNext(s2, OnSlot(0, EnqueueWake));
    var s4 := ReachableNext(s3, PickTask(1));
    assert s4 == A37;
  }

  lemma Overtaken37()
    requires Reachable(A37)
    ensures Reachable(A39)
  {
    var s1 := ReachableNext(A37, ByLoop(1, Start));
    var s2 := ReachableNext(s1, ByLoop(1, Claim));
    assert s2 == A39;
  }

  lemma FreedUnderARunningTask()
    ensures exists st :: Reachable(st) && OnStackOf(st, 1, 0) && OnStackOf(st, 2, 0)
  {
    Dispatched();
    Overtaken13();
    Overtaken15();
    Overtaken17();
    Overtaken21();
    Overtaken25();
    Overtaken29();
    Overtaken33();
    Overtaken37();
    assert OnStackOf(A39, 1, 0) && OnStackOf(A39, 2, 0);
  }

  // Second run. Task 0 waits on a queue; wake_all copies the list, and before it wakes anybody
  // the task finds its condition true, wakes itself and returns. It then sleeps on core 1, and
  // the wake_all, going on, wakes the sleeper. Core 2 steals it and it goes back to sleep there.
  // The timer entry it left on core 1 then queues it on core 1, which dispatches it while core 2
  // has not switched away from it yet.

  const B17: State :=
    State([Task(Some(1), Blocked, 1, 1, true, false, Nowhere), Task(Some(0), Ready, 0, 1, false, false, Counted)],
          [IDLE_CORE, Busy(Exec(0, Parting), Some(0), 1, [], multiset{}, 2), IDLE_CORE],
          2, [multiset{}], multiset{(0, 1)})

  const B21: State :=
    State([Task(Some(1), Ready, 1, 1, true, false, InQueue), Task(Some(0), Ready, 0, 1, false, false, Counted)],
          [IDLE_CORE, Busy(Exec(0, Parting), Some(0), 2, [0], multiset{}, 2), IDLE_CORE],
          2, [multiset{}], multiset{(0, 1)})

  const B25: State :=
    State([Task(Some(1), Ready, 1, 1, false, false, InQueue), Task(Some(0), Ready, 0, 1, false, false, Counted)],
          [IDLE_CORE, Busy(Idle, None, 2, [0], multiset{}, 2), IDLE_CORE],
          2, [multiset{}], multiset{(0, 1)})

  const B29: State :=
    State([Task(Some(1), Running, 1, 1, true, false, Nowhere), Task(Some(0), Ready, 0, 1, false, false, Counted)],
          [IDLE_CORE, Busy(Exec(0, Plain), Some(0), 2, [], multiset{}, 2), IDLE_CORE],
          2, [multiset{}], multiset{(0, 1)})

  const B33: State :=
    State([Task(Some(1), Ready, 1, 1, true, false, Woken), Task(Some(0), Ready, 0, 1, false, false, Counted)],
          [IDLE_CORE, Busy(Exec(0, Parting), Some(0), 1, [], multiset{(0, 1)}, 2), IDLE_CORE],
          2, [multiset{}], multiset{})

  const B37: State :=
    State([Task(Some(1), Ready, 1, 1, false, false, InQueue), Task(Some(0), Ready, 0, 1, false, false, Counted)],
          [IDLE_CORE, Busy(Cleared(0), Some(0), 2, [0], multiset{(0, 1)}, 2), IDLE_CORE],
          2, [multiset{}], multiset{})

  const B41: State :=
    State([Task(Some(1), Ready, 1, 2, false, false, InCore), Task(Some(0), Ready, 0, 1, false, false, Counted)],
          [IDLE_CORE, Busy(Idle, None, 2, [], multiset{(0, 1)}, 2),
           Busy(Stealing(0, 1, Rehomed), None, 0, [], multiset{}, 0)],
          2, [multiset{}], multiset{})

  const B45: State :=
    State([Task(Some(1), Ready, 1, 2, false, false, InCore), Task(Some(0), Ready, 0, 1, false, false, Counted)],
          [IDLE_CORE, Busy(Idle, None, 1, [], multiset{(0, 1)}, 2), Busy(Picked(0), None, 1, [], multiset{}, 0)],
          2, [multiset{}], multiset{})

  const B49: State :=
    State([Task(Some(1), Running, 1, 2, true, false, Nowhere), Task(Some(0), Ready, 0, 1, false, false, Counted)],
          [IDLE_CORE, Busy(Idle, None, 1, [], multiset{(0, 1)}, 2),
           Busy(Exec(0, Checked), Some(0), 1, [], multiset{}, 2)],
          2, [multiset{}], multiset{})

  const B51: State :=
    State([Task(Some(1), Ready, 1, 2, true, false, InQueue), Task(Some(0), Ready, 0, 1, false, false, Counted)],
          [IDLE_CORE, Busy(Idle, None, 2, [0], multiset{}, 2),
           Busy(Exec(0, Leaving), Some(0), 1, [], multiset{(0, 1)}, 2)],
          2, [multiset{}], multiset{})

  const B53: State :=
    State([Task(Some(1), Running, 1, 2, true, false, Nowhere), Task(Some(0), Ready, 0, 1, false, false, Counted)],
          [IDLE_CORE, Busy(Started(0), None, 2, [], multiset{}, 2),
           Busy(Exec(0, Leaving), Some(0), 1, [], multiset{(0, 1)}, 2)],
          2, [multiset{}], multiset{})

  const B54: State :=
    State([Task(Some(1), Running, 1, 2, true, false, Nowhere), Task(Some(0), Ready, 0, 1, false, false, Counted)],
          [IDLE_CORE, Busy(Claimed(0), None, 2, [], multiset{}, 2),
           Busy(Exec(0, Leaving), Some(0), 1, [], multiset{(0, 1)}, 2)],
          2, [multiset{}], multiset{})

  lemma Oversleeping13()
    requires Reachable(P13)
    ensures Reachable(B17)
  {
    EntryFacts();
    var s1 := ReachableNext(P13, ByTask(1, Check));
    var s2 := ReachableNext(s1, ByTask(1, BlockEvent(0)));
    var s3 := ReachableNext(s2, ByTask(1, Leave));
    var s4 := ReachableNext(s3, CopyWaiters(0));
    assert s4 == B17;
  }

  lemma Oversleeping17()
    requires Reachable(B17)
    ensures Reachable(B21)
  {
    EntryFacts();
    QueueFacts();
    var s1 := ReachableNext(B17, ByTask(1, Unlist(0)));
    var s2 := ReachableNext(s1, ByTask(1, WakeSelf));
    var s3 := ReachableNext(s2, OnSlot(0, CountWake));
    var s4 := ReachableNext(s3, OnSlot(0, EnqueueWake));
    assert s4 == B21;
  }

  lemma Oversleeping21()
    requires Reachable(B21)
    ensures Reachable(B25)
  {
    var s1 := ReachableNext(B21, ByTask(1, SwitchOut));
    var s2 := ReachableNext(s1, ByLoop(1, ClearCpu));
    var s3 := ReachableNext(s2, ByLoop(1, ClearCurrent));
    var s4 := ReachableNext(s3, ByLoop(1, ReadState));
    assert s4 == B25;
  }

  lemma Oversleeping25()
    requires Reachable(B25)
    ensures Reachable(B29)
  {
    QueueFacts();
    var s1 := ReachableNext(B25, PickTask(1));
    var s2 := ReachableNext(s1, ByLoop(1, Start));
    var s3 := ReachableNext(s2, ByLoop(1, Claim));
    var s4 := ReachableNext(s3, ByLoop(1, Enter));
    assert s4 == B29;
  }

  lemma Oversleeping29()
    requires Reachable(B29)
    ensures Reachable(B33)
  {
    EntryFacts();
    var s1 := ReachableNext(B29, ByTask(1, Check));
    var s2 := ReachableNext(s1, ByTask(1, BlockSleep));
    var s3 := ReachableNext(s2, ByTask(1, Leave));
    var s4 := ReachableNext(s3, WakeHeld((0, 1)));
    assert s4 == B33;
  }

  lemma Oversleeping33()
    requires Reachable(B33)
    ensures Reachable(B37)
  {
    QueueFacts();
    var s1 := ReachableNext(B33, OnSlot(0, CountWake));
    var s2 := ReachableNext(s1, OnSlot(0, EnqueueWake));
    var s3 := ReachableNext(s2, ByTask(1, SwitchOut));
    var s4 := ReachableNext(s3, ByLoop(1, ClearCpu));
    assert s4 == B37;
  }

  lemma Oversleeping37()
    requires Reachable(B37)
    ensures Reachable(B41)
  {
    var s1 := ReachableNext(B37, ByLoop(1, ClearCurrent));
    var s2 := ReachableNext(s1, ByLoop(1, ReadState));
    StealFacts(OnCpu(s2.slots));
    var s3 := ReachableNext(s2, StealTake(2, 1));
    var s4 := ReachableNext(s3, ByLoop(2, StealHome));
    assert s4 == B41;
  }

  lemma Oversleeping41()
    requires Reachable(B41)
    ensures Reachable(B45)
  {
    QueueFacts();
    var s1 := ReachableNext(B41, ByLoop(2, StealSubtract));
    var s2 := ReachableNext(s1, ByLoop(2, StealAdd));
    var s3 := ReachableNext(s2, ByLoop(2, StealPush));
    var s4 := ReachableNext(s3, PickTask(2));
    assert s4 == B45;
  }

  lemma Oversleeping45()
    requires Reachable(B45)
    ensures Reachable(B49)
  {
    var s1 := ReachableNext(B45, ByLoop(2, Start));
    var s2 := ReachableNext(s1, ByLoop(2, Claim));
    var s3 := ReachableNext(s2, ByLoop(2, Enter));
    var s4 := ReachableNext(s3, ByTask(2, Check));
    assert s4 == B49;
  }

  lemma Oversleeping49()
    requires Reachable(B49)
    ensures Reachable(B51)
  {
    EntryFacts();
    QueueFacts();
    var s1 := ReachableNext(B49, ByTask(2, BlockSleep));
    var s2 := ReachableNext(s1, TimerWake(1, (0, 1)));
    assert s2 == B51;
  }

  lemma Oversleeping51()
    requires Reachable(B51)
    ensures Reachable(B53)
  {
    QueueFacts();
    var s1 := ReachableNext(B51, PickTask(1));
    var s2 := ReachableNext(s1, ByLoop(1, Start));
    assert s2 == B53;
  }

  lemma Oversleeping53()
    requires Reachable(B53)
    ensures Reachable(B54)
  {
    var s1 := ReachableNext(B53, ByLoop(1, Claim));
    assert s1 == B54;
  }

  lemma WokenOnTheWrongCore()
    ensures exists st :: Reachable(st) && OnStackOf(st, 1, 0) && OnStackOf(st, 2, 0)
  {
    Dispatched();
    Oversleeping13();
    Oversleeping17();
    Oversleeping21();
    Oversleeping25();
    Oversleeping29();
    Oversleeping33();
    Oversleeping37();
    Oversleeping41();
    Oversleeping45();
    Oversleeping49();
    Oversleeping51();
    Oversleeping53();
    assert OnStackOf(B54, 1, 0) && OnStackOf(B54, 2, 0);
  }
}
