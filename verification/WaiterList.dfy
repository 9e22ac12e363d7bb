/** The fixed-size waiter list of kernel/src/process/wait.rs: removal moves the last entry into
    the hole, and a full list is purged of stale entries before the next push. */
module WaiterList {

  datatype TaskRef = TaskRef(slot: nat, pid: nat)

  /** What a task slot shows: the process in it, and whether its task is blocked. */
  datatype TaskView = TaskView(pid: nat, blocked: bool)

  const MAX_TASKS: nat := 64

  /** The slot has been given to another process, or its task is not blocked (any more). */
  predicate IsStale(slots: seq<TaskView>, r: TaskRef): (stale: bool)
    ensures !stale <==> r.slot < |slots| && slots[r.slot] == TaskView(r.pid, true)
  {
    r.slot >= |slots| || slots[r.slot].pid != r.pid || !slots[r.slot].blocked
  }

  /** Dropping position i by overwriting it with the last element removes one occurrence. */
  lemma SwapRemove(before: seq<TaskRef>, after: seq<TaskRef>, i: nat)
    requires i < |before| && |after| == |before| - 1
    requires forall j :: 0 <= j < |after| ==> after[j] == if j == i then before[|before| - 1] else before[j]
    ensures multiset(after) == multiset(before) - multiset{before[i]}
  {
    var n := |before| - 1;
    assert before == before[..n] + [before[n]];
    if i < n {
      assert before[..n] == before[..i] + [before[i]] + before[i + 1..n];
      assert after == before[..i] + [before[n]] + before[i + 1..n];
    } else {
      assert after == before[..n];
    }
  }

  class Waiters {
    const waiters: array<TaskRef>
    var count: nat

    ghost predicate Valid()
      reads this
    {
      waiters.Length == MAX_TASKS && count <= MAX_TASKS
    }

    ghost function Contents(): multiset<TaskRef>
      requires Valid()
      reads this, waiters
    {
      multiset(waiters[..count])
    }

    constructor ()
      ensures Valid() && Contents() == multiset{} && fresh(waiters)
    {
      waiters := new TaskRef[MAX_TASKS](_ => TaskRef(65535, 0));
      count := 0;
    }

    /** Moves the last entry into place i. */
    method FillHole(i: nat)
      requires Valid() && i < count
      modifies this`count, waiters
      ensures Valid() && count == old(count) - 1
      ensures forall j :: 0 <= j < i ==> waiters[j] == old(waiters[j])
      ensures Contents() == old(Contents()) - multiset{old(waiters[i])}
    {
      ghost var before := waiters[..count];
      count := count - 1;
      waiters[i] := waiters[count];
      SwapRemove(before, waiters[..count], i);
    }

    /** Keeps every live entry as often as it was there and no stale one. */
    method RemoveStale(slots: seq<TaskView>)
      requires Valid()
      modifies this, waiters
      ensures Valid() && count <= old(count)
      ensures forall r :: Contents()[r] == if IsStale(slots, r) then 0 else old(Contents())[r]
    {
      var index := 0;
      while index < count
        invariant 0 <= index <= count <= old(count) && Valid()
        invariant SameLive(old(Contents()), Contents(), slots) == true
        invariant forall j :: 0 <= j < index ==> !IsStale(slots, waiters[j])
        decreases count - index
      {
        if IsStale(slots, waiters[index]) {
          ghost var before, gone := Contents(), waiters[index];
          FillHole(index);
          LiveStay(old(Contents()), before, Contents(), gone, slots);
        } else {
          index := index + 1;
        }
      }
      forall r | IsStale(slots, r) ensures Contents()[r] == 0 {
        assert r !in waiters[..count];
      }
    }

    /** The push overflows only if the list is full of live entries. */
    method Push(ref: TaskRef, slots: seq<TaskView>) returns (stored: bool)
      requires Valid()
      modifies this, waiters
      ensures Valid()
      ensures stored <==> old(count) < MAX_TASKS || exists r :: r in old(Contents()) && IsStale(slots, r)
      ensures stored ==> forall r ::
        Contents()[r] == (if old(count) == MAX_TASKS && IsStale(slots, r) then 0 else old(Contents())[r])
                         + (if r == ref then 1 else 0)
      ensures !stored ==> Contents() == old(Contents())
    {
      ghost var old0 := waiters[..count];
      if count == waiters.Length {
        RemoveStale(slots);
      }
      ghost var kept := waiters[..count];
      FullAfterPurge(old0, kept, slots);
      if count == waiters.Length {
        NothingPurged(multiset(old0), multiset(kept), slots);
        return false;
      }
      waiters[count] := ref;
      count := count + 1;
      assert waiters[..count] == kept + [ref];
      stored := true;
    }

    method Remove(ref: TaskRef)
      requires Valid()
      modifies this, waiters
      ensures Valid()
      ensures Contents() == old(Contents()) - multiset{ref}
    {
      var index := 0;
      while index < count && waiters[index] != ref
        invariant 0 <= index <= count
        invariant forall j :: 0 <= j < index ==> waiters[j] != ref
      {
        index := index + 1;
      }
      if index < count {
        ghost var before := waiters[..count];
        count := count - 1;
        waiters[index] := waiters[count];
        SwapRemove(before, waiters[..count], index);
      } else {
        assert ref !in waiters[..count];
      }
    }

    /** The first half of wake_all: the whole list is handed over and emptied. */
    method TakeAll() returns (woken: seq<TaskRef>)
      requires Valid()
      modifies this
      ensures Valid() && multiset(woken) == old(Contents()) && Contents() == multiset{}
    {
      woken := waiters[..count];
      count := 0;
    }
  }

  lemma FullAfterPurge(before: seq<TaskRef>, after: seq<TaskRef>, slots: seq<TaskView>)
    requires |after| <= |before| == MAX_TASKS ==>
      forall r :: multiset(after)[r] == if IsStale(slots, r) then 0 else multiset(before)[r]
    requires |before| < MAX_TASKS ==> after == before
    requires |after| <= |before| <= MAX_TASKS
    ensures |after| == MAX_TASKS <==>
      |before| == MAX_TASKS && !exists r :: r in multiset(before) && IsStale(slots, r)
  {
    if |before| == MAX_TASKS {
      if r :| r in multiset(before) && IsStale(slots, r) {
        assert multiset(after) <= multiset(before) - multiset{r};
        SizeMonotone(multiset(after), multiset(before) - multiset{r});
        assert |multiset(before) - multiset{r}| == |before| - 1;
      } else {
        assert forall r :: multiset(after)[r] == multiset(before)[r] by {
          forall r ensures multiset(after)[r] == multiset(before)[r] {
            if IsStale(slots, r) { assert r !in multiset(before); }
          }
        }
        assert multiset(after) == multiset(before);
        assert |multiset(after)| == |after| && |multiset(before)| == |before|;
      }
    }
  }

  ghost predicate SameLive(before: multiset<TaskRef>, after: multiset<TaskRef>, slots: seq<TaskView>) {
    forall r :: !IsStale(slots, r) ==> after[r] == before[r]
  }

  lemma LiveStay(first: multiset<TaskRef>, before: multiset<TaskRef>, after: multiset<TaskRef>, gone: TaskRef,
                 slots: seq<TaskView>)
    requires SameLive(first, before, slots) && after == before - multiset{gone} && IsStale(slots, gone)
    ensures SameLive(first, after, slots) == true
  {
  }

  lemma NothingPurged(before: multiset<TaskRef>, after: multiset<TaskRef>, slots: seq<TaskView>)
    requires forall r :: r in before ==> !IsStale(slots, r)
    requires forall r :: after[r] == if IsStale(slots, r) then 0 else before[r]
    ensures after == before
  {
    forall r ensures after[r] == before[r] {
      if IsStale(slots, r) { assert r !in before; }
    }
  }

  lemma SizeMonotone(a: multiset<TaskRef>, b: multiset<TaskRef>)
    requires a <= b
    ensures |a| <= |b|
  {
    assert b == a + (b - a);
  }
}
