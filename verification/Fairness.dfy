/** In what order tasks run. At one level of one epoch the one that came first is picked first.
    Bounded waiting: the two epochs keep a busy high priority task from starving a low one.
    While picked tasks come back through the yielding epoch only (or not at all) and nothing
    else is queued, every queued task is picked within 2 * |executing| + |yielding| picks. */
module Fairness {
  import opened Wrappers
  import opened QueueSpec

  /** What a picked task does: it leaves the core, or it yields and is queued again. */
  datatype Outcome = Leaves | Yields(priority: nat)

  predicate ValidOutcome(o: Outcome) {
    o.Yields? ==> o.priority < LEVELS
  }

  predicate ValidOutcomes(os: seq<Outcome>) {
    forall i :: 0 <= i < |os| ==> ValidOutcome(os[i])
  }

  /** One turn of the scheduler loop; it changes nothing when nothing is queued. */
  function Turn(e: Epochs, o: Outcome): (r: Epochs)
    requires ValidOutcome(o)
  {
    match Pick(e)
    case None => e
    case Some((slot, rest)) =>
      match o
      case Leaves => rest
      case Yields(p) => rest.(yielding := Push(rest.yielding, slot, p))
  }

  /** The tasks picked over a series of turns, in order. */
  function Picks(e: Epochs, os: seq<Outcome>): (r: seq<nat>)
    requires ValidOutcomes(os)
    ensures |r| <= |os|
    decreases |os|
  {
    if os == [] then []
    else match Pick(e)
         case None => []
         case Some((slot, _)) => [slot] + Picks(Turn(e, os[0]), os[1..])
  }

  function Size(t: Levels): nat {
    |t[0]| + |t[1]| + |t[2]| + |t[3]| + |t[4]| + |t[5]| + |t[6]| + |t[7]|
  }

  predicate Queues(t: Levels, s: nat) {
    exists l :: 0 <= l < LEVELS && s in t[l]
  }

  /** How many picks `s` can still have to wait. */
  function Bound(e: Epochs, s: nat): nat {
    if Queues(e.executing, s) then Size(e.executing)
    else 2 * Size(e.executing) + Size(e.yielding)
  }

  lemma SizeOfUpdate(t: Levels, l: nat, q: seq<nat>)
    requires l < LEVELS
    ensures Size(t[l := q]) == Size(t) - |t[l]| + |q|
  {
  }

  lemma EmptyMeansSizeZero(t: Levels)
    ensures IsEmpty(t) <==> Size(t) == 0
    ensures IsEmpty(t) ==> forall s :: !Queues(t, s)
  {
    if Size(t) == 0 {
      assert forall l :: 0 <= l < LEVELS ==> |t[l]| == 0;
    }
  }

  lemma PopFacts(t: Levels, s: nat)
    requires !IsEmpty(t)
    ensures Size(PopHighest(t).1) == Size(t) - 1
    ensures Queues(t, s) && PopHighest(t).0 != s ==> Queues(PopHighest(t).1, s)
  {
    var l := Top(t);
    SizeOfUpdate(t, l, t[l][1..]);
    if Queues(t, s) && PopHighest(t).0 != s {
      var k :| 0 <= k < LEVELS && s in t[k];
      assert t[l] == [t[l][0]] + t[l][1..];
      assert s in PopHighest(t).1[k];
    }
  }

  lemma PushFacts(t: Levels, x: nat, p: nat, s: nat)
    requires p < LEVELS
    ensures Size(Push(t, x, p)) == Size(t) + 1
    ensures Queues(t, s) ==> Queues(Push(t, x, p), s)
  {
    SizeOfUpdate(t, p, t[p] + [x]);
    if Queues(t, s) {
      var k :| 0 <= k < LEVELS && s in t[k];
      assert s in Push(t, x, p)[k];
    }
  }

  /** A turn that picks some other task brings `s` strictly closer. */
  lemma TurnLowersBound(e: Epochs, o: Outcome, s: nat)
    requires ValidOutcome(o)
    requires Queues(e.executing, s) || Queues(e.yielding, s)
    ensures Pick(e).Some?
    ensures Pick(e).value.0 != s ==>
      var e' := Turn(e, o);
      (Queues(e'.executing, s) || Queues(e'.yielding, s)) && Bound(e', s) < Bound(e, s)
  {
    EmptyMeansSizeZero(e.executing);
    EmptyMeansSizeZero(e.yielding);
    var (first, second) := if IsEmpty(e.executing) then (e.yielding, e.executing) else (e.executing, e.yielding);
    PopFacts(first, s);
    var rest := PopHighest(first).1;
    if o.Yields? { PushFacts(second, PopHighest(first).0, o.priority, s); }
  }

  /** Main result. The bound holds for every queue state, priority and behaviour of the
      tasks that go first. */
  lemma {:induction false} PickedWithinBound(e: Epochs, os: seq<Outcome>, s: nat)
    requires ValidOutcomes(os)
    requires Queues(e.executing, s) || Queues(e.yielding, s)
    requires Bound(e, s) <= |os|
    ensures s in Picks(e, os)
    decreases |os|
  {
    EmptyMeansSizeZero(e.executing);
    EmptyMeansSizeZero(e.yielding);
    assert Bound(e, s) > 0;
    TurnLowersBound(e, os[0], s);
    if Pick(e).value.0 != s {
      PickedWithinBound(Turn(e, os[0]), os[1..], s);
    }
  }

  lemma BoundedWaiting(e: Epochs, os: seq<Outcome>, s: nat)
    requires ValidOutcomes(os)
    requires Queues(e.executing, s) || Queues(e.yielding, s)
    requires |os| == 2 * Size(e.executing) + Size(e.yielding)
    ensures s in Picks(e, os)
  {
    PickedWithinBound(e, os, s);
  }

  // ---------------------------------------------------------------- order of arrival

  datatype Epoch = Executing | Yielding

  /** What can happen to the queues of a core, one section under its lock at a time. */
  datatype QueueOp = Enqueue(slot: nat, priority: nat, to: Epoch) | TakeNext | StealAway(onCpu: seq<bool>)

  function Of(e: Epochs, to: Epoch): Levels {
    if to.Executing? then e.executing else e.yielding
  }

  predicate Possible(e: Epochs, op: QueueOp) {
    match op
    case Enqueue(_, p, _) => p < LEVELS
    case TakeNext => true
    case StealAway(onCpu) => InRange(e.executing, |onCpu|) && InRange(e.yielding, |onCpu|)
  }

  /** The task that leaves the queues, if one does, and what is left. */
  function Done(e: Epochs, op: QueueOp): (r: (Option<nat>, Epochs))
    requires Possible(e, op)
  {
    match op
    case Enqueue(s, p, Executing) => (None, e.(executing := Push(e.executing, s, p)))
    case Enqueue(s, p, Yielding) => (None, e.(yielding := Push(e.yielding, s, p)))
    case TakeNext => (match Pick(e) case None => (None, e) case Some(p) => (Some(p.0), p.1))
    case StealAway(onCpu) => match Steal(e, onCpu) case None => (None, e) case Some(p) => (Some(p.0), p.1)
  }

  /** The queues of a core over any series of operations. */
  ghost predicate History(es: seq<Epochs>, ops: seq<QueueOp>) {
    |es| == |ops| + 1 && forall k :: 0 <= k < |ops| ==> Follows(es[k], ops[k], es[k + 1])
  }

  ghost predicate Follows(e: Epochs, op: QueueOp, e': Epochs) {
    Possible(e, op) && e' == Done(e, op).1
  }

  predicate Leaves(e: Epochs, op: QueueOp, s: nat) {
    Possible(e, op) && Done(e, op).0 == Some(s)
  }

  /** a stands before b in the list. */
  ghost predicate Ahead(q: seq<nat>, a: nat, b: nat) {
    exists i, j :: 0 <= i < j < |q| && q[i] == a && q[j] == b
  }

  /** b is queued there once and nowhere else, with a before it. */
  ghost predicate Behind(e: Epochs, to: Epoch, l: nat, a: nat, b: nat) {
    && l < LEVELS && Ahead(Of(e, to)[l], a, b) && multiset(Of(e, to)[l])[b] == 1
    && forall x, k :: 0 <= k < LEVELS && (x != to || k != l) ==> b !in Of(e, x)[k]
  }

  predicate Unqueued(e: Epochs, s: nat) {
    forall l :: 0 <= l < LEVELS ==> s !in e.executing[l] && s !in e.yielding[l]
  }

  /** The list without its k-th element, which is neither a nor b. */
  lemma StillAhead(q: seq<nat>, k: nat, a: nat, b: nat)
    requires k < |q| && q[k] != a && q[k] != b && Ahead(q, a, b)
    ensures Ahead(Without(q, k), a, b) && multiset(Without(q, k))[b] == multiset(q)[b]
  {
    var i, j :| 0 <= i < j < |q| && q[i] == a && q[j] == b;
    var r := q[..k] + q[k + 1..];
    assert r[if i < k then i else i - 1] == a && r[if j < k then j else j - 1] == b;
  }

  /** A task with another before it is not the head of its list. */
  lemma HeadIsNot(q: seq<nat>, a: nat, b: nat)
    requires Ahead(q, a, b) && multiset(q)[b] == 1
    ensures q != [] && q[0] != b
  {
    var j :| 0 < j < |q| && q[j] == b;
    assert q == [q[0]] + q[1..];
    assert q[1..][j - 1] == b;
  }

  function Replaced(e: Epochs, to: Epoch, t: Levels): Epochs {
    if to.Executing? then e.(executing := t) else e.(yielding := t)
  }

  /** One list loses its k-th task. */
  lemma BehindDrop(e: Epochs, from: Epoch, level: nat, k: nat, to: Epoch, l: nat, a: nat, b: nat)
    requires Behind(e, to, l, a, b) && level < LEVELS && k < |Of(e, from)[level]|
    ensures var q := Of(e, from)[level]; var e' := Replaced(e, from, Of(e, from)[level := Without(q, k)]);
      && (q[k] == b ==> k > 0 && Unqueued(e', b))
      && (q[k] == a || q[k] == b || Behind(e', to, l, a, b))
  {
    var q := Of(e, from)[level];
    var e' := Replaced(e, from, Of(e, from)[level := Without(q, k)]);
    assert q[k] in q;
    if q[k] == b {
      assert from == to && level == l;
      HeadIsNot(q, a, b);
      assert b !in Without(q, k) by { assert multiset(Without(q, k))[b] == 0; }
      assert b !in Of(e', from)[level];
      forall x, m | 0 <= m < LEVELS && (x != from || m != level) ensures b !in Of(e', x)[m] {
        assert Of(e', x)[m] == Of(e, x)[m];
      }
      forall m | 0 <= m < LEVELS ensures b !in e'.executing[m] && b !in e'.yielding[m] {
        assert b !in Of(e', Executing)[m] && b !in Of(e', Yielding)[m];
      }
    } else if q[k] != a {
      if from == to && level == l { StillAhead(q, k, a, b); }
      forall x, m | 0 <= m < LEVELS && (x != to || m != l) ensures b !in Of(e', x)[m] {
        if x == from && m == level {
          assert multiset(Without(q, k))[b] == 0;
        } else {
          assert Of(e', x)[m] == Of(e, x)[m];
        }
      }
    }
  }

  /** What one operation does to two tasks in order, as long as the second is not queued again. */
  lemma BehindStep(e: Epochs, op: QueueOp, to: Epoch, l: nat, a: nat, b: nat) returns (to': Epoch)
    requires Possible(e, op) && Behind(e, to, l, a, b) && !(op.Enqueue? && op.slot == b)
    ensures Leaves(e, op, b) ==> op.StealAway? && Unqueued(Done(e, op).1, b)
    ensures Leaves(e, op, a) || Leaves(e, op, b) || Behind(Done(e, op).1, to', l, a, b)
  {
    to' := to;
    match op
    case Enqueue(s, p, x) => BehindPush(e, s, p, x, to, l, a, b);
    case TakeNext =>
      if Pick(e).Some? { to' := BehindPick(e, to, l, a, b); }
    case StealAway(onCpu) =>
      if Steal(e, onCpu).Some? { BehindSteal(e, onCpu, to, l, a, b); }
  }

  lemma BehindPush(e: Epochs, s: nat, p: nat, x: Epoch, to: Epoch, l: nat, a: nat, b: nat)
    requires p < LEVELS && Behind(e, to, l, a, b) && s != b
    ensures Behind(Done(e, Enqueue(s, p, x)).1, to, l, a, b)
  {
    var q, e' := Of(e, to)[l], Done(e, Enqueue(s, p, x)).1;
    var i, j :| 0 <= i < j < |q| && q[i] == a && q[j] == b;
    assert Of(e', to)[l][i] == a && Of(e', to)[l][j] == b;
    forall y, k | 0 <= k < LEVELS && (y != to || k != l) ensures b !in Of(e', y)[k] {
      assert b !in Of(e, y)[k];
    }
  }

  lemma BehindPick(e: Epochs, to: Epoch, l: nat, a: nat, b: nat) returns (to': Epoch)
    requires Behind(e, to, l, a, b) && Pick(e).Some?
    ensures Pick(e).value.0 != b
    ensures Pick(e).value.0 == a || Behind(Pick(e).value.1, to', l, a, b)
  {
    var e1 := e;
    to' := to;
    if IsEmpty(e.executing) {
      e1 := Epochs(e.yielding, e.executing);
      to' := if to.Executing? then Yielding else Executing;
      forall x, k | 0 <= k < LEVELS && (x != to' || k != l) ensures b !in Of(e1, x)[k] {
        assert b !in Of(e, if x.Executing? then Yielding else Executing)[k];
      }
      assert Behind(e1, to', l, a, b);
    }
    var top := Top(e1.executing);
    assert Without(e1.executing[top], 0) == e1.executing[top][1..];
    BehindDrop(e1, Executing, top, 0, to', l, a, b);
  }

  lemma BehindSteal(e: Epochs, onCpu: seq<bool>, to: Epoch, l: nat, a: nat, b: nat)
    requires Possible(e, StealAway(onCpu)) && Behind(e, to, l, a, b) && Steal(e, onCpu).Some?
    ensures var (s, e') := Steal(e, onCpu).value;
      && (s == b ==> Unqueued(e', b))
      && (s == a || s == b || Behind(e', to, l, a, b))
  {
    var x := StealLevel(e.executing, onCpu, LEVELS - 1);
    var level := if x != -1 then x else StealLevel(e.yielding, onCpu, LEVELS - 1);
    var from := if x != -1 then Executing else Yielding;
    BehindDrop(e, from, level, FirstOffCpu(Of(e, from)[level], onCpu), to, l, a, b);
  }

  /** A task that is not queued stays so until it is queued. */
  lemma UnqueuedStep(e: Epochs, op: QueueOp, b: nat)
    requires Possible(e, op) && Unqueued(e, b) && !(op.Enqueue? && op.slot == b)
    ensures !Leaves(e, op, b) && Unqueued(Done(e, op).1, b)
  {
    var e' := Done(e, op).1;
    assert forall l :: 0 <= l < LEVELS ==> b !in e.executing[l] && b !in e.yielding[l];
    match op
    case Enqueue(_, _, _) =>
    case TakeNext =>
      if Pick(e).Some? {
        var t := if IsEmpty(e.executing) then e.yielding else e.executing;
        assert t[Top(t)] == [t[Top(t)][0]] + t[Top(t)][1..];
      }
    case StealAway(onCpu) =>
      if Steal(e, onCpu).Some? { var _ := StealRemoves(e, onCpu); UnqueuedSteal(e, onCpu, b); }
  }

  lemma UnqueuedSteal(e: Epochs, onCpu: seq<bool>, b: nat)
    requires Possible(e, StealAway(onCpu)) && Unqueued(e, b) && Steal(e, onCpu).Some?
    ensures Steal(e, onCpu).value.0 != b && Unqueued(Steal(e, onCpu).value.1, b)
  {
    var level := StealRemoves(e, onCpu);
    var (s, e') := Steal(e, onCpu).value;
    forall l | 0 <= l < LEVELS ensures b !in e'.executing[l] && b !in e'.yielding[l] {
      assert b !in Load(e, l);
      assert b !in Load(e', l);
    }
  }

  lemma Step(es: seq<Epochs>, ops: seq<QueueOp>, i: nat)
    requires History(es, ops) && i < |ops|
    ensures Possible(es[i], ops[i]) && es[i + 1] == Done(es[i], ops[i]).1
  {
    assert Follows(es[i], ops[i], es[i + 1]);
  }

  /** Once task b stands behind task a, it is picked only after a has left. */
  lemma {:induction false} AheadLeavesFirst(es: seq<Epochs>, ops: seq<QueueOp>, to: Epoch, l: nat, a: nat, b: nat,
                                            i: nat, k: nat) returns (m: nat)
    requires History(es, ops) == true && i <= k < |ops| && ops[k] == TakeNext && Leaves(es[k], ops[k], b) == true
    requires Behind(es[i], to, l, a, b) == true && NotQueuedAgain(ops, b, i, k) == true
    ensures i <= m < k && Leaves(es[m], ops[m], a) == true
    decreases k - i
  {
    m := i;
    Step(es, ops, i);
    var to' := BehindStep(es[i], ops[i], to, l, a, b);
    if !Leaves(es[i], ops[i], a) {
      if Leaves(es[i], ops[i], b) { StaysUnqueued(es, ops, b, i + 1, k); }
      m := AheadLeavesFirst(es, ops, to', l, a, b, i + 1, k);
    }
  }

  ghost predicate NotQueuedAgain(ops: seq<QueueOp>, b: nat, i: nat, k: nat) {
    k < |ops| && forall m :: i <= m <= k ==> !(ops[m].Enqueue? && ops[m].slot == b)
  }

  lemma {:induction false} StaysUnqueued(es: seq<Epochs>, ops: seq<QueueOp>, b: nat, i: nat, k: nat)
    requires History(es, ops) == true && i <= k < |ops| && Unqueued(es[i], b) == true
    requires NotQueuedAgain(ops, b, i, k) == true
    ensures !Leaves(es[k], ops[k], b)
    decreases k - i
  {
    Step(es, ops, i);
    UnqueuedStep(es[i], ops[i], b);
    if i < k { StaysUnqueued(es, ops, b, i + 1, k); }
  }

  /** Between two operations the epochs have not swapped. */
  ghost predicate NoSwap(es: seq<Epochs>, ops: seq<QueueOp>, i: nat, j: nat) {
    j < |ops| && |es| == |ops| + 1 && forall m :: i <= m < j && ops[m] == TakeNext ==> !IsEmpty(es[m].executing)
  }

  /** A task that was queued there stays there until it leaves. */
  lemma {:induction false} WaitsThere(es: seq<Epochs>, ops: seq<QueueOp>, to: Epoch, l: nat, a: nat, i: nat, j: nat)
    returns (m: nat)
    requires History(es, ops) == true && i <= j < |ops| && l < LEVELS && a in Of(es[i], to)[l]
    requires NoSwap(es, ops, i, j) == true
    ensures i <= m <= j && (m == j ==> a in Of(es[j], to)[l]) && (m < j ==> Leaves(es[m], ops[m], a) == true)
    decreases j - i
  {
    m := i;
    if i < j && !Leaves(es[i], ops[i], a) {
      Step(es, ops, i);
      WaitsOn(es[i], ops[i], to, l, a);
      m := WaitsThere(es, ops, to, l, a, i + 1, j);
    }
  }

  lemma WaitsOn(e: Epochs, op: QueueOp, to: Epoch, l: nat, a: nat)
    requires Possible(e, op) && l < LEVELS && a in Of(e, to)[l] && !Leaves(e, op, a)
    requires op == TakeNext ==> !IsEmpty(e.executing)
    ensures a in Of(Done(e, op).1, to)[l]
  {
    match op
    case Enqueue(s, p, x) =>
    case TakeNext =>
      var q := e.executing[Top(e.executing)];
      assert q == [q[0]] + q[1..];
    case StealAway(onCpu) =>
      if Steal(e, onCpu).Some? { StealLeaves(e, onCpu, to, l, a); }
  }

  lemma StealLeaves(e: Epochs, onCpu: seq<bool>, to: Epoch, l: nat, a: nat)
    requires Possible(e, StealAway(onCpu)) && Steal(e, onCpu).Some? && l < LEVELS && a in Of(e, to)[l]
    requires Steal(e, onCpu).value.0 != a
    ensures a in Of(Steal(e, onCpu).value.1, to)[l]
  {
    var x := StealLevel(e.executing, onCpu, LEVELS - 1);
    var level := if x != -1 then x else StealLevel(e.yielding, onCpu, LEVELS - 1);
    var from := if x != -1 then Executing else Yielding;
    KeptByDrop(e, from, level, FirstOffCpu(Of(e, from)[level], onCpu), to, l, a);
  }

  lemma KeptByDrop(e: Epochs, from: Epoch, level: nat, k: nat, to: Epoch, l: nat, a: nat)
    requires level < LEVELS && k < |Of(e, from)[level]| && Of(e, from)[level][k] != a
    requires l < LEVELS && a in Of(e, to)[l]
    ensures a in Of(Replaced(e, from, Of(e, from)[level := Without(Of(e, from)[level], k)]), to)[l]
  {
    var q := Of(e, from)[level];
    if from == to && level == l {
      assert multiset(Without(q, k))[a] == multiset(q)[a];
      assert a in multiset(Without(q, k));
    }
  }

  /** First come, first served. Task a and then task b are queued at one level of one epoch, and b
      is not queued elsewhere or again. If b is picked, a has left the queues before. */
  lemma FirstComeFirstServed(es: seq<Epochs>, ops: seq<QueueOp>, p: nat, to: Epoch, a: nat, b: nat,
                             h: nat, i: nat, k: nat) returns (m: nat)
    requires History(es, ops) == true && h < i < k < |ops|
    requires ops[h] == Enqueue(a, p, to) && ops[i] == Enqueue(b, p, to) && NoSwap(es, ops, h, i)
    requires Unqueued(es[i], b) && NotQueuedAgain(ops, b, i + 1, k) == true
    requires ops[k] == TakeNext && Leaves(es[k], ops[k], b) == true
    ensures h < m < k && Leaves(es[m], ops[m], a)
  {
    Step(es, ops, h);
    Step(es, ops, i);
    JustQueued(es[h], a, p, to);
    m := WaitsThere(es, ops, to, p, a, h + 1, i);
    if m == i {
      QueuedBehind(es[i], a, b, p, to);
      m := AheadLeavesFirst(es, ops, to, p, a, b, i + 1, k);
    }
  }

  lemma JustQueued(e: Epochs, a: nat, p: nat, to: Epoch)
    requires p < LEVELS
    ensures a in Of(Done(e, Enqueue(a, p, to)).1, to)[p]
  {
    var q := Of(Done(e, Enqueue(a, p, to)).1, to)[p];
    assert q == Of(e, to)[p] + [a];
  }

  lemma QueuedBehind(e: Epochs, a: nat, b: nat, p: nat, to: Epoch)
    requires p < LEVELS && a in Of(e, to)[p] && Unqueued(e, b)
    ensures Behind(Done(e, Enqueue(b, p, to)).1, to, p, a, b) == true
  {
    var q := Of(e, to)[p];
    var i :| 0 <= i < |q| && q[i] == a;
    var q' := Of(Done(e, Enqueue(b, p, to)).1, to)[p];
    assert q' == q + [b] && q'[i] == a && q'[|q|] == b;
  }
}
