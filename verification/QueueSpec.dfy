/** Run queues as values: what the linked lists, bitmaps and epoch swap of a core's
    run queue stand for. A table holds one first-in first-out list per priority. */
module QueueSpec {

  const LEVELS: nat := 8

  import opened Wrappers

  type Levels = t: seq<seq<nat>> | |t| == LEVELS
    witness [[], [], [], [], [], [], [], []]

  /** Both epochs of one core. */
  datatype Epochs = Epochs(executing: Levels, yielding: Levels)

  const NO_TASKS: Levels := [[], [], [], [], [], [], [], []]

  predicate IsEmpty(t: Levels) {
    forall l :: 0 <= l < LEVELS ==> t[l] == []
  }

  function Push(t: Levels, slot: nat, priority: nat): (r: Levels)
    requires priority < LEVELS
  {
    t[priority := t[priority] + [slot]]
  }

  /** Highest non-empty level at or below `from`, or -1. */
  function TopFrom(t: Levels, from: int): (l: int)
    requires -1 <= from < LEVELS
    ensures -1 <= l <= from
    ensures 0 <= l ==> t[l] != []
    ensures forall k :: l < k <= from ==> t[k] == []
    decreases from + 1
  {
    if from == -1 || t[from] != [] then from else TopFrom(t, from - 1)
  }

  function Top(t: Levels): (l: nat)
    requires !IsEmpty(t)
    ensures l < LEVELS && t[l] != []
    ensures forall k :: l < k < LEVELS ==> t[k] == []
  {
    TopFrom(t, LEVELS - 1)
  }

  /** The oldest task of the highest priority present, and the table without it. */
  function PopHighest(t: Levels): (r: (nat, Levels))
    requires !IsEmpty(t)
  {
    var l := Top(t);
    (t[l][0], t[l := t[l][1..]])
  }

  /** The next task of a core; the epochs swap when the executing one is used up. */
  function Pick(e: Epochs): (r: Option<(nat, Epochs)>)
    ensures r.None? <==> IsEmpty(e.executing) && IsEmpty(e.yielding)
  {
    if !IsEmpty(e.executing) then
      var (slot, rest) := PopHighest(e.executing);
      Some((slot, Epochs(rest, e.yielding)))
    else if !IsEmpty(e.yielding) then
      var (slot, rest) := PopHighest(e.yielding);
      Some((slot, Epochs(rest, e.executing)))
    else None
  }

  /** Position of the first queued task that is off its CPU, |q| when there is none. */
  function FirstOffCpu(q: seq<nat>, onCpu: seq<bool>): (k: nat)
    requires forall i :: 0 <= i < |q| ==> q[i] < |onCpu|
    ensures k <= |q|
    ensures k < |q| ==> !onCpu[q[k]]
    ensures forall i :: 0 <= i < k ==> onCpu[q[i]]
  {
    if q == [] || !onCpu[q[0]] then 0
    else
      var r := FirstOffCpu(q[1..], onCpu);
      assert forall i :: 1 <= i < r + 1 ==> q[i] == q[1..][i - 1];
      1 + r
  }

  function Without(q: seq<nat>, k: nat): (r: seq<nat>)
    requires k < |q|
    ensures multiset(r) == multiset(q) - multiset{q[k]}
    ensures |r| == |q| - 1
  {
    assert q == q[..k] + [q[k]] + q[k + 1..];
    q[..k] + q[k + 1..]
  }

  predicate InRange(t: Levels, n: nat) {
    forall l, i :: 0 <= l < LEVELS && 0 <= i < |t[l]| ==> t[l][i] < n
  }

  /** Highest level at or below `from` that queues a task off its CPU, or -1. */
  function StealLevel(t: Levels, onCpu: seq<bool>, from: int): (l: int)
    requires -1 <= from < LEVELS && InRange(t, |onCpu|)
    ensures -1 <= l <= from
    ensures 0 <= l ==> FirstOffCpu(t[l], onCpu) < |t[l]|
    ensures forall k :: l < k <= from ==> FirstOffCpu(t[k], onCpu) == |t[k]|
    decreases from + 1
  {
    if from == -1 || FirstOffCpu(t[from], onCpu) < |t[from]| then from
    else StealLevel(t, onCpu, from - 1)
  }

  function TakeOffCpu(t: Levels, onCpu: seq<bool>): (r: Option<(nat, Levels)>)
    requires InRange(t, |onCpu|)
  {
    var l := StealLevel(t, onCpu, LEVELS - 1);
    if l == -1 then None
    else
      var k := FirstOffCpu(t[l], onCpu);
      Some((t[l][k], t[l := Without(t[l], k)]))
  }

  /** The task another core may take: executing epoch first, then the yielding one. */
  function Steal(e: Epochs, onCpu: seq<bool>): (r: Option<(nat, Epochs)>)
    requires InRange(e.executing, |onCpu|) && InRange(e.yielding, |onCpu|)
  {
    match TakeOffCpu(e.executing, onCpu)
    case Some(p) => Some((p.0, e.(executing := p.1)))
    case None =>
      match TakeOffCpu(e.yielding, onCpu)
      case Some(p) => Some((p.0, e.(yielding := p.1)))
      case None => None
  }

  /** Everything queued at one level, in either epoch. */
  function Load(e: Epochs, l: nat): (m: multiset<nat>)
    requires l < LEVELS
  {
    multiset(e.executing[l]) + multiset(e.yielding[l])
  }

  // A pick or a steal removes one occurrence of the task it returns from one level
  // and leaves every other level as it was.

  ghost predicate Removes(e: Epochs, e': Epochs, slot: nat, level: nat)
    requires level < LEVELS
  {
    && slot in Load(e, level)
    && Load(e', level) == Load(e, level) - multiset{slot}
    && forall l :: 0 <= l < LEVELS && l != level ==> Load(e', l) == Load(e, l)
  }

  lemma PickRemoves(e: Epochs) returns (level: nat)
    requires Pick(e).Some?
    ensures level < LEVELS && Removes(e, Pick(e).value.1, Pick(e).value.0, level)
  {
    var t := if !IsEmpty(e.executing) then e.executing else e.yielding;
    level := Top(t);
    assert t[level] == [t[level][0]] + t[level][1..];
  }

  /** The picked task heads the highest non-empty level of the epoch it comes from. */
  lemma PickIsOldestOfHighest(e: Epochs)
    requires Pick(e).Some?
    ensures var t := if IsEmpty(e.executing) then e.yielding else e.executing;
            exists l :: 0 <= l < LEVELS && t[l] != [] && Pick(e).value.0 == t[l][0]
                        && forall k :: l < k < LEVELS ==> t[k] == []
  {
    var t := if IsEmpty(e.executing) then e.yielding else e.executing;
    assert t[Top(t)] != [];
  }

  lemma StealRemoves(e: Epochs, onCpu: seq<bool>) returns (level: nat)
    requires InRange(e.executing, |onCpu|) && InRange(e.yielding, |onCpu|)
    requires Steal(e, onCpu).Some?
    ensures level < LEVELS && Removes(e, Steal(e, onCpu).value.1, Steal(e, onCpu).value.0, level)
    ensures Steal(e, onCpu).value.0 < |onCpu| && !onCpu[Steal(e, onCpu).value.0]
  {
    var x := StealLevel(e.executing, onCpu, LEVELS - 1);
    if x != -1 {
      level := x;
      OneLess(e, true, level, FirstOffCpu(e.executing[level], onCpu));
    } else {
      level := StealLevel(e.yielding, onCpu, LEVELS - 1);
      OneLess(e, false, level, FirstOffCpu(e.yielding[level], onCpu));
    }
  }

  /** One list without its k-th task. */
  lemma OneLess(e: Epochs, executing: bool, l: nat, k: nat)
    requires l < LEVELS && k < |(if executing then e.executing else e.yielding)[l]|
    ensures var t := if executing then e.executing else e.yielding;
      var t' := t[l := Without(t[l], k)];
      Removes(e, if executing then e.(executing := t') else e.(yielding := t'), t[l][k], l)
  {
    var t := if executing then e.executing else e.yielding;
    assert t[l][k] in t[l];
  }

  /** Some task of the table is off its CPU. */
  predicate SomeOffCpu(t: Levels, onCpu: seq<bool>)
    requires InRange(t, |onCpu|)
  {
    exists l, i :: 0 <= l < LEVELS && 0 <= i < |t[l]| && !onCpu[t[l][i]]
  }

  /** The slot is the oldest task off its CPU at the highest level that has one. */
  predicate FirstFree(t: Levels, onCpu: seq<bool>, slot: nat, l: nat, k: nat)
    requires InRange(t, |onCpu|)
  {
    && l < LEVELS && k < |t[l]| && t[l][k] == slot && !onCpu[slot]
    && (forall i :: 0 <= i < k ==> onCpu[t[l][i]])
    && (forall m, i :: l < m < LEVELS && 0 <= i < |t[m]| ==> onCpu[t[m][i]])
  }

  /** A thief tries the executing epoch first, and takes the oldest task off its CPU at the highest
      level that has one. */
  lemma StealTakesFirstFree(e: Epochs, onCpu: seq<bool>) returns (l: nat, k: nat)
    requires InRange(e.executing, |onCpu|) && InRange(e.yielding, |onCpu|)
    requires Steal(e, onCpu).Some?
    ensures FirstFree(if SomeOffCpu(e.executing, onCpu) then e.executing else e.yielding, onCpu,
                      Steal(e, onCpu).value.0, l, k)
  {
    var x := StealLevel(e.executing, onCpu, LEVELS - 1);
    var t := if x != -1 then e.executing else e.yielding;
    l := if x != -1 then x else StealLevel(e.yielding, onCpu, LEVELS - 1);
    k := FirstOffCpu(t[l], onCpu);
    assert x != -1 ==> !onCpu[e.executing[l][k]];
  }

  /** Nothing is stolen only when every queued task is on a CPU. */
  lemma StealFailsOnlyIfAllOnCpu(e: Epochs, onCpu: seq<bool>, l: nat, s: nat)
    requires InRange(e.executing, |onCpu|) && InRange(e.yielding, |onCpu|)
    requires Steal(e, onCpu).None? && l < LEVELS
    requires s in e.executing[l] || s in e.yielding[l]
    ensures s < |onCpu| && onCpu[s]
  {
    var t := if s in e.executing[l] then e.executing else e.yielding;
    assert FirstOffCpu(t[l], onCpu) == |t[l]|;
    var i :| 0 <= i < |t[l]| && t[l][i] == s;
  }
}
