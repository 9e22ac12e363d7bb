/** The run queues of kernel/src/process/scheduler.rs: singly linked lists threaded through
    one shared `next` field per task slot, a bitmap of non-empty priorities per table, and
    two tables per core that swap at the end of an epoch. Every operation is proved to act
    on the value in module QueueSpec that the links stand for. */
module RunQueue {
  import opened Wrappers
  import opened QueueSpec

  const INVALID_SLOT: nat := 65535

  datatype SlotQueue = SlotQueue(head: nat, tail: nat)
  datatype Table = Table(queues: seq<SlotQueue>, nonEmptyLevels: bv8)

  const EMPTY_QUEUE := SlotQueue(INVALID_SLOT, INVALID_SLOT)

  // ---------------------------------------------------------------- one list

  ghost predicate NoDuplicates(xs: seq<nat>) {
    forall i, j :: 0 <= i < j < |xs| ==> xs[i] != xs[j]
  }

  /** What the link of the i-th element must be. */
  ghost function After(xs: seq<nat>, i: nat): nat {
    if i + 1 < |xs| then xs[i + 1] else INVALID_SLOT
  }

  /** `q` and the links in `next` spell out exactly the sequence `xs`. */
  ghost predicate Linked(next: seq<nat>, q: SlotQueue, xs: seq<nat>) {
    && |next| <= INVALID_SLOT
    && NoDuplicates(xs)
    && (forall i :: 0 <= i < |xs| ==> xs[i] < |next|)
    && (forall i {:trigger After(xs, i)} :: 0 <= i < |xs| ==> next[xs[i]] == After(xs, i))
    && q.head == (if xs == [] then INVALID_SLOT else xs[0])
    && q.tail == (if xs == [] then INVALID_SLOT else xs[|xs| - 1])
  }

  /** The two link arrays agree on every slot outside `xs`. */
  ghost predicate SameOutside(before: seq<nat>, after: seq<nat>, xs: seq<nat>) {
    && |before| == |after|
    && forall k :: 0 <= k < |before| && k !in xs ==> after[k] == before[k]
  }

  lemma LinkedFrame(before: seq<nat>, after: seq<nat>, xs: seq<nat>, q: SlotQueue, ys: seq<nat>)
    requires Linked(before, q, ys) && SameOutside(before, after, xs)
    requires forall s :: s in ys ==> s !in xs
    ensures Linked(after, q, ys)
  {
    forall i | 0 <= i < |ys| ensures after[ys[i]] == before[ys[i]] {
      assert ys[i] in ys;
    }
  }

  method PushBack(next: array<nat>, q: SlotQueue, slot: nat, ghost xs: seq<nat>) returns (r: SlotQueue)
    requires Linked(next[..], q, xs)
    requires slot < next.Length && slot !in xs
    modifies next
    ensures Linked(next[..], r, xs + [slot])
    ensures SameOutside(old(next[..]), next[..], xs + [slot])
  {
    next[slot] := INVALID_SLOT;
    if q.tail == INVALID_SLOT {
      r := SlotQueue(slot, slot);
    } else {
      assert q.tail == xs[|xs| - 1] && q.tail in xs;
      assert forall i :: 0 <= i < |xs| - 1 ==> After(xs + [slot], i) == After(xs, i);
      next[q.tail] := slot;
      r := SlotQueue(q.head, slot);
    }
  }

  method PopFront(next: array<nat>, q: SlotQueue, ghost xs: seq<nat>) returns (slot: nat, r: SlotQueue)
    requires Linked(next[..], q, xs) && xs != []
    ensures slot == xs[0] && Linked(next[..], r, xs[1..])
  {
    slot := q.head;
    var following := next[slot];
    assert following == After(xs, 0);
    r := SlotQueue(following, if following == INVALID_SLOT then INVALID_SLOT else q.tail);
    TailSpells(next[..], q, r, xs);
  }

  lemma TailSpells(next: seq<nat>, q: SlotQueue, r: SlotQueue, xs: seq<nat>)
    requires Linked(next, q, xs) && xs != [] && r.head == After(xs, 0)
    requires r.tail == if r.head == INVALID_SLOT then INVALID_SLOT else q.tail
    ensures Linked(next, r, xs[1..])
  {
    var ys := xs[1..];
    forall i | 0 <= i < |ys| ensures ys[i] < |next| && next[ys[i]] == After(ys, i) {
      assert ys[i] == xs[i + 1] && next[xs[i + 1]] == After(xs, i + 1);
    }
  }

  /** Unlinks the first task that is off its CPU; INVALID_SLOT when there is none. */
  method RemoveFirstOffCpu(next: array<nat>, q: SlotQueue, onCpu: seq<bool>, ghost xs: seq<nat>)
    returns (slot: nat, r: SlotQueue)
    requires Linked(next[..], q, xs) && |onCpu| == next.Length
    modifies next
    ensures var k := FirstOffCpu(xs, onCpu);
            if k < |xs|
            then slot == xs[k] && Linked(next[..], r, Without(xs, k))
            else slot == INVALID_SLOT && r == q && next[..] == old(next[..])
    ensures SameOutside(old(next[..]), next[..], xs)
  {
    var previous, cursor := INVALID_SLOT, q.head;
    ghost var i := 0;
    while cursor != INVALID_SLOT
      invariant 0 <= i <= |xs|
      invariant cursor == if i < |xs| then xs[i] else INVALID_SLOT
      invariant previous == if 0 < i then xs[i - 1] else INVALID_SLOT
      invariant forall j :: 0 <= j < i ==> onCpu[xs[j]]
      invariant next[..] == old(next[..])
      decreases |xs| - i
    {
      var following := next[cursor];
      assert following == After(xs, i);
      if !onCpu[cursor] {
        ghost var k := FirstOffCpu(xs, onCpu);
        assert k == i;
        if previous == INVALID_SLOT {
          r := SlotQueue(following, q.tail);
        } else {
          next[previous] := following;
          r := SlotQueue(q.head, q.tail);
        }
        if q.tail == cursor {
          r := r.(tail := previous);
        }
        slot := cursor;
        UnlinkSpells(old(next[..]), next[..], q, r, xs, i);
        return;
      }
      previous := cursor;
      cursor := following;
      i := i + 1;
    }
    slot, r := INVALID_SLOT, q;
  }

  lemma UnlinkSpells(before: seq<nat>, after: seq<nat>, q: SlotQueue, r: SlotQueue, xs: seq<nat>, k: nat)
    requires Linked(before, q, xs) && k < |xs|
    requires after == if k == 0 then before else before[xs[k - 1] := before[xs[k]]]
    requires r.head == if k == 0 then before[xs[k]] else q.head
    requires r.tail == if q.tail != xs[k] then q.tail else if k == 0 then INVALID_SLOT else xs[k - 1]
    ensures Linked(after, r, Without(xs, k))
    ensures SameOutside(before, after, xs)
  {
    var ys := Without(xs, k);
    assert k > 0 ==> xs[k - 1] in xs;
    assert before[xs[k]] == After(xs, k);
    WithoutAt(xs, k);
    forall i | 0 <= i < |ys| ensures ys[i] < |after| && after[ys[i]] == After(ys, i) {
      UnlinkAt(before, after, q, xs, k, i);
    }
  }

  lemma WithoutAt(xs: seq<nat>, k: nat)
    requires k < |xs|
    ensures |Without(xs, k)| == |xs| - 1
    ensures forall i :: 0 <= i < |xs| - 1 ==> Without(xs, k)[i] == xs[if i < k then i else i + 1]
    ensures NoDuplicates(xs) ==> NoDuplicates(Without(xs, k))
  {
    assert Without(xs, k) == xs[..k] + xs[k + 1..];
  }

  lemma UnlinkAt(before: seq<nat>, after: seq<nat>, q: SlotQueue, xs: seq<nat>, k: nat, i: nat)
    requires Linked(before, q, xs) && k < |xs| && i < |xs| - 1
    requires after == if k == 0 then before else before[xs[k - 1] := before[xs[k]]]
    ensures var ys := Without(xs, k); i < |ys| && ys[i] < |after| && after[ys[i]] == After(ys, i)
  {
    WithoutAt(xs, k);
    var ys, j := Without(xs, k), if i < k then i else i + 1;
    assert before[xs[k]] == After(xs, k);
    assert ys[i] == xs[j] && before[xs[j]] == After(xs, j);
    assert After(ys, i) == After(xs, if i + 1 == k then k else j);
  }

  method Contains(next: array<nat>, q: SlotQueue, slot: nat, ghost xs: seq<nat>) returns (found: bool)
    requires Linked(next[..], q, xs)
    ensures found <==> slot in xs
  {
    var cursor := q.head;
    ghost var i := 0;
    while cursor != INVALID_SLOT
      invariant 0 <= i <= |xs|
      invariant cursor == if i < |xs| then xs[i] else INVALID_SLOT
      invariant slot !in xs[..i]
      decreases |xs| - i
    {
      if cursor == slot { return true; }
      assert xs[..i + 1] == xs[..i] + [xs[i]];
      assert next[cursor] == After(xs, i);
      cursor := next[cursor];
      i := i + 1;
    }
    assert xs[..i] == xs;
    found := false;
  }

  // ---------------------------------------------------------------- one table

  predicate Bit(m: bv8, l: nat)
    requires l < LEVELS
  {
    (m >> l) & 1 == 1
  }

  lemma SetBitAt(m: bv8, p: nat, l: nat)
    requires p < LEVELS && l < LEVELS
    ensures Bit(m | (1 << p), l) == (l == p || Bit(m, l))
  {
  }

  lemma ClearBitAt(m: bv8, p: nat, l: nat)
    requires p < LEVELS && l < LEVELS
    ensures Bit(m & !(1 << p), l) == (l != p && Bit(m, l))
  {
  }

  method SetBit(m: bv8, p: nat) returns (r: bv8)
    requires p < LEVELS
    ensures forall l :: 0 <= l < LEVELS ==> Bit(r, l) == (l == p || Bit(m, l))
  {
    r := m | (1 << p);
    forall l | 0 <= l < LEVELS ensures Bit(r, l) == (l == p || Bit(m, l)) { SetBitAt(m, p, l); }
  }

  method ClearBit(m: bv8, p: nat) returns (r: bv8)
    requires p < LEVELS
    ensures forall l :: 0 <= l < LEVELS ==> Bit(r, l) == (l != p && Bit(m, l))
  {
    r := m & !(1 << p);
    forall l | 0 <= l < LEVELS ensures Bit(r, l) == (l != p && Bit(m, l)) { ClearBitAt(m, p, l); }
  }

  lemma BitmapZero(m: bv8)
    ensures m == 0 <==> forall l :: 0 <= l < LEVELS ==> !Bit(m, l)
  {
    if m != 0 {
      assert Bit(m, 0) || Bit(m, 1) || Bit(m, 2) || Bit(m, 3)
          || Bit(m, 4) || Bit(m, 5) || Bit(m, 6) || Bit(m, 7);
    }
  }

  /** Seven minus the number of leading zeros. */
  function HighestSetBit(m: bv8): (l: nat)
    requires m != 0
    ensures l < LEVELS && Bit(m, l)
    ensures forall k :: l < k < LEVELS ==> !Bit(m, k)
  {
    if m >= 128 then 7 else if m >= 64 then 6 else if m >= 32 then 5 else if m >= 16 then 4
    else if m >= 8 then 3 else if m >= 4 then 2 else if m >= 2 then 1 else 0
  }

  ghost predicate TableOk(next: seq<nat>, table: Table, ls: Levels) {
    && |table.queues| == LEVELS
    && (forall l :: 0 <= l < LEVELS ==> Linked(next, table.queues[l], ls[l]))
    && (forall l :: 0 <= l < LEVELS ==> (Bit(table.nonEmptyLevels, l) <==> ls[l] != []))
  }

  /** No two of the lists share a slot. */
  ghost predicate Apart(ls: Levels) {
    forall l, k, s :: 0 <= l < k < LEVELS && s in ls[l] ==> s !in ls[k]
  }

  ghost predicate Holds(ls: Levels, s: nat) {
    exists l :: 0 <= l < LEVELS && s in ls[l]
  }

  /** Replacing the list of one level, with its bit, keeps the table in order. */
  lemma ReplaceLevel(before: seq<nat>, after: seq<nat>, table: Table, ls: Levels,
                     level: nat, q: SlotQueue, ys: seq<nat>, bits: bv8, touched: seq<nat>)
    requires TableOk(before, table, ls) && level < LEVELS && Linked(after, q, ys)
    requires SameOutside(before, after, touched)
    requires forall l, s :: 0 <= l < LEVELS && l != level && s in ls[l] ==> s !in touched
    requires forall l :: 0 <= l < LEVELS ==>
      Bit(bits, l) == if l == level then ys != [] else Bit(table.nonEmptyLevels, l)
    ensures TableOk(after, Table(table.queues[level := q], bits), ls[level := ys])
  {
    forall l | 0 <= l < LEVELS && l != level
      ensures Linked(after, table.queues[l], ls[l])
    {
      LinkedFrame(before, after, touched, table.queues[l], ls[l]);
    }
  }

  lemma HighestBitIsTop(next: seq<nat>, table: Table, ls: Levels)
    requires TableOk(next, table, ls) && !IsEmpty(ls)
    ensures table.nonEmptyLevels != 0 && HighestSetBit(table.nonEmptyLevels) == Top(ls)
  {
    BitmapZero(table.nonEmptyLevels);
    assert Bit(table.nonEmptyLevels, Top(ls));
    var b := HighestSetBit(table.nonEmptyLevels);
    assert ls[b] != [];
  }

  method IsTableEmpty(table: Table, ghost next: seq<nat>, ghost ls: Levels) returns (empty: bool)
    requires TableOk(next, table, ls)
    ensures empty <==> IsEmpty(ls)
  {
    BitmapZero(table.nonEmptyLevels);
    empty := table.nonEmptyLevels == 0;
  }

  method TablePush(next: array<nat>, table: Table, slot: nat, priority: nat, ghost ls: Levels)
    returns (r: Table)
    requires TableOk(next[..], table, ls) && Apart(ls)
    requires slot < next.Length && priority < LEVELS && !Holds(ls, slot)
    modifies next
    ensures TableOk(next[..], r, Push(ls, slot, priority))
    ensures SameOutside(old(next[..]), next[..], ls[priority] + [slot])
  {
    var q := PushBack(next, table.queues[priority], slot, ls[priority]);
    var bits := SetBit(table.nonEmptyLevels, priority);
    ReplaceLevel(old(next[..]), next[..], table, ls, priority, q, ls[priority] + [slot], bits, ls[priority] + [slot]);
    r := Table(table.queues[priority := q], bits);
  }

  method TablePop(next: array<nat>, table: Table, ghost ls: Levels) returns (slot: nat, r: Table)
    requires TableOk(next[..], table, ls) && !IsEmpty(ls)
    ensures slot == PopHighest(ls).0
    ensures TableOk(next[..], r, PopHighest(ls).1)
  {
    HighestBitIsTop(next[..], table, ls);
    var level := HighestSetBit(table.nonEmptyLevels);
    var q;
    slot, q := PopFront(next, table.queues[level], ls[level]);
    var bits := table.nonEmptyLevels;
    if q.head == INVALID_SLOT {
      bits := ClearBit(bits, level);
    }
    ReplaceLevel(next[..], next[..], table, ls, level, q, ls[level][1..], bits, []);
    r := Table(table.queues[level := q], bits);
  }

  /** Takes the first task of one level that is not on a CPU, if there is one. */
  method TakeAtLevel(next: array<nat>, table: Table, level: nat, onCpu: seq<bool>, ghost ls: Levels)
    returns (slot: nat, r: Table)
    requires TableOk(next[..], table, ls) && Apart(ls) && |onCpu| == next.Length && level < LEVELS
    requires InRange(ls, |onCpu|)
    modifies next
    ensures var k := FirstOffCpu(ls[level], onCpu);
      if k == |ls[level]| then slot == INVALID_SLOT && r == table && next[..] == old(next[..])
      else slot != INVALID_SLOT && slot == ls[level][k] && TableOk(next[..], r, ls[level := Without(ls[level], k)])
           && SameOutside(old(next[..]), next[..], ls[level])
  {
    var q;
    slot, q := RemoveFirstOffCpu(next, table.queues[level], onCpu, ls[level]);
    r := table;
    if slot != INVALID_SLOT {
      var bits := table.nonEmptyLevels;
      if q.head == INVALID_SLOT {
        bits := ClearBit(bits, level);
      }
      ghost var ys := Without(ls[level], FirstOffCpu(ls[level], onCpu));
      ReplaceLevel(old(next[..]), next[..], table, ls, level, q, ys, bits, ls[level]);
      r := Table(table.queues[level := q], bits);
    }
  }

  method TableTakeOffCpu(next: array<nat>, table: Table, onCpu: seq<bool>, ghost ls: Levels)
    returns (slot: nat, r: Table)
    requires TableOk(next[..], table, ls) && Apart(ls) && |onCpu| == next.Length
    requires InRange(ls, |onCpu|)
    modifies next
    ensures match TakeOffCpu(ls, onCpu)
            case Some(p) => slot == p.0 && TableOk(next[..], r, p.1)
            case None => slot == INVALID_SLOT && r == table && TableOk(next[..], r, ls)
    ensures exists l :: 0 <= l < LEVELS && SameOutside(old(next[..]), next[..], ls[l])
  {
    var level := LEVELS;
    while 0 < level
      invariant 0 <= level <= LEVELS
      invariant next[..] == old(next[..])
      invariant StealLevel(ls, onCpu, LEVELS - 1) < level
      decreases level
    {
      level := level - 1;
      slot, r := TakeAtLevel(next, table, level, onCpu, ls);
      if slot != INVALID_SLOT {
        assert StealLevel(ls, onCpu, LEVELS - 1) == level;
        return;
      }
    }
    slot, r := INVALID_SLOT, table;
    assert SameOutside(old(next[..]), next[..], ls[0]);
  }

  method TableContains(next: array<nat>, table: Table, slot: nat, ghost ls: Levels) returns (found: bool)
    requires TableOk(next[..], table, ls)
    ensures found <==> Holds(ls, slot)
  {
    for level := 0 to LEVELS
      invariant forall l :: 0 <= l < level ==> slot !in ls[l]
    {
      found := Contains(next, table.queues[level], slot, ls[level]);
      if found { return; }
    }
    found := false;
  }

  // ---------------------------------------------------------------- every core

  lemma TableFrame(before: seq<nat>, after: seq<nat>, touched: seq<nat>, table: Table, ls: Levels)
    requires TableOk(before, table, ls) && SameOutside(before, after, touched)
    requires forall l, s :: 0 <= l < LEVELS && s in ls[l] ==> s !in touched
    ensures TableOk(after, table, ls)
  {
    forall l | 0 <= l < LEVELS ensures Linked(after, table.queues[l], ls[l]) {
      LinkedFrame(before, after, touched, table.queues[l], ls[l]);
    }
  }

  /** No slot is in two different lists, whatever core or epoch they belong to. */
  ghost predicate AllApart(lists: seq<Levels>) {
    forall t, l, u, k, s | 0 <= t < |lists| && 0 <= l < LEVELS && 0 <= u < |lists| && 0 <= k < LEVELS ::
      (t != u || l != k) && s in lists[t][l] ==> s !in lists[u][k]
  }

  ghost predicate Queued(lists: seq<Levels>, s: nat) {
    exists t :: 0 <= t < |lists| && Holds(lists[t], s)
  }

  ghost function EpochsOf(lists: seq<Levels>, core: nat): Epochs
    requires 2 * core + 1 < |lists|
  {
    Epochs(lists[2 * core], lists[2 * core + 1])
  }

  /** Replacing the two lists of one core leaves the other cores alone. */
  lemma OnlyEpochsOf(lists: seq<Levels>, lists': seq<Levels>, core: nat, e: Epochs)
    requires 2 * core + 1 < |lists| && lists' == lists[2 * core := e.executing][2 * core + 1 := e.yielding]
    ensures |lists'| == |lists| && EpochsOf(lists', core) == e
    ensures forall c :: 0 <= c && 2 * c + 1 < |lists| && c != core ==> EpochsOf(lists', c) == EpochsOf(lists, c)
  {
  }

  /** The run queues of all cores over the one shared link array. Table 2c is the
      executing epoch of core c, table 2c + 1 the yielding one. */
  class RunQueues {
    const next: array<nat>
    var tables: seq<Table>
    ghost var lists: seq<Levels>

    ghost predicate Valid()
      reads this, next
    {
      && next.Length <= INVALID_SLOT
      && |tables| == |lists| && |tables| % 2 == 0
      && (forall t :: 0 <= t < |tables| ==> TableOk(next[..], tables[t], lists[t]))
      && AllApart(lists)
    }

    ghost function Cores(): nat
      reads this
    {
      |lists| / 2
    }

    ghost function Model(core: nat): Epochs
      requires core < Cores()
      reads this
    {
      EpochsOf(lists, core)
    }

    ghost predicate Idle(s: nat)
      reads this
    {
      !Queued(lists, s)
    }

    constructor (cores: nat, slots: nat)
      requires slots <= INVALID_SLOT
      ensures Valid() && fresh(next) && next.Length == slots && Cores() == cores
      ensures forall c :: 0 <= c < cores ==> Model(c) == Epochs(NO_TASKS, NO_TASKS)
    {
      next := new nat[slots](_ => INVALID_SLOT);
      tables := seq(2 * cores, _ => Table(seq(LEVELS, _ => EMPTY_QUEUE), 0));
      lists := seq(2 * cores, _ => NO_TASKS);
      new;
      BitmapZero(0);
    }

    /** Restores Valid() after one table and the links of `touched` changed. */
    ghost method Replaced(t: nat, r: Table, ls: Levels, before: seq<nat>, touched: seq<nat>)
      requires |tables| == |lists| && |tables| % 2 == 0 && t < |tables|
      requires next.Length <= INVALID_SLOT
      requires forall u :: 0 <= u < |tables| && u != t ==> TableOk(before, tables[u], lists[u])
      requires TableOk(next[..], r, ls) && AllApart(lists[t := ls])
      requires SameOutside(before, next[..], touched)
      requires forall u, l, s :: 0 <= u < |lists| && u != t && 0 <= l < LEVELS && s in lists[u][l] ==> s !in touched
      requires tables[t] == r
      modifies this`lists
      ensures Valid() && lists == old(lists)[t := ls]
    {
      lists := lists[t := ls];
      forall u | 0 <= u < |tables| ensures TableOk(next[..], tables[u], lists[u]) {
        if u != t { TableFrame(before, next[..], touched, tables[u], lists[u]); }
      }
    }

    method PushTo(t: nat, slot: nat, priority: nat)
      requires Valid() && t < |tables|
      requires slot < next.Length && priority < LEVELS && Idle(slot)
      modifies this`tables, this`lists, next
      ensures Valid() && lists == old(lists)[t := Push(old(lists)[t], slot, priority)]
    {
      assert !Holds(lists[t], slot);
      var r := TablePush(next, tables[t], slot, priority, lists[t]);
      tables := tables[t := r];
      PushApart(lists, t, slot, priority);
      forall u, l, s | 0 <= u < |lists| && u != t && 0 <= l < LEVELS && s in lists[u][l]
        ensures s !in lists[t][priority] + [slot]
      {
        assert !Holds(lists[u], slot);
      }
      Replaced(t, r, Push(lists[t], slot, priority), old(next[..]), lists[t][priority] + [slot]);
    }

    method PushExecutingTask(core: nat, slot: nat, priority: nat)
      requires Valid() && core < Cores()
      requires slot < next.Length && priority < LEVELS && Idle(slot)
      modifies this`tables, this`lists, next
      ensures Valid() && Cores() == old(Cores())
      ensures Model(core) == old(Model(core)).(executing := Push(old(Model(core)).executing, slot, priority))
      ensures var q, q' := old(Model(core)).executing, Model(core).executing;
        && |q'[priority]| == |q[priority]| + 1 && q'[priority][|q[priority]|] == slot
        && (forall i :: 0 <= i < |q[priority]| ==> q'[priority][i] == q[priority][i])
        && (forall l :: 0 <= l < LEVELS && l != priority ==> q'[l] == q[l])
      ensures forall c :: 0 <= c < Cores() && c != core ==> Model(c) == old(Model(c))
    {
      PushTo(2 * core, slot, priority);
    }

    method PushYieldingTask(core: nat, slot: nat, priority: nat)
      requires Valid() && core < Cores()
      requires slot < next.Length && priority < LEVELS && Idle(slot)
      modifies this`tables, this`lists, next
      ensures Valid() && Cores() == old(Cores())
      ensures Model(core) == old(Model(core)).(yielding := Push(old(Model(core)).yielding, slot, priority))
      ensures var q, q' := old(Model(core)).yielding, Model(core).yielding;
        && |q'[priority]| == |q[priority]| + 1 && q'[priority][|q[priority]|] == slot
        && (forall i :: 0 <= i < |q[priority]| ==> q'[priority][i] == q[priority][i])
        && (forall l :: 0 <= l < LEVELS && l != priority ==> q'[l] == q[l])
      ensures forall c :: 0 <= c < Cores() && c != core ==> Model(c) == old(Model(c))
    {
      PushTo(2 * core + 1, slot, priority);
    }

    /** INVALID_SLOT when nothing is queued; otherwise the task QueueSpec.Pick names,
        which is afterwards in no list at all. */
    method PickNextTask(core: nat) returns (slot: nat)
      requires Valid() && core < Cores()
      modifies this`tables, this`lists
      ensures Valid() && Cores() == old(Cores())
      ensures match Pick(old(Model(core)))
              case None => slot == INVALID_SLOT && Model(core) == old(Model(core))
              case Some(p) => slot == p.0 && Model(core) == p.1 && Idle(slot)
      ensures forall c :: 0 <= c < Cores() && c != core ==> Model(c) == old(Model(c))
    {
      var e, y := 2 * core, 2 * core + 1;
      var empty := IsTableEmpty(tables[e], next[..], lists[e]);
      if empty {
        var bothEmpty := IsTableEmpty(tables[y], next[..], lists[y]);
        if bothEmpty {
          return INVALID_SLOT;
        }
        tables := tables[e := tables[y]][y := tables[e]];
        lists := lists[e := lists[y]][y := lists[e]];
      }
      var r;
      slot, r := TablePop(next, tables[e], lists[e]);
      PopApart(lists, e);
      tables := tables[e := r];
      Replaced(e, r, PopHighest(lists[e]).1, next[..], []);
    }

    /** Queued slots are slots. */
    lemma InRangeAll(t: nat)
      requires Valid() && t < |tables|
      ensures InRange(lists[t], next.Length)
    {
      assert TableOk(next[..], tables[t], lists[t]);
      forall l, i | 0 <= l < LEVELS && 0 <= i < |lists[t][l]| ensures lists[t][l][i] < next.Length {
        assert Linked(next[..], tables[t].queues[l], lists[t][l]);
      }
    }

    method TakeStealableTask(core: nat, onCpu: seq<bool>) returns (slot: nat)
      requires Valid() && core < Cores() && |onCpu| == next.Length
      modifies this`tables, this`lists, next
      ensures Valid() && Cores() == old(Cores())
      ensures match Steal(old(Model(core)), onCpu)
              case None => slot == INVALID_SLOT && Model(core) == old(Model(core))
              case Some(p) => slot == p.0 && Model(core) == p.1 && Idle(slot)
      ensures forall c :: 0 <= c < Cores() && c != core ==> Model(c) == old(Model(c))
    {
      InRangeAll(2 * core);
      InRangeAll(2 * core + 1);
      slot := TakeFromEither(2 * core, 2 * core + 1, onCpu);
      match Steal(old(Model(core)), onCpu)
      case Some(p) => OnlyEpochsOf(old(lists), lists, core, p.1);
      case None =>
    }

    /** The executing table a is tried first, then the yielding table b. */
    method TakeFromEither(a: nat, b: nat, onCpu: seq<bool>) returns (slot: nat)
      requires Valid() && a < b < |tables| && |onCpu| == next.Length
      requires InRange(lists[a], |onCpu|) && InRange(lists[b], |onCpu|)
      modifies this`tables, this`lists, next
      ensures Valid()
      ensures match Steal(Epochs(old(lists)[a], old(lists)[b]), onCpu)
              case None => slot == INVALID_SLOT && lists == old(lists)
              case Some(p) => slot == p.0 && Idle(slot) && lists == old(lists)[a := p.1.executing][b := p.1.yielding]
    {
      slot := TakeFrom(a, onCpu);
      if slot == INVALID_SLOT {
        assert TakeOffCpu(old(lists)[a], onCpu).None? && lists == old(lists);
        slot := TakeFrom(b, onCpu);
        assert old(lists)[a := old(lists)[a]] == old(lists);
      } else {
        assert TakeOffCpu(old(lists)[a], onCpu).Some?;
        assert lists[b := old(lists)[b]] == lists;
      }
    }

    method TakeFrom(t: nat, onCpu: seq<bool>) returns (slot: nat)
      requires Valid() && t < |tables| && |onCpu| == next.Length
      requires InRange(lists[t], |onCpu|)
      modifies this`tables, this`lists, next
      ensures Valid()
      ensures match TakeOffCpu(old(lists[t]), onCpu)
              case None => slot == INVALID_SLOT && lists == old(lists)
              case Some(p) => slot == p.0 && slot < next.Length && lists == old(lists)[t := p.1] && Idle(slot)
    {
      var r;
      slot, r := TableTakeOffCpu(next, tables[t], onCpu, lists[t]);
      ghost var l :| 0 <= l < LEVELS && SameOutside(old(next[..]), next[..], lists[t][l]);
      tables := tables[t := r];
      ghost var left := LeftOf(lists[t], onCpu);
      LeftApart(lists, t, onCpu);
      Replaced(t, r, left, old(next[..]), lists[t][l]);
    }

    method ContainsTask(core: nat, slot: nat) returns (found: bool)
      requires Valid() && core < Cores()
      ensures found <==> exists l :: 0 <= l < LEVELS && slot in Load(Model(core), l)
    {
      found := TableContains(next, tables[2 * core], slot, lists[2 * core]);
      if !found {
        found := TableContains(next, tables[2 * core + 1], slot, lists[2 * core + 1]);
      }
      assert forall l :: 0 <= l < LEVELS ==>
        (slot in Load(Model(core), l) <==> slot in lists[2 * core][l] || slot in lists[2 * core + 1][l]);
    }
  }

  /** What is left of a table after the take. */
  ghost function LeftOf(ls: Levels, onCpu: seq<bool>): Levels
    requires InRange(ls, |onCpu|)
  {
    if TakeOffCpu(ls, onCpu).Some? then TakeOffCpu(ls, onCpu).value.1 else ls
  }

  lemma LeftApart(lists: seq<Levels>, t: nat, onCpu: seq<bool>)
    requires AllApart(lists) && t < |lists| && InRange(lists[t], |onCpu|)
    requires forall l :: 0 <= l < LEVELS ==> NoDuplicates(lists[t][l])
    ensures AllApart(lists[t := LeftOf(lists[t], onCpu)])
    ensures TakeOffCpu(lists[t], onCpu).None? ==> lists[t := LeftOf(lists[t], onCpu)] == lists
    ensures TakeOffCpu(lists[t], onCpu).Some? ==>
      !Queued(lists[t := LeftOf(lists[t], onCpu)], TakeOffCpu(lists[t], onCpu).value.0)
  {
    if TakeOffCpu(lists[t], onCpu).Some? { TakeApart(lists, t, onCpu); } else { assert lists[t := lists[t]] == lists; }
  }

  lemma PushApart(lists: seq<Levels>, t: nat, slot: nat, priority: nat)
    requires AllApart(lists) && t < |lists| && priority < LEVELS && !Queued(lists, slot)
    ensures AllApart(lists[t := Push(lists[t], slot, priority)])
  {
    forall u, l | 0 <= u < |lists| && 0 <= l < LEVELS ensures slot !in lists[u][l] {
      assert !Holds(lists[u], slot);
    }
  }

  /** Dropping the k-th element of one list keeps the lists apart and frees its slot. */
  lemma DropApart(lists: seq<Levels>, t: nat, level: nat, k: nat)
    requires AllApart(lists) && t < |lists| && level < LEVELS && k < |lists[t][level]|
    requires NoDuplicates(lists[t][level])
    ensures var after := lists[t := lists[t][level := Without(lists[t][level], k)]];
            AllApart(after) && !Queued(after, lists[t][level][k])
  {
    var xs := lists[t][level];
    var ys := Without(xs, k);
    forall s | s in ys ensures s in xs && s != xs[k] {
      var i :| 0 <= i < |ys| && ys[i] == s;
      assert ys[i] == if i < k then xs[i] else xs[i + 1];
    }
    var after := lists[t := lists[t][level := ys]];
    forall u, l | 0 <= u < |after| && 0 <= l < LEVELS ensures xs[k] !in after[u][l] {
      assert xs[k] in lists[t][level];
    }
  }

  lemma PopApart(lists: seq<Levels>, t: nat)
    requires AllApart(lists) && t < |lists| && !IsEmpty(lists[t])
    requires NoDuplicates(lists[t][Top(lists[t])])
    ensures var p := PopHighest(lists[t]);
            AllApart(lists[t := p.1]) && !Queued(lists[t := p.1], p.0)
  {
    var l := Top(lists[t]);
    DropApart(lists, t, l, 0);
    assert Without(lists[t][l], 0) == lists[t][l][1..];
  }

  lemma TakeApart(lists: seq<Levels>, t: nat, onCpu: seq<bool>)
    requires AllApart(lists) && t < |lists| && InRange(lists[t], |onCpu|)
    requires forall l :: 0 <= l < LEVELS ==> NoDuplicates(lists[t][l])
    requires TakeOffCpu(lists[t], onCpu).Some?
    ensures var p := TakeOffCpu(lists[t], onCpu).value;
            AllApart(lists[t := p.1]) && !Queued(lists[t := p.1], p.0)
  {
    var l := StealLevel(lists[t], onCpu, LEVELS - 1);
    DropApart(lists, t, l, FirstOffCpu(lists[t][l], onCpu));
  }
}
