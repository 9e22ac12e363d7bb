/** The event ring shared by the kernel and a user program: one producer
    (kernel/src/events/event_buffer.rs) and one consumer (EventReader::try_read in
    user/rustspace/src/lib.rs), every atomic operation of either a step of its own. */
module EventRing {

  const MAX_EVENT_COUNT: nat := 253

  datatype Producer<E> =
    | Waiting
    | RoomSeen(event: E)               // read event_count below the capacity
    | HasSlot(event: E, idx: nat)      // read write_idx
    | Stored(event: E, idx: nat)       // wrote the event
    | Advanced                         // stored the next write_idx

  datatype Consumer<E> =
    | Polling
    | DataSeen                         // read event_count above zero
    | AtSlot(idx: nat)                 // read read_idx
    | Loaded(event: E, idx: nat)       // read the event
    | Released(event: E)               // stored the next read_idx

  /** The four shared words, the two program counters, and what each side was told:
      pushes that returned Ok and events that try_read returned. */
  datatype State<E> = State(
    events: seq<E>, writeIdx: nat, readIdx: nat, count: int,
    producer: Producer<E>, consumer: Consumer<E>,
    accepted: seq<E>, delivered: seq<E>)

  datatype Action<E> =
    | ReadCount(event: E)      // the producer is given an event
    | ReadWriteIdx | StoreEvent | StoreWriteIdx | AddCount
    | PollCount | ReadReadIdx | LoadEvent | StoreReadIdx | SubCount

  predicate Enabled<E>(st: State<E>, a: Action<E>) {
    match a
    case ReadCount(_) => st.producer.Waiting?
    case ReadWriteIdx => st.producer.RoomSeen?
    case StoreEvent => st.producer.HasSlot? && st.producer.idx < |st.events|
    case StoreWriteIdx => st.producer.Stored?
    case AddCount => st.producer.Advanced?
    case PollCount => st.consumer.Polling?
    case ReadReadIdx => st.consumer.DataSeen?
    case LoadEvent => st.consumer.AtSlot? && st.consumer.idx < |st.events|
    case StoreReadIdx => st.consumer.Loaded?
    case SubCount => st.consumer.Released?
  }

  function Apply<E>(st: State<E>, a: Action<E>): State<E>
    requires Enabled(st, a)
  {
    match a
    case ReadCount(e) => if st.count >= MAX_EVENT_COUNT then st else st.(producer := RoomSeen(e))
    case ReadWriteIdx => st.(producer := HasSlot(st.producer.event, st.writeIdx))
    case StoreEvent =>
      st.(events := st.events[st.producer.idx := st.producer.event],
          producer := Stored(st.producer.event, st.producer.idx))
    case StoreWriteIdx =>
      st.(writeIdx := (st.producer.idx + 1) % MAX_EVENT_COUNT, producer := Advanced,
          accepted := st.accepted + [st.producer.event])
    case AddCount => st.(count := st.count + 1, producer := Waiting)
    case PollCount => if st.count == 0 then st else st.(consumer := DataSeen)
    case ReadReadIdx =>
      if st.readIdx >= MAX_EVENT_COUNT then st.(readIdx := 0, consumer := Polling)
      else st.(consumer := AtSlot(st.readIdx))
    case LoadEvent => st.(consumer := Loaded(st.events[st.consumer.idx], st.consumer.idx))
    case StoreReadIdx =>
      st.(readIdx := (st.consumer.idx + 1) % MAX_EVENT_COUNT, consumer := Released(st.consumer.event),
          delivered := st.delivered + [st.consumer.event])
    case SubCount => st.(count := st.count - 1, consumer := Polling)
  }

  predicate Init<E>(st: State<E>) {
    && |st.events| == MAX_EVENT_COUNT && st.writeIdx == 0 && st.readIdx == 0 && st.count == 0
    && st.producer.Waiting? && st.consumer.Polling? && st.accepted == [] && st.delivered == []
  }

  /** Events stored with write_idx moved past them, and events read with read_idx moved past them. */
  function Put<E>(st: State<E>): nat { |st.accepted| }
  function Got<E>(st: State<E>): nat { |st.delivered| }

  /** What event_count counts: puts the producer has announced minus gets the consumer has. */
  function Announced<E>(st: State<E>): int { Put(st) - if st.producer.Advanced? then 1 else 0 }
  function Retired<E>(st: State<E>): int { Got(st) - if st.consumer.Released? then 1 else 0 }

  ghost predicate Inv<E(!new)>(st: State<E>) {
    && |st.events| == MAX_EVENT_COUNT
    && st.writeIdx == Put(st) % MAX_EVENT_COUNT && st.readIdx == Got(st) % MAX_EVENT_COUNT
    && st.count == Announced(st) - Retired(st)
    && 0 <= Retired(st) && Got(st) <= Announced(st) && Put(st) - Retired(st) <= MAX_EVENT_COUNT
    // everything delivered was accepted, in the same order
    && st.delivered <= st.accepted
    // every unread event is intact in its slot
    && (forall j :: Got(st) <= j < Put(st) ==> st.events[j % MAX_EVENT_COUNT] == st.accepted[j])
    && ProducerOk(st) && ConsumerOk(st)
  }

  ghost predicate ProducerOk<E(!new)>(st: State<E>) {
    match st.producer
    case Waiting => true
    case Advanced => true
    case RoomSeen(_) => Put(st) - Retired(st) < MAX_EVENT_COUNT
    case HasSlot(_, i) => i == st.writeIdx && Put(st) - Retired(st) < MAX_EVENT_COUNT
    case Stored(e, i) => i == st.writeIdx && Put(st) - Retired(st) < MAX_EVENT_COUNT
                         && i < |st.events| && st.events[i] == e
  }

  ghost predicate ConsumerOk<E(!new)>(st: State<E>) {
    match st.consumer
    case Polling => true
    case Released(_) => true
    case DataSeen => Got(st) < Put(st) && Got(st) < Announced(st)
    case AtSlot(i) => i == st.readIdx && Got(st) < Announced(st)
    case Loaded(e, i) => i == st.readIdx && Got(st) < Announced(st) && e == st.accepted[Got(st)]
  }

  lemma SlotsDiffer(i: nat, j: nat)
    requires i < j < i + MAX_EVENT_COUNT
    ensures i % MAX_EVENT_COUNT != j % MAX_EVENT_COUNT
  {
  }

  lemma StoreEventKeepsInv<E(!new)>(st: State<E>)
    requires Inv(st) && Enabled(st, StoreEvent)
    ensures Inv(Apply(st, StoreEvent))
  {
    var st' := Apply(st, StoreEvent);
    forall j | Got(st) <= j < Put(st) ensures st'.events[j % MAX_EVENT_COUNT] == st'.accepted[j] {
      SlotsDiffer(j, Put(st));
    }
  }

  lemma NextSlot(n: nat)
    ensures (n % MAX_EVENT_COUNT + 1) % MAX_EVENT_COUNT == (n + 1) % MAX_EVENT_COUNT
  {
  }

  lemma StoreWriteIdxKeepsInv<E(!new)>(st: State<E>)
    requires Inv(st) && Enabled(st, StoreWriteIdx)
    ensures Inv(Apply(st, StoreWriteIdx))
  {
    var st' := Apply(st, StoreWriteIdx);
    NextSlot(Put(st));
    forall j | Got(st') <= j < Put(st') ensures st'.events[j % MAX_EVENT_COUNT] == st'.accepted[j] {
      if j < Put(st) { assert st'.accepted[j] == st.accepted[j]; }
    }
  }

  lemma StoreReadIdxKeepsInv<E(!new)>(st: State<E>)
    requires Inv(st) && Enabled(st, StoreReadIdx)
    ensures Inv(Apply(st, StoreReadIdx))
  {
    var st' := Apply(st, StoreReadIdx);
    NextSlot(Got(st));
    assert st'.delivered == st.accepted[..Got(st) + 1];
  }

  lemma OtherStepsKeepInv<E(!new)>(st: State<E>, a: Action<E>)
    requires Inv(st) && Enabled(st, a) && !a.StoreEvent? && !a.StoreWriteIdx? && !a.StoreReadIdx?
    ensures Inv(Apply(st, a))
  {
    assert st.consumer.AtSlot? ==> st.events[Got(st) % MAX_EVENT_COUNT] == st.accepted[Got(st)];
  }

  lemma StepKeepsInv<E(!new)>(st: State<E>, a: Action<E>)
    requires Inv(st) && Enabled(st, a)
    ensures Inv(Apply(st, a))
  {
    match a
    case StoreEvent => StoreEventKeepsInv(st);
    case StoreWriteIdx => StoreWriteIdxKeepsInv(st);
    case StoreReadIdx => StoreReadIdxKeepsInv(st);
    case _ => OtherStepsKeepInv(st, a);
  }

  ghost predicate Next<E(!new)>(st: State<E>, a: Action<E>, st': State<E>) {
    Enabled(st, a) && st' == Apply(st, a)
  }

  ghost predicate Run<E(!new)>(run: seq<State<E>>, acts: seq<Action<E>>) {
    && |run| == |acts| + 1 && Init(run[0])
    && forall i :: 0 <= i < |acts| ==> Next(run[i], acts[i], run[i + 1])
  }

  lemma {:induction false} RunsKeepInv<E(!new)>(run: seq<State<E>>, acts: seq<Action<E>>, i: nat)
    requires Run(run, acts) && i < |run|
    ensures Inv(run[i])
  {
    if i > 0 {
      RunsKeepInv(run, acts, i - 1);
      assert Next(run[i - 1], acts[i - 1], run[i]);
      StepKeepsInv(run[i - 1], acts[i - 1]);
    }
  }

  /** In every interleaving the events delivered are the events accepted so far, in order,
      with none skipped, repeated, torn or made up; the ring never holds more than it can. */
  lemma DeliversInOrder<E(!new)>(run: seq<State<E>>, acts: seq<Action<E>>, i: nat)
    requires Run(run, acts) && i < |run|
    ensures run[i].delivered <= run[i].accepted
    ensures |run[i].accepted| - |run[i].delivered| <= MAX_EVENT_COUNT
    ensures 0 <= run[i].count <= MAX_EVENT_COUNT
  {
    RunsKeepInv(run, acts, i);
  }

  /** The slot about to be written holds no unread event, and the slot about to be read holds
      the oldest unread one; the reader's range check never fires. */
  lemma NoOverwriteNoEarlyRead<E(!new)>(run: seq<State<E>>, acts: seq<Action<E>>, i: nat)
    requires Run(run, acts) && i < |run|
    ensures run[i].producer.HasSlot? ==> forall j :: |run[i].delivered| <= j < |run[i].accepted| ==>
      j % MAX_EVENT_COUNT != run[i].producer.idx
    ensures run[i].consumer.AtSlot? ==>
      && |run[i].delivered| < |run[i].accepted|
      && run[i].consumer.idx < |run[i].events|
      && run[i].events[run[i].consumer.idx] == run[i].accepted[|run[i].delivered|]
    ensures run[i].readIdx < MAX_EVENT_COUNT
  {
    var st := run[i];
    RunsKeepInv(run, acts, i);
    if st.producer.HasSlot? {
      forall j | Got(st) <= j < Put(st) ensures j % MAX_EVENT_COUNT != st.producer.idx {
        SlotsDiffer(j, Put(st));
      }
    }
  }

  /** When both sides are between calls, polling an empty ring returns nothing only if
      everything accepted has been delivered. */
  lemma EmptyMeansDrained<E(!new)>(run: seq<State<E>>, acts: seq<Action<E>>, i: nat)
    requires Run(run, acts) && i < |run| && run[i].producer.Waiting? && run[i].consumer.Polling?
    ensures run[i].count == 0 <==> run[i].delivered == run[i].accepted
    ensures run[i].count == |run[i].accepted| - |run[i].delivered|
  {
    RunsKeepInv(run, acts, i);
  }

  // ---------------------------------------------------------------- what a call comes to

  /** The producer is in the push of e that began when `before` had been accepted, or has ended it. */
  ghost predicate Pushing<E(!new)>(st: State<E>, e: E, before: seq<E>) {
    match st.producer
    case RoomSeen(x) => x == e && st.accepted == before
    case HasSlot(x, _) => x == e && st.accepted == before
    case Stored(x, _) => x == e && st.accepted == before
    case Advanced => st.accepted == before + [e]
    case Waiting => st.accepted == before + [e]
  }

  ghost predicate PushGoesOn<E(!new)>(run: seq<State<E>>, e: E, before: seq<E>, k: nat) {
    k + 1 < |run| && (Pushing(run[k], e, before) && !run[k].producer.Waiting? ==> Pushing(run[k + 1], e, before))
  }

  lemma PushStep<E(!new)>(st: State<E>, a: Action<E>, st': State<E>, e: E, before: seq<E>)
    requires Next(st, a, st') && Pushing(st, e, before) && !st.producer.Waiting?
    ensures Pushing(st', e, before)
  {
  }

  lemma {:induction false} PushCarries<E(!new)>(run: seq<State<E>>, e: E, before: seq<E>, i: nat, j: nat)
    requires i <= j < |run| && Pushing(run[i], e, before)
    requires forall k :: i <= k < j ==> PushGoesOn(run, e, before, k) && !run[k].producer.Waiting?
    ensures Pushing(run[j], e, before)
    decreases j
  {
    if i < j {
      PushCarries(run, e, before, i, j - 1);
      assert PushGoesOn(run, e, before, j - 1);
    }
  }

  /** Whatever the consumer does meanwhile: a push that begins with room in the ring ends with its
      event accepted behind the others. One that finds the ring full changes nothing. */
  lemma PushIsAccepted<E(!new)>(run: seq<State<E>>, acts: seq<Action<E>>, i: nat, j: nat, e: E)
    requires Run(run, acts) && i < j < |run| && acts[i] == ReadCount(e)
    ensures run[i].count >= MAX_EVENT_COUNT ==> run[i + 1] == run[i]
    ensures run[i].count < MAX_EVENT_COUNT && run[j].producer.Waiting? &&
            (forall k :: i < k < j ==> !run[k].producer.Waiting?) ==>
              run[j].accepted == run[i].accepted + [e]
  {
    assert Next(run[i], acts[i], run[i + 1]);
    if run[i].count < MAX_EVENT_COUNT && (forall k :: i < k < j ==> !run[k].producer.Waiting?) {
      var before := run[i].accepted;
      forall k | i < k < j ensures PushGoesOn(run, e, before, k) {
        if Pushing(run[k], e, before) {
          assert Next(run[k], acts[k], run[k + 1]);
          PushStep(run[k], acts[k], run[k + 1], e, before);
        }
      }
      PushCarries(run, e, before, i + 1, j);
    }
  }

  /** The consumer is in a poll that began when `before` had been delivered and the ring was not
      empty, or has ended it. */
  ghost predicate Polls<E(!new)>(st: State<E>, before: seq<E>) {
    && |before| < |st.accepted|
    && match st.consumer
       case DataSeen => st.delivered == before
       case AtSlot(_) => st.delivered == before
       case Loaded(_, _) => st.delivered == before
       case Released(_) => st.delivered == before + [st.accepted[|before|]]
       case Polling => st.delivered == before + [st.accepted[|before|]]
  }

  ghost predicate PollGoesOn<E(!new)>(run: seq<State<E>>, before: seq<E>, k: nat) {
    k + 1 < |run| && (Polls(run[k], before) && !run[k].consumer.Polling? ==> Polls(run[k + 1], before))
  }

  lemma PollStep<E(!new)>(st: State<E>, a: Action<E>, st': State<E>, before: seq<E>)
    requires Inv(st) && Next(st, a, st') && Polls(st, before) && !st.consumer.Polling?
    ensures Polls(st', before)
  {
  }

  lemma {:induction false} PollCarries<E(!new)>(run: seq<State<E>>, before: seq<E>, i: nat, j: nat)
    requires i <= j < |run| && Polls(run[i], before)
    requires forall k :: i <= k < j ==> PollGoesOn(run, before, k) && !run[k].consumer.Polling?
    ensures Polls(run[j], before)
    decreases j
  {
    if i < j {
      PollCarries(run, before, i, j - 1);
      assert PollGoesOn(run, before, j - 1);
    }
  }

  /** Whatever the producer does meanwhile: a poll that begins with a positive count ends with the
      oldest unread event delivered. One that finds the count at zero changes nothing. */
  lemma PollIsServed<E(!new)>(run: seq<State<E>>, acts: seq<Action<E>>, i: nat, j: nat)
    requires Run(run, acts) && i < j < |run| && acts[i] == PollCount
    ensures run[i].count == 0 ==> run[i + 1] == run[i]
    ensures run[i].count > 0 && (forall k :: i < k < j ==> !run[k].consumer.Polling?) && run[j].consumer.Polling? ==>
      && |run[i].delivered| < |run[j].accepted|
      && run[j].delivered == run[i].delivered + [run[j].accepted[|run[i].delivered|]]
  {
    RunsKeepInv(run, acts, i);
    assert Next(run[i], acts[i], run[i + 1]);
    if run[i].count > 0 && (forall k :: i < k < j ==> !run[k].consumer.Polling?) {
      var before := run[i].delivered;
      forall k | i < k < j ensures PollGoesOn(run, before, k) {
        if Polls(run[k], before) {
          RunsKeepInv(run, acts, k);
          assert Next(run[k], acts[k], run[k + 1]);
          PollStep(run[k], acts[k], run[k + 1], before);
        }
      }
      PollCarries(run, before, i + 1, j);
    }
  }

  /** Neither side is ever stuck: its next operation can always be taken. */
  lemma NeverStuck<E(!new)>(run: seq<State<E>>, acts: seq<Action<E>>, i: nat, e: E)
    requires Run(run, acts) && i < |run|
    ensures exists a :: Enabled(run[i], a) && a in [ReadCount(e), ReadWriteIdx, StoreEvent, StoreWriteIdx, AddCount]
    ensures exists a :: Enabled(run[i], a) && a in [PollCount, ReadReadIdx, LoadEvent, StoreReadIdx, SubCount]
  {
    RunsKeepInv(run, acts, i);
    var st := run[i];
    var p := match st.producer case Waiting => ReadCount(e) case RoomSeen(_) => ReadWriteIdx
             case HasSlot(_, _) => StoreEvent case Stored(_, _) => StoreWriteIdx case Advanced => AddCount;
    var c := match st.consumer case Polling => PollCount case DataSeen => ReadReadIdx case AtSlot(_) => LoadEvent
             case Loaded(_, _) => StoreReadIdx case Released(_) => SubCount;
    assert Enabled(st, p) && Enabled(st, c);
  }
}
