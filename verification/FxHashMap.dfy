/** The open-addressing hash map of kernel/src/data_structures/hash_map_fx.rs: circular linear
    probing, tombstones, and growth at three quarters load. */
module FxHashMap {

  import opened Wrappers

  datatype Slot<+V> = Empty | Dead | Occupied(key: nat, value: V)

  const DEFAULT_CAPACITY: nat := 16
  const WORD: nat := 0x1_0000_0000_0000_0000
  const K: nat := 0xf135_7aea_2e62_a9c5

  /** The hash of a key: one wrapping multiplication, rotated left by 26 bits. */
  function Hash(key: nat): (h: nat)
    ensures h < WORD
  {
    Rotated((key % WORD) * K % WORD)
  }

  /** A word rotated left by 26 bits. */
  function Rotated(product: nat): (h: nat)
    requires product < WORD
    ensures h < WORD
  {
    var high := product / 0x40_0000_0000;        // the top 26 bits
    var low := product % 0x40_0000_0000;
    assert high < 0x400_0000;
    low * 0x400_0000 + high
  }

  predicate PowerOfTwo(n: nat) {
    n == 1 || (n > 1 && n % 2 == 0 && PowerOfTwo(n / 2))
  }

  /** The smallest power of two that is at least n, starting from p. */
  function RoundUpFrom(p: nat, n: nat): (r: nat)
    requires PowerOfTwo(p) && p >= 1
    ensures PowerOfTwo(r) && r >= n && r >= p && (r == p || r < 2 * n)
    decreases if p >= n then 0 else n - p
  {
    if p >= n then p else RoundUpFrom(2 * p, n)
  }

  function Start(key: nat, capacity: nat): (i: nat)
    requires capacity > 0
    ensures i < capacity
  {
    Hash(key) % capacity
  }

  /** The probe-th position from `start` on: masking with capacity - 1 wraps around. */
  function At(start: nat, probe: nat, capacity: nat): (i: nat)
    requires start < capacity && probe < capacity
    ensures i < capacity && i == (start + probe) % capacity
  {
    if start + probe < capacity then start + probe
    else
      assert (start + probe) % capacity == start + probe - capacity by {
        WrapOnce(start + probe, capacity);
      }
      start + probe - capacity
  }

  lemma WrapOnce(x: nat, n: nat)
    requires n <= x < 2 * n
    ensures x % n == x - n
  {
  }

  /** How many probes from `start` reach position i. */
  function Distance(start: nat, i: nat, capacity: nat): (d: nat)
    requires start < capacity && i < capacity
    ensures d < capacity && At(start, d, capacity) == i
  {
    if i >= start then i - start else i + capacity - start
  }

  lemma DistanceIsUnique(start: nat, p: nat, capacity: nat)
    requires start < capacity && p < capacity
    ensures Distance(start, At(start, p, capacity), capacity) == p
  {
  }

  // ---------------------------------------------------------------- what the slots stand for

  /** No probe for a stored key meets an Empty slot before the key. */
  ghost predicate Reachable<V>(slots: seq<Slot<V>>, i: nat)
    requires i < |slots| && slots[i].Occupied?
  {
    var start := Start(slots[i].key, |slots|);
    forall p :: 0 <= p < Distance(start, i, |slots|) ==> slots[At(start, p, |slots|)] != Empty
  }

  ghost predicate Holds<V>(slots: seq<Slot<V>>, key: nat) {
    exists i :: 0 <= i < |slots| && slots[i].Occupied? && slots[i].key == key
  }

  ghost predicate Represents<V>(slots: seq<Slot<V>>, m: map<nat, V>) {
    && |slots| > 0
    && (forall i :: 0 <= i < |slots| && slots[i].Occupied? ==> Reachable(slots, i))
    && (forall i :: 0 <= i < |slots| && slots[i].Occupied? ==>
          slots[i].key in m && m[slots[i].key] == slots[i].value)
    && (forall i, j :: 0 <= i < j < |slots| && slots[i].Occupied? && slots[j].Occupied? ==>
          slots[i].key != slots[j].key)
    && (forall key :: key in m ==> Holds(slots, key))
  }

  ghost predicate HasEmpty<V>(slots: seq<Slot<V>>) {
    exists i :: 0 <= i < |slots| && slots[i] == Empty
  }

  /** A key can be put at idx: it is absent, and no probe for it stops before idx. */
  ghost predicate CanPlace<V>(slots: seq<Slot<V>>, key: nat, idx: nat) {
    && idx < |slots| && !slots[idx].Occupied?
    && var start := Start(key, |slots|);
       forall p :: 0 <= p < Distance(start, idx, |slots|) ==> slots[At(start, p, |slots|)] != Empty
  }

  /** The probe sequence of the key passes occupied slots only before it comes to idx. */
  ghost predicate FirstFree<V>(slots: seq<Slot<V>>, key: nat, idx: nat) {
    && idx < |slots| && !slots[idx].Occupied?
    && var start := Start(key, |slots|);
       forall p :: 0 <= p < Distance(start, idx, |slots|) ==> slots[At(start, p, |slots|)].Occupied?
  }

  lemma PlaceRepresents<V>(slots: seq<Slot<V>>, m: map<nat, V>, key: nat, value: V, idx: nat)
    requires Represents(slots, m) && key !in m && CanPlace(slots, key, idx)
    ensures Represents(slots[idx := Occupied(key, value)], m[key := value])
  {
    var slots' := slots[idx := Occupied(key, value)];
    forall i | 0 <= i < |slots'| && slots'[i].Occupied? ensures Reachable(slots', i) {
      if i != idx { assert Reachable(slots, i); }
    }
    forall k | k in m[key := value] ensures Holds(slots', k) {
      if k == key {
        assert slots'[idx].key == key;
      } else {
        var i :| 0 <= i < |slots| && slots[i].Occupied? && slots[i].key == k;
        assert slots'[i] == slots[i];
      }
    }
  }

  lemma ReplaceRepresents<V>(slots: seq<Slot<V>>, m: map<nat, V>, value: V, idx: nat)
    requires Represents(slots, m) && idx < |slots| && slots[idx].Occupied?
    ensures Represents(slots[idx := Occupied(slots[idx].key, value)], m[slots[idx].key := value])
  {
    var key := slots[idx].key;
    var slots' := slots[idx := Occupied(key, value)];
    forall i | 0 <= i < |slots'| && slots'[i].Occupied? ensures Reachable(slots', i) {
      assert Reachable(slots, i);
    }
    forall k | k in m[key := value] ensures Holds(slots', k) {
      var i :| 0 <= i < |slots| && slots[i].Occupied? && slots[i].key == k;
      assert slots'[i].key == k;
    }
  }

  lemma BuryRepresents<V>(slots: seq<Slot<V>>, m: map<nat, V>, idx: nat)
    requires Represents(slots, m) && idx < |slots| && slots[idx].Occupied?
    ensures Represents(slots[idx := Dead], m - {slots[idx].key})
  {
    var key := slots[idx].key;
    var slots' := slots[idx := Dead];
    forall i | 0 <= i < |slots'| && slots'[i].Occupied? ensures Reachable(slots', i) {
      assert Reachable(slots, i);
    }
    forall k | k in m - {key} ensures Holds(slots', k) {
      var i :| 0 <= i < |slots| && slots[i].Occupied? && slots[i].key == k;
      assert slots'[i] == slots[i];
    }
  }

  /** A key that no probed position holds, up to an Empty slot or all the way round, is absent. */
  lemma NotFound<V>(slots: seq<Slot<V>>, m: map<nat, V>, key: nat, n: nat)
    requires Represents(slots, m) && n <= |slots|
    requires var start := Start(key, |slots|);
             && (forall p :: 0 <= p < n ==>
                   var s := slots[At(start, p, |slots|)]; !(s.Occupied? && s.key == key))
             && (n < |slots| ==> slots[At(start, n, |slots|)] == Empty)
    ensures key !in m
  {
    if key in m {
      var i :| 0 <= i < |slots| && slots[i].Occupied? && slots[i].key == key;
      var start := Start(key, |slots|);
      assert Reachable(slots, i);
      var _ := Distance(start, i, |slots|);
    }
  }

  ghost predicate AllDistinct<V>(slots: seq<Slot<V>>, n: nat)
    requires n <= |slots|
  {
    && (forall i :: 0 <= i < n ==> slots[i].Occupied?)
    && (forall i, j :: 0 <= i < j < n ==> slots[i].key != slots[j].key)
  }

  ghost function KeysBelow<V>(slots: seq<Slot<V>>, n: nat): (r: set<nat>)
    requires n <= |slots|
    ensures |r| <= n
    ensures forall i :: 0 <= i < n && slots[i].Occupied? ==> slots[i].key in r
    ensures AllDistinct(slots, n) ==> |r| == n
    ensures forall k :: k in r ==> exists i :: 0 <= i < n && slots[i].Occupied? && slots[i].key == k
  {
    if n == 0 then {}
    else
      var r := KeysBelow(slots, n - 1);
      if slots[n - 1].Occupied? then r + {slots[n - 1].key} else r
  }

  lemma NoMoreKeysThanSlots<V>(slots: seq<Slot<V>>, m: map<nat, V>)
    requires Represents(slots, m)
    ensures |m| <= |slots|
    ensures (forall i :: 0 <= i < |slots| ==> slots[i].Occupied?) ==> |m| == |slots|
  {
    var keys := KeysBelow(slots, |slots|);
    forall k | k in m ensures k in keys { assert Holds(slots, k); }
    assert m.Keys == keys;
  }

  /** With fewer keys than slots and no tombstone, an Empty slot is left. */
  lemma RoomWithoutTombstones<V>(slots: seq<Slot<V>>, m: map<nat, V>)
    requires Represents(slots, m) && |m| < |slots|
    requires forall i :: 0 <= i < |slots| ==> slots[i] != Dead
    ensures HasEmpty(slots)
  {
    NoMoreKeysThanSlots(slots, m);
  }

  lemma ProperSubmapIsSmaller<V>(a: map<nat, V>, b: map<nat, V>, key: nat)
    requires a.Keys <= b.Keys && key in b && key !in a
    ensures |a| < |b|
  {
    SubsetSize(a.Keys, b.Keys - {key});
    assert |b.Keys - {key}| == |b.Keys| - 1;
  }

  lemma SubsetSize(a: set<nat>, b: set<nat>)
    requires a <= b
    ensures |a| <= |b|
  {
    if a != {} {
      var x :| x in a;
      SubsetSize(a - {x}, b - {x});
    }
  }

  /** The entries of the first i old slots, and nothing else, are in `now`. */
  ghost predicate Copied<V>(old0: seq<Slot<V>>, before: map<nat, V>, now: map<nat, V>, i: nat)
    requires i <= |old0|
  {
    && (forall k :: k in now ==> k in before && now[k] == before[k])
    && (forall k :: k in now ==> k in KeysBelow(old0, i))
    && (forall j :: 0 <= j < i && old0[j].Occupied? ==> old0[j].key in now)
  }

  lemma EntryIsNew<V>(slots: seq<Slot<V>>, m: map<nat, V>, i: nat)
    requires Represents(slots, m) && i < |slots| && slots[i].Occupied?
    ensures slots[i].key !in KeysBelow(slots, i)
    ensures slots[i].key in m && m[slots[i].key] == slots[i].value
  {
  }

  lemma CopyNext<V>(old0: seq<Slot<V>>, before: map<nat, V>, now: map<nat, V>, i: nat)
    requires i < |old0| && Copied(old0, before, now, i)
    requires old0[i].Occupied? ==>
      && old0[i].key in before && before[old0[i].key] == old0[i].value
      && old0[i].key !in KeysBelow(old0, i)
    ensures !old0[i].Occupied? ==> Copied(old0, before, now, i + 1)
    ensures old0[i].Occupied? ==>
      && old0[i].key !in now && |now| < |before|
      && Copied(old0, before, now[old0[i].key := old0[i].value], i + 1)
  {
    if old0[i].Occupied? {
      ProperSubmapIsSmaller(now, before, old0[i].key);
      CopyPut(old0, before, now, i);
    }
  }

  lemma CopyPut<V>(old0: seq<Slot<V>>, before: map<nat, V>, now: map<nat, V>, i: nat)
    requires i < |old0| && Copied(old0, before, now, i) && old0[i].Occupied?
    requires old0[i].key in before && before[old0[i].key] == old0[i].value
    ensures Copied(old0, before, now[old0[i].key := old0[i].value], i + 1)
  {
    var now' := now[old0[i].key := old0[i].value];
    forall k | k in now' ensures k in KeysBelow(old0, i + 1) {
      assert k in KeysBelow(old0, i) || k == old0[i].key;
    }
  }

  lemma CopiedAll<V>(old0: seq<Slot<V>>, before: map<nat, V>, now: map<nat, V>)
    requires Represents(old0, before) && Copied(old0, before, now, |old0|)
    ensures now == before
  {
    forall k | k in before ensures k in now { assert Holds(old0, k); }
  }

  // ---------------------------------------------------------------- the map

  datatype Search = Found(idx: nat) | Vacant(idx: nat) | Full

  class Map<V> {
    var slots: seq<Slot<V>>
    var count: nat
    ghost var contents: map<nat, V>

    ghost predicate Valid()
      reads this
    {
      && |slots| >= DEFAULT_CAPACITY && PowerOfTwo(|slots|)
      && Represents(slots, contents)
      && count == |contents|
    }

    predicate Overloaded()
      reads this
    {
      (count + 1) * 4 > |slots| * 3
    }

    constructor (capacity: nat)
      ensures Valid() && contents == map[] && HasEmpty(slots)
      ensures |slots| == RoundUpFrom(DEFAULT_CAPACITY, capacity) && forall i :: 0 <= i < |slots| ==> slots[i] == Empty
    {
      var rounded := RoundUpFrom(DEFAULT_CAPACITY, capacity);
      slots := seq(rounded, _ => Empty);
      count := 0;
      contents := map[];
      new;
      assert slots[0] == Empty;
    }

    /** The probe loop of get, get_mut and remove. */
    method Find(key: nat) returns (r: Option<nat>)
      requires Valid()
      ensures r.Some? ==> r.value < |slots| && slots[r.value].Occupied? && slots[r.value].key == key
      ensures r.None? <==> key !in contents
    {
      var capacity := |slots|;
      var start := Start(key, capacity);
      for probe := 0 to capacity
        invariant forall p :: 0 <= p < probe ==>
          var s := slots[At(start, p, capacity)]; !(s.Occupied? && s.key == key)
      {
        var idx := At(start, probe, capacity);
        match slots[idx] {
          case Empty =>
            NotFound(slots, contents, key, probe);
            return None;
          case Dead =>
          case Occupied(k, _) =>
            if k == key { return Some(idx); }
        }
      }
      NotFound(slots, contents, key, capacity);
      r := None;
    }

    /** The probe loop of insert and entry, which prefers the first tombstone it passed. */
    method FindOrVacant(key: nat) returns (r: Search)
      requires Valid()
      ensures r.Found? ==> key in contents && r.idx < |slots| && slots[r.idx].Occupied? && slots[r.idx].key == key
      ensures r.Vacant? ==> key !in contents && CanPlace(slots, key, r.idx) && HasEmpty(slots)
      ensures r.Vacant? ==> FirstFree(slots, key, r.idx) == true
      ensures r.Full? ==> key !in contents && !HasEmpty(slots)
      ensures slots[Start(key, |slots|)] == Empty ==> r == Vacant(Start(key, |slots|))
    {
      var capacity := |slots|;
      var start := Start(key, capacity);
      var firstDead: Option<nat> := None;
      ghost var deadAt := 0;
      for probe := 0 to capacity
        invariant forall p :: 0 <= p < probe ==>
          var s := slots[At(start, p, capacity)]; s != Empty && !(s.Occupied? && s.key == key)
        invariant firstDead.Some? ==> deadAt < probe && firstDead.value == At(start, deadAt, capacity)
                                      && slots[firstDead.value] == Dead
        invariant probe > 0 ==> slots[At(start, 0, capacity)] != Empty
        invariant forall p :: 0 <= p < (if firstDead.Some? then deadAt else probe) ==>
          slots[At(start, p, capacity)].Occupied?
      {
        var idx := At(start, probe, capacity);
        match slots[idx] {
          case Empty =>
            NotFound(slots, contents, key, probe);
            if firstDead.Some? {
              DistanceIsUnique(start, deadAt, capacity);
              return Vacant(firstDead.value);
            }
            DistanceIsUnique(start, probe, capacity);
            return Vacant(idx);
          case Dead =>
            if firstDead.None? {
              firstDead := Some(idx);
              deadAt := probe;
            }
          case Occupied(k, _) =>
            if k == key { return Found(idx); }
        }
      }
      NotFound(slots, contents, key, capacity);
      forall i | 0 <= i < |slots| ensures slots[i] != Empty {
        assert At(start, Distance(start, i, capacity), capacity) == i;
      }
      r := Full;
    }

    method Get(key: nat) returns (r: Option<V>)
      requires Valid()
      ensures r == if key in contents then Some(contents[key]) else None
    {
      var i := Find(key);
      if i.None? { return None; }
      r := Some(slots[i.value].value);
    }

    method Remove(key: nat) returns (r: Option<V>)
      requires Valid()
      modifies this
      ensures Valid() && contents == old(contents) - {key}
      ensures r == if key in old(contents) then Some(old(contents)[key]) else None
      ensures |slots| == old(|slots|)
      ensures forall i :: 0 <= i < |slots| ==>
        slots[i] == (if old(slots)[i].Occupied? && old(slots)[i].key == key then Dead else old(slots)[i])
    {
      var i := Find(key);
      if i.None? {
        assert contents - {key} == contents;
        return None;
      }
      r := Some(slots[i.value].value);
      BuryRepresents(slots, contents, i.value);
      slots := slots[i.value := Dead];
      count := count - 1;
      contents := contents - {key};
    }

    /** Inserts exactly when the key is present, an Empty slot is left or the map grows first;
        otherwise it silently does nothing. */
    method Insert(key: nat, value: V) returns (r: Option<V>)
      requires Valid()
      modifies this
      ensures Valid()
      ensures r == if key in old(contents) then Some(old(contents)[key]) else None
      ensures key in old(contents) || old(HasEmpty(slots)) || old(Overloaded())
              ==> contents == old(contents)[key := value]
      ensures !(key in old(contents) || old(HasEmpty(slots)) || old(Overloaded()))
              ==> contents == old(contents) && slots == old(slots)
      ensures |slots| == if old((count + 1) * 4 > |slots| * 3) then 2 * old(|slots|) else old(|slots|)
      ensures !old(Overloaded()) && old(slots[Start(key, |slots|)]) == Empty ==>
        slots == old(slots)[Start(key, old(|slots|)) := Occupied(key, value)]
      ensures !old(Overloaded()) && (forall i :: 0 <= i < |old(slots)| ==> old(slots)[i] != Dead) ==>
        forall i :: 0 <= i < |slots| ==> slots[i] != Dead
      decreases if Overloaded() then 2 else 0
    {
      if (count + 1) * 4 > |slots| * 3 {
        Grow();
      }
      var found := FindOrVacant(key);
      match found {
        case Found(idx) =>
          r := Some(slots[idx].value);
          ReplaceRepresents(slots, contents, value, idx);
          slots := slots[idx := Occupied(key, value)];
          contents := contents[key := value];
        case Vacant(idx) =>
          r := None;
          PlaceRepresents(slots, contents, key, value, idx);
          slots := slots[idx := Occupied(key, value)];
          count := count + 1;
          contents := contents[key := value];
        case Full =>
          r := None;
      }
    }

    /** Twice the slots, the same contents, no tombstones. Inside, Insert never finds the map
        overloaded again, which is why the two methods terminate. */
    method Grow()
      requires Valid()
      modifies this
      ensures Valid() && contents == old(contents) && |slots| == 2 * old(|slots|)
      ensures forall i :: 0 <= i < |slots| ==> slots[i] != Dead
      ensures HasEmpty(slots)
      decreases 1
    {
      var oldSlots := slots;
      ghost var before := contents;
      NoMoreKeysThanSlots(oldSlots, before);
      slots := seq(2 * |oldSlots|, _ => Empty);
      count := 0;
      contents := map[];
      for i := 0 to |oldSlots|
        invariant Valid() && |slots| == 2 * |oldSlots|
        invariant forall j :: 0 <= j < |slots| ==> slots[j] != Dead
        invariant Copied(oldSlots, before, contents, i)
      {
        if oldSlots[i].Occupied? {
          EntryIsNew(oldSlots, before, i);
          CopyNext(oldSlots, before, contents, i);
          RoomWithoutTombstones(slots, contents);
          var _ := Insert(oldSlots[i].key, oldSlots[i].value);
        } else {
          CopyNext(oldSlots, before, contents, i);
        }
      }
      CopiedAll(oldSlots, before, contents);
      RoomWithoutTombstones(slots, contents);
    }

    /** entry(key).or_insert(value): the value stored under the key afterwards. It behaves like
        a mathematical map exactly when the key is present, the map grows, an Empty slot is
        left, or slot 0, which it falls back to, is a tombstone. */
    method EntryOrInsert(key: nat, value: V) returns (r: V)
      requires Valid()
      modifies this
      ensures var good := key in old(contents) || old(Overloaded()) || old(HasEmpty(slots)) || old(slots[0]) == Dead;
              && (good ==> Valid() && contents == (if key in old(contents) then old(contents)
                                                   else old(contents)[key := value]) && r == contents[key])
              && (!good ==> slots == old(slots)[0 := Occupied(key, value)] && count == old(count) + 1
                            && !exists m :: Represents(slots, m) && |m| == count)
    {
      if (count + 1) * 4 > |slots| * 3 {
        Grow();
      }
      var found := FindOrVacant(key);
      match found {
        case Found(idx) =>
          r := slots[idx].value;
        case Vacant(idx) =>
          PlaceRepresents(slots, contents, key, value, idx);
          slots := slots[idx := Occupied(key, value)];
          count := count + 1;
          contents := contents[key := value];
          r := value;
        case Full =>
          ghost var before, m := slots, contents;
          slots := slots[0 := Occupied(key, value)];
          count := count + 1;
          r := value;
          if before[0] == Dead {
            assert CanPlace(before, key, 0);
            PlaceRepresents(before, m, key, value, 0);
            contents := contents[key := value];
          } else {
            forall m' | Represents(slots, m') ensures |m'| < count {
              OverwriteLosesAKey(before, m, slots, m', key);
            }
          }
      }
    }
  }

  /** Keys whose probes start at slots 1, 2, ..., 15 of sixteen. */
  const WEAR: seq<nat> := [7, 3, 14, 10, 6, 17, 2, 9, 20, 5, 1, 23, 8, 4, 26]

  lemma WearStarts(i: nat)
    requires i < |WEAR|
    ensures Start(WEAR[i], 16) == i + 1
  {
    StartIs(7, 6, 39967089, 168656282723);
    StartIs(3, 2, 55476674, 268622626127);
    StartIs(14, 13, 12825315, 62434658502);
    StartIs(10, 9, 28334900, 162401001906);
    StartIs(6, 5, 43844485, 262367345310);
    StartIs(17, 16, 1193126, 56179377685);
    StartIs(2, 1, 59354071, 87455781770);
    StartIs(9, 8, 32212296, 256112064493);
    StartIs(20, 18, 56669801, 49924096868);
    StartIs(5, 4, 47721882, 81200500953);
    StartIs(1, 0, 63231467, 181166844357);
    StartIs(23, 21, 45037612, 43668816051);
    StartIs(8, 7, 36089693, 74945220136);
    StartIs(4, 3, 51599278, 174911563540);
    StartIs(26, 24, 33405423, 37413535234);
  }

  /** The start of a key in a table of sixteen, from the parts of its product. */
  lemma StartIs(key: nat, q: nat, high: nat, low: nat)
    requires key < WORD && key * K == q * WORD + high * 0x40_0000_0000 + low
    requires high < 0x400_0000 && low < 0x40_0000_0000
    ensures Start(key, 16) == high % 16
  {
    var product := high * 0x40_0000_0000 + low;
    DivideBack(q, product);
    RotatedIs(product, high, low);
    MultipleOf16(low, high);
  }

  lemma RotatedIs(product: nat, high: nat, low: nat)
    requires product == high * 0x40_0000_0000 + low && product < WORD && low < 0x40_0000_0000
    ensures Rotated(product) == low * 0x400_0000 + high
  {
  }

  lemma DivideBack(q: nat, product: nat)
    requires product < WORD
    ensures (q * WORD + product) % WORD == product
  {
  }

  lemma MultipleOf16(low: nat, high: nat)
    ensures (low * 0x400_0000 + high) % 16 == high % 16
  {
  }

  /** A map after fifteen insertions, each of them removed again, and one that stays: no slot is
      empty any more. */
  method Worn() returns (m: Map<bool>)
    ensures fresh(m) && m.Valid() && m.contents == map[0 := true] && !m.Overloaded() && !HasEmpty(m.slots)
    ensures m.slots[0] == Occupied(0, true)
  {
    m := new Map(DEFAULT_CAPACITY);
    for i := 0 to |WEAR|
      invariant fresh(m) && m.Valid() && m.contents == map[] && |m.slots| == 16
      invariant forall j :: 0 <= j < 16 ==> m.slots[j] == if 1 <= j <= i then Dead else Empty
    {
      WearStarts(i);
      Wear(m, WEAR[i]);
    }
    assert Start(0, 16) == 0;
    var none := m.Insert(0, true);
  }

  method Wear(m: Map<bool>, key: nat)
    requires m.Valid() && m.contents == map[] && |m.slots| == 16 && m.slots[Start(key, 16)] == Empty
    requires forall j :: 0 <= j < 16 ==> !m.slots[j].Occupied?
    modifies m
    ensures m.Valid() && m.contents == map[] && m.slots == old(m.slots)[Start(key, 16) := Dead]
  {
    var none := m.Insert(key, true);
    var some := m.Remove(key);
  }

  /** An insertion that is lost: the map is the same afterwards. */
  method InsertCanFail() returns (m: Map<bool>, r: Option<bool>, ghost before: map<nat, bool>)
    ensures m.Valid() && r == None && 30 !in before && m.contents == before
  {
    m := Worn();
    before := m.contents;
    r := m.Insert(30, true);
  }

  /** An entry that takes the place of another key. */
  method EntryCanOverwrite() returns (m: Map<bool>, ghost before: map<nat, bool>)
    ensures 0 in before && m.count == |before| + 1 && !Holds(m.slots, 0)
    ensures !exists c :: Represents(m.slots, c) && |c| == m.count
  {
    m := Worn();
    before := m.contents;
    OnlyThere(m.slots, m.contents);
    var r := m.EntryOrInsert(30, true);
  }

  lemma OnlyThere<V>(slots: seq<Slot<V>>, m: map<nat, V>)
    requires Represents(slots, m) && slots[0].Occupied?
    ensures forall value: V, key: nat :: key != slots[0].key ==> !Holds(slots[0 := Occupied(key, value)], slots[0].key)
  {
  }

  /** Overwriting an occupied slot with a new key leaves no more keys than before. */
  lemma OverwriteLosesAKey<V>(slots: seq<Slot<V>>, m: map<nat, V>, slots': seq<Slot<V>>, m': map<nat, V>, key: nat)
    requires Represents(slots, m) && Represents(slots', m') && key !in m
    requires slots[0].Occupied? && slots'[0].Occupied? && slots'[0].key == key && slots' == slots[0 := slots'[0]]
    ensures |m'| <= |m|
  {
    var lost := slots[0].key;
    forall k | k in m' ensures k == key || (k in m && k != lost) {
      var i :| 0 <= i < |slots'| && slots'[i].Occupied? && slots'[i].key == k;
    }
    SubsetSize(m'.Keys - {key}, m.Keys - {lost});
    assert |m.Keys - {lost}| == |m.Keys| - 1;
    assert m'.Keys <= (m'.Keys - {key}) + {key};
    SubsetSize(m'.Keys, (m'.Keys - {key}) + {key});
  }
}
