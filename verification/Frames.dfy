/** The physical frame allocator of kernel/src/memory/memory.rs: a bump cursor over the usable
    entries of the memory map, with a list of returned frames that is used first. */
module Frames {

  import opened Wrappers

  datatype Entry = Entry(base: nat, length: nat, usable: bool)

  const PAGE_SIZE: nat := 4096

  function AlignUp(a: nat): (r: nat)
    ensures r % PAGE_SIZE == 0 && r - PAGE_SIZE < a <= r
  {
    (a + PAGE_SIZE - 1) / PAGE_SIZE * PAGE_SIZE
  }

  function End(e: Entry): nat { e.base + e.length }

  /** How many whole frames an entry provides. */
  function FrameCount(e: Entry): (n: nat)
    ensures n * PAGE_SIZE > 0 ==> AlignUp(e.base) + n * PAGE_SIZE <= End(e)
  {
    if e.usable && End(e) > AlignUp(e.base) then (End(e) - AlignUp(e.base)) / PAGE_SIZE else 0
  }

  function FramesBelow(m: seq<Entry>, n: nat): nat
    requires n <= |m|
  {
    if n == 0 then 0 else FramesBelow(m, n - 1) + FrameCount(m[n - 1])
  }

  ghost predicate InEntry(e: Entry, f: nat) {
    e.usable && f % PAGE_SIZE == 0 && e.base <= f && f + PAGE_SIZE <= End(e)
  }

  ghost predicate Usable(m: seq<Entry>, f: nat) {
    exists i :: 0 <= i < |m| && InEntry(m[i], f)
  }

  ghost predicate DisjointUsable(m: seq<Entry>) {
    forall i, j :: 0 <= i < j < |m| && m[i].usable && m[j].usable ==>
      End(m[i]) <= m[j].base || End(m[j]) <= m[i].base
  }

  /** Frame f comes from entry i and lies below the cursor. */
  ghost predicate Passed(m: seq<Entry>, index: nat, offset: nat, f: nat, i: nat) {
    && i < |m| && i <= index && InEntry(m[i], f)
    && (i == index ==> f + PAGE_SIZE <= AlignUp(m[i].base) + offset)
  }

  ghost predicate BelowCursor(m: seq<Entry>, index: nat, offset: nat, f: nat) {
    exists i: nat :: Passed(m, index, offset, f, i)
  }

  ghost predicate AllPassed(m: seq<Entry>, index: nat, offset: nat, frames: seq<nat>) {
    forall k :: 0 <= k < |frames| ==> BelowCursor(m, index, offset, frames[k])
  }

  /** Moving the cursor up leaves everything below it below it. */
  lemma CursorMoves(m: seq<Entry>, index: nat, offset: nat, index': nat, offset': nat, frames: seq<nat>)
    requires AllPassed(m, index, offset, frames)
    requires index' == index + 1 || (index' == index && offset' >= offset)
    ensures AllPassed(m, index', offset', frames)
  {
    forall k | 0 <= k < |frames| ensures BelowCursor(m, index', offset', frames[k]) {
      var i: nat :| Passed(m, index, offset, frames[k], i);
      assert Passed(m, index', offset', frames[k], i);
    }
  }

  /** Every frame below the cursor was handed out. */
  ghost predicate Complete(m: seq<Entry>, index: nat, offset: nat, bumped: seq<nat>) {
    forall f: nat, i: nat :: Passed(m, index, offset, f, i) ==> f in bumped
  }

  ghost predicate NoDuplicates(s: seq<nat>) {
    forall i, j :: 0 <= i < j < |s| ==> s[i] != s[j]
  }

  /** The cursor and everything it passed: exactly the frames of the entries before it and the
      first frames of its own entry, each once. */
  ghost predicate CursorOk(m: seq<Entry>, index: nat, offset: nat, bumped: seq<nat>) {
    && DisjointUsable(m)
    && index <= |m| && offset % PAGE_SIZE == 0
    && (index < |m| ==> offset <= FrameCount(m[index]) * PAGE_SIZE)
    && (index == |m| ==> offset == 0)
    && |bumped| == FramesBelow(m, index) + offset / PAGE_SIZE
    && AllPassed(m, index, offset, bumped)
    && NoDuplicates(bumped)
    && Complete(m, index, offset, bumped)
  }

  /** The entry has room for one more frame at this offset. */
  predicate Fits(e: Entry, offset: nat) {
    e.usable && AlignUp(e.base) + offset + PAGE_SIZE <= End(e)
  }

  /** Every frame that was ever handed out is either free again, once, or held by a client. */
  ghost predicate Accounted(bumped: seq<nat>, freeList: seq<nat>, out: set<nat>) {
    multiset(bumped) == multiset(freeList) + multiset(out)
  }

  lemma AdvanceEntry(m: seq<Entry>, index: nat, offset: nat, bumped: seq<nat>)
    requires CursorOk(m, index, offset, bumped) && index < |m| && !Fits(m[index], offset)
    ensures CursorOk(m, index + 1, 0, bumped)
  {
    FullyUsed(m[index], offset);
    CursorMoves(m, index, offset, index + 1, 0, bumped);
    assert FramesBelow(m, index + 1) == FramesBelow(m, index) + FrameCount(m[index]);
    var next := index + 1;
    forall f: nat, i: nat | Passed(m, next, 0, f, i) ensures f in bumped {
      LastFrameOf(m[i], f);
      assert Passed(m, index, offset, f, i);
    }
  }

  lemma BumpFrame(m: seq<Entry>, index: nat, offset: nat, bumped: seq<nat>, f: nat)
    requires CursorOk(m, index, offset, bumped) && index < |m| && Fits(m[index], offset)
    requires f == AlignUp(m[index].base) + offset
    ensures CursorOk(m, index, offset + PAGE_SIZE, bumped + [f])
    ensures f !in bumped && Usable(m, f)
  {
    FreshFrame(m, index, offset, bumped, f);
    NextFits(m[index], offset + PAGE_SIZE);
    CursorMoves(m, index, offset, index, offset + PAGE_SIZE, bumped);
    assert Passed(m, index, offset + PAGE_SIZE, f, index);
    assert BelowCursor(m, index, offset + PAGE_SIZE, f);
    PassedMore(m, index, offset + PAGE_SIZE, bumped, f);
    var after := offset + PAGE_SIZE;
    forall g: nat, i: nat | Passed(m, index, after, g, i) ensures g in bumped + [f] {
      if g != f {
        if i == index { NoFrameBetween(g, f); }
        assert Passed(m, index, offset, g, i);
      }
    }
  }

  lemma PassedMore(m: seq<Entry>, index: nat, offset: nat, bumped: seq<nat>, f: nat)
    requires AllPassed(m, index, offset, bumped) && BelowCursor(m, index, offset, f)
    ensures AllPassed(m, index, offset, bumped + [f])
  {
  }

  /** A frame on the free list was passed by the cursor and nobody holds it. */
  lemma FreeFrame(m: seq<Entry>, index: nat, offset: nat, bumped: seq<nat>, freeList: seq<nat>, out: set<nat>)
    requires CursorOk(m, index, offset, bumped) && Accounted(bumped, freeList, out) && freeList != []
    ensures var n := |freeList| - 1; var f := freeList[n];
      f !in out && Usable(m, f) && Accounted(bumped, freeList[..n], out + {f})
  {
    var n := |freeList| - 1;
    var f := freeList[n];
    assert freeList == freeList[..n] + [f];
    OnceOnly(bumped, f);
    assert multiset(bumped)[f] > 0;
    assert f in bumped;
    var k :| 0 <= k < |bumped| && bumped[k] == f;
    assert BelowCursor(m, index, offset, bumped[k]);
    var i: nat :| Passed(m, index, offset, f, i);
    assert InEntry(m[i], f);
    assert multiset(out + {f}) == multiset(out) + multiset{f};
  }

  /** Moves the cursor past entries that have no frame left. */
  method SkipUsedEntries(m: seq<Entry>, index: nat, offset: nat, ghost bumped: seq<nat>)
    returns (index': nat, offset': nat)
    requires CursorOk(m, index, offset, bumped)
    ensures CursorOk(m, index', offset', bumped)
    ensures index' < |m| ==> Fits(m[index'], offset')
  {
    index', offset' := index, offset;
    while index' < |m| && !Fits(m[index'], offset')
      invariant CursorOk(m, index', offset', bumped) == true
      decreases |m| - index'
    {
      AdvanceEntry(m, index', offset', bumped);
      index', offset' := index' + 1, 0;
    }
  }

  class Allocator {
    const memoryMap: seq<Entry>
    var index: nat
    var offset: nat
    var freeList: seq<nat>
    ghost var out: set<nat>          // frames clients hold
    ghost var bumped: seq<nat>       // every frame the cursor ever passed, in order

    ghost predicate Valid()
      reads this
    {
      CursorOk(memoryMap, index, offset, bumped) && Accounted(bumped, freeList, out)
    }

    /** How many usable frames nobody holds. */
    ghost function Spare(): int
      reads this
    {
      FramesBelow(memoryMap, |memoryMap|) - |out|
    }

    constructor (map0: seq<Entry>)
      requires DisjointUsable(map0)
      ensures Valid() && memoryMap == map0 && out == {} && Spare() == FramesBelow(map0, |map0|)
    {
      memoryMap := map0;
      index, offset, freeList := 0, 0, [];
      out, bumped := {}, [];
    }

    lemma SpareIsCount()
      requires Valid()
      ensures Spare() >= 0
    {
      SpareLeft(memoryMap, index, offset, bumped, freeList, out);
    }

    method TakeReturned() returns (f: nat)
      requires Valid() && freeList != []
      modifies this
      ensures Valid() && Spare() == old(Spare()) - 1 && Spare() >= 0
      ensures f !in old(out) && out == old(out) + {f} && Usable(memoryMap, f)
      ensures old(freeList) == freeList + [f]
    {
      FreeFrame(memoryMap, index, offset, bumped, freeList, out);
      f := freeList[|freeList| - 1];
      freeList := freeList[..|freeList| - 1];
      assert old(freeList) == freeList + [f];
      out := out + {f};
      SpareLeft(memoryMap, index, offset, bumped, freeList, out);
    }

    method BumpCursor() returns (f: nat)
      requires Valid() && index < |memoryMap| && Fits(memoryMap[index], offset)
      modifies this
      ensures Valid() && Spare() == old(Spare()) - 1 && Spare() >= 0
      ensures f !in old(out) && out == old(out) + {f} && Usable(memoryMap, f)
    {
      f := AlignUp(memoryMap[index].base) + offset;
      BumpFrame(memoryMap, index, offset, bumped, f);
      NewFrame(bumped, freeList, out, f);
      offset := offset + PAGE_SIZE;
      bumped := bumped + [f];
      out := out + {f};
      SpareLeft(memoryMap, index, offset, bumped, freeList, out);
    }

    /** A frame nobody holds, page aligned and inside usable memory; None exactly when none is
        spare, every usable frame being held. */
    method Allocate() returns (r: Option<nat>)
      requires Valid()
      modifies this
      ensures Valid()
      ensures r.Some? ==>
        r.value !in old(out) && out == old(out) + {r.value} && Usable(memoryMap, r.value)
      ensures r.None? ==> out == old(out) && forall f: nat :: Usable(memoryMap, f) ==> f in out
      ensures old(freeList) != [] ==> r.Some? && old(freeList) == freeList + [r.value]
      ensures Spare() >= 0 && (r.Some? <==> old(Spare()) > 0)
      ensures Spare() == old(Spare()) - if r.Some? then 1 else 0
    {
      if freeList != [] {
        var f := TakeReturned();
        return Some(f);
      }
      index, offset := SkipUsedEntries(memoryMap, index, offset, bumped);
      if index == |memoryMap| {
        AllHeld(memoryMap, bumped, out);
        HeldCount(bumped, freeList, out);
        return None;
      }
      var f := BumpCursor();
      r := Some(f);
    }

    method Deallocate(f: nat)
      requires Valid() && f in out
      modifies this
      ensures Valid() && out == old(out) - {f} && Spare() == old(Spare()) + 1
      ensures freeList == old(freeList) + [f]
    {
      assert multiset(out) == multiset(out - {f}) + multiset{f};
      freeList := freeList + [f];
      out := out - {f};
    }

    /** The statistics call counts exactly the frames clients hold. */
    method AllocatedBumpFrames() returns (n: int)
      requires Valid()
      ensures n == |out|
    {
      n := 0;
      for i := 0 to index
        invariant n == FramesBelow(memoryMap, i)
      {
        var entry := memoryMap[i];
        if entry.usable {
          var start := AlignUp(entry.base);
          if End(entry) > start { n := n + (End(entry) - start) / PAGE_SIZE; }
        }
      }
      if index < |memoryMap| && memoryMap[index].usable {
        n := n + offset / PAGE_SIZE;
      }
      HeldCount(bumped, freeList, out);
      n := if n >= |freeList| then n - |freeList| else 0;
    }
  }

  lemma NewFrame(bumped: seq<nat>, freeList: seq<nat>, out: set<nat>, f: nat)
    requires Accounted(bumped, freeList, out) && f !in bumped
    ensures f !in out && Accounted(bumped + [f], freeList, out + {f})
  {
    assert f !in multiset(bumped);
    assert f !in multiset(out);
    assert multiset(out + {f}) == multiset(out) + multiset{f};
  }

  lemma FullyUsed(e: Entry, offset: nat)
    requires offset % PAGE_SIZE == 0 && offset <= FrameCount(e) * PAGE_SIZE
    requires !(e.usable && AlignUp(e.base) + offset + PAGE_SIZE <= End(e))
    ensures offset == FrameCount(e) * PAGE_SIZE
  {
  }

  lemma LastFrameOf(e: Entry, f: nat)
    requires InEntry(e, f)
    ensures AlignUp(e.base) <= f && f + PAGE_SIZE <= AlignUp(e.base) + FrameCount(e) * PAGE_SIZE
  {
  }

  lemma NoFrameBetween(g: nat, f: nat)
    requires g % PAGE_SIZE == 0 && f % PAGE_SIZE == 0 && g <= f && g != f
    ensures g + PAGE_SIZE <= f
  {
  }

  lemma NextFits(e: Entry, offset: nat)
    requires offset % PAGE_SIZE == 0 && e.usable && AlignUp(e.base) + offset <= End(e) && offset > 0
    ensures offset <= FrameCount(e) * PAGE_SIZE
  {
  }

  lemma FreshFrame(m: seq<Entry>, index: nat, offset: nat, bumped: seq<nat>, f: nat)
    requires DisjointUsable(m) && index < |m| && m[index].usable && offset % PAGE_SIZE == 0
    requires f == AlignUp(m[index].base) + offset && f + PAGE_SIZE <= End(m[index])
    requires AllPassed(m, index, offset, bumped)
    ensures f !in bumped && InEntry(m[index], f)
  {
    forall k | 0 <= k < |bumped| ensures bumped[k] != f {
      assert BelowCursor(m, index, offset, bumped[k]);
      var i: nat :| Passed(m, index, offset, bumped[k], i);
    }
  }

  lemma {:induction false} OnceOnly(s: seq<nat>, f: nat)
    requires NoDuplicates(s)
    ensures multiset(s)[f] <= 1
  {
    if s != [] {
      var n := |s| - 1;
      OnceOnly(s[..n], f);
      assert s == s[..n] + [s[n]];
      if s[n] == f { assert f !in s[..n]; }
    }
  }

  /** At the end of the map with nothing on the free list, every usable frame is held. */
  lemma AllHeld(m: seq<Entry>, bumped: seq<nat>, out: set<nat>)
    requires CursorOk(m, |m|, 0, bumped) && Accounted(bumped, [], out)
    ensures forall f: nat :: Usable(m, f) ==> f in out
  {
    forall f: nat | Usable(m, f) ensures f in out {
      var i :| 0 <= i < |m| && InEntry(m[i], f);
      assert Passed(m, |m|, 0, f, i);
      assert f in multiset(bumped);
      assert multiset(bumped) == multiset(out);
    }
  }

  lemma {:induction false} BelowGrows(m: seq<Entry>, i: nat, n: nat)
    requires i <= n <= |m|
    ensures FramesBelow(m, i) <= FramesBelow(m, n)
    decreases n
  {
    if i < n { BelowGrows(m, i, n - 1); }
  }

  /** No more frames are held than there are. */
  lemma SpareLeft(m: seq<Entry>, index: nat, offset: nat, bumped: seq<nat>, freeList: seq<nat>, out: set<nat>)
    requires CursorOk(m, index, offset, bumped) && Accounted(bumped, freeList, out)
    ensures |out| <= FramesBelow(m, |m|)
  {
    HeldCount(bumped, freeList, out);
    if index < |m| {
      assert FramesBelow(m, index + 1) == FramesBelow(m, index) + FrameCount(m[index]);
      BelowGrows(m, index + 1, |m|);
    }
  }

  lemma HeldCount(bumped: seq<nat>, freeList: seq<nat>, out: set<nat>)
    requires Accounted(bumped, freeList, out)
    ensures |bumped| == |freeList| + |out|
  {
    assert |multiset(bumped)| == |bumped|;
    assert |multiset(out)| == |out|;
  }
}
