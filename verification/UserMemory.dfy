/** Page tables of one address space (kernel/src/memory/usermem.rs), kept as the map from page to
    frame and the map from table to frame. Mapping a page makes the missing tables first, and
    those stay when a later step fails. The frames held by anyone else never change. */
module UserMemory {
  import opened Wrappers
  import opened Frames
  import opened Paging
  import opened MapCost

  datatype MapResult = Mapped | AlreadyMapped(frame: nat) | NoFrames

  class PageTables {
    const alloc: Allocator
    var root: nat
    var tables: map<TableId, nat>
    var leaf: map<nat, nat>
    ghost var ledger: map<nat, Use>

    ghost predicate Valid()
      reads this, alloc
    {
      alloc.Valid() && ledger.Keys <= alloc.out && Books(root, tables, leaf, ledger)
    }

    /** Frames held by the kernel, by other processes and by callers. */
    ghost function Others(): set<nat>
      reads this, alloc
    {
      alloc.out - ledger.Keys
    }

    constructor (a: Allocator, top: nat)
      requires a.Valid() && top in a.out
      ensures Valid() && alloc == a && root == top && tables == map[] && leaf == map[]
      ensures Others() == a.out - {top}
    {
      alloc, root, tables, leaf, ledger := a, top, map[], map[], map[top := Root];
    }

    method EnsureTable(id: TableId) returns (ok: bool)
      requires Valid() && Hangs(tables, id)
      modifies this`tables, this`ledger, alloc
      ensures Valid() == true && Others() == old(Others())
      ensures SameOwners(old(leaf), old(ledger), leaf, ledger) == true
      ensures ok <==> Lacks(old(tables.Keys), id) <= old(alloc.Spare())
      ensures tables.Keys == if ok then old(tables.Keys) + {id} else old(tables.Keys)
      ensures ok ==> alloc.Spare() == old(alloc.Spare()) - Lacks(old(tables.Keys), id) && alloc.Spare() >= 0
    {
      alloc.SpareIsCount();
      if id in tables {
        assert tables.Keys + {id} == tables.Keys;
        ok := true;
      } else {
        ok := MakeTable(id);
      }
    }

    method MakeTable(id: TableId) returns (ok: bool)
      requires Valid() && Hangs(tables, id) && id !in tables
      modifies this`tables, this`ledger, alloc
      ensures Valid() == true && Others() == old(Others())
      ensures SameOwners(old(leaf), old(ledger), leaf, ledger) == true
      ensures ok <==> 1 <= old(alloc.Spare())
      ensures tables.Keys == if ok then old(tables.Keys) + {id} else old(tables.Keys)
      ensures ok ==> alloc.Spare() == old(alloc.Spare()) - 1 && alloc.Spare() >= 0
    {
      var f := alloc.Allocate();
      if f.None? { return false; }
      AddTable(root, tables, leaf, ledger, id, f.value);
      tables := tables[id := f.value];
      ledger := ledger[f.value := Table(id)];
      ok := true;
    }

    method EnsureTables(p: nat) returns (ok: bool)
      requires Valid() && p < USER_PAGES
      modifies this`tables, this`ledger, alloc
      ensures Valid() && Others() == old(Others())
      ensures SameOwners(old(leaf), old(ledger), leaf, ledger)
      ensures ok <==> Missing(old(tables.Keys), p) <= old(alloc.Spare())
      ensures ok ==> Hung(old(tables.Keys), old(alloc.Spare()), p, tables.Keys, alloc.Spare()) == true
    {
      ghost var keys := tables.Keys;
      ok := EnsureThree(PdptOf(p), PdOf(p), PtOf(p));
      assert keys + {PdptOf(p)} + {PdOf(p)} + {PtOf(p)} == keys + TablesOf(p);
    }

    /** A table, the one below it and the one below that. */
    method EnsureThree(x: TableId, y: TableId, z: TableId) returns (ok: bool)
      requires Valid() && Hangs(tables, x)
      requires Hangs(map[x := 0], y) && Hangs(map[y := 0], z) && x.Pdpt? && y.Pd? && z.Pt?
      modifies this`tables, this`ledger, alloc
      ensures Valid() == true && Others() == old(Others()) && SameOwners(old(leaf), old(ledger), leaf, ledger) == true
      ensures var n := Lacks(old(tables.Keys), x) + Lacks(old(tables.Keys), y) + Lacks(old(tables.Keys), z);
        && (ok <==> n <= old(alloc.Spare()))
        && (ok ==> tables.Keys == old(tables.Keys) + {x} + {y} + {z} && alloc.Spare() == old(alloc.Spare()) - n)
    {
      ghost var keys := tables.Keys;
      ok := EnsureTwo(x, y);
      if !ok { return; }
      assert Lacks(tables.Keys, z) == Lacks(keys, z);
      ok := EnsureTable(z);
    }

    method EnsureTwo(x: TableId, y: TableId) returns (ok: bool)
      requires Valid() && Hangs(tables, x) && Hangs(map[x := 0], y) && x.Pdpt? && y.Pd?
      modifies this`tables, this`ledger, alloc
      ensures Valid() == true && Others() == old(Others()) && SameOwners(old(leaf), old(ledger), leaf, ledger) == true
      ensures ok <==> Lacks(old(tables.Keys), x) + Lacks(old(tables.Keys), y) <= old(alloc.Spare())
      ensures ok ==> tables.Keys == old(tables.Keys) + {x} + {y} && alloc.Spare() >= 0
      ensures ok ==> alloc.Spare() == old(alloc.Spare()) - Lacks(old(tables.Keys), x) - Lacks(old(tables.Keys), y)
    {
      ghost var keys := tables.Keys;
      ok := EnsureTable(x);
      if !ok { return; }
      assert Lacks(tables.Keys, y) == Lacks(keys, y);
      ok := EnsureTable(y);
    }

    /** Maps one page to a given frame, which is not booked to this space by this call. */
    method MapTo(p: nat, f: nat) returns (r: MapResult)
      requires Valid() && p < USER_PAGES
      modifies this`tables, this`leaf, this`ledger, alloc
      ensures Valid() && Others() == old(Others())
      ensures SameOwners(old(leaf), old(ledger), leaf, ledger)
      ensures r.Mapped? ==> p !in old(leaf) && leaf == old(leaf)[p := f]
      ensures r.AlreadyMapped? ==> p in leaf && r.frame == leaf[p]
      ensures !r.Mapped? ==> leaf == old(leaf)
      ensures r.NoFrames? <==> Missing(old(tables.Keys), p) > old(alloc.Spare())
      ensures !r.NoFrames? ==> Hung(old(tables.Keys), old(alloc.Spare()), p, tables.Keys, alloc.Spare()) == true
    {
      var ok := EnsureTables(p);
      if !ok { return NoFrames; }
      if p in leaf { return AlreadyMapped(leaf[p]); }
      AddLeaf(root, tables, leaf, ledger, p, f);
      leaf := leaf[p := f];
      r := Mapped;
    }

    /** A frame for the caller of this space. */
    method TakeFrame() returns (f: Option<nat>)
      requires Valid()
      modifies alloc
      ensures Valid()
      ensures f.Some? ==> f.value !in ledger && f.value !in old(Others()) && Others() == old(Others()) + {f.value}
      ensures f.None? ==> Others() == old(Others())
      ensures f.Some? <==> old(alloc.Spare()) > 0
      ensures alloc.Spare() == old(alloc.Spare()) - if f.Some? then 1 else 0
    {
      f := alloc.Allocate();
    }

    method FreeFrames(frames: seq<nat>)
      requires Valid() && NoDuplicates(frames) && forall f :: f in frames ==> f in Others()
      modifies alloc
      ensures Valid() && Others() == old(Others()) - (set f | f in frames)
      ensures alloc.Spare() == old(alloc.Spare()) + |frames|
    {
      for i := 0 to |frames|
        invariant Valid() && Others() == old(Others()) - (set f | f in frames[..i])
        invariant alloc.Spare() == old(alloc.Spare()) + i
      {
        assert frames[..i + 1] == frames[..i] + [frames[i]];
        Release(frames[i]);
      }
      assert frames[..|frames|] == frames;
    }

    /** n distinct frames for the caller, or none at all. */
    method TakeFrames(n: nat) returns (r: Option<seq<nat>>)
      requires Valid()
      modifies alloc
      ensures Valid()
      ensures r.Some? ==> |r.value| == n && NoDuplicates(r.value) && forall f :: f in r.value ==> f !in old(Others())
      ensures r.Some? ==> Others() == old(Others()) + (set f | f in r.value)
      ensures r.None? ==> Others() == old(Others())
      ensures r.Some? <==> n <= old(alloc.Spare())
      ensures alloc.Spare() == old(alloc.Spare()) - if r.Some? then n else 0
    {
      alloc.SpareIsCount();
      var frames: seq<nat> := [];
      for i := 0 to n
        invariant Valid() && |frames| == i && NoDuplicates(frames)
        invariant forall f :: f in frames ==> f !in old(Others())
        invariant Others() == old(Others()) + (set f | f in frames)
        invariant alloc.Spare() == old(alloc.Spare()) - i && alloc.Spare() >= 0
      {
        var f := TakeFrame();
        if f.None? {
          FreeFrames(frames);
          return None;
        }
        frames := frames + [f.value];
      }
      r := Some(frames);
    }

    /** From here on the space owns the frame mapped at p. */
    ghost method Book(p: nat)
      requires Valid() && p in leaf && leaf[p] in Others()
      modifies this`ledger
      ensures Valid() && Others() == old(Others()) - {leaf[p]}
      ensures OwnersWith(leaf, old(ledger), leaf, ledger, p, p + 1) == true
    {
      Adopt(root, tables, leaf, ledger, p);
      ledger := ledger[leaf[p] := Page(p)];
    }

    method Release(f: nat)
      requires Valid() && f in Others()
      modifies alloc
      ensures Valid() && Others() == old(Others()) - {f} && alloc.out == old(alloc.out) - {f}
      ensures alloc.Spare() == old(alloc.Spare()) + 1
    {
      alloc.Deallocate(f);
    }

    method UnmapPage(p: nat, owned: bool)
      requires Valid() && (p in leaf ==> (owned <==> Owns(leaf, ledger, p)))
      modifies this`leaf, this`ledger, alloc
      ensures Valid() && Others() == old(Others()) && leaf == Without(old(leaf), p, p + 1)
      ensures OwnersWithout(old(leaf), old(ledger), leaf, ledger, p, p + 1)
    {
      if p in leaf {
        var f := leaf[p];
        if owned {
          DropOwned(root, tables, leaf, ledger, p);
          leaf, ledger := leaf - {p}, ledger - {f};
          alloc.Deallocate(f);
        } else {
          DropBorrowed(root, tables, leaf, ledger, p);
          leaf := leaf - {p};
        }
      } else {
        NothingThere(leaf, ledger, p);
      }
    }

    /** Clears the entries of pages [a, b), skipping absent ones, and frees the frames behind
        them when they are owned. */
    method UnmapPages(a: nat, b: nat, owned: bool)
      requires Valid() && a <= b
      requires forall p :: a <= p < b && p in leaf ==> (owned <==> Owns(leaf, ledger, p))
      modifies this`leaf, this`ledger, alloc
      ensures Valid() && Others() == old(Others()) && leaf == Without(old(leaf), a, b)
      ensures OwnersWithout(old(leaf), old(ledger), leaf, ledger, a, b)
    {
      for p := a to b
        invariant Valid() && Others() == old(Others()) && leaf == Without(old(leaf), a, p)
        invariant OwnersWithout(old(leaf), old(ledger), leaf, ledger, a, p)
      {
        ghost var leaf1, ledger1 := leaf, ledger;
        assert Owns(leaf, ledger, p) <==> Owns(old(leaf), old(ledger), p);
        UnmapPage(p, owned);
        WithoutMore(old(leaf), old(ledger), leaf1, ledger1, leaf, ledger, a, p);
      }
    }

    /** Maps a frame of the caller at page p and makes it the page's own. */
    method MapOwn(p: nat, f: nat) returns (r: MapResult)
      requires Valid() && p < USER_PAGES && f in Others() && (p in leaf ==> Owns(leaf, ledger, p))
      modifies this`tables, this`leaf, this`ledger, alloc
      ensures Valid() && Others() == if r.Mapped? then old(Others()) - {f} else old(Others())
      ensures !r.NoFrames? ==>
        Filled(old(leaf), leaf, p, p + 1) && OwnersWith(old(leaf), old(ledger), leaf, ledger, p, p + 1)
      ensures r.NoFrames? ==> leaf == old(leaf) && SameOwners(old(leaf), old(ledger), leaf, ledger)
      ensures r.NoFrames? <==> Missing(old(tables.Keys), p) > old(alloc.Spare())
      ensures !r.NoFrames? ==> Hung(old(tables.Keys), old(alloc.Spare()), p, tables.Keys, alloc.Spare()) == true
      ensures !r.NoFrames? ==> (r.Mapped? <==> p !in old(leaf))
    {
      r := MapTo(p, f);
      ghost var was := ledger;
      if r.Mapped? { Book(p); }
      if !r.NoFrames? { OwnersChain(old(leaf), old(ledger), leaf, was, ledger, p, f); }
    }

    /** Maps a fresh frame at page p, or keeps the frame an overlapping owned region put there. */
    method MapFresh(p: nat) returns (ok: bool)
      requires Valid() && p < USER_PAGES && (p in leaf ==> Owns(leaf, ledger, p))
      modifies this`tables, this`leaf, this`ledger, alloc
      ensures Valid() && Others() == old(Others())
      ensures ok ==> Filled(old(leaf), leaf, p, p + 1) && OwnersWith(old(leaf), old(ledger), leaf, ledger, p, p + 1)
      ensures !ok ==> leaf == old(leaf) && SameOwners(old(leaf), old(ledger), leaf, ledger)
      ensures ok <==> Missing(old(tables.Keys), p) <= old(alloc.Spare()) - 1
      ensures ok ==> Hung(old(tables.Keys), old(alloc.Spare()) - (if p in old(leaf) then 0 else 1), p,
                          tables.Keys, alloc.Spare()) == true
    {
      var f := TakeFrame();
      if f.None? { return false; }
      var r := MapOwn(p, f.value);
      if !r.Mapped? { Release(f.value); }
      ok := !r.NoFrames?;
    }

    /** Maps owned pages [a, b) and makes them the space's own. A failure takes out every page before
        the failing one and frees its frame, also one that an earlier region had mapped. */
    method MapVirtMemRegion(a: nat, b: nat) returns (ok: bool, ghost failed: nat)
      requires Valid() && a <= b <= USER_PAGES
      requires OwnedOrFree(leaf, ledger, a, b)
      modifies this`tables, this`leaf, this`ledger, alloc
      ensures Valid() == true && Others() == old(Others())
      ensures FillOutcome(ok, failed, old(tables.Keys), old(leaf), old(alloc.Spare()), a, b,
                          leaf, tables.Keys, alloc.Spare()) == true
      ensures ok ==> OwnersWith(old(leaf), old(ledger), leaf, ledger, a, b) == true
      ensures !ok ==> a <= failed < b && OwnersWithout(old(leaf), old(ledger), leaf, ledger, a, failed) == true
    {
      alloc.SpareIsCount();
      ghost var rest;
      failed, rest := LastThatSuffices(tables.Keys, leaf, alloc.Spare(), a, b);
      ok := FillAll(leaf, ledger, Others(), a, b, failed, rest);
      if !ok { NothingLost(old(leaf), a, failed, b); }
    }

    /** The loop of MapVirtMemRegion. */
    method FillAll(ghost leaf0: map<nat, nat>, ghost ledger0: map<nat, Use>, ghost others0: set<nat>, a: nat, b: nat,
                   ghost goal: nat, ghost rest: (set<TableId>, int)) returns (ok: bool)
      requires Valid() && Others() == others0 && a <= b <= USER_PAGES
      requires Filled(leaf0, leaf, a, a) == true && OwnersWith(leaf0, ledger0, leaf, ledger, a, a) == true
      requires OwnedOrFree(leaf0, ledger0, a, b) == true
      requires Suffices(tables.Keys, leaf0, alloc.Spare(), a, b, goal, rest) == true
      modifies this`tables, this`leaf, this`ledger, alloc
      ensures Valid() == true && Others() == others0 && (ok <==> goal == b)
      ensures ok ==> (tables.Keys, alloc.Spare()) == rest
      ensures ok ==> Filled(leaf0, leaf, a, b) == true && OwnersWith(leaf0, ledger0, leaf, ledger, a, b) == true
      ensures !ok ==> leaf == Without(leaf0, a, goal)
      ensures !ok ==> OwnersWithout(leaf0, ledger0, leaf, ledger, a, goal) == true
    {
      for p := a to b
        invariant Valid() && Others() == others0
        invariant Filled(leaf0, leaf, a, p) == true && OwnersWith(leaf0, ledger0, leaf, ledger, a, p) == true
        invariant Suffices(tables.Keys, leaf0, alloc.Spare(), p, b, goal, rest) == true
      {
        ok := FillNext(leaf0, ledger0, others0, a, p, p + 1, b, goal, rest);
        if !ok { return false; }
      }
      SufficedAll(tables.Keys, leaf0, alloc.Spare(), b, goal, rest);
      ok := true;
    }

    /** One pass of MapVirtMemRegion, with the rollback. It fails at the page named beforehand. */
    method FillNext(ghost leaf0: map<nat, nat>, ghost ledger0: map<nat, Use>, ghost others0: set<nat>, a: nat, p: nat,
                    ghost q: nat, ghost b: nat, ghost goal: nat, ghost rest: (set<TableId>, int)) returns (ok: bool)
      requires Valid() && Others() == others0 && a <= p < b <= USER_PAGES && q == p + 1
      requires Filled(leaf0, leaf, a, p) == true && OwnersWith(leaf0, ledger0, leaf, ledger, a, p) == true
      requires OwnedOrFree(leaf0, ledger0, a, b) == true
      requires Suffices(tables.Keys, leaf0, alloc.Spare(), p, b, goal, rest) == true
      modifies this`tables, this`leaf, this`ledger, alloc
      ensures Valid() && Others() == others0
      ensures ok ==> Filled(leaf0, leaf, a, q) == true && OwnersWith(leaf0, ledger0, leaf, ledger, a, q) == true
      ensures ok ==> Suffices(tables.Keys, leaf0, alloc.Spare(), q, b, goal, rest) == true
      ensures !ok ==> goal == p && leaf == Without(leaf0, a, p)
      ensures !ok ==> OwnersWithout(leaf0, ledger0, leaf, ledger, a, p) == true
    {
      ghost var leaf1, ledger1, tables1, spare1 := leaf, ledger, tables.Keys, alloc.Spare();
      OwnedNow(leaf0, ledger0, leaf, ledger, a, p, b);
      SufficesNow(tables1, leaf0, spare1, p, b, goal, rest);
      ok := MapFresh(p);
      if ok {
        SufficesNext(tables1, leaf0, spare1, p, q, b, goal, rest, tables.Keys, alloc.Spare());
        FilledMore(leaf0, ledger0, leaf1, ledger1, leaf, ledger, a, p, q);
      } else {
        Emptied(leaf0, ledger0, leaf, ledger, a, p);
        UnmapPages(a, p, true);
      }
    }

    /** Maps a given frame; finding the same frame already there is a success. */
    method MapSpecificFrame(p: nat, f: nat) returns (ok: bool)
      requires Valid() && p < USER_PAGES
      modifies this`tables, this`leaf, this`ledger, alloc
      ensures Valid() && Others() == old(Others())
      ensures SameOwners(old(leaf), old(ledger), leaf, ledger)
      ensures ok ==> leaf == old(leaf)[p := f] && (p in old(leaf) ==> old(leaf)[p] == f)
      ensures !ok ==> leaf == old(leaf)
      ensures ok <==> Missing(old(tables.Keys), p) <= old(alloc.Spare()) && (p in old(leaf) ==> old(leaf)[p] == f)
      ensures ok ==> Hung(old(tables.Keys), old(alloc.Spare()), p, tables.Keys, alloc.Spare()) == true
    {
      var r := MapTo(p, f);
      match r
      case Mapped => ok := true;
      case AlreadyMapped(existing) => ok := existing == f;
      case NoFrames => ok := false;
    }

    /** Unmaps the first i frames again without freeing them. */
    method UndoMapped(a: nat, frames: seq<nat>, i: nat, ghost leaf0: map<nat, nat>, ghost ledger0: map<nat, Use>)
      requires Valid() && Progress(leaf0, ledger0, leaf, ledger, a, frames, i)
      modifies this`leaf, this`ledger, alloc
      ensures Valid() && Others() == old(Others())
      ensures leaf == Without(leaf0, a, a + i) && SameOwners(leaf0, ledger0, leaf, ledger)
    {
      UnmapPages(a, a + i, false);
      ProgressUndone(leaf0, ledger0, old(leaf), old(ledger), leaf, ledger, a, frames, i);
    }

    /** Maps the frames one per page from page a on, exactly if there are frames for the tables
        and no other frame is mapped there. A failure unmaps the pages below the failing one
        again; the frames stay with the caller. */
    method MapEach(a: nat, frames: seq<nat>) returns (ok: bool, ghost failed: nat)
      requires Valid() && a + |frames| <= USER_PAGES && NotYetOwned(leaf, ledger, a, frames)
      modifies this`tables, this`leaf, this`ledger, alloc
      ensures Valid() == true && Others() == old(Others())
      ensures failed <= |frames| && Agrees(old(leaf), a, frames[..failed]) == true
      ensures ok ==> failed == |frames| && Progress(old(leaf), old(ledger), leaf, ledger, a, frames, failed) == true
      ensures !ok ==> leaf == Without(old(leaf), a, a + failed)
      ensures !ok ==> SameOwners(old(leaf), old(ledger), leaf, ledger) == true
      ensures ok <==> CanLoad(old(tables.Keys), old(leaf), old(alloc.Spare()), a, frames) == true
      ensures ok ==> LeftAfter(old(tables.Keys), old(alloc.Spare()), a, |frames|, tables.Keys, alloc.Spare()) == true
    {
      alloc.SpareIsCount();
      ghost var goal;
      failed, goal := LastThatLoads(tables.Keys, leaf, alloc.Spare(), a, frames);
      LoadingStart(leaf, ledger, tables.Keys, alloc.Spare(), a, frames, failed, goal);
      ok := LoadAll(leaf, ledger, Others(), a, a + |frames|, frames, failed, a + failed, goal);
    }

    /** The loop of MapEach. */
    method LoadAll(ghost leaf0: map<nat, nat>, ghost ledger0: map<nat, Use>, ghost others0: set<nat>, a: nat,
                   ghost b: nat, frames: seq<nat>, ghost stop: nat, ghost end: nat, ghost goal: (set<TableId>, int))
      returns (ok: bool)
      requires b == a + |frames| && end == a + stop
      requires Valid() && Others() == others0 && b <= USER_PAGES
      requires Loading(leaf0, ledger0, leaf, ledger, tables.Keys, alloc.Spare(), a, a, frames, 0, stop, goal) == true
      modifies this`tables, this`leaf, this`ledger, alloc
      ensures Valid() == true && Others() == others0
      ensures ok ==> stop == |frames| && Progress(leaf0, ledger0, leaf, ledger, a, frames, stop) == true
      ensures ok ==> (tables.Keys, alloc.Spare()) == goal
      ensures !ok ==> NotLoaded(leaf0, ledger0, leaf, ledger, stop, |frames|, a, end) == true
    {
      var p := a;
      for i := 0 to |frames|
        invariant Valid() && Others() == others0 && p == a + i
        invariant Loading(leaf0, ledger0, leaf, ledger, tables.Keys, alloc.Spare(), a, p, frames, i, stop, goal) == true
      {
        ok := MapNext(a, frames, i, p, frames[i], i + 1, p + 1, leaf0, ledger0, others0, stop, end, goal);
        if !ok { return false; }
        p := p + 1;
      }
      LoadingDone(leaf0, ledger0, leaf, ledger, tables.Keys, alloc.Spare(), a, p, frames, stop, goal);
      ok := true;
    }

    /** One pass of MapEach: maps the next frame, or undoes the earlier passes. */
    method MapNext(a: nat, frames: seq<nat>, i: nat, p: nat, f: nat, ghost j: nat, ghost q: nat,
                   ghost leaf0: map<nat, nat>, ghost ledger0: map<nat, Use>, ghost others0: set<nat>, ghost stop: nat,
                   ghost end: nat, ghost goal: (set<TableId>, int))
      returns (ok: bool)
      requires Valid() && Others() == others0 && i < |frames| && a + |frames| <= USER_PAGES
      requires p == a + i && f == frames[i] && j == i + 1 && q == p + 1 && end == a + stop
      requires Loading(leaf0, ledger0, leaf, ledger, tables.Keys, alloc.Spare(), a, p, frames, i, stop, goal) == true
      modifies this`tables, this`leaf, this`ledger, alloc
      ensures Valid() && Others() == others0
      ensures ok ==>
              Loading(leaf0, ledger0, leaf, ledger, tables.Keys, alloc.Spare(), a, q, frames, j, stop, goal) == true
      ensures !ok ==> NotLoaded(leaf0, ledger0, leaf, ledger, stop, |frames|, a, end) == true
    {
      ghost var leaf1, ledger1, tables1, spare1 := leaf, ledger, tables.Keys, alloc.Spare();
      LoadingNow(leaf0, ledger0, leaf, ledger, tables1, spare1, a, p, frames, i, stop, goal);
      ok := MapSpecificFrame(p, f);
      if ok {
        LoadingNext(leaf0, ledger0, leaf1, ledger1, tables1, spare1, a, p, q, frames, i, j, stop, goal,
                    leaf, ledger, tables.Keys, alloc.Spare());
      } else {
        ProgressKept(leaf0, ledger0, leaf, ledger1, ledger, a, frames, i);
        UndoAt(a, frames, i, leaf0, ledger0, end);
      }
    }

    method UndoAt(a: nat, frames: seq<nat>, i: nat, ghost leaf0: map<nat, nat>, ghost ledger0: map<nat, Use>,
                  ghost end: nat)
      requires Valid() && Progress(leaf0, ledger0, leaf, ledger, a, frames, i) == true && end == a + i && i < |frames|
      modifies this`leaf, this`ledger, alloc
      ensures Valid() == true && Others() == old(Others())
      ensures NotLoaded(leaf0, ledger0, leaf, ledger, i, |frames|, a, end) == true
    {
      UndoMapped(a, frames, i, leaf0, ledger0);
    }

    /** Frame number i of the caller is mapped at page a + i. */
    ghost predicate MapsHis(a: nat, frames: seq<nat>, i: nat)
      requires i < |frames|
      reads this, alloc
    {
      a + i in leaf && leaf[a + i] == frames[i] && frames[i] in Others()
    }

    /** From here on the space owns the frames mapped at pages [a, a + n). */
    ghost method BookRange(a: nat, frames: seq<nat>)
      requires Valid() && NoDuplicates(frames) && forall i :: 0 <= i < |frames| ==> MapsHis(a, frames, i)
      modifies this`ledger
      ensures Valid() == true && Others() == old(Others()) - (set f | f in frames)
      ensures OwnersWith(leaf, old(ledger), leaf, ledger, a, a + |frames|) == true
    {
      if frames != [] {
        var n := |frames| - 1;
        var rest := frames[..n];
        assert frames == rest + [frames[n]] && MapsHis(a, frames, n);
        forall i | 0 <= i < n ensures MapsHis(a, rest, i) { assert MapsHis(a, frames, i); }
        LastOf(frames, rest, n, Others());
        BookRange(a, rest);
        ghost var p, ledger1 := a + n, ledger;
        Book(p);
        OneMoreOwner(leaf, old(ledger), ledger1, ledger, a, p, p + 1);
      }
    }

    // ------------------------------------------------------------- teardown

    /** Clears one table entry and frees the table behind it. */
    method FreeTable(id: TableId)
      requires Valid() && leaf == map[] && id in tables && Childless(tables, id)
      modifies this`tables, this`ledger, alloc
      ensures Valid() && Others() == old(Others()) && tables == old(tables) - {id}
    {
      var f := tables[id];
      DropTable(root, tables, ledger, id);
      tables := tables - {id};
      ledger := ledger - {f};
      alloc.Deallocate(f);
    }

    method FreePts(i: nat, j: nat)
      requires Valid() && leaf == map[]
      modifies this`tables, this`ledger, alloc
      ensures Valid() == true && Others() == old(Others())
      ensures forall id :: id in tables <==> id in old(tables) && !(id.Pt? && id.i == i && id.j == j)
    {
      for k := 0 to SLOTS
        invariant Valid() == true && Others() == old(Others())
        invariant forall id :: id in tables <==> id in old(tables) && !(id.Pt? && id.i == i && id.j == j && id.k < k)
      {
        if Pt(i, j, k) in tables { FreeTable(Pt(i, j, k)); }
      }
      assert forall id :: id in tables ==> Hangs(tables, id);
    }

    method FreePds(i: nat)
      requires Valid() && leaf == map[]
      modifies this`tables, this`ledger, alloc
      ensures Valid() == true && Others() == old(Others())
      ensures forall id :: id in tables <==> id in old(tables) && !(!id.Pdpt? && id.i == i)
    {
      for j := 0 to SLOTS
        invariant Valid() == true && Others() == old(Others())
        invariant forall id :: id in tables <==> id in old(tables) && !(!id.Pdpt? && id.i == i && id.j < j)
      {
        assert forall id :: id in tables ==> Hangs(tables, id);
        if Pd(i, j) in tables {
          FreePts(i, j);
          FreeTable(Pd(i, j));
        }
      }
      assert forall id :: id in tables ==> Hangs(tables, id);
    }

    /** With no page mapped, frees every table below the root exactly once. */
    method FreeUserTables()
      requires Valid() && leaf == map[]
      modifies this`tables, this`ledger, alloc
      ensures Valid() && Others() == old(Others()) && tables == map[]
    {
      for i := 0 to USER_SLOTS
        invariant Valid() == true && Others() == old(Others())
        invariant forall id :: id in tables ==> id.i >= i
      {
        assert forall id :: id in tables ==> Hangs(tables, id);
        if Pdpt(i) in tables {
          FreePds(i);
          FreeTable(Pdpt(i));
        }
        NothingUnder(tables, i);
      }
      AllInUserHalf(tables);
    }

    method FreeRoot()
      requires Valid() && leaf == map[] && tables == map[]
      modifies this`ledger, alloc
      ensures alloc.Valid() && alloc.out == old(Others()) && ledger == map[]
    {
      assert ledger.Keys == {root};
      ledger := map[];
      alloc.Deallocate(root);
    }
  }

  lemma LastOf(frames: seq<nat>, rest: seq<nat>, n: nat, others: set<nat>)
    requires NoDuplicates(frames) && n + 1 == |frames| && rest == frames[..n] && frames[n] in others
    ensures frames[n] in others - (set f | f in rest)
    ensures others - (set f | f in rest) - {frames[n]} == others - (set f | f in frames)
  {
    assert frames == rest + [frames[n]] && frames[n] !in rest;
  }

  lemma OneMoreOwner(leaf: map<nat, nat>, ledger0: map<nat, Use>, ledger1: map<nat, Use>, ledger2: map<nat, Use>,
                     a: nat, p: nat, q: nat)
    requires OwnersWith(leaf, ledger0, leaf, ledger1, a, p) && OwnersWith(leaf, ledger1, leaf, ledger2, p, q)
    requires a <= p <= q
    ensures OwnersWith(leaf, ledger0, leaf, ledger2, a, q)
  {
  }

  lemma InUserHalf(tables: map<TableId, nat>, id: TableId)
    requires forall x :: x in tables ==> Hangs(tables, x)
    requires id in tables
    ensures id.i < USER_SLOTS
  {
    assert Hangs(tables, id);
    match id
    case Pdpt(i) =>
    case Pd(i, j) => assert Hangs(tables, Pdpt(i));
    case Pt(i, j, k) => assert Hangs(tables, Pd(i, j)) && Hangs(tables, Pdpt(i));
  }

  lemma AllInUserHalf(tables: map<TableId, nat>)
    requires forall id :: id in tables ==> Hangs(tables, id)
    ensures forall id :: id in tables ==> id.i < USER_SLOTS
  {
    forall id | id in tables ensures id.i < USER_SLOTS { InUserHalf(tables, id); }
  }

  lemma NothingUnder(tables: map<TableId, nat>, i: nat)
    requires forall id :: id in tables ==> Hangs(tables, id)
    requires i < USER_SLOTS ==> Pdpt(i) !in tables
    ensures forall id :: id in tables ==> id.i != i
  {
    assert Pdpt(i) !in tables;
    assert forall j :: Pd(i, j) !in tables;
  }
}
