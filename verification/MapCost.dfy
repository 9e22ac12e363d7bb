/** What mapping pages costs in frames: the tables that have to be made, the pages themselves, and
    how many frames have to be at hand for a call not to fail. */
module MapCost {

  import opened Paging

  /** The tables that page p hangs from. */
  function TablesOf(p: nat): set<TableId> { {PdptOf(p), PdOf(p), PtOf(p)} }

  function Lacks(tables: set<TableId>, id: TableId): nat { if id in tables then 0 else 1 }

  /** How many tables page p still lacks. */
  function Missing(tables: set<TableId>, p: nat): nat {
    Lacks(tables, PdptOf(p)) + Lacks(tables, PdOf(p)) + Lacks(tables, PtOf(p))
  }

  /** The tables after those for the pages of [a, b) have been made. */
  function Made(tables: set<TableId>, a: nat, b: nat): set<TableId> {
    if a >= b then tables else Made(tables, a, b - 1) + TablesOf(b - 1)
  }

  /** How many tables have to be made for the pages of [a, b). */
  function NewTables(tables: set<TableId>, a: nat, b: nat): nat {
    if a >= b then 0 else NewTables(tables, a, b - 1) + Missing(Made(tables, a, b - 1), b - 1)
  }

  /** How many pages of [a, b) are not mapped. */
  function Unmapped(leaf: map<nat, nat>, a: nat, b: nat): nat {
    if a >= b then 0 else Unmapped(leaf, a, b - 1) + if b - 1 in leaf then 0 else 1
  }

  /** How many frames have to be at hand to map fresh frames at the pages of [a, b): for the tables,
      for the pages that are not mapped, and one for the last page in any case. */
  function Peak(tables: set<TableId>, leaf: map<nat, nat>, a: nat, b: nat): nat {
    if a >= b then 0 else NewTables(tables, a, b) + Unmapped(leaf, a, b - 1) + 1
  }

  // ---------------------------------------------------------------- what these numbers mean

  lemma CountMore(tables: set<TableId>, ids: set<TableId>, id: TableId)
    requires id !in ids
    ensures |(ids + {id}) - tables| == |ids - tables| + Lacks(tables, id)
  {
    if id in tables {
      assert (ids + {id}) - tables == ids - tables;
    } else {
      assert (ids + {id}) - tables == (ids - tables) + {id};
    }
  }

  lemma MissingCounts(tables: set<TableId>, p: nat)
    ensures Missing(tables, p) == |TablesOf(p) - tables|
  {
    CountThree(tables, PdptOf(p), PdOf(p), PtOf(p));
  }

  lemma CountThree(tables: set<TableId>, x: TableId, y: TableId, z: TableId)
    requires x != y && y != z && x != z
    ensures |{x, y, z} - tables| == Lacks(tables, x) + Lacks(tables, y) + Lacks(tables, z)
  {
    CountMore(tables, {}, x);
    CountMore(tables, {x}, y);
    CountMore(tables, {x, y}, z);
    assert {} + {x} == {x} && {x} + {y} == {x, y} && {x, y} + {z} == {x, y, z};
  }

  /** Some page of [a, b) hangs from this table. */
  ghost predicate Needed(id: TableId, a: nat, b: nat) {
    exists p :: a <= p < b && id in TablesOf(p)
  }

  /** The tables that are made are those the pages hang from. */
  lemma {:induction false} MadeAreNeeded(tables: set<TableId>, a: nat, b: nat, id: TableId)
    ensures id in Made(tables, a, b) <==> id in tables || Needed(id, a, b)
    decreases b
  {
    if a < b {
      MadeAreNeeded(tables, a, b - 1, id);
      if Needed(id, a, b - 1) {
        var p :| a <= p < b - 1 && id in TablesOf(p);
      }
      if id in TablesOf(b - 1) { assert Needed(id, a, b); }
    }
  }

  /** Each of them is made once. */
  lemma {:induction false} NewTablesCounts(tables: set<TableId>, a: nat, b: nat)
    ensures tables <= Made(tables, a, b) && NewTables(tables, a, b) == |Made(tables, a, b) - tables|
    decreases b
  {
    if a < b {
      NewTablesCounts(tables, a, b - 1);
      CountNext(tables, Made(tables, a, b - 1), b - 1, Made(tables, a, b));
    }
  }

  lemma CountNext(tables: set<TableId>, before: set<TableId>, p: nat, after: set<TableId>)
    requires tables <= before && after == before + TablesOf(p)
    ensures tables <= after && |after - tables| == |before - tables| + Missing(before, p)
  {
    MissingCounts(before, p);
    CountParts(tables, before, TablesOf(p), after);
  }

  lemma CountParts(tables: set<TableId>, before: set<TableId>, more: set<TableId>, after: set<TableId>)
    requires tables <= before && after == before + more
    ensures tables <= after && |after - tables| == |before - tables| + |more - before|
  {
    assert after - tables == (before - tables) + (more - before);
  }

  /** The cost of two ranges that follow one another. */
  lemma {:induction false} CostOfBoth(tables: set<TableId>, a: nat, m: nat, b: nat)
    requires a <= m <= b
    ensures Made(tables, a, b) == Made(Made(tables, a, m), m, b)
    ensures NewTables(tables, a, b) == NewTables(tables, a, m) + NewTables(Made(tables, a, m), m, b)
    decreases b
  {
    if m < b { CostOfBoth(tables, a, m, b - 1); }
  }

  // ---------------------------------------------------------------- fresh frames

  /** The frames at hand suffice for the pages of [p, goal), and for no more of them up to b. */
  predicate Suffices(tables: set<TableId>, leaf: map<nat, nat>, spare: int, p: int, b: int, goal: nat,
                     rest: (set<TableId>, int)) {
    && 0 <= p <= goal <= b && (forall q :: p <= q <= b ==> (Peak(tables, leaf, p, q) <= spare <==> q <= goal))
    && (forall q: nat :: q == b ==> RestIs(tables, leaf, spare, p, q, rest))
  }

  /** This is what remains when the pages of [p, b) have been mapped. */
  predicate RestIs(tables: set<TableId>, leaf: map<nat, nat>, spare: int, p: nat, b: nat, rest: (set<TableId>, int)) {
    (Made(tables, p, b), spare - NewTables(tables, p, b) - Unmapped(leaf, p, b)) == rest
  }

  lemma {:induction false} PeakGrows(tables: set<TableId>, leaf: map<nat, nat>, a: nat, p: nat, b: nat)
    requires p <= b
    ensures Peak(tables, leaf, a, p) <= Peak(tables, leaf, a, b)
    decreases b
  {
    if p < b { PeakGrows(tables, leaf, a, p, b - 1); }
  }

  /** What comes of mapping fresh frames at the pages of [a, b). It succeeds exactly if enough frames
      are at hand. A failure comes at the first page for which they are too few, and the pages below
      that one are then unmapped, which loses something exactly if one of them was mapped before. */
  ghost predicate FillOutcome(ok: bool, failed: nat, tables: set<TableId>, leaf: map<nat, nat>, spare: int, a: nat,
                              b: nat, leaf': map<nat, nat>, tables': set<TableId>, spare': int) {
    && (ok <==> Peak(tables, leaf, a, b) <= spare)
    && (ok ==> Filled(leaf, leaf', a, b) && RestIs(tables, leaf, spare, a, b, (tables', spare')))
    && (!ok ==>
          && a <= failed < b && Peak(tables, leaf, a, failed) <= spare < Peak(tables, leaf, a, failed + 1)
          && leaf' == Without(leaf, a, failed) && (leaf' == leaf <==> NoneMapped(leaf, a, failed)))
  }

  /** In particular nothing is lost if none of the pages was mapped. */
  lemma FreshPagesLoseNothing(ok: bool, failed: nat, tables: set<TableId>, leaf: map<nat, nat>, spare: int, a: nat,
                              b: nat, leaf': map<nat, nat>, tables': set<TableId>, spare': int)
    requires FillOutcome(ok, failed, tables, leaf, spare, a, b, leaf', tables', spare') && NoneMapped(leaf, a, b)
    ensures !ok ==> leaf' == leaf
  {
  }

  /** Some page below b is mapped, and the frames suffice to get past it. */
  ghost predicate PassesMapped(tables: set<TableId>, leaf: map<nat, nat>, spare: int, a: nat, b: nat) {
    exists p: nat :: a <= p < b && p in leaf && PeakPast(tables, leaf, a, p) <= spare
  }

  function PeakPast(tables: set<TableId>, leaf: map<nat, nat>, a: nat, p: nat): nat { Peak(tables, leaf, a, p + 1) }

  /** Before the call: it will lose a page exactly if the frames are too few for all the pages but
      suffice to get past one that is mapped. */
  lemma LosesIff(ok: bool, failed: nat, tables: set<TableId>, leaf: map<nat, nat>, spare: int, a: nat, b: nat,
                 leaf': map<nat, nat>, tables': set<TableId>, spare': int)
    requires FillOutcome(ok, failed, tables, leaf, spare, a, b, leaf', tables', spare')
    ensures !ok && leaf' != leaf <==>
            Peak(tables, leaf, a, b) > spare && PassesMapped(tables, leaf, spare, a, b) == true
  {
    if !ok { PassesIff(tables, leaf, spare, a, failed, b); }
  }

  lemma PassesIff(tables: set<TableId>, leaf: map<nat, nat>, spare: int, a: nat, failed: nat, b: nat)
    requires a <= failed < b && Peak(tables, leaf, a, failed) <= spare < Peak(tables, leaf, a, failed + 1)
    ensures PassesMapped(tables, leaf, spare, a, b) <==> !NoneMapped(leaf, a, failed)
  {
    if p: nat :| a <= p < b && p in leaf && PeakPast(tables, leaf, a, p) <= spare {
      if p >= failed { PeakGrows(tables, leaf, a, failed + 1, p + 1); }
    }
    if p :| a <= p < failed && p in leaf {
      PeakGrows(tables, leaf, a, p + 1, failed);
      assert PeakPast(tables, leaf, a, p) <= spare;
    }
  }

  lemma LastThatSuffices(tables: set<TableId>, leaf: map<nat, nat>, spare: int, a: nat, b: nat)
    returns (goal: nat, rest: (set<TableId>, int))
    requires a <= b && spare >= 0
    ensures Suffices(tables, leaf, spare, a, b, goal, rest) == true && RestIs(tables, leaf, spare, a, b, rest) == true
    ensures a <= goal <= b && Peak(tables, leaf, a, goal) <= spare && (goal == b <==> Peak(tables, leaf, a, b) <= spare)
    ensures goal < b ==> spare < Peak(tables, leaf, a, goal + 1)
  {
    rest := (Made(tables, a, b), spare - NewTables(tables, a, b) - Unmapped(leaf, a, b));
    goal := LastAffordable(tables, leaf, spare, a, b);
  }

  lemma {:induction false} LastAffordable(tables: set<TableId>, leaf: map<nat, nat>, spare: int, a: nat, b: nat)
    returns (goal: nat)
    requires a <= b && spare >= 0
    ensures a <= goal <= b && Peak(tables, leaf, a, goal) <= spare
    ensures goal < b ==> spare < Peak(tables, leaf, a, goal + 1)
    ensures forall q :: a <= q <= b ==> (Peak(tables, leaf, a, q) <= spare <==> q <= goal)
    decreases b
  {
    if Peak(tables, leaf, a, b) <= spare {
      goal := b;
      forall q | a <= q <= b ensures Peak(tables, leaf, a, q) <= spare { PeakGrows(tables, leaf, a, q, b); }
    } else {
      assert Peak(tables, leaf, a, a) == 0;
      goal := LastAffordable(tables, leaf, spare, a, b - 1);
    }
  }

  /** Whether page p can be mapped. */
  lemma SufficesNow(tables: set<TableId>, leaf: map<nat, nat>, spare: int, p: nat, b: nat, goal: nat,
                    rest: (set<TableId>, int))
    requires Suffices(tables, leaf, spare, p, b, goal, rest) && p < b
    ensures Missing(tables, p) < spare <==> p < goal
  {
    OnePage(tables, p);
    assert Unmapped(leaf, p, p) == 0;
    assert Peak(tables, leaf, p, p + 1) <= spare <==> p + 1 <= goal;
  }

  lemma SufficesNext(tables: set<TableId>, leaf: map<nat, nat>, spare: int, p: nat, p': nat, b: nat, goal: nat,
                     rest: (set<TableId>, int), tables': set<TableId>, spare': int)
    requires Suffices(tables, leaf, spare, p, b, goal, rest) && p' == p + 1 <= b && p < goal
    requires Hung(tables, spare - (if p in leaf then 0 else 1), p, tables', spare')
    ensures Suffices(tables', leaf, spare', p', b, goal, rest) == true
  {
    forall q | p' <= q <= b ensures Peak(tables', leaf, p', q) <= spare' <==> q <= goal {
      assert Peak(tables, leaf, p, q) <= spare <==> q <= goal;
      if q > p' { PeakFrom(tables, leaf, p, q); }
    }
    assert RestIs(tables, leaf, spare, p, b, rest);
    RestOf(tables, p, b);
    UnmappedFrom(leaf, p, b);
  }

  lemma SufficedAll(tables: set<TableId>, leaf: map<nat, nat>, spare: int, p: nat, goal: nat, rest: (set<TableId>, int))
    requires Suffices(tables, leaf, spare, p, p, goal, rest)
    ensures goal == p && (tables, spare) == rest
  {
    assert RestIs(tables, leaf, spare, p, p, rest);
  }

  /** The price of the first page and of the rest. */
  lemma PeakFrom(tables: set<TableId>, leaf: map<nat, nat>, p: nat, q: nat)
    requires p + 1 < q
    ensures Peak(tables, leaf, p, q)
         == Missing(tables, p) + (if p in leaf then 0 else 1) + Peak(tables + TablesOf(p), leaf, p + 1, q)
  {
    CostOfBoth(tables, p, p + 1, q);
    OnePage(tables, p);
    UnmappedFrom(leaf, p, q - 1);
  }

  lemma OnePage(tables: set<TableId>, p: nat)
    ensures Made(tables, p, p + 1) == tables + TablesOf(p) && NewTables(tables, p, p + 1) == Missing(tables, p)
  {
    assert Made(tables, p, p) == tables && NewTables(tables, p, p) == 0;
  }

  lemma {:induction false} UnmappedFrom(leaf: map<nat, nat>, p: nat, q: nat)
    requires p < q
    ensures Unmapped(leaf, p, q) == (if p in leaf then 0 else 1) + Unmapped(leaf, p + 1, q)
    decreases q
  {
    if p + 1 < q { UnmappedFrom(leaf, p, q - 1); }
  }

  /** The tables of page p have been made, and the frames for them taken. */
  predicate Hung(tables: set<TableId>, spare: int, p: nat, tables': set<TableId>, spare': int) {
    tables' == tables + TablesOf(p) && spare' == spare - Missing(tables, p)
  }

  // ---------------------------------------------------------------- given frames

  /** Frame number k, with the first frame going to page a, does not meet another frame. */
  predicate NoClash(leaf: map<nat, nat>, a: nat, frames: seq<nat>, k: nat)
    requires k < |frames|
  {
    a + k in leaf ==> leaf[a + k] == frames[k]
  }

  /** From page p, that of frame i, up to frame j the frames can be mapped: there are frames for their
      tables, and no other frame is mapped there. */
  ghost predicate Loadable(tables: set<TableId>, leaf: map<nat, nat>, spare: int, a: nat, p: nat, frames: seq<nat>,
                           i: int, j: int) {
    && 0 <= i <= j <= |frames| && NewTables(tables, p, a + j) <= spare
    && forall k :: i <= k < j ==> NoClash(leaf, a, frames, k)
  }

  /** The given frames can be mapped from page a on. */
  ghost predicate CanLoad(tables: set<TableId>, leaf: map<nat, nat>, spare: int, a: nat, frames: seq<nat>) {
    NewTables(tables, a, a + |frames|) <= spare && Agrees(leaf, a, frames)
  }

  /** That has made the tables of n pages and taken the frames for them. */
  predicate LeftAfter(tables: set<TableId>, spare: int, a: nat, n: nat, tables': set<TableId>, spare': int) {
    tables' == Made(tables, a, a + n) && spare' == spare - NewTables(tables, a, a + n)
  }

  lemma CanLoadIs(tables: set<TableId>, leaf: map<nat, nat>, spare: int, a: nat, frames: seq<nat>)
    ensures CanLoad(tables, leaf, spare, a, frames) <==> Loadable(tables, leaf, spare, a, a, frames, 0, |frames|)
  {
    if Loadable(tables, leaf, spare, a, a, frames, 0, |frames|) {
      forall p | a <= p < a + |frames| && p in leaf ensures leaf[p] == frames[p - a] {
        assert NoClash(leaf, a, frames, p - a);
      }
    }
    if Agrees(leaf, a, frames) {
      forall k | 0 <= k < |frames| ensures NoClash(leaf, a, frames, k) {
        if a + k in leaf { assert leaf[a + k] == frames[a + k - a]; }
      }
    }
  }

  /** This is what remains when the tables of pages [p, b) have been made. */
  predicate Leaves(tables: set<TableId>, spare: int, p: nat, b: nat, goal: (set<TableId>, int)) {
    (Made(tables, p, b), spare - NewTables(tables, p, b)) == goal
  }

  /** From frame i and page p on those before frame `stop` can be mapped and no more, and when all
      have been, `goal` is what remains. */
  ghost predicate Loads(tables: set<TableId>, leaf: map<nat, nat>, spare: int, a: nat, p: nat, frames: seq<nat>, i: int,
                        stop: nat, goal: (set<TableId>, int)) {
    && 0 <= i <= stop <= |frames|
    && (forall j :: i <= j <= |frames| ==> (Loadable(tables, leaf, spare, a, p, frames, i, j) <==> j <= stop))
    && (forall b: nat :: b == a + |frames| ==> Leaves(tables, spare, p, b, goal))
  }

  lemma LastThatLoads(tables: set<TableId>, leaf: map<nat, nat>, spare: int, a: nat, frames: seq<nat>)
    returns (stop: nat, goal: (set<TableId>, int))
    requires spare >= 0
    ensures Loads(tables, leaf, spare, a, a, frames, 0, stop, goal) == true && stop <= |frames|
    ensures Agrees(leaf, a, frames[..stop]) == true
    ensures LeftAfter(tables, spare, a, |frames|, goal.0, goal.1) == true
    ensures stop == |frames| <==> CanLoad(tables, leaf, spare, a, frames) == true
  {
    CanLoadIs(tables, leaf, spare, a, frames);
    goal := (Made(tables, a, a + |frames|), spare - NewTables(tables, a, a + |frames|));
    assert Loadable(tables, leaf, spare, a, a, frames, 0, 0);
    stop := LastLoadable(tables, leaf, spare, a, frames, |frames|);
    forall p | a <= p < a + stop && p in leaf ensures leaf[p] == frames[..stop][p - a] {
      assert NoClash(leaf, a, frames, p - a);
    }
  }

  lemma {:induction false} LastLoadable(tables: set<TableId>, leaf: map<nat, nat>, spare: int, a: nat, frames: seq<nat>,
                                        n: nat) returns (stop: nat)
    requires n <= |frames| && Loadable(tables, leaf, spare, a, a, frames, 0, 0)
    ensures stop <= n && Loadable(tables, leaf, spare, a, a, frames, 0, stop)
    ensures forall j :: 0 <= j <= n ==> (Loadable(tables, leaf, spare, a, a, frames, 0, j) <==> j <= stop)
  {
    if Loadable(tables, leaf, spare, a, a, frames, 0, n) {
      stop := n;
      forall j | 0 <= j <= n ensures Loadable(tables, leaf, spare, a, a, frames, 0, j) {
        NewTablesGrow(tables, a, a + j, a + n);
      }
    } else {
      stop := LastLoadable(tables, leaf, spare, a, frames, n - 1);
    }
  }

  /** Whether the next frame can be mapped. */
  lemma LoadsNow(tables: set<TableId>, leaf: map<nat, nat>, spare: int, a: nat, p: nat, frames: seq<nat>, i: nat,
                 stop: nat, goal: (set<TableId>, int))
    requires Loads(tables, leaf, spare, a, p, frames, i, stop, goal) && i < |frames| && p == a + i
    ensures Missing(tables, p) <= spare && (p in leaf ==> leaf[p] == frames[i]) <==> i < stop
  {
    OnePage(tables, p);
    assert a + (i + 1) == p + 1;
    assert Loadable(tables, leaf, spare, a, p, frames, i, i + 1) <==> i + 1 <= stop;
    assert NoClash(leaf, a, frames, i) <==> (p in leaf ==> leaf[p] == frames[i]);
  }

  lemma LoadsNext(tables: set<TableId>, leaf: map<nat, nat>, spare: int, a: nat, p: nat, p': nat, frames: seq<nat>,
                  i: nat, i': nat, stop: nat, goal: (set<TableId>, int), tables': set<TableId>, spare': int)
    requires Loads(tables, leaf, spare, a, p, frames, i, stop, goal) && i < stop && p == a + i && p' == p + 1
        && i' == i + 1
    requires p in leaf ==> leaf[p] == frames[i]
    requires Hung(tables, spare, p, tables', spare')
    ensures Loads(tables', leaf, spare', a, p', frames, i', stop, goal) == true
  {
    forall j | i' <= j <= |frames|
      ensures Loadable(tables', leaf, spare', a, p', frames, i', j) <==> j <= stop
    {
      assert Loadable(tables, leaf, spare, a, p, frames, i, j) <==> j <= stop;
      LoadableNext(tables, leaf, spare, a, p, p', frames, i, i', j, tables', spare');
    }
    var b := a + |frames|;
    assert Leaves(tables, spare, p, b, goal);
    RestOf(tables, p, b);
  }

  lemma RestOf(tables: set<TableId>, p: nat, b: nat)
    requires p < b
    ensures Made(tables, p, b) == Made(tables + TablesOf(p), p + 1, b)
    ensures NewTables(tables, p, b) == Missing(tables, p) + NewTables(tables + TablesOf(p), p + 1, b)
  {
    CostOfBoth(tables, p, p + 1, b);
    OnePage(tables, p);
  }

  lemma LoadableNext(tables: set<TableId>, leaf: map<nat, nat>, spare: int, a: nat, p: nat, p': nat, frames: seq<nat>,
                     i: nat, i': nat, j: nat, tables': set<TableId>, spare': int)
    requires i < j <= |frames| && p == a + i && p' == p + 1 && i' == i + 1 && (p in leaf ==> leaf[p] == frames[i])
    requires Hung(tables, spare, p, tables', spare')
    ensures Loadable(tables', leaf, spare', a, p', frames, i', j) <==> Loadable(tables, leaf, spare, a, p, frames, i, j)
  {
    RestOf(tables, p, a + j);
    assert NoClash(leaf, a, frames, i);
  }

  // ---------------------------------------------------------------- the loop that maps given frames

  /** The first i frames are mapped, the last one below page p, and the rest is as Loads says. */
  ghost predicate Loading(leaf0: map<nat, nat>, ledger0: map<nat, Use>, leaf: map<nat, nat>, ledger: map<nat, Use>,
                          tables: set<TableId>, spare: int, a: nat, p: nat, frames: seq<nat>, i: int, stop: nat,
                          goal: (set<TableId>, int)) {
    && 0 <= i && Progress(leaf0, ledger0, leaf, ledger, a, frames, i) && NotYetOwned(leaf0, ledger0, a, frames)
    && Loads(tables, leaf0, spare, a, p, frames, i, stop, goal)
  }

  /** Frame number `stop` could not be mapped, and those before it have been taken out again. */
  ghost predicate NotLoaded(leaf0: map<nat, nat>, ledger0: map<nat, Use>, leaf: map<nat, nat>, ledger: map<nat, Use>,
                            stop: nat, n: nat, a: nat, end: nat) {
    stop < n && leaf == Without(leaf0, a, end) && SameOwners(leaf0, ledger0, leaf, ledger)
  }

  lemma LoadingStart(leaf: map<nat, nat>, ledger: map<nat, Use>, tables: set<TableId>, spare: int, a: nat,
                     frames: seq<nat>, stop: nat, goal: (set<TableId>, int))
    requires Loads(tables, leaf, spare, a, a, frames, 0, stop, goal) == true
        && NotYetOwned(leaf, ledger, a, frames) == true
    ensures Loading(leaf, ledger, leaf, ledger, tables, spare, a, a, frames, 0, stop, goal) == true
  {
  }

  /** Whether the next frame can be mapped. */
  lemma LoadingNow(leaf0: map<nat, nat>, ledger0: map<nat, Use>, leaf: map<nat, nat>, ledger: map<nat, Use>,
                   tables: set<TableId>, spare: int, a: nat, p: nat, frames: seq<nat>, i: nat, stop: nat,
                   goal: (set<TableId>, int))
    requires Loading(leaf0, ledger0, leaf, ledger, tables, spare, a, p, frames, i, stop, goal) == true
    requires i < |frames| && p == a + i
    ensures Missing(tables, p) <= spare && (p in leaf ==> leaf[p] == frames[i]) <==> i < stop
    ensures i <= stop && Progress(leaf0, ledger0, leaf, ledger, a, frames, i) == true
  {
    SameThere(leaf0, ledger0, leaf, ledger, a, frames, i, p);
    LoadsNow(tables, leaf0, spare, a, p, frames, i, stop, goal);
  }

  lemma LoadingNext(leaf0: map<nat, nat>, ledger0: map<nat, Use>, leaf: map<nat, nat>, ledger: map<nat, Use>,
                    tables: set<TableId>, spare: int, a: nat, p: nat, p': nat, frames: seq<nat>, i: nat, i': nat,
                    stop: nat, goal: (set<TableId>, int),
                    leaf': map<nat, nat>, ledger': map<nat, Use>, tables': set<TableId>, spare': int)
    requires Loading(leaf0, ledger0, leaf, ledger, tables, spare, a, p, frames, i, stop, goal) == true
    requires i < |frames| && i < stop && p == a + i && p' == p + 1 && i' == i + 1
    requires leaf' == leaf[p := frames[i]] && (p in leaf ==> leaf[p] == frames[i])
        && SameOwners(leaf, ledger, leaf', ledger')
    requires Hung(tables, spare, p, tables', spare') == true
    ensures Loading(leaf0, ledger0, leaf', ledger', tables', spare', a, p', frames, i', stop, goal) == true
  {
    SameThere(leaf0, ledger0, leaf, ledger, a, frames, i, p);
    LoadsNext(tables, leaf0, spare, a, p, p', frames, i, i', stop, goal, tables', spare');
    ProgressStep(leaf0, ledger0, leaf, ledger, leaf', ledger', a, frames, i);
  }

  lemma LoadingDone(leaf0: map<nat, nat>, ledger0: map<nat, Use>, leaf: map<nat, nat>, ledger: map<nat, Use>,
                    tables: set<TableId>, spare: int, a: nat, p: nat, frames: seq<nat>, stop: nat,
                    goal: (set<TableId>, int))
    requires Loading(leaf0, ledger0, leaf, ledger, tables, spare, a, p, frames, |frames|, stop, goal) == true
    requires p == a + |frames|
    ensures stop == |frames| && (tables, spare) == goal
    ensures Progress(leaf0, ledger0, leaf, ledger, a, frames, |frames|) == true
  {
    assert Leaves(tables, spare, p, p, goal);
  }

  lemma {:induction false} NewTablesGrow(tables: set<TableId>, a: nat, p: nat, b: nat)
    requires p <= b
    ensures NewTables(tables, a, p) <= NewTables(tables, a, b)
    decreases b
  {
    if p < b { NewTablesGrow(tables, a, p, b - 1); }
  }
}
