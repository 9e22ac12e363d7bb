/** The sorted list of mapped regions of a process (kernel/src/process/process_mem.rs): insertion
    with merging, removal of a range, and the first-fit search for a free gap. */
module Regions {

  import opened Wrappers
  import opened Frames

  const WINDOW_START: nat := 0x1000_0000
  const WINDOW_END: nat := 0x6000_0000

  datatype Region = Region(start: nat, size: nat, flags: nat, owned: bool) {
    function End(): nat { start + size }
    predicate Contains(a: nat) { start <= a < End() }
    predicate SameKind(r: Region) { flags == r.flags && owned == r.owned }
    predicate Spans(from: nat, to: nat) { start <= from && End() >= to }
    predicate Meets(from: nat, to: nat) { start < to && from < End() }
  }

  function AlignDown(a: nat): (r: nat)
    ensures r % PAGE_SIZE == 0 && r <= a < r + PAGE_SIZE
  {
    a / PAGE_SIZE * PAGE_SIZE
  }

  predicate Sorted(rs: seq<Region>) {
    forall i, j :: 0 <= i < j < |rs| ==> rs[i].start <= rs[j].start
  }

  /** Whole pages. */
  ghost predicate IsAligned(r: Region) {
    r.start % PAGE_SIZE == 0 && r.End() % PAGE_SIZE == 0 && r.size > 0
  }

  ghost predicate Aligned(rs: seq<Region>) {
    forall i :: 0 <= i < |rs| ==> IsAligned(rs[i])
  }

  predicate Covers(rs: seq<Region>, flags: nat, owned: bool, a: nat) {
    exists i :: 0 <= i < |rs| && rs[i].Contains(a) && rs[i].flags == flags && rs[i].owned == owned
  }

  /** Two regions in list order do not overlap, and do not even touch if they could be merged. */
  predicate Before(p: Region, q: Region) {
    p.size > 0 && p.End() <= q.start && (p.SameKind(q) ==> p.End() < q.start)
  }

  /** Disjoint and coalesced. */
  ghost predicate Tidy(rs: seq<Region>) {
    && (forall i, j :: 0 <= i < j < |rs| ==> Before(rs[i], rs[j]))
    && (forall i :: 0 <= i < |rs| ==> rs[i].size > 0)
  }

  ghost predicate NoForeignOverlap(rs: seq<Region>, r: Region) {
    forall i :: 0 <= i < |rs| && rs[i].Meets(r.start, r.End()) ==> rs[i].SameKind(r)
  }

  function Rounded(r: Region): Region {
    var start := AlignDown(r.start);
    Region(start, AlignUp(r.End()) - start, r.flags, r.owned)
  }

  /** Rounding takes in exactly the pages that share a byte with the region. */
  lemma RoundedIs(r: Region, a: nat)
    requires r.size > 0
    ensures Rounded(r).Contains(a) <==> exists b :: r.start <= b < r.start + r.size && b / 4096 == a / 4096
  {
    var page := a / 4096 * 4096;
    if Rounded(r).Contains(a) {
      var b := if page < r.start then r.start else page;
      assert r.start <= b < r.start + r.size && b / 4096 == a / 4096;
    }
  }

  method PartitionPoint(rs: seq<Region>, start: nat) returns (k: nat)
    requires Sorted(rs)
    ensures k <= |rs|
    ensures forall i :: 0 <= i < k ==> rs[i].start < start
    ensures forall i :: k <= i < |rs| ==> rs[i].start >= start
  {
    var lo, hi := 0, |rs|;
    while lo < hi
      invariant 0 <= lo <= hi <= |rs|
      invariant forall i :: 0 <= i < lo ==> rs[i].start < start
      invariant forall i :: hi <= i < |rs| ==> rs[i].start >= start
    {
      var mid := (lo + hi) / 2;
      if rs[mid].start < start { lo := mid + 1; } else { hi := mid; }
    }
    k := lo;
  }

  function DropAt(rs: seq<Region>, i: nat): (r: seq<Region>)
    requires i < |rs|
    ensures |r| == |rs| - 1
    ensures forall j :: 0 <= j < |r| ==> r[j] == if j < i then rs[j] else rs[j + 1]
  {
    rs[..i] + rs[i + 1..]
  }

  function InsertAt(rs: seq<Region>, i: nat, x: Region): (r: seq<Region>)
    requires i <= |rs|
    ensures |r| == |rs| + 1
    ensures forall j :: 0 <= j < |r| ==> r[j] == if j < i then rs[j] else if j == i then x else rs[j - 1]
  {
    rs[..i] + [x] + rs[i..]
  }

  lemma DropCovers(rs: seq<Region>, i: nat, flags: nat, owned: bool, a: nat)
    requires i < |rs|
    ensures Covers(rs, flags, owned, a) <==>
      Covers(DropAt(rs, i), flags, owned, a) || (rs[i].Contains(a) && rs[i].flags == flags && rs[i].owned == owned)
  {
    var r := DropAt(rs, i);
    if Covers(rs, flags, owned, a) {
      var j :| 0 <= j < |rs| && rs[j].Contains(a) && rs[j].flags == flags && rs[j].owned == owned;
      if j < i { assert r[j] == rs[j]; } else if j > i { assert r[j - 1] == rs[j]; }
    }
    if Covers(r, flags, owned, a) {
      var j :| 0 <= j < |r| && r[j].Contains(a) && r[j].flags == flags && r[j].owned == owned;
      assert r[j] == rs[if j < i then j else j + 1];
    }
  }

  lemma InsertCovers(rs: seq<Region>, i: nat, x: Region, flags: nat, owned: bool, a: nat)
    requires i <= |rs|
    ensures Covers(InsertAt(rs, i, x), flags, owned, a) <==>
      Covers(rs, flags, owned, a) || (x.Contains(a) && x.flags == flags && x.owned == owned)
  {
    assert DropAt(InsertAt(rs, i, x), i) == rs;
    DropCovers(InsertAt(rs, i, x), i, flags, owned, a);
  }

  /** What the list and the region being merged cover together. */
  ghost predicate Together(rs: seq<Region>, m: Region, flags: nat, owned: bool, a: nat) {
    Covers(rs, flags, owned, a) || (m.Contains(a) && m.flags == flags && m.owned == owned)
  }

  function Union(p: Region, q: Region): Region {
    var end := if p.End() > q.End() then p.End() else q.End();
    p.(size := if end >= p.start then end - p.start else 0)
  }

  /** Moving element i of the list into the merged region changes no coverage, provided the
      two touch and are of one kind. */
  lemma AbsorbCovers(rs: seq<Region>, i: nat, m: Region, u: Region, flags: nat, owned: bool, a: nat)
    requires i < |rs| && rs[i].SameKind(m)
    requires (u == Union(rs[i], m) && rs[i].start <= m.start <= rs[i].End())
          || (u == Union(m, rs[i]) && m.start <= rs[i].start <= m.End())
    ensures Together(DropAt(rs, i), u, flags, owned, a) <==> Together(rs, m, flags, owned, a)
  {
    DropCovers(rs, i, flags, owned, a);
  }

  /** m fits into the list at position k. */
  ghost predicate Fits(rs: seq<Region>, k: nat, m: Region) {
    && k <= |rs| && m.size > 0
    && (forall i :: 0 <= i < k ==> Before(rs[i], m))
    && (forall i :: k <= i < |rs| ==> !rs[i].SameKind(m) ==> m.End() <= rs[i].start)
  }

  ghost predicate SameCoverage(rs: seq<Region>, m: Region, rs': seq<Region>, m': Region) {
    forall flags, owned, a: nat :: Together(rs', m', flags, owned, a) <==> Together(rs, m, flags, owned, a)
  }

  ghost predicate Placed(rs: seq<Region>, k: nat, m: Region) {
    && Sorted(rs) && k <= |rs|
    && (forall i :: 0 <= i < k ==> rs[i].start <= m.start)
    && (forall i :: k <= i < |rs| ==> rs[i].start >= m.start)
  }

  /** What joining with the element before position `at` does. */
  ghost predicate PreviousStep(rs: seq<Region>, at: nat, m: Region, r: seq<Region>, k: nat, merged: Region) {
    && at <= |rs|
    && if at > 0 && rs[at - 1].SameKind(m) && rs[at - 1].End() >= m.start
       then k == at - 1 && r == DropAt(rs, k) && merged == Union(rs[k], m)
       else k == at && r == rs && merged == m
  }

  method AbsorbPrevious(rs: seq<Region>, at: nat, m: Region) returns (r: seq<Region>, k: nat, merged: Region)
    requires Divides(rs, at, m)
    ensures Placed(r, k, merged) && SameCoverage(rs, m, r, merged)
    ensures Aligned(rs) && IsAligned(m) ==> Aligned(r) && IsAligned(merged)
    ensures Tidy(rs) && NoForeignOverlap(rs, m) ==> Tidy(r) && Fits(r, k, merged)
    ensures Landing(rs, r, k, merged, m)
  {
    r, k, merged := rs, at, m;
    if k > 0 && r[k - 1].SameKind(merged) && r[k - 1].End() >= merged.start {
      merged := Union(r[k - 1], merged);
      r := DropAt(r, k - 1);
      k := k - 1;
    }
    PreviousCovers(rs, at, m, r, k, merged);
    if Tidy(rs) && NoForeignOverlap(rs, m) { PreviousFits(rs, at, m, r, k, merged); }
    PreviousLands(rs, at, m, r, k, merged);
    if Aligned(rs) && IsAligned(m) { PreviousAligned(rs, at, m, r, k, merged); }
  }

  /** Position `at` divides the sorted list at the start of m. */
  ghost predicate Divides(rs: seq<Region>, at: nat, m: Region) {
    && Sorted(rs) && at <= |rs| && m.size > 0
    && (forall i :: 0 <= i < at ==> rs[i].start < m.start)
    && (forall i :: at <= i < |rs| ==> rs[i].start >= m.start)
  }

  lemma PreviousCovers(rs: seq<Region>, at: nat, m: Region, r: seq<Region>, k: nat, merged: Region)
    requires Divides(rs, at, m) && PreviousStep(rs, at, m, r, k, merged)
    ensures SameCoverage(rs, m, r, merged)
  {
    if k < at {
      forall flags, owned, a: nat
        ensures Together(r, merged, flags, owned, a) <==> Together(rs, m, flags, owned, a)
      {
        AbsorbCovers(rs, k, m, merged, flags, owned, a);
      }
    }
  }

  lemma PreviousLands(rs: seq<Region>, at: nat, m: Region, r: seq<Region>, k: nat, merged: Region)
    requires Divides(rs, at, m) && PreviousStep(rs, at, m, r, k, merged)
    ensures Placed(r, k, merged) && Landing(rs, r, k, merged, m)
  {
    if k < at { DropKeeps(rs, k); }
  }

  lemma DropKeeps(rs: seq<Region>, k: nat)
    requires k < |rs|
    ensures Sorted(rs) ==> Sorted(DropAt(rs, k))
    ensures forall i :: 0 <= i < |rs| - 1 ==> DropAt(rs, k)[i] in rs
  {
  }

  lemma PreviousAligned(rs: seq<Region>, at: nat, m: Region, r: seq<Region>, k: nat, merged: Region)
    requires Divides(rs, at, m) && PreviousStep(rs, at, m, r, k, merged) && Aligned(rs) && IsAligned(m)
    ensures Aligned(r) && IsAligned(merged)
  {
  }

  lemma PreviousFits(rs: seq<Region>, at: nat, m: Region, r: seq<Region>, k: nat, merged: Region)
    requires Tidy(rs) && NoForeignOverlap(rs, m)
    requires Divides(rs, at, m) && PreviousStep(rs, at, m, r, k, merged)
    ensures Tidy(r) && Fits(r, k, merged)
  {
    forall i | 0 <= i < k ensures Before(r[i], merged) {
      assert r[i] == rs[i];
      if i < at - 1 { assert Before(rs[i], rs[at - 1]); }
    }
    forall i | k <= i < |r| && !r[i].SameKind(merged) ensures merged.End() <= r[i].start {
      LaterFits(rs, at, m, r, k, merged, i);
    }
  }

  lemma LaterFits(rs: seq<Region>, at: nat, m: Region, r: seq<Region>, k: nat, merged: Region, i: nat)
    requires Tidy(rs) && NoForeignOverlap(rs, m) && k <= i < |r| && !r[i].SameKind(merged)
    requires Divides(rs, at, m) && PreviousStep(rs, at, m, r, k, merged)
    ensures merged.End() <= r[i].start
  {
    var j := if k == at then i else i + 1;
    assert r[i] == rs[j] && !rs[j].Meets(m.start, m.End());
    if k < at { assert Before(rs[k], rs[j]); }
  }

  method AbsorbNext(rs: seq<Region>, k: nat, m: Region, ghost range: Region) returns (r: seq<Region>, merged: Region)
    requires Placed(rs, k, m) && Landing(rs, rs, k, m, range)
    ensures Landing(rs, r, k, merged, range)
    ensures Placed(r, k, merged) && SameCoverage(rs, m, r, merged)
    ensures Aligned(rs) && IsAligned(m) ==> Aligned(r) && IsAligned(merged)
    ensures k < |r| ==> !r[k].SameKind(merged) || r[k].start > merged.End()
    ensures Tidy(rs) && Fits(rs, k, m) ==> Tidy(r) && Fits(r, k, merged)
  {
    r, merged := rs, m;
    while k < |r| && r[k].SameKind(merged) && r[k].start <= merged.End()
      invariant Landing(rs, r, k, merged, range)
      invariant Placed(r, k, merged) && SameCoverage(rs, m, r, merged)
      invariant Aligned(rs) && IsAligned(m) ==> Aligned(r) && IsAligned(merged)
      invariant Tidy(rs) && Fits(rs, k, m) ==> Tidy(r) && Fits(r, k, merged)
      decreases |r|
    {
      NextStep(rs, r, k, merged, range);
      if Tidy(r) && Fits(r, k, merged) { NextFits(r, k, merged); }
      merged := Union(merged, r[k]);
      r := DropAt(r, k);
    }
  }

  lemma NextStep(rs: seq<Region>, r: seq<Region>, k: nat, m: Region, range: Region)
    requires Placed(r, k, m) && Landing(rs, r, k, m, range)
    requires k < |r| && r[k].SameKind(m) && r[k].start <= m.End()
    ensures var r', m' := DropAt(r, k), Union(m, r[k]);
      && Placed(r', k, m') && Landing(rs, r', k, m', range) && SameCoverage(r, m, r', m')
      && (Aligned(r) && IsAligned(m) ==> Aligned(r') && IsAligned(m'))
  {
    forall flags, owned, a: nat
      ensures Together(DropAt(r, k), Union(m, r[k]), flags, owned, a) <==> Together(r, m, flags, owned, a)
    {
      AbsorbCovers(r, k, m, Union(m, r[k]), flags, owned, a);
    }
  }

  lemma NextFits(rs: seq<Region>, k: nat, m: Region)
    requires Tidy(rs) && Fits(rs, k, m) && k < |rs| && rs[k].SameKind(m) && m.start <= rs[k].start <= m.End()
    ensures Tidy(DropAt(rs, k)) && Fits(DropAt(rs, k), k, Union(m, rs[k]))
  {
    var r := DropAt(rs, k);
    forall i | k <= i < |r| && !r[i].SameKind(m) ensures Union(m, rs[k]).End() <= r[i].start {
      assert r[i] == rs[i + 1] && Before(rs[k], rs[i + 1]);
    }
  }

  lemma InsertIsTidy(rs: seq<Region>, k: nat, m: Region)
    requires Tidy(rs) && Fits(rs, k, m) && Placed(rs, k, m)
    requires k < |rs| ==> !rs[k].SameKind(m) || rs[k].start > m.End()
    ensures Tidy(InsertAt(rs, k, m))
  {
    forall i | k <= i < |rs| ensures Before(m, rs[i]) {
      if i > k { assert Before(rs[k], rs[i]); }
    }
  }

  lemma InsertIsSorted(rs: seq<Region>, k: nat, m: Region)
    requires Placed(rs, k, m)
    ensures Sorted(InsertAt(rs, k, m)) == true
    ensures Aligned(rs) && IsAligned(m) ==> Aligned(InsertAt(rs, k, m)) == true
  {
  }

  /** Inserts the page-rounded region, merging it with touching neighbours of its kind. The
      list stays sorted, exactly the rounded range is added to the coverage of that kind and
      nothing to any other, and a disjoint coalesced list stays so. Every element but the one
      at `at`, which spans the new range, was there before, and those above it start no
      lower than the new range. */
  method TrackRegion(rs: seq<Region>, region: Region) returns (r: seq<Region>, ghost at: nat)
    requires Sorted(rs) && region.size > 0
    ensures Sorted(r) && (Aligned(rs) ==> Aligned(r))
    ensures forall flags, owned, a: nat ::
      Covers(r, flags, owned, a) <==> Together(rs, Rounded(region), flags, owned, a)
    ensures Tidy(rs) && NoForeignOverlap(rs, Rounded(region)) ==> Tidy(r)
    ensures LandsAt(rs, r, at, Rounded(region))
  {
    var merged := Rounded(region);
    var k := PartitionPoint(rs, merged.start);
    r, k, merged := AbsorbPrevious(rs, k, merged);
    r, merged := AbsorbNext(r, k, merged, Rounded(region));
    forall flags, owned, a: nat
      ensures Covers(InsertAt(r, k, merged), flags, owned, a) <==> Together(r, merged, flags, owned, a)
    {
      InsertCovers(r, k, merged, flags, owned, a);
    }
    if Tidy(rs) && NoForeignOverlap(rs, Rounded(region)) { InsertIsTidy(r, k, merged); }
    LandsByInsert(rs, r, k, merged, Rounded(region));
    InsertIsSorted(r, k, merged);
    r, at := InsertAt(r, k, merged), k;
  }

  /** The list r without the merged region: old elements only, those from k on start no lower
      than the new range, and the merged region holds the range. */
  ghost predicate Landing(rs: seq<Region>, r: seq<Region>, k: nat, merged: Region, range: Region) {
    && k <= |r| && merged.Spans(range.start, range.End()) && merged.SameKind(range)
    && (forall i :: 0 <= i < |r| ==> r[i] in rs)
    && (forall i :: k <= i < |r| ==> r[i].start >= range.start)
  }

  ghost predicate LandsAt(rs: seq<Region>, r: seq<Region>, at: nat, range: Region) {
    && at < |r| && r[at].Spans(range.start, range.End()) && r[at].SameKind(range)
    && (forall i :: 0 <= i < |r| && i != at ==> r[i] in rs)
    && (forall i :: at < i < |r| ==> r[i].start >= range.start)
  }

  lemma LandsByInsert(rs: seq<Region>, r: seq<Region>, k: nat, merged: Region, range: Region)
    requires Landing(rs, r, k, merged, range)
    ensures LandsAt(rs, InsertAt(r, k, merged), k, range)
  {
  }

  /** Index of the first region that contains the whole range. */
  method FindSpanning(rs: seq<Region>, from: nat, to: nat) returns (k: Option<nat>)
    ensures k.Some? ==> k.value < |rs| && rs[k.value].Spans(from, to)
    ensures k.Some? ==> forall i :: 0 <= i < k.value ==> !rs[i].Spans(from, to)
    ensures k.None? ==> forall i :: 0 <= i < |rs| ==> !rs[i].Spans(from, to)
  {
    for i := 0 to |rs|
      invariant forall j :: 0 <= j < i ==> !rs[j].Spans(from, to)
    {
      if rs[i].Spans(from, to) { return Some(i); }
    }
    k := None;
  }

  ghost predicate IsKind(x: Region, flags: nat, owned: bool, a: nat) {
    x.Contains(a) && x.flags == flags && x.owned == owned
  }

  /** Takes region k out and puts what is left of it on either side of the range in its place. */
  method ReplaceByPieces(rs: seq<Region>, k: nat, from: nat, to: nat) returns (r: seq<Region>)
    requires k < |rs| && rs[k].Spans(from, to) && from < to
    ensures r == rs[..k] + Pieces(rs[k], from, to) + rs[k + 1..]
  {
    var region := rs[k];
    r := rs[..k] + rs[k + 1..];
    var insertAt := k;
    if region.start < from {
      r := r[..insertAt] + [region.(size := from - region.start)] + r[insertAt..];
      insertAt := insertAt + 1;
    }
    if to < region.End() {
      r := r[..insertAt] + [Region(to, region.End() - to, region.flags, region.owned)] + r[insertAt..];
    }
  }

  /** The bookkeeping half of unmap_region: the range is cut out of region k, whose remaining
      pieces take its place. Coverage shrinks by exactly that range as far as region k is
      concerned. The list stays sorted if and only if no later region starts below the
      piece that is left above the range, which holds for every disjoint list. */
  method CutRange(rs: seq<Region>, k: nat, from: nat, to: nat) returns (r: seq<Region>)
    requires k < |rs| && rs[k].Spans(from, to) && from < to
    ensures forall flags, owned, a: nat :: CutAt(rs, k, from, to, r, flags, owned, a)
    ensures Sorted(rs) ==> (Sorted(r) <==> (to < rs[k].End() ==> forall i :: k < i < |rs| ==> to <= rs[i].start))
    ensures Tidy(rs) ==> Tidy(r) && Sorted(r)
    ensures Aligned(rs) && from % PAGE_SIZE == 0 && to % PAGE_SIZE == 0 ==> Aligned(r)
  {
    r := ReplaceByPieces(rs, k, from, to);
    if Tidy(rs) { TidyIsSorted(rs); }
    if Sorted(rs) { CutOrder(rs, k, from, to, r); }
    forall flags, owned, a: nat ensures CutAt(rs, k, from, to, r, flags, owned, a) {
      CutCovers(rs, k, from, to, r, flags, owned, a);
    }
    if Aligned(rs) && from % PAGE_SIZE == 0 && to % PAGE_SIZE == 0 { CutAligned(rs, k, from, to, r); }
  }

  lemma TidyIsSorted(rs: seq<Region>)
    requires Tidy(rs)
    ensures Sorted(rs)
  {
    forall i, j | 0 <= i < j < |rs| ensures rs[i].start <= rs[j].start { assert Before(rs[i], rs[j]); }
  }

  ghost predicate CutAt(rs: seq<Region>, k: nat, from: nat, to: nat, r: seq<Region>, flags: nat, owned: bool, a: nat)
    requires k < |rs|
  {
    Covers(r, flags, owned, a) <==>
      Covers(DropAt(rs, k), flags, owned, a) || (IsKind(rs[k], flags, owned, a) && !(from <= a < to))
  }

  lemma InsertTwo(rs: seq<Region>, k: nat, x: Region, y: Region, flags: nat, owned: bool, a: nat)
    requires k <= |rs|
    ensures Covers(rs[..k] + [x, y] + rs[k..], flags, owned, a) <==>
      Covers(rs, flags, owned, a) || IsKind(x, flags, owned, a) || IsKind(y, flags, owned, a)
  {
    InsertCovers(rs, k, x, flags, owned, a);
    InsertCovers(InsertAt(rs, k, x), k + 1, y, flags, owned, a);
    assert rs[..k] + [x, y] + rs[k..] == InsertAt(InsertAt(rs, k, x), k + 1, y);
  }

  lemma CutCovers(rs: seq<Region>, k: nat, from: nat, to: nat, r: seq<Region>, flags: nat, owned: bool, a: nat)
    requires k < |rs| && rs[k].Spans(from, to) && from < to
    requires r == rs[..k] + Pieces(rs[k], from, to) + rs[k + 1..]
    ensures CutAt(rs, k, from, to, r, flags, owned, a)
  {
    var rest, ps := DropAt(rs, k), Pieces(rs[k], from, to);
    if |ps| == 2 {
      InsertTwo(rest, k, ps[0], ps[1], flags, owned, a);
      assert r == rest[..k] + [ps[0], ps[1]] + rest[k..];
    } else if |ps| == 1 {
      InsertCovers(rest, k, ps[0], flags, owned, a);
      assert r == InsertAt(rest, k, ps[0]);
    } else {
      assert r == rest;
    }
  }

  lemma CutAligned(rs: seq<Region>, k: nat, from: nat, to: nat, r: seq<Region>)
    requires Aligned(rs) && k < |rs| && rs[k].Spans(from, to) && from < to
    requires from % PAGE_SIZE == 0 && to % PAGE_SIZE == 0
    requires r == rs[..k] + Pieces(rs[k], from, to) + rs[k + 1..]
    ensures Aligned(r)
  {
    var ps := Pieces(rs[k], from, to);
    forall i | 0 <= i < |r| ensures IsAligned(r[i]) {
      assert r[i] == AfterCut(rs, k, ps, i);
    }
  }

  ghost function Pieces(region: Region, from: nat, to: nat): (r: seq<Region>)
    requires region.Spans(from, to) && from < to
  {
    (if region.start < from then [region.(size := from - region.start)] else [])
    + (if to < region.End() then [Region(to, region.End() - to, region.flags, region.owned)] else [])
  }

  /** Element i of the list after the cut. */
  ghost function AfterCut(rs: seq<Region>, k: nat, ps: seq<Region>, i: nat): Region
    requires k < |rs| && i < |rs| + |ps| - 1
  {
    if i < k then rs[i] else if i < k + |ps| then ps[i - k] else rs[i - |ps| + 1]
  }

  lemma CutSorted(rs: seq<Region>, k: nat, from: nat, to: nat, r: seq<Region>, i: nat, j: nat)
    requires Sorted(rs) && k < |rs| && rs[k].Spans(from, to) && from < to
    requires r == rs[..k] + Pieces(rs[k], from, to) + rs[k + 1..]
    requires to < rs[k].End() ==> forall x :: k < x < |rs| ==> to <= rs[x].start
    requires i < j < |r|
    ensures r[i].start <= r[j].start
  {
    var ps := Pieces(rs[k], from, to);
    assert r[i] == AfterCut(rs, k, ps, i) && r[j] == AfterCut(rs, k, ps, j);
  }

  lemma CutTidy(rs: seq<Region>, k: nat, from: nat, to: nat, r: seq<Region>, i: nat, j: nat)
    requires Tidy(rs) && k < |rs| && rs[k].Spans(from, to) && from < to
    requires r == rs[..k] + Pieces(rs[k], from, to) + rs[k + 1..]
    requires i < j < |r|
    ensures Before(r[i], r[j]) && r[j].size > 0
  {
    var ps := Pieces(rs[k], from, to);
    assert r[i] == AfterCut(rs, k, ps, i) && r[j] == AfterCut(rs, k, ps, j);
    if i < k {
      assert Before(rs[i], rs[if j < k then j else if j < k + |ps| then k else j - |ps| + 1]);
    } else if j >= k + |ps| {
      assert Before(rs[if i < k + |ps| then k else i - |ps| + 1], rs[j - |ps| + 1]);
    }
  }

  lemma CutOrder(rs: seq<Region>, k: nat, from: nat, to: nat, r: seq<Region>)
    requires Sorted(rs) && k < |rs| && rs[k].Spans(from, to) && from < to
    requires r == rs[..k] + Pieces(rs[k], from, to) + rs[k + 1..]
    ensures Sorted(r) <==> (to < rs[k].End() ==> forall i :: k < i < |rs| ==> to <= rs[i].start)
    ensures Tidy(rs) ==> Tidy(r) && Sorted(r)
  {
    var ps := Pieces(rs[k], from, to);
    if to < rs[k].End() ==> forall i :: k < i < |rs| ==> to <= rs[i].start {
      forall i, j | 0 <= i < j < |r| ensures r[i].start <= r[j].start { CutSorted(rs, k, from, to, r, i, j); }
    } else {
      var i :| k < i < |rs| && to > rs[i].start;
      assert r[k + |ps| - 1].start == to && r[i + |ps| - 1] == rs[i];
    }
    if Tidy(rs) {
      forall i, j | 0 <= i < j < |r| ensures Before(r[i], r[j]) && r[j].size > 0 { CutTidy(rs, k, from, to, r, i, j); }
      if |r| > 0 { assert r[0] == AfterCut(rs, k, ps, 0); }
      forall i | k < i < |rs| ensures to <= rs[i].start { assert Before(rs[k], rs[i]); }
    }
  }

  // ---------------------------------------------------------------- gaps

  ghost predicate IsGap(rs: seq<Region>, g: nat, size: nat) {
    && WINDOW_START <= g && g + size <= WINDOW_END
    && forall i :: 0 <= i < |rs| ==> !rs[i].Meets(g, g + size)
  }

  /** The lowest gap of the window that holds `size` rounded up to pages, and None only when
      there is no such gap. Regions may overlap. */
  method FindFreeGap(rs: seq<Region>, size: nat) returns (g: Option<nat>)
    requires Sorted(rs) && forall i :: 0 <= i < |rs| ==> rs[i].size > 0
    ensures size == 0 ==> g.None?
    ensures size > 0 && g.Some? ==>
      IsGap(rs, g.value, AlignUp(size)) && forall h :: IsGap(rs, h, AlignUp(size)) ==> g.value <= h
    ensures size > 0 && g.None? ==> forall h :: !IsGap(rs, h, AlignUp(size))
    ensures Aligned(rs) && g.Some? ==> g.value % PAGE_SIZE == 0
  {
    var aligned := AlignUp(size);
    if aligned == 0 { return None; }
    var cursor := WINDOW_START;
    for i := 0 to |rs|
      invariant cursor >= WINDOW_START && (Aligned(rs) ==> cursor % PAGE_SIZE == 0)
      invariant forall j :: 0 <= j < i ==> rs[j].End() <= cursor
      invariant forall h :: IsGap(rs, h, aligned) ==> cursor <= h
    {
      var region := rs[i];
      if region.End() <= WINDOW_START { continue; }
      if region.start >= WINDOW_END { break; }
      if region.start >= cursor + aligned { return Some(cursor); }
      forall h | IsGap(rs, h, aligned) ensures region.End() <= h {
        assert !rs[i].Meets(h, h + aligned);
      }
      cursor := if cursor > region.End() then cursor else region.End();
    }
    if cursor + aligned <= WINDOW_END { return Some(cursor); }
    g := None;
  }
}
