/** The memory layout of a process (kernel/src/process/process_mem.rs) with its doubly mapped ring
    buffers (kernel/src/data_structures/circular_buffer.rs). Regions say which mapped pages are
    owned and which are borrowed; tearing the space down gives back every frame it took. */
module AddressSpace {
  import opened Wrappers
  import opened Frames
  import opened Paging
  import opened MapCost
  import opened Regions
  import opened UserMemory

  const USER_BYTES: nat := USER_PAGES * PAGE_SIZE
  const HEAP_START: nat := 0x6000_0000
  const HEAP_END: nat := 0x1_0000_0000

  // page flag bits of the processor
  const PRESENT: nat := 1
  const WRITABLE: nat := 2
  const USER_ACCESSIBLE: nat := 4
  const NO_EXECUTE: nat := 0x8000_0000_0000_0000

  function First(start: nat): nat { start / PAGE_SIZE }

  /** One past the last page that the range touches. */
  function After(start: nat, size: nat): (r: nat)
    requires size > 0
    ensures First(start) < r
  {
    (start + size - 1) / PAGE_SIZE + 1
  }

  /** These pages are exactly the ones that share a byte with the range. */
  lemma PagesOfRange(start: nat, size: nat, p: nat)
    requires size > 0
    ensures First(start) <= p < After(start, size) <==> p * 4096 < start + size && start < p * 4096 + 4096
  {
  }

  ghost predicate HasAt(rs: seq<Region>, i: int, owned: bool, p: nat) {
    0 <= i < |rs| && rs[i].owned == owned && rs[i].Contains(p * PAGE_SIZE)
  }

  /** Page p lies in a region of this ownership. */
  ghost predicate Has(rs: seq<Region>, owned: bool, p: nat) {
    exists i :: HasAt(rs, i, owned, p)
  }

  /** No page is both owned and borrowed. */
  ghost predicate Apart(rs: seq<Region>) {
    forall p: nat :: !(Has(rs, true, p) && Has(rs, false, p))
  }

  /** Every mapped page lies in a region that says truly whether it is owned. */
  ghost predicate Tracked(leaf: map<nat, nat>, ledger: map<nat, Use>, rs: seq<Region>) {
    forall p: nat :: p in leaf ==> Has(rs, Owns(leaf, ledger, p), p)
  }

  /** No region of this ownership meets the range. */
  predicate Clear(rs: seq<Region>, owned: bool, from: nat, to: nat) {
    forall i :: 0 <= i < |rs| && rs[i].owned == owned ==> !rs[i].Meets(from, to)
  }

  lemma ClearPages(rs: seq<Region>, owned: bool, start: nat, size: nat, p: nat)
    requires size > 0 && Clear(rs, owned, AlignDown(start), Frames.AlignUp(start + size))
    requires First(start) <= p < After(start, size)
    ensures !Has(rs, owned, p)
  {
    forall i ensures !HasAt(rs, i, owned, p) {
    }
  }

  lemma RoundedPages(region: Region, p: nat)
    requires region.size > 0
    ensures Rounded(region).Contains(p * PAGE_SIZE) <==> First(region.start) <= p < After(region.start, region.size)
  {
  }

  lemma HasByCover(rs: seq<Region>, flags: nat, owned: bool, p: nat)
    requires Covers(rs, flags, owned, p * PAGE_SIZE)
    ensures Has(rs, owned, p)
  {
    var i :| 0 <= i < |rs| && rs[i].Contains(p * PAGE_SIZE) && rs[i].flags == flags && rs[i].owned == owned;
    assert HasAt(rs, i, owned, p);
  }

  lemma CoverOfHas(rs: seq<Region>, owned: bool, p: nat) returns (flags: nat)
    requires Has(rs, owned, p)
    ensures Covers(rs, flags, owned, p * PAGE_SIZE)
  {
    var i :| HasAt(rs, i, owned, p);
    flags := rs[i].flags;
  }

  /** r is rs with the pages of the region added to those of its ownership. */
  ghost predicate Adds(rs: seq<Region>, r: seq<Region>, region: Region)
    requires region.size > 0
  {
    forall owned, p: nat :: Has(r, owned, p) <==>
      Has(rs, owned, p) || (region.owned == owned && First(region.start) <= p < After(region.start, region.size))
  }

  /** r covers what rs covers and the pages of the region, byte by byte with its flags and ownership. */
  ghost predicate Extends(rs: seq<Region>, r: seq<Region>, region: Region) {
    forall flags, owned, a: nat :: Covers(r, flags, owned, a) <==> Together(rs, Rounded(region), flags, owned, a)
  }

  lemma TrackAdds(rs: seq<Region>, r: seq<Region>, region: Region)
    requires region.size > 0
    requires forall flags, owned, a: nat ::
      Covers(r, flags, owned, a) <==> Together(rs, Rounded(region), flags, owned, a)
    ensures Adds(rs, r, region)
  {
    forall owned, p: nat
      ensures Has(r, owned, p) <==>
        Has(rs, owned, p) || (region.owned == owned && First(region.start) <= p < After(region.start, region.size))
    {
      RoundedPages(region, p);
      var a := p * PAGE_SIZE;
      if Has(r, owned, p) {
        var flags := CoverOfHas(r, owned, p);
        assert Together(rs, Rounded(region), flags, owned, a);
        if Covers(rs, flags, owned, a) { HasByCover(rs, flags, owned, p); }
      }
      if Has(rs, owned, p) {
        var flags := CoverOfHas(rs, owned, p);
        assert Together(rs, Rounded(region), flags, owned, a);
        HasByCover(r, flags, owned, p);
      } else if region.owned == owned && First(region.start) <= p < After(region.start, region.size) {
        assert Together(rs, Rounded(region), region.flags, owned, a);
        HasByCover(r, region.flags, owned, p);
      }
    }
  }

  /** r is rs without some of the pages of [a, b). */
  ghost predicate Loses(rs: seq<Region>, r: seq<Region>, a: nat, b: nat) {
    && (forall owned, p: nat :: Has(r, owned, p) ==> Has(rs, owned, p))
    && (forall owned, p: nat :: Has(rs, owned, p) && !(a <= p < b) ==> Has(r, owned, p))
  }

  lemma CutLoses(rs: seq<Region>, k: nat, from: nat, to: nat, r: seq<Region>)
    requires k < |rs| && from < to && from % PAGE_SIZE == 0 && to % PAGE_SIZE == 0
    requires forall flags, owned, a: nat :: CutAt(rs, k, from, to, r, flags, owned, a)
    ensures Loses(rs, r, from / PAGE_SIZE, to / PAGE_SIZE)
  {
    forall owned, p: nat | Has(r, owned, p) ensures Has(rs, owned, p) {
      var flags := CoverOfHas(r, owned, p);
      assert CutAt(rs, k, from, to, r, flags, owned, p * PAGE_SIZE);
      DropCovers(rs, k, flags, owned, p * PAGE_SIZE);
      HasByCover(rs, flags, owned, p);
    }
    forall owned, p: nat | Has(rs, owned, p) && !(from / PAGE_SIZE <= p < to / PAGE_SIZE) ensures Has(r, owned, p) {
      var flags := CoverOfHas(rs, owned, p);
      assert CutAt(rs, k, from, to, r, flags, owned, p * PAGE_SIZE);
      DropCovers(rs, k, flags, owned, p * PAGE_SIZE);
      HasByCover(r, flags, owned, p);
    }
  }

  /** Unmapping pages keeps the rest tracked. */
  lemma TrackedWithout(leaf: map<nat, nat>, ledger: map<nat, Use>, leaf': map<nat, nat>, ledger': map<nat, Use>,
                       rs: seq<Region>, r: seq<Region>, a: nat, b: nat)
    requires Tracked(leaf, ledger, rs) && Loses(rs, r, a, b)
    requires leaf' == Without(leaf, a, b) && OwnersWithout(leaf, ledger, leaf', ledger', a, b)
    ensures Tracked(leaf', ledger', r)
  {
    forall p: nat | p in leaf' ensures Has(r, Owns(leaf', ledger', p), p) {
      assert Has(rs, Owns(leaf, ledger, p), p);
    }
  }

  /** The pages of a new region are tracked by it. */
  lemma TrackedWith(leaf: map<nat, nat>, ledger: map<nat, Use>, leaf': map<nat, nat>, ledger': map<nat, Use>,
                    rs: seq<Region>, r: seq<Region>, region: Region)
    requires Tracked(leaf, ledger, rs) && region.size > 0 && Adds(rs, r, region) && Apart(rs)
    requires Clear(rs, !region.owned, AlignDown(region.start), Frames.AlignUp(region.End()))
    requires forall p :: p in leaf' ==> p in leaf || First(region.start) <= p < After(region.start, region.size)
    requires NewOwners(leaf, ledger, leaf', ledger', First(region.start),
                       After(region.start, region.size) - First(region.start), region.owned)
    ensures Tracked(leaf', ledger', r) && Apart(r)
  {
    forall p: nat | p in leaf' ensures Has(r, Owns(leaf', ledger', p), p) {
      if !(First(region.start) <= p < After(region.start, region.size)) { assert Has(rs, Owns(leaf, ledger, p), p); }
    }
    forall p: nat ensures !(Has(r, true, p) && Has(r, false, p)) {
      if First(region.start) <= p < After(region.start, region.size) {
        ClearPages(rs, !region.owned, region.start, region.size, p);
      }
    }
  }

  /** Position k is the first region that holds the whole range. */
  predicate FirstSpanning(rs: seq<Region>, k: int, from: nat, to: nat) {
    0 <= k < |rs| && rs[k].Spans(from, to) && forall j :: 0 <= j < k ==> !rs[j].Spans(from, to)
  }

  /** No region after region k starts below what is left of it above `to`. */
  predicate StaysSorted(rs: seq<Region>, k: nat, to: nat)
    requires k < |rs|
  {
    to < rs[k].End() ==> forall i :: k < i < |rs| ==> to <= rs[i].start
  }

  /** Cutting the range out of the region that is found leaves the list sorted. */
  predicate CutKeepsOrder(rs: seq<Region>, from: nat, to: nat) {
    forall k :: 0 <= k < |rs| && FirstSpanning(rs, k, from, to) ==> StaysSorted(rs, k, to)
  }

  /** Two overlapping owned regions of different flags, and a range whose removal from the first
      leaves a piece behind the second that belongs before it. */
  method UnmapCanUnsort() returns (rs: seq<Region>, r: seq<Region>)
    ensures Sorted(rs) && Aligned(rs) && Apart(rs) && !CutKeepsOrder(rs, 0x2000, 0x3000)
    ensures CutFrom(rs, 0, r, 0x2000, 0x3000) && !Sorted(r)
  {
    rs := [Region(0, 0x4000, PRESENT + WRITABLE, true), Region(0x1000, 0x1000, PRESENT, true)];
    assert rs[1].start < 0x3000 && FirstSpanning(rs, 0, 0x2000, 0x3000) && !StaysSorted(rs, 0, 0x3000);
    r := CutRange(rs, 0, 0x2000, 0x3000);
  }

  class Layout {
    const pt: PageTables
    var heapEnd: nat
    var nextAlloc: nat
    var regions: seq<Region>

    /** The region list is sorted as well, which mapping relies on. */
    ghost predicate Valid()
      reads this, pt, pt.alloc
    {
      Tracks() && Sorted(regions)
    }

    /** The regions track what is mapped, in whatever order. */
    ghost predicate Tracks()
      reads this, pt, pt.alloc
    {
      && pt.Valid() && Aligned(regions) && Apart(regions) && Tracked(pt.leaf, pt.ledger, regions)
      && heapEnd % PAGE_SIZE == 0 && nextAlloc % PAGE_SIZE == 0
    }

    constructor (tables: PageTables)
      requires tables.Valid() && tables.leaf == map[]
      ensures Valid() && pt == tables && regions == [] && heapEnd == HEAP_START && nextAlloc == WINDOW_START
    {
      pt, heapEnd, nextAlloc, regions := tables, HEAP_START, WINDOW_START, [];
    }

    /** Records a region whose pages have just been mapped. */
    method Track(region: Region, ghost leaf0: map<nat, nat>, ghost ledger0: map<nat, Use>) returns (ghost at: nat)
      requires pt.Valid() && Sorted(regions) && Aligned(regions) && Apart(regions) && Tracked(leaf0, ledger0, regions)
      requires heapEnd % PAGE_SIZE == 0 && nextAlloc % PAGE_SIZE == 0
      requires region.size > 0 && Clear(regions, !region.owned, AlignDown(region.start), Frames.AlignUp(region.End()))
      requires forall p :: p in pt.leaf ==> p in leaf0 || First(region.start) <= p < After(region.start, region.size)
      requires NewOwners(leaf0, ledger0, pt.leaf, pt.ledger, First(region.start),
                         After(region.start, region.size) - First(region.start), region.owned)
      modifies this`regions
      ensures Valid() && Adds(old(regions), regions, region) && LandsAt(old(regions), regions, at, Rounded(region))
      ensures Extends(old(regions), regions, region) == true
    {
      ghost var rs := regions;
      regions, at := TrackRegion(regions, region);
      TrackAdds(rs, regions, region);
      TrackedWith(leaf0, ledger0, pt.leaf, pt.ledger, rs, regions, region);
    }

    /** Records a region whose pages have just been filled. */
    method TrackFilled(region: Region, ghost leaf0: map<nat, nat>, ghost ledger0: map<nat, Use>, ghost a: nat,
                      ghost b: nat)
      requires pt.Valid() && Sorted(regions) && Aligned(regions) && Apart(regions)
          && Tracked(leaf0, ledger0, regions) == true
      requires heapEnd % PAGE_SIZE == 0 && nextAlloc % PAGE_SIZE == 0 && region.owned
      requires region.size > 0 && Clear(regions, false, AlignDown(region.start), Frames.AlignUp(region.End())) == true
      requires a == First(region.start) && b == After(region.start, region.size) && a < b
      requires Filled(leaf0, pt.leaf, a, b) && OwnersWith(leaf0, ledger0, pt.leaf, pt.ledger, a, b)
      modifies this`regions
      ensures Valid() == true && Adds(old(regions), regions, region) == true
      ensures Extends(old(regions), regions, region) == true
    {
      ghost var at := Track(region, leaf0, ledger0);
    }

    /** Maps fresh frames for every page the range touches, with the outcome that FillOutcome names.
        A failed call keeps no frame and tracks nothing. */
    method MapOwnedRegion(start: nat, size: nat, flags: nat) returns (ok: bool, ghost failed: nat)
      requires Valid() && start + size <= USER_BYTES
      requires Clear(regions, false, AlignDown(start), Frames.AlignUp(start + size))
      modifies this`regions, pt, pt.alloc
      ensures Valid() == true && pt.root == old(pt.root) && pt.Others() == old(pt.Others())
      ensures size == 0 ==> ok && pt.leaf == old(pt.leaf) && regions == old(regions)
      ensures size > 0 ==> FillOutcome(ok, failed, old(pt.tables.Keys), old(pt.leaf), old(pt.alloc.Spare()),
                                       First(start), After(start, size),
                                       pt.leaf, pt.tables.Keys, pt.alloc.Spare()) == true
      ensures size > 0 && ok ==> Adds(old(regions), regions, Region(start, size, flags, true))
      ensures size > 0 && ok ==> Extends(old(regions), regions, Region(start, size, flags, true)) == true
      ensures !ok ==> regions == old(regions)
    {
      failed := First(start);
      if size == 0 { return true, failed; }
      var a, b := First(start), After(start, size);
      var region := Region(start, size, flags, true);
      ghost var leaf0, ledger0 := pt.leaf, pt.ledger;
      ClearAll(regions, region, leaf0, ledger0, a, b);
      ok, failed := pt.MapVirtMemRegion(a, b);
      if ok {
        TrackFilled(region, leaf0, ledger0, a, b);
      } else {
        TrackedWithout(leaf0, ledger0, pt.leaf, pt.ledger, regions, regions, a, failed);
      }
    }

    /** The page table half of MapFrames. */
    method LoadFrames(region: Region, frames: seq<nat>) returns (ok: bool, ghost failed: nat)
      requires Valid() && region.size > 0 && region.End() <= USER_BYTES
      requires First(region.start) + |frames| == After(region.start, region.size)
      requires Clear(regions, !region.owned, AlignDown(region.start), Frames.AlignUp(region.End()))
      requires region.owned ==> NoDuplicates(frames) && forall f :: f in frames ==> f in pt.Others()
      modifies pt, pt.alloc
      ensures pt.Valid() == true && pt.root == old(pt.root) && failed <= |frames|
      ensures pt.Others() == if ok && region.owned then old(pt.Others()) - (set f | f in frames) else old(pt.Others())
      ensures ok ==> Loaded(old(pt.leaf), pt.leaf, First(region.start), frames) == true
      ensures ok <==>
              CanLoad(old(pt.tables.Keys), old(pt.leaf), old(pt.alloc.Spare()), First(region.start), frames) == true
      ensures ok ==> LeftAfter(old(pt.tables.Keys), old(pt.alloc.Spare()), First(region.start), |frames|,
                               pt.tables.Keys, pt.alloc.Spare()) == true
      ensures ok ==>
        NewOwners(old(pt.leaf), old(pt.ledger), pt.leaf, pt.ledger, First(region.start), |frames|, region.owned) == true
      ensures !ok ==> pt.leaf == Without(old(pt.leaf), First(region.start), First(region.start) + failed)
      ensures !ok && region.owned ==> pt.leaf == old(pt.leaf)
      ensures !ok ==> SameOwners(old(pt.leaf), old(pt.ledger), pt.leaf, pt.ledger) == true
    {
      var a := First(region.start);
      ghost var leaf0, ledger0 := pt.leaf, pt.ledger;
      NotYours(leaf0, ledger0, regions, region, a, frames, pt.Others());
      ok, failed := pt.MapEach(a, frames);
      if ok {
        BookLoaded(region.owned, a, frames, leaf0, ledger0);
      } else if region.owned {
        NothingAgreed(leaf0, ledger0, a, frames, failed);
      }
    }

    /** Frames that have been mapped for an owned region become the space's own. */
    ghost method BookLoaded(owned: bool, a: nat, frames: seq<nat>, leaf0: map<nat, nat>, ledger0: map<nat, Use>)
      requires pt.Valid() && Progress(leaf0, ledger0, pt.leaf, pt.ledger, a, frames, |frames|)
      requires owned ==> NoDuplicates(frames) && forall f :: f in frames ==> f in pt.Others()
      modifies pt`ledger
      ensures pt.Valid() == true
      ensures pt.Others() == if owned then old(pt.Others()) - (set f | f in frames) else old(pt.Others())
      ensures NewOwners(leaf0, ledger0, pt.leaf, pt.ledger, a, |frames|, owned) == true
      ensures Loaded(leaf0, pt.leaf, a, frames) == true
    {
      assert frames[..|frames|] == frames;
      if owned { pt.BookRange(a, frames); }
    }

    method MapRegionFrames(region: Region, frames: seq<nat>) returns (ok: bool, ghost failed: nat, ghost at: nat)
      requires Valid() && region.size > 0 && region.End() <= USER_BYTES
      requires First(region.start) + |frames| == After(region.start, region.size)
      requires Clear(regions, !region.owned, AlignDown(region.start), Frames.AlignUp(region.End()))
      requires region.owned ==> NoDuplicates(frames) && forall f :: f in frames ==> f in pt.Others()
      modifies this`regions, pt, pt.alloc
      ensures Valid() == true && pt.root == old(pt.root) && failed <= |frames|
      ensures pt.Others() == if ok && region.owned then old(pt.Others()) - (set f | f in frames) else old(pt.Others())
      ensures ok <==>
              CanLoad(old(pt.tables.Keys), old(pt.leaf), old(pt.alloc.Spare()), First(region.start), frames) == true
      ensures ok ==> LeftAfter(old(pt.tables.Keys), old(pt.alloc.Spare()), First(region.start), |frames|,
                               pt.tables.Keys, pt.alloc.Spare()) == true
      ensures ok ==> Loaded(old(pt.leaf), pt.leaf, First(region.start), frames) == true
      ensures ok ==> Adds(old(regions), regions, region) && LandsAt(old(regions), regions, at, Rounded(region)) == true
      ensures ok ==> Extends(old(regions), regions, region) == true
      ensures !ok ==> pt.leaf == Without(old(pt.leaf), First(region.start), First(region.start) + failed)
      ensures !ok ==> regions == old(regions) && (region.owned ==> pt.leaf == old(pt.leaf))
    {
      at := 0;
      ok, failed := LoadFrames(region, frames);
      if ok {
        at := Track(region, old(pt.leaf), old(pt.ledger));
      } else {
        TrackedSame(old(pt.leaf), old(pt.ledger), pt.leaf, pt.ledger, regions);
      }
    }

    /** Maps the given frames one per page, exactly if the tables can be made and no other frame is
        mapped there. On success an owned mapping takes the frames over; on failure they stay with
        the caller and the pages of this call are unmapped again. */
    method MapFrames(start: nat, frames: seq<nat>, flags: nat, owned: bool)
      returns (ok: bool, ghost failed: nat, ghost at: nat)
      requires Valid() && start % PAGE_SIZE == 0 && start + |frames| * PAGE_SIZE <= USER_BYTES
      requires Clear(regions, !owned, start, start + |frames| * PAGE_SIZE)
      requires owned ==> NoDuplicates(frames) && forall f :: f in frames ==> f in pt.Others()
      modifies this`regions, pt, pt.alloc
      ensures Valid() == true && pt.root == old(pt.root) && failed <= |frames|
      ensures pt.Others() == if ok && owned then old(pt.Others()) - (set f | f in frames) else old(pt.Others())
      ensures frames == [] ==> ok
      ensures frames != [] ==>
        (ok <==> CanLoad(old(pt.tables.Keys), old(pt.leaf), old(pt.alloc.Spare()), First(start), frames) == true)
      ensures ok ==> LeftAfter(old(pt.tables.Keys), old(pt.alloc.Spare()), First(start), |frames|,
                               pt.tables.Keys, pt.alloc.Spare()) == true
      ensures ok ==> Loaded(old(pt.leaf), pt.leaf, First(start), frames) == true
      ensures ok && frames != [] ==>
        var region := Region(start, |frames| * PAGE_SIZE, flags, owned);
        && Adds(old(regions), regions, region) && LandsAt(old(regions), regions, at, region) == true
        && Extends(old(regions), regions, region) == true
      ensures !ok || frames == [] ==> regions == old(regions)
      ensures !ok ==> pt.leaf == Without(old(pt.leaf), First(start), First(start) + failed)
      ensures !ok && owned ==> pt.leaf == old(pt.leaf)
    {
      ok, failed, at := true, 0, 0;
      if frames == [] { return; }
      var region := Region(start, |frames| * PAGE_SIZE, flags, owned);
      WholePages(region, |frames|);
      ok, failed, at := MapRegionFrames(region, frames);
    }

    /** Unmaps a range that lies in one region and cuts it out of the list, which stays sorted
        exactly under the condition named. */
    method UnmapRegion(start: nat, size: nat) returns (found: bool, ghost k: nat)
      requires Tracks() && start % PAGE_SIZE == 0 && size > 0 && size % PAGE_SIZE == 0
      modifies this`regions, pt, pt.alloc
      ensures Tracks() && pt.root == old(pt.root) && pt.Others() == old(pt.Others())
      ensures old(Valid()) ==> (Valid() == true <==> CutKeepsOrder(old(regions), start, start + size) == true)
      ensures found ==> CutFrom(old(regions), k, regions, start, start + size) == true
      ensures found ==> pt.leaf == Without(old(pt.leaf), First(start), First(start + size))
      ensures found ==> Loses(old(regions), regions, First(start), First(start + size)) == true
      ensures !found ==> regions == old(regions) && pt.leaf == old(pt.leaf)
      ensures !found ==> forall i :: 0 <= i < |regions| ==> !regions[i].Spans(start, start + size)
    {
      k := 0;
      var index := FindSpanning(regions, start, start + size);
      if index.None? { return false, 0; }
      k := index.value;
      UnmapInside(index.value, start, start + size);
      found := true;
    }

    /** Unmaps a range of region k and cuts it out. */
    method UnmapInside(k: nat, from: nat, to: nat)
      requires Tracks() && from % PAGE_SIZE == 0 && to % PAGE_SIZE == 0 && from < to
      requires k < |regions| && regions[k].Spans(from, to)
      modifies this`regions, pt, pt.alloc
      ensures Tracks() && pt.root == old(pt.root) && pt.Others() == old(pt.Others())
      ensures pt.leaf == Without(old(pt.leaf), First(from), First(to))
      ensures Loses(old(regions), regions, First(from), First(to))
      ensures old(Sorted(regions)) ==> (Sorted(regions) <==> StaysSorted(old(regions), k, to))
      ensures forall flags, owned, a: nat :: CutAt(old(regions), k, from, to, regions, flags, owned, a)
    {
      SpannedPages(pt.leaf, pt.ledger, regions, k, from, to);
      pt.UnmapPages(First(from), First(to), regions[k].owned);
      regions := CutRange(regions, k, from, to);
      CutLoses(old(regions), k, from, to, regions);
      TrackedWithout(old(pt.leaf), old(pt.ledger), pt.leaf, pt.ledger, old(regions), regions, First(from), First(to));
    }

    method UnmapTracked(i: nat)
      requires Tracks() && i < |regions| && Gone(pt.leaf, regions, i)
      modifies pt, pt.alloc
      ensures Tracks() && pt.root == old(pt.root) && pt.Others() == old(pt.Others()) && Gone(pt.leaf, regions, i + 1)
    {
      var region := regions[i];
      var a, b := First(region.start), After(region.start, region.size);
      RegionPages(region);
      SpannedPages(pt.leaf, pt.ledger, regions, i, region.start, region.End());
      pt.UnmapPages(a, b, region.owned);
      TrackedWithout(old(pt.leaf), old(pt.ledger), pt.leaf, pt.ledger, regions, regions, a, b);
      GoneMore(old(pt.leaf), regions, i, a, b);
    }

    method UnmapAll()
      requires Tracks()
      modifies pt, pt.alloc
      ensures Tracks() && pt.root == old(pt.root) && pt.Others() == old(pt.Others()) && pt.leaf == map[]
    {
      for i := 0 to |regions|
        invariant Tracks() && pt.root == old(pt.root) && pt.Others() == old(pt.Others()) && Gone(pt.leaf, regions, i)
      {
        UnmapTracked(i);
      }
      NoneLeft(pt.leaf, pt.ledger, regions);
    }

    /** Gives back the frames of every owned page, every table and the root. */
    method FreeAddressSpace()
      requires Tracks()
      modifies pt, pt.alloc
      ensures pt.alloc.Valid() && pt.root == old(pt.root)
      ensures pt.root != 0 ==> pt.leaf == map[] && pt.tables == map[] && pt.alloc.out == old(pt.Others())
      ensures pt.root == 0 ==>
        pt.leaf == old(pt.leaf) && pt.tables == old(pt.tables) && pt.alloc.out == old(pt.alloc.out)
    {
      if pt.root == 0 { return; }
      UnmapAll();
      pt.FreeUserTables();
      pt.FreeRoot();
    }

    // ------------------------------------------------------------- heap and reservation window

    /** Grows the heap to at least the given end if that is allowed, with the outcome that
        FillOutcome names. A failed call leaves the heap end and the regions alone. */
    method GrowHeap(newEnd: nat) returns (end: Option<nat>, ghost failed: nat)
      requires Valid() && Clear(regions, false, heapEnd, Frames.AlignUp(newEnd))
      modifies this, pt, pt.alloc
      ensures Valid() == true && pt.root == old(pt.root) && pt.Others() == old(pt.Others())
          && nextAlloc == old(nextAlloc)
      ensures end.Some? ==> end.value == heapEnd && heapEnd >= newEnd
      ensures newEnd <= old(heapEnd) ==> end.Some? && heapEnd == old(heapEnd)
      ensures newEnd > old(heapEnd) && newEnd > HEAP_END ==> end.None?
      ensures newEnd <= old(heapEnd) || newEnd > HEAP_END ==> pt.leaf == old(pt.leaf)
      ensures old(heapEnd) < newEnd <= HEAP_END ==>
        FillOutcome(end.Some?, failed, old(pt.tables.Keys), old(pt.leaf), old(pt.alloc.Spare()),
                    First(old(heapEnd)), First(Frames.AlignUp(newEnd)),
                    pt.leaf, pt.tables.Keys, pt.alloc.Spare()) == true
      ensures end.Some? && newEnd > old(heapEnd) ==> heapEnd == Frames.AlignUp(newEnd)
      ensures end.Some? && newEnd > old(heapEnd) ==>
        Extends(old(regions), regions, Region(old(heapEnd), Frames.AlignUp(newEnd - old(heapEnd)),
                                              PRESENT + WRITABLE + NO_EXECUTE, true)) == true
      ensures end.None? ==> heapEnd == old(heapEnd) && regions == old(regions)
    {
      failed := 0;
      if newEnd <= heapEnd { return Some(heapEnd), failed; }
      if newEnd > HEAP_END { return None, failed; }
      var ok;
      ok, failed := ExtendHeap(newEnd);
      if !ok { return None, failed; }
      end := Some(heapEnd);
    }

    method ExtendHeap(newEnd: nat) returns (ok: bool, ghost failed: nat)
      requires Valid() && Clear(regions, false, heapEnd, Frames.AlignUp(newEnd)) && heapEnd < newEnd <= HEAP_END
      modifies this, pt, pt.alloc
      ensures Valid() == true && pt.root == old(pt.root) && pt.Others() == old(pt.Others())
          && nextAlloc == old(nextAlloc)
      ensures FillOutcome(ok, failed, old(pt.tables.Keys), old(pt.leaf), old(pt.alloc.Spare()),
                          First(old(heapEnd)), First(Frames.AlignUp(newEnd)),
                          pt.leaf, pt.tables.Keys, pt.alloc.Spare()) == true
      ensures heapEnd == if ok then Frames.AlignUp(newEnd) else old(heapEnd)
      ensures !ok ==> regions == old(regions)
      ensures ok ==> Extends(old(regions), regions, Region(old(heapEnd), Frames.AlignUp(newEnd - old(heapEnd)),
                                                           PRESENT + WRITABLE + NO_EXECUTE, true)) == true
    {
      var growBy := Frames.AlignUp(newEnd - heapEnd);
      var to := heapEnd + growBy;
      Grown(heapEnd, newEnd, growBy, to);
      ok, failed := MapOwnedRegion(heapEnd, growBy, PRESENT + WRITABLE + NO_EXECUTE);
      if ok { MoveHeapEnd(to); }
    }

    method MoveHeapEnd(to: nat)
      requires Valid() == true && OnPage(to) == true
      modifies this`heapEnd
      ensures Valid() == true && heapEnd == to
    {
      heapEnd := to;
    }

    /** Reserves a range of the window: the next one, or the lowest gap once the window has
        been passed through. */
    method AllocateVirtualRange(size: nat) returns (r: Option<nat>)
      requires Valid() && size > 0 && size % PAGE_SIZE == 0
      requires nextAlloc + size <= WINDOW_END ==> Free(regions, nextAlloc, nextAlloc + size)
      modifies this`nextAlloc
      ensures Valid() == true
      ensures r.None? <==> NoRange(old(nextAlloc), regions, size)
      ensures r.Some? ==>
        r.value % PAGE_SIZE == 0 && r.value + size <= WINDOW_END && Free(regions, r.value, r.value + size)
      ensures r.Some? ==> Reserved(old(nextAlloc), regions, size, r.value, nextAlloc) == true
      ensures r.None? ==> nextAlloc == old(nextAlloc)
    {
      if size > WINDOW_END - WINDOW_START { return None; }
      if nextAlloc + size > WINDOW_END {
        r := GapFor(size);
      } else {
        r := Some(nextAlloc);
        nextAlloc := nextAlloc + size;
      }
    }

    method GapFor(size: nat) returns (r: Option<nat>)
      requires Valid() && size > 0 && size % PAGE_SIZE == 0
      ensures r.None? <==> forall h :: !IsGap(regions, h, size)
      ensures r.Some? ==>
        r.value % PAGE_SIZE == 0 && r.value + size <= WINDOW_END && Free(regions, r.value, r.value + size)
      ensures r.Some? ==> IsGap(regions, r.value, size) && forall h :: IsGap(regions, h, size) ==> r.value <= h
    {
      assert Frames.AlignUp(size) == size;
      r := FindFreeGap(regions, size);
      if r.Some? { assert IsGap(regions, r.value, size); }
    }

    /** Maps fresh frames twice, back to back, exactly if the size is one of the window, a range can
        be reserved and there are frames for the data and the tables. On success each byte of the
        first view is the same byte of memory in the second; on failure nothing is left of the
        attempt. */
    method MapForUser(size: nat, writable: bool) returns (base: Option<nat>, ghost at: nat)
      requires Valid()
      requires var total := 2 * Frames.AlignUp(size);
        nextAlloc + total <= WINDOW_END ==> Free(regions, nextAlloc, nextAlloc + total)
      modifies this, pt, pt.alloc
      ensures Valid() == true && pt.root == old(pt.root) && pt.Others() == old(pt.Others())
      ensures base.Some? <==>
        && 0 < size <= (WINDOW_END - WINDOW_START) / 2
        && !NoRange(old(nextAlloc), old(regions), 2 * Frames.AlignUp(size))
        && ViewsFit(old(pt.tables.Keys), old(pt.alloc.Spare()), at, First(Frames.AlignUp(size))) == true
      ensures base.Some? ==> at == First(base.value)
      ensures base.Some? ==> Mirrors(old(pt.leaf), pt.leaf, at, First(Frames.AlignUp(size))) == true
      ensures base.Some? ==>
        BothTracked(old(regions), regions, Region(base.value, Frames.AlignUp(size), RingFlags(writable), true)) == true
      ensures base.Some? ==>
        Reserved(old(nextAlloc), old(regions), 2 * Frames.AlignUp(size), base.value, nextAlloc) == true
      ensures base.None? ==>
        pt.leaf == old(pt.leaf) && nextAlloc == old(nextAlloc) && SamePages(old(regions), regions) == true
    {
      if size == 0 || size > (WINDOW_END - WINDOW_START) / 2 { return None, 0; }
      var dataSize := Frames.AlignUp(size);
      var flags := RingFlags(writable);
      var previous := nextAlloc;
      base, at := MapInWindow(dataSize, flags);
      if base.None? { nextAlloc := previous; }
    }

    method MapInWindow(dataSize: nat, flags: nat) returns (base: Option<nat>, ghost at: nat)
      requires Valid() && dataSize > 0 && dataSize % PAGE_SIZE == 0
      requires nextAlloc + 2 * dataSize <= WINDOW_END ==> Free(regions, nextAlloc, nextAlloc + 2 * dataSize)
      modifies this, pt, pt.alloc
      ensures Valid() == true && heapEnd == old(heapEnd) && pt.root == old(pt.root) && pt.Others() == old(pt.Others())
      ensures base.Some? <==>
        && !NoRange(old(nextAlloc), old(regions), 2 * dataSize)
        && ViewsFit(old(pt.tables.Keys), old(pt.alloc.Spare()), at, First(dataSize)) == true
      ensures base.Some? ==> at == First(base.value)
      ensures base.Some? ==> Mirrors(old(pt.leaf), pt.leaf, at, First(dataSize)) == true
      ensures base.Some? ==> BothTracked(old(regions), regions, Region(base.value, dataSize, flags, true)) == true
      ensures base.Some? ==> Reserved(old(nextAlloc), old(regions), 2 * dataSize, base.value, nextAlloc) == true
      ensures base.None? ==> pt.leaf == old(pt.leaf) && SamePages(old(regions), regions) == true
    {
      base := AllocateVirtualRange(2 * dataSize);
      if base.None? { return base, 0; }
      at := First(base.value);
      var n := dataSize / PAGE_SIZE;
      assert dataSize == n * PAGE_SIZE && First(dataSize) == n;
      var ok := MapFreshTwice(base.value, n, flags, at);
      if !ok { base := None; }
    }

    method MapFreshTwice(base: nat, n: nat, flags: nat, ghost a: nat) returns (ok: bool)
      requires Valid() && base % PAGE_SIZE == 0 && n > 0 && a == First(base)
      requires base + 2 * (n * PAGE_SIZE) <= WINDOW_END && Free(regions, base, base + 2 * (n * PAGE_SIZE))
      modifies this`regions, pt, pt.alloc
      ensures Valid() == true && pt.root == old(pt.root) && pt.Others() == old(pt.Others())
      ensures ok <==> ViewsFit(old(pt.tables.Keys), old(pt.alloc.Spare()), a, n) == true
      ensures ok ==> Mirrors(old(pt.leaf), pt.leaf, a, n) == true
      ensures ok ==> BothTracked(old(regions), regions, Region(base, n * PAGE_SIZE, flags, true)) == true
      ensures !ok ==> pt.leaf == old(pt.leaf) && SamePages(old(regions), regions) == true
    {
      FitIff(pt.tables.Keys, pt.alloc.Spare(), a, n);
      var frames := pt.TakeFrames(n);
      if frames.None? { return false; }
      ok := MapTwice(base, n * PAGE_SIZE, frames.value, flags, a);
    }

    /** Both views, with everything undone when either fails. The frames are used up either way. */
    method MapTwice(base: nat, dataSize: nat, frames: seq<nat>, flags: nat, ghost a: nat) returns (ok: bool)
      requires Valid() && base % PAGE_SIZE == 0 && dataSize == |frames| * PAGE_SIZE && frames != [] && a == First(base)
      requires base + 2 * dataSize <= WINDOW_END && Free(regions, base, base + 2 * dataSize)
      requires NoDuplicates(frames) && forall f :: f in frames ==> f in pt.Others()
      modifies this`regions, pt, pt.alloc
      ensures Valid() == true && pt.root == old(pt.root) && pt.Others() == old(pt.Others()) - (set f | f in frames)
      ensures ok <==> TablesFit(old(pt.tables.Keys), old(pt.alloc.Spare()), a, |frames|) == true
      ensures ok ==> Mirrors(old(pt.leaf), pt.leaf, a, |frames|) == true
      ensures ok ==> BothTracked(old(regions), regions, Region(base, |frames| * PAGE_SIZE, flags, true)) == true
      ensures !ok ==> pt.leaf == old(pt.leaf) && SamePages(old(regions), regions) == true
    {
      ghost var leaf0, rs, tables0, spare0 := pt.leaf, regions, pt.tables.Keys, pt.alloc.Spare();
      ViewPages(base, dataSize, |frames|);
      FreeViews(pt.leaf, pt.ledger, regions, base, dataSize, a, frames);
      ViewsCost(tables0, leaf0, spare0, a, frames);
      ghost var failed, at;
      ok, failed, at := MapFrames(base, frames, flags, true);
      if !ok {
        pt.FreeFrames(frames);
        return;
      }
      ghost var b := a + |frames|;
      SecondCost(tables0, leaf0, spare0, a, b, frames, pt.leaf, pt.tables.Keys, pt.alloc.Spare());
      var view := Region(base, |frames| * PAGE_SIZE, flags, true);
      ViewIsAligned(view, frames, a);
      ok := MapSecondView(view, frames, a, b, leaf0, rs, at);
    }

    /** A borrowed mapping, with its pages numbered from a. */
    method MapBorrowedAt(start: nat, frames: seq<nat>, flags: nat, ghost a: nat) returns (ok: bool, ghost failed: nat)
      requires Valid() && start == a * PAGE_SIZE && start + |frames| * PAGE_SIZE <= USER_BYTES && frames != []
      requires Clear(regions, true, start, start + |frames| * PAGE_SIZE)
      modifies this`regions, pt, pt.alloc
      ensures Valid() == true && pt.root == old(pt.root) && pt.Others() == old(pt.Others()) && failed <= |frames|
      ensures ok <==> CanLoad(old(pt.tables.Keys), old(pt.leaf), old(pt.alloc.Spare()), a, frames) == true
      ensures ok ==> Loaded(old(pt.leaf), pt.leaf, a, frames) == true
      ensures ok ==> Extends(old(regions), regions, Region(start, |frames| * PAGE_SIZE, flags, false)) == true
      ensures !ok ==> regions == old(regions) && pt.leaf == Without(old(pt.leaf), a, a + failed)
    {
      ViewPages(0, start, a);
      ghost var at;
      ok, failed, at := MapFrames(start, frames, flags, false);
    }

    /** The second view. If it fails, unmapping the first one frees the frames. */
    method MapSecondView(view: Region, frames: seq<nat>, ghost a: nat, ghost b: nat,
                         ghost leaf0: map<nat, nat>, ghost rs: seq<Region>, ghost at: nat)
      returns (ok: bool)
      requires Valid() && IsAligned(view) && view.owned && view.size == |frames| * PAGE_SIZE
      requires a == First(view.start) && b == First(view.End()) && b == a + |frames|
      requires view.End() + view.size <= WINDOW_END && Free(rs, view.start, view.End() + view.size) && Aligned(rs)
      requires Adds(rs, regions, view) && LandsAt(rs, regions, at, view) && Extends(rs, regions, view) == true
      requires Loaded(leaf0, pt.leaf, a, frames) == true && NoneMapped(leaf0, a, a + 2 * |frames|) == true
      modifies this`regions, pt, pt.alloc
      ensures Valid() == true && pt.root == old(pt.root) && pt.Others() == old(pt.Others())
      ensures ok <==> CanLoad(old(pt.tables.Keys), old(pt.leaf), old(pt.alloc.Spare()), b, frames) == true
      ensures ok ==> Mirrors(leaf0, pt.leaf, a, |frames|) == true && BothTracked(rs, regions, view) == true
      ensures !ok ==> pt.leaf == leaf0 && SamePages(rs, regions) == true
    {
      ghost var failed;
      ghost var leaf1 := pt.leaf;
      SecondViewClear(rs, regions, view);
      ok, failed := MapBorrowedAt(view.End(), frames, view.flags, b);
      if ok {
        ViewsMirror(leaf0, leaf1, pt.leaf, a, b, frames);
        ViewsTracked(rs, old(regions), regions, view, Region(view.End(), |frames| * PAGE_SIZE, view.flags, false));
      } else {
        UnmapFirstView(view, rs, at);
        ViewsUndone(leaf0, leaf1, a, b, frames, failed);
      }
    }

    method UnmapFirstView(view: Region, ghost rs: seq<Region>, ghost at: nat)
      requires Valid() && IsAligned(view) && Aligned(rs) && Free(rs, view.start, view.End() + view.size) == true
      requires Adds(rs, regions, view) == true && LandsAt(rs, regions, at, view) == true
      modifies this`regions, pt, pt.alloc
      ensures Valid() == true && pt.root == old(pt.root) && pt.Others() == old(pt.Others())
      ensures pt.leaf == Without(old(pt.leaf), First(view.start), First(view.End()))
      ensures SamePages(rs, regions) == true
    {
      ghost var regions1, end := regions, view.End();
      FirstViewCut(rs, regions, at, view, end);
      ghost var k := UnmapSpan(view.start, view.size, end);
      RegionsUndone(rs, regions1, at, regions, k, view, end);
    }

    /** Unmaps a range that is known to lie in a region. */
    method UnmapSpan(start: nat, size: nat, ghost end: nat) returns (ghost k: nat)
      requires Valid() && start % PAGE_SIZE == 0 && size > 0 && size % PAGE_SIZE == 0 && end == start + size
      requires Spanned(regions, start, end) == true && CutKeepsOrder(regions, start, end) == true
      modifies this`regions, pt, pt.alloc
      ensures Valid() == true && pt.root == old(pt.root) && pt.Others() == old(pt.Others())
      ensures pt.leaf == Without(old(pt.leaf), First(start), First(end))
      ensures CutFrom(old(regions), k, regions, start, end) == true
    {
      var found;
      found, k := UnmapRegion(start, size);
    }

    // ------------------------------------------------------------- whole lives

    /** What callers have to observe: an owned and a borrowed range share no page, the next
        reservation is free, and nothing more is mapped once an unmapped range has left the
        region list unsorted. */
    predicate Allowed(op: Op)
      reads this
    {
      match op
      case MapOwned(start, size, _) =>
        && Sorted(regions) && start + size <= USER_BYTES
        && Clear(regions, false, AlignDown(start), Frames.AlignUp(start + size))
      case MapBorrowed(start, frames, _) =>
        && Sorted(regions) && start % PAGE_SIZE == 0 && start + |frames| * PAGE_SIZE <= USER_BYTES
        && Clear(regions, true, start, start + |frames| * PAGE_SIZE)
      case Unmap(start, size) =>
        start % PAGE_SIZE == 0 && size > 0 && size % PAGE_SIZE == 0
      case Heap(newEnd) => Sorted(regions) && Clear(regions, false, heapEnd, Frames.AlignUp(newEnd))
      case Ring(size, _) =>
        var total := 2 * Frames.AlignUp(size);
        Sorted(regions) && (nextAlloc + total <= WINDOW_END ==> Free(regions, nextAlloc, nextAlloc + total))
    }

    method Do(op: Op)
      requires Tracks() && Allowed(op)
      modifies this, pt, pt.alloc
      ensures Tracks() && pt.root == old(pt.root) && pt.Others() == old(pt.Others())
    {
      match op
      case MapOwned(start, size, flags) => var _, _ := MapOwnedRegion(start, size, flags);
      case MapBorrowed(start, frames, flags) => var _, _, _ := MapFrames(start, frames, flags, false);
      case Unmap(start, size) => var _, _ := UnmapRegion(start, size);
      case Heap(newEnd) => var _, _ := GrowHeap(newEnd);
      case Ring(size, writable) => var _, _ := MapForUser(size, writable);
    }

    method Live(ops: seq<Op>)
      requires Tracks()
      modifies this, pt, pt.alloc
      ensures Tracks() && pt.root == old(pt.root) && pt.Others() == old(pt.Others())
    {
      for i := 0 to |ops|
        invariant Tracks() && pt.root == old(pt.root) && pt.Others() == old(pt.Others())
      {
        if Allowed(ops[i]) { Do(ops[i]); }
      }
    }
  }

  datatype Op =
    | MapOwned(start: nat, size: nat, flags: nat)
    | MapBorrowed(start: nat, frames: seq<nat>, flags: nat)
    | Unmap(start: nat, size: nat)
    | Heap(newEnd: nat)
    | Ring(size: nat, writable: bool)

  /** Any life of an address space, with any mix of successes and failures, ends with exactly
      the frames held that were held before it began. */
  method WholeLife(alloc: Allocator, ops: seq<Op>) returns (created: bool)
    requires alloc.Valid() && !Usable(alloc.memoryMap, 0)
    modifies alloc
    ensures alloc.Valid() && alloc.out == old(alloc.out)
  {
    var top := alloc.Allocate();
    if top.None? { return false; }
    var tables := new PageTables(alloc, top.value);
    var layout := new Layout(tables);
    layout.Live(ops);
    layout.FreeAddressSpace();
    created := true;
  }

  /** An address space in a machine of six frames, with one owned page mapped. */
  method OnePageMapped() returns (layout: Layout)
    ensures fresh(layout) && fresh(layout.pt) && fresh(layout.pt.alloc) && layout.Valid() && layout.pt.leaf.Keys == {1}
    ensures layout.pt.tables.Keys == TablesOf(1) && layout.pt.alloc.Spare() == 1
    ensures Adds([], layout.regions, Region(0x1000, 0x800, PRESENT, true)) == true
  {
    layout := NewInSixFrames();
    FirstRegionFits();
    assert First(0x1000) == 1 && After(0x1000, 0x800) == 2;
    var ok, failed := layout.MapOwnedRegion(0x1000, 0x800, PRESENT);
  }

  method NewInSixFrames() returns (layout: Layout)
    ensures fresh(layout) && fresh(layout.pt) && fresh(layout.pt.alloc) && layout.Valid() == true
    ensures layout.pt.leaf == map[] && layout.regions == [] && layout.pt.tables.Keys == {}
        && layout.pt.alloc.Spare() == 5
  {
    var memory := [Frames.Entry(0x1000, 0x6000, true)];
    SixFrames(memory);
    var alloc := new Allocator(memory);
    var top := alloc.Allocate();
    var tables := new PageTables(alloc, top.value);
    layout := new Layout(tables);
  }

  /** A second owned region that shares page 1 with the first. It needs a frame more than there is,
      and its rollback takes page 1 away from the first, whose region stays. */
  method FailureCanLose() returns (layout: Layout, ok: bool, ghost before: map<nat, nat>, ghost tracked: seq<Region>)
    ensures !ok && before.Keys == {1} && layout.pt.leaf == map[] && layout.regions == tracked && Has(tracked, true, 1)
  {
    layout := OnePageMapped();
    before, tracked := layout.pt.leaf, layout.regions;
    assert Has(tracked, true, 1);
    SecondRegionIs(layout.regions);
    ghost var failed;
    ok, failed := layout.MapOwnedRegion(0x1800, 0x2000, PRESENT + WRITABLE);
    SecondRegionLoses(ok, failed, TablesOf(1), before, 1, layout.pt.leaf, layout.pt.tables.Keys,
                      layout.pt.alloc.Spare());
  }

  lemma SecondRegionIs(rs: seq<Region>)
    requires Aligned(rs) && forall p: nat :: !Has(rs, false, p)
    ensures Clear(rs, false, AlignDown(0x1800), Frames.AlignUp(0x1800 + 0x2000)) == true
    ensures First(0x1800) == 1 && After(0x1800, 0x2000) == 4
  {
    NoBorrowed(rs, 0x1000, 0x4000);
  }

  lemma SecondRegionLoses(ok: bool, failed: nat, tables: set<TableId>, leaf: map<nat, nat>, spare: int,
                          leaf': map<nat, nat>, tables': set<TableId>, spare': int)
    requires tables == TablesOf(1) && leaf.Keys == {1} && spare == 1
    requires FillOutcome(ok, failed, tables, leaf, spare, 1, 4, leaf', tables', spare') == true
    ensures !ok && leaf' == map[]
  {
    SecondRegionFails(tables, leaf, spare);
    assert failed == 3;
  }

  lemma SixFrames(memory: seq<Frames.Entry>)
    requires memory == [Frames.Entry(0x1000, 0x6000, true)]
    ensures Frames.DisjointUsable(memory) && Frames.FramesBelow(memory, |memory|) == 6
  {
    assert Frames.FramesBelow(memory, 0) == 0;
  }

  lemma FirstRegionFits()
    ensures Peak({}, map[], 1, 2) == 4 && NewTables({}, 1, 2) == 3 && Unmapped(map[], 1, 2) == 1
    ensures Made({}, 1, 2) == TablesOf(1)
  {
    OnePage({}, 1);
    assert Unmapped(map[], 1, 1) == 0;
  }

  lemma SecondRegionFails(tables: set<TableId>, leaf: map<nat, nat>, spare: int)
    requires tables == TablesOf(1) && leaf.Keys == {1} && spare == 1
    ensures Peak(tables, leaf, 1, 2) == 1 && Peak(tables, leaf, 1, 3) == 1 && Peak(tables, leaf, 1, 4) == 2
  {
    assert TablesOf(2) == tables && TablesOf(3) == tables;
    assert Made(tables, 1, 1) == tables && Made(tables, 1, 2) == tables && Made(tables, 1, 3) == tables;
    assert NewTables(tables, 1, 1) == 0 && NewTables(tables, 1, 2) == 0 && NewTables(tables, 1, 3) == 0;
    assert Unmapped(leaf, 1, 1) == 0 && Unmapped(leaf, 1, 2) == 0 && Unmapped(leaf, 1, 3) == 1;
  }

  lemma NoBorrowed(rs: seq<Region>, from: nat, to: nat)
    requires Aligned(rs) && forall p: nat :: !Has(rs, false, p)
    ensures Clear(rs, false, from, to)
  {
    forall i | 0 <= i < |rs| ensures rs[i].owned {
      var p := First(rs[i].start);
      assert IsAligned(rs[i]) && p * PAGE_SIZE == rs[i].start;
      assert HasAt(rs, i, rs[i].owned, p) && Has(rs, rs[i].owned, p);
    }
  }

  lemma ViewPages(base: nat, dataSize: nat, n: nat)
    requires base % PAGE_SIZE == 0 && dataSize == n * PAGE_SIZE
    ensures dataSize % PAGE_SIZE == 0 && dataSize / PAGE_SIZE == n
    ensures (base + dataSize) % PAGE_SIZE == 0 && First(base + dataSize) == First(base) + n
  {
  }

  predicate Spanned(rs: seq<Region>, from: nat, to: nat) {
    exists i :: 0 <= i < |rs| && rs[i].Spans(from, to)
  }

  lemma ClearHasNone(rs: seq<Region>, owned: bool, from: nat, to: nat, p: nat)
    requires Clear(rs, owned, from, to) && from <= p * PAGE_SIZE < to
    ensures !Has(rs, owned, p)
  {
    forall i ensures !HasAt(rs, i, owned, p) {
    }
  }

  /** Nothing is mapped where no region is. */
  lemma FreePages(leaf: map<nat, nat>, ledger: map<nat, Use>, rs: seq<Region>, from: nat, to: nat)
    requires Tracked(leaf, ledger, rs) && Free(rs, from, to)
    ensures forall p: nat :: from <= p * PAGE_SIZE < to ==> p !in leaf
  {
    forall p: nat | from <= p * PAGE_SIZE < to ensures p !in leaf {
      ClearHasNone(rs, true, from, to, p);
      ClearHasNone(rs, false, from, to, p);
    }
  }

  /** After the first view is tracked no owned region reaches into the second. */
  lemma SecondViewClear(rs: seq<Region>, r: seq<Region>, view: Region)
    requires Aligned(r) && IsAligned(view) && view.owned && Adds(rs, r, view)
    requires Free(rs, view.start, view.End() + view.size)
    ensures Clear(r, true, view.End(), view.End() + view.size)
  {
    forall i | 0 <= i < |r| && r[i].owned ensures !r[i].Meets(view.End(), view.End() + view.size) {
      var p := First(if r[i].start > view.End() then r[i].start else view.End());
      RegionPages(view);
      if p * PAGE_SIZE < view.End() + view.size {
        ClearHasNone(rs, true, view.start, view.End() + view.size, p);
        assert !Has(r, true, p);
        assert !HasAt(r, i, true, p);
      }
    }
  }

  /** The same pages are tracked as owned and as borrowed. */
  ghost predicate SamePages(rs: seq<Region>, r: seq<Region>) {
    forall owned, p: nat :: Has(r, owned, p) <==> Has(rs, owned, p)
  }

  ghost predicate CutFrom(rs: seq<Region>, k: int, r: seq<Region>, from: nat, to: nat) {
    FirstSpanning(rs, k, from, to) && forall flags, owned, a: nat :: CutAt(rs, k, from, to, r, flags, owned, a)
  }

  /** Tracking a free range and cutting it out again tracks the same pages as before. */
  lemma RegionsUndone(rs: seq<Region>, r1: seq<Region>, at: nat, r2: seq<Region>, k: nat, view: Region,
                      end: nat)
    requires IsAligned(view) && Free(rs, view.start, view.End() + view.size) == true && end == view.End()
    requires Adds(rs, r1, view) && LandsAt(rs, r1, at, view)
    requires CutFrom(r1, k, r2, view.start, end) == true
    ensures SamePages(rs, r2) == true
  {
    assert view.End() == view.start + view.size;
    RegionPages(view);
    CutLoses(r1, k, view.start, end, r2);
    forall owned, p: nat | First(view.start) <= p < First(view.End()) ensures !Has(r2, owned, p) {
      forall i ensures !HasAt(r2, i, owned, p) {
        if HasAt(r2, i, owned, p) {
          assert Covers(r2, r2[i].flags, owned, p * PAGE_SIZE);
          assert CutAt(r1, k, view.start, view.End(), r2, r2[i].flags, owned, p * PAGE_SIZE);
          RestIsClear(rs, r1, at, view, r2[i].flags, owned, p * PAGE_SIZE);
        }
      }
    }
    forall owned, p: nat ensures Has(r2, owned, p) <==> Has(rs, owned, p) {
      if First(view.start) <= p < First(view.End()) { ClearHasNone(rs, owned, view.start, view.End(), p); }
    }
  }

  lemma RestIsClear(rs: seq<Region>, r: seq<Region>, at: nat, view: Region, flags: nat, owned: bool, a: nat)
    requires Free(rs, view.start, view.End()) && LandsAt(rs, r, at, view) && view.Contains(a)
    ensures !Covers(DropAt(r, at), flags, owned, a)
  {
    var rest := DropAt(r, at);
    forall i | 0 <= i < |rest| ensures !rest[i].Contains(a) {
      assert rest[i] == r[if i < at then i else i + 1];
      var j :| 0 <= j < |rs| && rs[j] == rest[i];
    }
  }

  /** The first view sits where cutting it out again keeps the list sorted. */
  lemma FirstViewCut(rs: seq<Region>, r: seq<Region>, at: nat, view: Region, end: nat)
    requires Aligned(rs) && IsAligned(view) && LandsAt(rs, r, at, view)
    requires Free(rs, view.start, view.End() + view.size) && end == view.End()
    ensures Spanned(r, view.start, end) == true && CutKeepsOrder(r, view.start, end) == true
  {
    forall i | 0 <= i < |r| && i != at ensures !r[i].Meets(view.start, view.End()) && r[i].size > 0 {
      var j :| 0 <= j < |rs| && rs[j] == r[i];
      assert IsAligned(rs[j]);
    }
  }

  lemma ViewsMirror(leaf0: map<nat, nat>, leaf1: map<nat, nat>, leaf2: map<nat, nat>, a: nat, b: nat, frames: seq<nat>)
    requires b == a + |frames| && NoneMapped(leaf0, a, a + 2 * |frames|)
    requires Loaded(leaf0, leaf1, a, frames) == true && Loaded(leaf1, leaf2, b, frames) == true
    ensures Mirrors(leaf0, leaf2, a, |frames|) == true
  {
  }

  lemma ViewsUndone(leaf0: map<nat, nat>, leaf1: map<nat, nat>, a: nat, b: nat, frames: seq<nat>, failed: nat)
    requires b == a + |frames| && Loaded(leaf0, leaf1, a, frames) == true && failed <= |frames|
    requires NoneMapped(leaf0, a, a + 2 * |frames|)
    ensures Without(Without(leaf1, b, b + failed), a, b) == leaf0
  {
  }

  /** Nothing is mapped in a range of the two views. */
  lemma FreeViews(leaf: map<nat, nat>, ledger: map<nat, Use>, rs: seq<Region>, base: nat, dataSize: nat, a: nat,
                  frames: seq<nat>)
    requires Tracked(leaf, ledger, rs) && Free(rs, base, base + 2 * dataSize)
    requires base % PAGE_SIZE == 0 && a == First(base) && dataSize == |frames| * PAGE_SIZE
    ensures NoneMapped(leaf, a, a + 2 * |frames|) == true
  {
    FreePages(leaf, ledger, rs, base, base + 2 * dataSize);
    forall p: nat | a <= p < a + 2 * |frames| ensures p !in leaf {
      assert base <= p * PAGE_SIZE < base + 2 * dataSize;
    }
  }

  /** There are frames for n pages, and for the tables of twice as many from page a on. */
  predicate ViewsFit(tables: set<TableId>, spare: int, a: nat, n: nat) {
    n <= spare && TablesFit(tables, spare - n, a, n)
  }

  predicate TablesFit(tables: set<TableId>, spare: int, a: nat, n: nat) { NewTables(tables, a, a + 2 * n) <= spare }

  lemma FitIff(tables: set<TableId>, spare: int, a: nat, n: nat)
    ensures ViewsFit(tables, spare, a, n) == true <==> n <= spare && TablesFit(tables, spare - n, a, n) == true
  {
  }

  lemma ViewIsAligned(view: Region, frames: seq<nat>, a: nat)
    requires view.start % PAGE_SIZE == 0 && view.size == |frames| * PAGE_SIZE && frames != [] && a == First(view.start)
    ensures IsAligned(view) && First(view.End()) == a + |frames|
  {
  }

  /** The first view can be mapped exactly if there are frames for its tables. */
  lemma ViewsCost(tables: set<TableId>, leaf: map<nat, nat>, spare: int, a: nat, frames: seq<nat>)
    requires NoneMapped(leaf, a, a + 2 * |frames|)
    ensures CanLoad(tables, leaf, spare, a, frames) == true <==> NewTables(tables, a, a + |frames|) <= spare
    ensures TablesFit(tables, spare, a, |frames|) == true ==> NewTables(tables, a, a + |frames|) <= spare
  {
    NewTablesGrow(tables, a, a + |frames|, a + 2 * |frames|);
  }

  /** So can the second one, if there are frames for the tables of both. */
  lemma SecondCost(tables: set<TableId>, leaf: map<nat, nat>, spare: int, a: nat, b: nat, frames: seq<nat>,
                   leaf1: map<nat, nat>, tables1: set<TableId>, spare1: int)
    requires NoneMapped(leaf, a, a + 2 * |frames|) == true && Loaded(leaf, leaf1, a, frames) == true
    requires LeftAfter(tables, spare, a, |frames|, tables1, spare1) == true && b == a + |frames|
    ensures CanLoad(tables1, leaf1, spare1, b, frames) == true
       <==> TablesFit(tables, spare, a, |frames|) == true
  {
    SecondTables(tables, spare, a, b, |frames|, tables1, spare1);
    SecondIsFree(leaf, a, b, frames, leaf1);
  }

  lemma SecondTables(tables: set<TableId>, spare: int, a: nat, b: nat, n: nat, tables1: set<TableId>, spare1: int)
    requires LeftAfter(tables, spare, a, n, tables1, spare1) && b == a + n
    ensures NewTables(tables1, b, b + n) <= spare1 <==> TablesFit(tables, spare, a, n) == true
  {
    var end := b + n;
    assert end == a + 2 * n;
    CostOfBoth(tables, a, b, end);
  }

  lemma SecondIsFree(leaf: map<nat, nat>, a: nat, b: nat, frames: seq<nat>, leaf1: map<nat, nat>)
    requires NoneMapped(leaf, a, a + 2 * |frames|) && Loaded(leaf, leaf1, a, frames) && b == a + |frames|
    ensures Agrees(leaf1, b, frames) == true
  {
  }

  /** No range of this size can be reserved any more. */
  ghost predicate NoRange(next: nat, rs: seq<Region>, size: nat) {
    size > WINDOW_END - WINDOW_START || (next + size > WINDOW_END && forall h :: !IsGap(rs, h, size))
  }

  /** A ring buffer can be read by user programs and not executed, and written only if asked for. */
  function RingFlags(writable: bool): (flags: nat)
    ensures flags == 0x8000_0000_0000_0005 + if writable then 2 else 0
  {
    PRESENT + USER_ACCESSIBLE + NO_EXECUTE + if writable then WRITABLE else 0
  }

  /** The regions cover both views, with the same flags: the first one owned, the one behind it not. */
  ghost predicate BothTracked(rs: seq<Region>, r: seq<Region>, view: Region) {
    forall flags, owned, a: nat :: Covers(r, flags, owned, a) <==>
      Covers(rs, flags, owned, a) || InEither(view, flags, owned, a)
  }

  predicate InEither(view: Region, flags: nat, owned: bool, a: nat) {
    flags == view.flags && if owned then view.start <= a < view.start + view.size
                           else view.start + view.size <= a < view.start + 2 * view.size
  }

  lemma ViewsTracked(rs: seq<Region>, r1: seq<Region>, r2: seq<Region>, view: Region, mirror: Region)
    requires IsAligned(view) && view.owned && Extends(rs, r1, view) && Extends(r1, r2, mirror)
    requires mirror == Region(view.End(), view.size, view.flags, false)
    ensures BothTracked(rs, r2, view) == true
  {
    SelfRounded(view);
    SelfRounded(mirror);
    forall flags, owned, a: nat
      ensures Covers(r2, flags, owned, a) <==>
        Covers(rs, flags, owned, a) || InEither(view, flags, owned, a)
    {
      assert Covers(r1, flags, owned, a) <==> Together(rs, view, flags, owned, a);
      assert Covers(r2, flags, owned, a) <==> Together(r1, mirror, flags, owned, a);
    }
  }

  lemma SelfRounded(r: Region)
    requires IsAligned(r)
    ensures Rounded(r) == r
  {
  }

  /** The range that is reserved is the next one of the window, or the lowest gap once that is used up. */
  ghost predicate Reserved(next: nat, rs: seq<Region>, size: nat, base: nat, next': nat) {
    if next + size <= WINDOW_END then base == next && next' == next + size
    else next' == next && IsGap(rs, base, size) && forall h :: IsGap(rs, h, size) ==> base <= h
  }

  /** No region meets the range. */
  predicate Free(rs: seq<Region>, from: nat, to: nat) {
    Clear(rs, true, from, to) && Clear(rs, false, from, to)
  }

  /** Pages [a, a + n) and [a + n, a + 2 * n) are new and page by page the same frames. */
  ghost predicate Mirrors(leaf: map<nat, nat>, leaf': map<nat, nat>, a: nat, n: nat) {
    && (forall p :: p in leaf' <==> p in leaf || a <= p < a + 2 * n)
    && (forall p :: a <= p < a + 2 * n ==> p !in leaf)
    && (forall p :: p in leaf ==> leaf'[p] == leaf[p])
    && (forall p :: a <= p < a + n ==> leaf'[p] == leaf'[p + n])
  }

  /** What is mapped in a range inside one region is owned just as that region says. */
  lemma SpannedPages(leaf: map<nat, nat>, ledger: map<nat, Use>, rs: seq<Region>, k: nat, from: nat, to: nat)
    requires Tracked(leaf, ledger, rs) && Apart(rs) && k < |rs| && rs[k].Spans(from, to) && from % PAGE_SIZE == 0
    requires to % PAGE_SIZE == 0
    ensures forall p: nat :: First(from) <= p < First(to) && p in leaf ==> (rs[k].owned <==> Owns(leaf, ledger, p))
  {
    forall p: nat | First(from) <= p < First(to) && p in leaf ensures rs[k].owned <==> Owns(leaf, ledger, p) {
      assert HasAt(rs, k, rs[k].owned, p);
      assert Has(rs, Owns(leaf, ledger, p), p);
      assert !(Has(rs, true, p) && Has(rs, false, p));
    }
  }

  lemma RegionPages(region: Region)
    requires IsAligned(region)
    ensures After(region.start, region.size) == First(region.End())
    ensures forall p: nat :: region.Contains(p * PAGE_SIZE) ==>
      First(region.start) <= p < After(region.start, region.size)
  {
  }

  /** No page of the first n regions is mapped. */
  ghost predicate Gone(leaf: map<nat, nat>, rs: seq<Region>, n: nat) {
    forall p: nat, j, owned :: p in leaf && j < n ==> !HasAt(rs, j, owned, p)
  }

  lemma GoneMore(leaf: map<nat, nat>, rs: seq<Region>, n: nat, a: nat, b: nat)
    requires Gone(leaf, rs, n) && n < |rs|
    requires forall p: nat :: rs[n].Contains(p * PAGE_SIZE) ==> a <= p < b
    ensures Gone(Without(leaf, a, b), rs, n + 1)
  {
  }

  lemma NoneLeft(leaf: map<nat, nat>, ledger: map<nat, Use>, rs: seq<Region>)
    requires Tracked(leaf, ledger, rs) && Gone(leaf, rs, |rs|)
    ensures leaf == map[]
  {
    forall p: nat ensures p !in leaf {
      var i: int :| !Has(rs, Owns(leaf, ledger, p), p) || HasAt(rs, i, Owns(leaf, ledger, p), p);
    }
  }

  /** In the n pages from a on the new entries are owned or not as said, elsewhere as before. */
  ghost predicate NewOwners(leaf: map<nat, nat>, ledger: map<nat, Use>, leaf': map<nat, nat>, ledger': map<nat, Use>,
                            a: nat, n: nat, owned: bool) {
    && (forall p: nat :: a <= p < a + n ==> (Owns(leaf', ledger', p) <==> owned))
    && (forall p: nat :: !(a <= p < a + n) ==> (Owns(leaf', ledger', p) <==> Owns(leaf, ledger, p)))
  }

  /** The pages by which the heap grows. */
  predicate OnPage(a: nat) { a % PAGE_SIZE == 0 }

  lemma Grown(heapEnd: nat, newEnd: nat, growBy: nat, to: nat)
    requires heapEnd % PAGE_SIZE == 0 && heapEnd < newEnd && growBy == Frames.AlignUp(newEnd - heapEnd)
    requires to == heapEnd + growBy
    ensures OnPage(to) == true && growBy > 0
    ensures to == Frames.AlignUp(newEnd) && AlignDown(heapEnd) == heapEnd
    ensures Frames.AlignUp(to) == to && After(heapEnd, growBy) == First(Frames.AlignUp(newEnd))
  {
    AlignUpShift(heapEnd, newEnd - heapEnd);
    AlignUpShift(heapEnd, growBy);
  }

  lemma AlignUpShift(x: nat, d: nat)
    requires x % PAGE_SIZE == 0
    ensures Frames.AlignUp(x + d) == x + Frames.AlignUp(d)
  {
  }

  /** Where no borrowed region reaches, every mapped page is the space's own. */
  lemma ClearAll(rs: seq<Region>, region: Region, leaf: map<nat, nat>, ledger: map<nat, Use>, a: nat, b: nat)
    requires Tracked(leaf, ledger, rs) && region.size > 0
    requires Clear(rs, false, AlignDown(region.start), Frames.AlignUp(region.start + region.size))
    requires a == First(region.start) && b == After(region.start, region.size)
    ensures OwnedOrFree(leaf, ledger, a, b) == true && a < b
    ensures Clear(rs, false, AlignDown(region.start), Frames.AlignUp(region.End())) == true
  {
    forall p: nat | a <= p < b && p in leaf ensures Owns(leaf, ledger, p) {
      ClearPages(rs, false, region.start, region.size, p);
    }
  }

  /** A page-aligned region of n pages covers exactly those. */
  lemma WholePages(region: Region, n: nat)
    requires region.start % PAGE_SIZE == 0 && region.size == n * PAGE_SIZE && n > 0
    ensures After(region.start, region.size) == First(region.start) + n && Rounded(region) == region
    ensures AlignDown(region.start) == region.start && Frames.AlignUp(region.End()) == region.End()
  {
  }

  /** None of the pages holds, as its own, the frame that is to be mapped there; for an owned
      mapping every entry already present there is the space's own. */
  lemma NotYours(leaf: map<nat, nat>, ledger: map<nat, Use>, rs: seq<Region>, region: Region, a: nat, frames: seq<nat>,
                 others: set<nat>)
    requires Tracked(leaf, ledger, rs) && region.size > 0
    requires a == First(region.start) && a + |frames| == After(region.start, region.size)
    requires Clear(rs, !region.owned, AlignDown(region.start), Frames.AlignUp(region.End()))
    requires region.owned ==> forall f :: f in frames ==> f in others
    requires others !! ledger.Keys
    ensures NotYetOwned(leaf, ledger, a, frames)
    ensures forall p: nat :: a <= p < a + |frames| && p in leaf ==> (Owns(leaf, ledger, p) <==> region.owned)
  {
    forall p: nat | a <= p < a + |frames| && p in leaf ensures Owns(leaf, ledger, p) <==> region.owned {
      ClearPages(rs, !region.owned, region.start, region.size, p);
      assert Has(rs, Owns(leaf, ledger, p), p);
    }
  }

  lemma NothingAgreed(leaf: map<nat, nat>, ledger: map<nat, Use>, a: nat, frames: seq<nat>, n: nat)
    requires n <= |frames| && Agrees(leaf, a, frames[..n])
    requires forall i :: 0 <= i < |frames| && Owns(leaf, ledger, a + i) ==> leaf[a + i] != frames[i]
    requires forall p: nat :: a <= p < a + |frames| && p in leaf ==> Owns(leaf, ledger, p)
    ensures Without(leaf, a, a + n) == leaf
  {
    forall p | p in leaf ensures !(a <= p < a + n) {
      var i := p - a;
      assert p == a + i;
    }
  }

  lemma TrackedSame(leaf: map<nat, nat>, ledger: map<nat, Use>, leaf': map<nat, nat>, ledger': map<nat, Use>,
                    rs: seq<Region>)
    requires Tracked(leaf, ledger, rs) && SameOwners(leaf, ledger, leaf', ledger')
    requires forall p :: p in leaf' ==> p in leaf
    ensures Tracked(leaf', ledger', rs)
  {
    forall p: nat | p in leaf' ensures Has(rs, Owns(leaf', ledger', p), p) {
      assert Owns(leaf', ledger', p) <==> Owns(leaf, ledger, p);
    }
  }
}
