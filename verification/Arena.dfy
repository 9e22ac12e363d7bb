/** The userspace allocator of user/rustspace/src/lib.rs: free lists for ten block sizes, a
    first-fit list of larger free blocks that are split, and a bump range cut from slabs. Free
    blocks hold the list links, so the lists are kept here as sequences, first element first. */
module Arena {

  import opened Wrappers

  const SLAB_SIZE: nat := 16384
  const NUM_SIZES: nat := 10
  const LARGE_NODE_SIZE: nat := 16
  const LARGE_NODE_ALIGN: nat := 8
  const LARGE_REMAINDER_MIN_BYTES: nat := 16

  const BLOCK_SIZES: seq<nat> := [8, 16, 32, 64, 128, 256, 512, 1024, 2048, 4096]

  const PAGE: nat := 4096

  /** The alignments a layout can ask for. */
  ghost predicate PowerOfTwo(a: nat) { exists k: nat :: Pow2(k) == a }

  function Pow2(k: nat): (r: nat)
    ensures r > 0
  {
    if k == 0 then 1 else 2 * Pow2(k - 1)
  }

  lemma {:induction false} PowSum(i: nat, j: nat)
    ensures Pow2(i + j) == Pow2(i) * Pow2(j)
  {
    if i > 0 {
      PowSum(i - 1, j);
      calc { Pow2(i + j); 2 * Pow2(i - 1 + j); 2 * (Pow2(i - 1) * Pow2(j)); Pow2(i) * Pow2(j); }
    }
  }

  datatype Kind = Live(size: nat, align: nat) | SmallFree(idx: nat) | LargeFree
  datatype Block = Block(size: nat, kind: Kind)
  datatype Node = Node(addr: nat, size: nat)
  datatype Pointer = Null | Dangling | At(addr: nat)

  // ---------------------------------------------------------------- sizes and alignment

  /** The first size class that holds the request. */
  function ListIndex(requested: nat): (r: Option<nat>)
    ensures r.Some? <==> requested <= 4096
    ensures r.Some? ==> r.value < NUM_SIZES && BLOCK_SIZES[r.value] >= requested
    ensures r.Some? ==> forall i :: 0 <= i < r.value ==> BLOCK_SIZES[i] < requested
  {
    ListIndexFrom(requested, 0)
  }

  function ListIndexFrom(requested: nat, i: nat): (r: Option<nat>)
    requires i <= NUM_SIZES && forall j :: 0 <= j < i ==> BLOCK_SIZES[j] < requested
    ensures r.Some? <==> requested <= 4096
    ensures r.Some? ==> r.value < NUM_SIZES && BLOCK_SIZES[r.value] >= requested
    ensures r.Some? ==> forall j :: 0 <= j < r.value ==> BLOCK_SIZES[j] < requested
    decreases NUM_SIZES - i
  {
    if i == NUM_SIZES then
      assert BLOCK_SIZES[9] < requested;
      None
    else if BLOCK_SIZES[i] >= requested then Some(i)
    else ListIndexFrom(requested, i + 1)
  }

  predicate IsSmall(size: nat, align: nat) { align <= 8 && size <= 4096 }

  /** The request is too large for a slab and asks for more than the alignment of a page. */
  predicate BeyondPage(size: nat, align: nat) { align > PAGE && size > SLAB_SIZE }

  function Max(a: nat, b: nat): nat { if a < b then b else a }

  /** How many bytes a block of this layout takes up. */
  function Extent(size: nat, align: nat): (n: nat)
    ensures n >= size
  {
    if IsSmall(size, align) then BLOCK_SIZES[ListIndex(size).value] else Max(size, LARGE_NODE_SIZE)
  }

  /** The boundary on which the allocator looks for a place for this layout. */
  function Boundary(size: nat, align: nat): (n: nat)
    ensures n > 0
  {
    if IsSmall(size, align) then Extent(size, align) else Max(align, LARGE_NODE_ALIGN)
  }

  function RoundUp(x: nat, a: nat): (r: nat)
    requires a > 0
  {
    (x + a - 1) / a * a
  }

  function Times(k: nat, a: nat): nat { k * a }

  /** x is a multiple of a. */
  ghost predicate Aligned(x: nat, a: nat) {
    exists k: nat :: Times(k, a) == x
  }

  lemma RoundUpIs(x: nat, a: nat)
    requires a > 0
    ensures Aligned(RoundUp(x, a), a) && x <= RoundUp(x, a) < x + a
  {
    var q := (x + a - 1) / a;
    assert x + a - 1 == q * a + (x + a - 1) % a;
    assert Times(q, a) == RoundUp(x, a);
  }

  /** A multiple of a is its own round-up. */
  lemma RoundUpSame(x: nat, a: nat)
    requires a > 0 && Aligned(x, a)
    ensures RoundUp(x, a) == x
  {
    var k: nat :| Times(k, a) == x;
    RoundUpIs(x, a);
    var q: nat :| Times(q, a) == RoundUp(x, a);
    SameMultiple(k, q, a);
  }

  lemma SameMultiple(k: nat, q: nat, a: nat)
    requires Times(k, a) <= Times(q, a) < Times(k, a) + a
    ensures Times(k, a) == Times(q, a)
  {
    if q > k {
      Step(k, q, a);
    } else if q < k {
      Step(q, k, a);
    }
  }

  lemma Step(k: nat, q: nat, a: nat)
    requires k < q
    ensures Times(q, a) >= Times(k, a) + a
  {
    assert Times(q, a) == Times(k, a) + Times(q - k, a);
    assert Times(q - k, a) == a + Times(q - k - 1, a);
  }

  lemma Coarser(x: nat, n: nat, a: nat)
    requires Aligned(x, Times(n, a))
    ensures Aligned(x, a)
  {
    var k: nat :| Times(k, Times(n, a)) == x;
    assert Times(k * n, a) == x;
  }

  /** A boundary of a larger power of two is one of every smaller. */
  lemma PowerAligned(x: nat, big: nat, align: nat)
    requires PowerOfTwo(big) && PowerOfTwo(align) && align <= big && Aligned(x, big)
    ensures Aligned(x, align)
  {
    var k: nat :| Pow2(k) == big;
    var j: nat :| Pow2(j) == align;
    if j > k { HigherIsLarger(k, j); }
    PowSum(k - j, j);
    assert Times(Pow2(k - j), align) == big;
    Coarser(x, Pow2(k - j), align);
  }

  lemma {:induction false} HigherIsLarger(k: nat, j: nat)
    requires k < j
    ensures Pow2(k) < Pow2(j)
  {
    if k + 1 < j { HigherIsLarger(k, j - 1); }
  }

  // ---------------------------------------------------------------- the blocks of a heap

  /** No two blocks overlap. */
  ghost predicate Apart(blocks: map<nat, Block>) {
    forall a, b :: a in blocks && b in blocks && a < b ==> a + blocks[a].size <= b
  }

  /** The range meets no block. */
  ghost predicate Clear(blocks: map<nat, Block>, start: nat, size: nat) {
    forall a :: a in blocks ==> a + blocks[a].size <= start || start + size <= a
  }

  ghost predicate Inside(start: nat, size: nat, g: Node) {
    g.addr <= start && start + size <= g.addr + g.size
  }

  /** The range lies in memory that the system has given. */
  ghost predicate Granted(grants: seq<Node>, start: nat, size: nat) {
    exists i :: 0 <= i < |grants| && Inside(start, size, grants[i])
  }

  /** A range that meets nothing the system has given before. */
  ghost predicate Fresh(grants: seq<Node>, start: nat, size: nat) {
    forall i :: 0 <= i < |grants| ==> grants[i].addr + grants[i].size <= start || start + size <= grants[i].addr
  }

  /** Size and alignment fit what the block is for. */
  ghost predicate Shaped(a: nat, b: Block) {
    && b.size > 0
    && match b.kind
       case Live(size, align) =>
         && size > 0 && PowerOfTwo(align) && b.size == Extent(size, align)
         && (if IsSmall(size, align) then Aligned(a, b.size)
             else Aligned(a, LARGE_NODE_ALIGN) && (Aligned(a, align) || BeyondPage(size, align)))
       case SmallFree(idx) => idx < NUM_SIZES && b.size == BLOCK_SIZES[idx] && Aligned(a, b.size)
       case LargeFree => b.size >= LARGE_NODE_SIZE && Aligned(a, LARGE_NODE_ALIGN)
  }

  ghost predicate AllShaped(blocks: map<nat, Block>) {
    forall a :: a in blocks ==> Shaped(a, blocks[a])
  }

  ghost predicate AllGranted(blocks: map<nat, Block>, grants: seq<Node>) {
    forall a :: a in blocks ==> Granted(grants, a, blocks[a].size)
  }

  ghost predicate NoRepeat(s: seq<nat>) {
    forall i, j :: 0 <= i < j < |s| ==> s[i] != s[j]
  }

  /** Free list idx holds exactly the free blocks of that class, each once. */
  ghost predicate SmallList(blocks: map<nat, Block>, list: seq<nat>, idx: nat) {
    NoRepeat(list) && forall a :: a in list <==> a in blocks && blocks[a].kind == SmallFree(idx)
  }

  ghost predicate SmallLists(blocks: map<nat, Block>, small: seq<seq<nat>>) {
    |small| == NUM_SIZES && forall idx :: 0 <= idx < NUM_SIZES ==> SmallList(blocks, small[idx], idx)
  }

  function Addresses(large: seq<Node>): (r: seq<nat>)
    ensures |r| == |large| && forall i :: 0 <= i < |r| ==> r[i] == large[i].addr
  {
    seq(|large|, i requires 0 <= i < |large| => large[i].addr)
  }

  /** The large list holds exactly the large free blocks with their sizes, each once. */
  ghost predicate LargeList(blocks: map<nat, Block>, large: seq<Node>) {
    && NoRepeat(Addresses(large))
    && (forall i :: 0 <= i < |large| ==>
          large[i].addr in blocks && blocks[large[i].addr] == Block(large[i].size, LargeFree))
    && (forall a :: a in blocks && blocks[a].kind.LargeFree? ==> a in Addresses(large))
  }

  /** The bump range lies in granted memory and meets no block. */
  ghost predicate BumpOk(blocks: map<nat, Block>, grants: seq<Node>, cursor: nat, end: nat) {
    cursor < end ==> Granted(grants, cursor, end - cursor) && Clear(blocks, cursor, end - cursor)
  }

  ghost predicate Heap(blocks: map<nat, Block>, grants: seq<Node>, cursor: nat, end: nat) {
    Apart(blocks) && AllShaped(blocks) && AllGranted(blocks, grants) && BumpOk(blocks, grants, cursor, end)
  }

  /** The layouts of the blocks that callers hold. */
  ghost function Held(blocks: map<nat, Block>): map<nat, (nat, nat)> {
    map a | a in blocks && blocks[a].kind.Live? :: (blocks[a].kind.size, blocks[a].kind.align)
  }

  ghost function Without(blocks: map<nat, Block>, x: nat): (r: map<nat, Block>)
    ensures forall a :: a in r <==> a in blocks && a != x
    ensures forall a :: a in r ==> r[a] == blocks[a]
  {
    blocks - {x}
  }

  // ---------------------------------------------------------------- what the system answers

  /** The answers the system would give to the requests of one call, from the i-th on: fresh ranges
      of this size that start on a page. Memory is finite, so the last answer is a refusal. */
  ghost predicate Offers(grants: seq<Node>, answers: seq<Option<nat>>, i: nat, size: nat) {
    && i < |answers| && answers[|answers| - 1].None?
    && (forall j :: i <= j < |answers| && answers[j].Some? ==>
          Fresh(grants, answers[j].value, size) && Aligned(answers[j].value, PAGE))
    && (forall j, k :: i <= j < k < |answers| && answers[j].Some? && answers[k].Some? ==>
          Fresh([Node(answers[j].value, size)], answers[k].value, size))
  }

  /** The first answer was taken for a range of n bytes. */
  lemma OffersNext(grants: seq<Node>, answers: seq<Option<nat>>, i: nat, size: nat, n: nat)
    requires Offers(grants, answers, i, size) && answers[i].Some? && n <= size
    ensures Offers(grants + [Node(answers[i].value, n)], answers, i + 1, size)
  {
    var more := grants + [Node(answers[i].value, n)];
    forall k | i < k < |answers| && answers[k].Some? ensures Fresh(more, answers[k].value, size) {
      assert Fresh([Node(answers[i].value, size)], answers[k].value, size);
      assert [Node(answers[i].value, size)][0] == Node(answers[i].value, size);
    }
  }

  /** The range holds n bytes behind the next boundary. */
  predicate Holds(start: nat, end: nat, n: nat, boundary: nat)
    requires boundary > 0
  {
    RoundUp(start, boundary) + n <= end
  }

  /** Some node of the large list holds the request. */
  predicate SomeHolds(large: seq<Node>, n: nat, boundary: nat)
    requires boundary > 0
  {
    exists i :: 0 <= i < |large| && Holds(large[i].addr, large[i].addr + large[i].size, n, boundary)
  }

  /** The request can be met without the system. */
  predicate HasRoom(small: seq<seq<nat>>, large: seq<Node>, cursor: nat, end: nat, size: nat, align: nat)
    requires |small| == NUM_SIZES
  {
    || Holds(cursor, end, Extent(size, align), Boundary(size, align))
    || (if IsSmall(size, align) then small[ListIndex(size).value] != []
        else SomeHolds(large, Extent(size, align), Boundary(size, align)))
  }

  /** How many ranges the system has given, when only the last of its answers may be a refusal. */
  function Given(answers: seq<Option<nat>>, asked: nat): int
    requires asked <= |answers|
  {
    if asked > 0 && answers[asked - 1].None? then asked - 1 else asked
  }

  /** What a split leaves of a node behind the block: a node of its own if it is worth one. */
  function Remainder(node: Node, used: nat): (r: seq<Node>)
    ensures |r| <= 1 && (r != [] <==> (used + 7) / 8 * 8 + 32 <= node.addr + node.size)
  {
    var rem := RoundUp(used, LARGE_NODE_ALIGN);
    if rem + LARGE_NODE_SIZE + LARGE_REMAINDER_MIN_BYTES <= node.addr + node.size
    then [Node(rem, node.addr + node.size - rem)] else []
  }

  /** The first node that holds the request has been taken, and what is left of it put in front. */
  ghost predicate TakenFrom(large: seq<Node>, i: nat, n: nat, boundary: nat, r: Pointer, large': seq<Node>)
    requires boundary > 0
  {
    && i < |large| && Holds(large[i].addr, large[i].addr + large[i].size, n, boundary)
    && (forall j :: 0 <= j < i ==> !Holds(large[j].addr, large[j].addr + large[j].size, n, boundary))
    && r == At(RoundUp(large[i].addr, boundary))
    && LeftOver(large, i, RoundUp(large[i].addr, boundary) + n, large')
  }

  /** Node i has gone up to the given place, and what is worth keeping of it stands in front. */
  ghost predicate LeftOver(large: seq<Node>, i: nat, used: nat, large': seq<Node>) {
    i < |large| && large' == Remainder(large[i], used) + Dropped(large, i)
  }

  /** Where a request is served from if there is room: the head of its class, the first node that
      holds it, or the bump range. */
  ghost predicate Served(small: seq<seq<nat>>, large: seq<Node>, cursor: nat, end: nat, size: nat, align: nat,
                         r: Pointer, small': seq<seq<nat>>, large': seq<Node>, cursor': nat, end': nat)
    requires |small| == NUM_SIZES
  {
    var n, boundary := Extent(size, align), Boundary(size, align);
    if IsSmall(size, align) && small[ListIndex(size).value] != [] then
      var list := small[ListIndex(size).value];
      && r == At(list[0]) && small' == small[ListIndex(size).value := list[1..]]
      && large' == large && cursor' == cursor && end' == end
    else if !IsSmall(size, align) && SomeHolds(large, n, boundary) then
      && small' == small && cursor' == cursor && end' == end
      && exists i :: 0 <= i < |large| && TakenFrom(large, i, n, boundary, r, large')
    else
      && small' == small && large' == large && end' == end
      && r == At(RoundUp(cursor, boundary)) && cursor' == RoundUp(cursor, boundary) + n
  }

  predicate SlabHolds(base: nat, n: nat, boundary: nat)
    requires boundary > 0
  {
    Holds(base, base + SLAB_SIZE, n, boundary)
  }

  /** The outcome of asking for slabs: those before the last were given but do not hold the request,
      the last one does, or is refused. */
  ghost predicate FromSlabs(answers: seq<Option<nat>>, n: nat, boundary: nat, asked: nat, r: Pointer)
    requires boundary > 0
  {
    && 0 < asked <= |answers|
    && (forall i :: 0 <= i < asked - 1 ==> answers[i].Some? && !SlabHolds(answers[i].value, n, boundary))
    && match answers[asked - 1]
       case None => r == Null
       case Some(base) => SlabHolds(base, n, boundary) && r == At(RoundUp(base, boundary))
  }

  /** The outcome of asking the system: a range of its own, or what slabs give. */
  ghost predicate FromSystem(answers: seq<Option<nat>>, size: nat, align: nat, asked: nat, r: Pointer) {
    if size > SLAB_SIZE then
      asked == 1 <= |answers| && r == if answers[0].Some? then At(answers[0].value) else Null
    else FromSlabs(answers, Extent(size, align), Boundary(size, align), asked, r)
  }

  lemma SlabsAre(answers: seq<Option<nat>>, size: nat, align: nat, asked: nat, r: Pointer)
    requires size <= SLAB_SIZE && FromSlabs(answers, Extent(size, align), Boundary(size, align), asked, r)
    ensures FromSystem(answers, size, align, asked, r) == true
  {
  }

  /** A slab starts on a page, so it holds whatever asks for no more than that. */
  lemma FirstSlabHolds(base: nat, n: nat, boundary: nat)
    requires Aligned(base, PAGE) && PowerOfTwo(boundary) && boundary <= PAGE && n <= SLAB_SIZE
    ensures SlabHolds(base, n, boundary)
  {
    ClassIsPower(9);
    PowerAligned(base, PAGE, boundary);
    RoundUpSame(base, boundary);
  }

  // ---------------------------------------------------------------- how blocks come and go

  lemma AddBlock(blocks: map<nat, Block>, a: nat, b: Block)
    requires Apart(blocks) && AllShaped(blocks) && Clear(blocks, a, b.size) && b.size > 0
    ensures a !in blocks && Apart(blocks[a := b])
  {
    forall x | x in blocks ensures x != a { assert Shaped(x, blocks[x]); }
  }

  /** A part of a block is clear once the block is gone. */
  lemma PartClear(blocks: map<nat, Block>, x: nat, start: nat, size: nat)
    requires Apart(blocks) && x in blocks && Inside(start, size, Node(x, blocks[x].size))
    ensures Clear(Without(blocks, x), start, size) && Apart(Without(blocks, x))
  {
  }

  lemma PartGranted(grants: seq<Node>, x: nat, n: nat, start: nat, size: nat)
    requires Granted(grants, x, n) && Inside(start, size, Node(x, n))
    ensures Granted(grants, start, size)
  {
    var i :| 0 <= i < |grants| && Inside(x, n, grants[i]);
    assert Inside(start, size, grants[i]);
  }

  /** What lies in granted memory stays clear of a fresh grant. */
  lemma FreshClear(blocks: map<nat, Block>, grants: seq<Node>, base: nat, size: nat)
    requires AllGranted(blocks, grants) && Fresh(grants, base, size)
    ensures Clear(blocks, base, size) && AllGranted(blocks, grants + [Node(base, size)])
    ensures Granted(grants + [Node(base, size)], base, size)
  {
    var more := grants + [Node(base, size)];
    assert Inside(base, size, more[|grants|]);
    forall a | a in blocks
      ensures (a + blocks[a].size <= base || base + size <= a) && Granted(more, a, blocks[a].size)
    {
      var i :| 0 <= i < |grants| && Inside(a, blocks[a].size, grants[i]);
      assert Inside(a, blocks[a].size, more[i]);
    }
  }

  /** A block cut from the front of the bump range, after some padding. */
  lemma Bump(blocks: map<nat, Block>, grants: seq<Node>, cursor: nat, end: nat, a: nat, b: Block)
    requires Heap(blocks, grants, cursor, end) && Shaped(a, b) && cursor <= a && a + b.size <= end
    ensures a !in blocks && Heap(blocks[a := b], grants, a + b.size, end)
  {
    AddBlock(blocks, a, b);
    PartGranted(grants, cursor, end - cursor, a, b.size);
    if a + b.size < end { PartGranted(grants, cursor, end - cursor, a + b.size, end - (a + b.size)); }
  }

  /** A fresh slab becomes the bump range. */
  lemma NewSlab(blocks: map<nat, Block>, grants: seq<Node>, cursor: nat, end: nat, base: nat, size: nat)
    requires Heap(blocks, grants, cursor, end) && Fresh(grants, base, size)
    ensures Heap(blocks, grants + [Node(base, size)], base, base + size)
  {
    FreshClear(blocks, grants, base, size);
  }

  /** A fresh grant that is one block. */
  lemma NewBlock(blocks: map<nat, Block>, grants: seq<Node>, cursor: nat, end: nat, base: nat, b: Block)
    requires Heap(blocks, grants, cursor, end) && Fresh(grants, base, b.size) && Shaped(base, b)
    ensures base !in blocks && Heap(blocks[base := b], grants + [Node(base, b.size)], cursor, end)
  {
    FreshClear(blocks, grants, base, b.size);
    AddBlock(blocks, base, b);
    if cursor < end {
      var i :| 0 <= i < |grants| && Inside(cursor, end - cursor, grants[i]);
      assert Inside(cursor, end - cursor, (grants + [Node(base, b.size)])[i]);
    }
  }

  /** A block changes hands and keeps its place and size. */
  lemma Rekind(blocks: map<nat, Block>, grants: seq<Node>, cursor: nat, end: nat, a: nat, b: Block)
    requires Heap(blocks, grants, cursor, end) && a in blocks && b.size == blocks[a].size && Shaped(a, b)
    ensures Heap(blocks[a := b], grants, cursor, end)
  {
  }

  /** A block is replaced by a smaller one inside it. */
  lemma Shrink(blocks: map<nat, Block>, grants: seq<Node>, cursor: nat, end: nat, x: nat, a: nat, b: Block)
    requires Heap(blocks, grants, cursor, end) && x in blocks && Inside(a, b.size, Node(x, blocks[x].size))
    requires Shaped(a, b)
    ensures a !in Without(blocks, x) && Heap(Without(blocks, x)[a := b], grants, cursor, end)
  {
    PartClear(blocks, x, a, b.size);
    AddBlock(Without(blocks, x), a, b);
    PartGranted(grants, x, blocks[x].size, a, b.size);
  }

  /** A block is replaced by two inside it, one behind the other. */
  lemma SplitBlock(blocks: map<nat, Block>, grants: seq<Node>, cursor: nat, end: nat, x: nat, a: nat, b: Block, c: nat,
                   d: Block)
    requires Heap(blocks, grants, cursor, end) && x in blocks
    requires Inside(a, b.size, Node(x, blocks[x].size)) && Inside(c, d.size, Node(x, blocks[x].size)) && a + b.size <= c
    requires Shaped(a, b) && Shaped(c, d)
    ensures a !in Without(blocks, x) && c !in Without(blocks, x)[a := b]
    ensures Heap(Without(blocks, x)[a := b][c := d], grants, cursor, end)
  {
    Shrink(blocks, grants, cursor, end, x, a, b);
    PartClear(blocks, x, c, d.size);
    AddBlock(Without(blocks, x)[a := b], c, d);
    PartGranted(grants, x, blocks[x].size, c, d.size);
  }

  // ---------------------------------------------------------------- how the lists follow

  ghost predicate Lists(blocks: map<nat, Block>, small: seq<seq<nat>>, large: seq<Node>) {
    SmallLists(blocks, small) && LargeList(blocks, large)
  }

  lemma ListAddLive(blocks: map<nat, Block>, small: seq<seq<nat>>, large: seq<Node>, a: nat, b: Block)
    requires Lists(blocks, small, large) && a !in blocks && b.kind.Live?
    ensures Lists(blocks[a := b], small, large)
    ensures Held(blocks[a := b]) == Held(blocks)[a := (b.kind.size, b.kind.align)]
  {
    var blocks' := blocks[a := b];
    forall idx | 0 <= idx < NUM_SIZES ensures SmallList(blocks', small[idx], idx) {
      assert SmallList(blocks, small[idx], idx);
    }
  }

  lemma ListPop(blocks: map<nat, Block>, small: seq<seq<nat>>, large: seq<Node>, idx: nat, b: Block)
    requires Lists(blocks, small, large) && idx < NUM_SIZES && small[idx] != [] && b.kind.Live?
    ensures var a := small[idx][0];
      && a in blocks && blocks[a].kind == SmallFree(idx)
      && Lists(blocks[a := b], small[idx := small[idx][1..]], large)
      && Held(blocks[a := b]) == Held(blocks)[a := (b.kind.size, b.kind.align)]
  {
    var a := small[idx][0];
    assert SmallList(blocks, small[idx], idx);
    assert a in small[idx];
    var blocks', small' := blocks[a := b], small[idx := small[idx][1..]];
    forall i | 0 <= i < NUM_SIZES ensures SmallList(blocks', small'[i], i) {
      assert SmallList(blocks, small[i], i);
      if i == idx { assert small[idx] == [a] + small'[idx]; }
    }
  }

  lemma ListPush(blocks: map<nat, Block>, small: seq<seq<nat>>, large: seq<Node>, idx: nat, a: nat)
    requires Lists(blocks, small, large) && idx < NUM_SIZES && a in blocks && blocks[a].kind.Live?
    ensures var b := Block(blocks[a].size, SmallFree(idx));
      && Lists(blocks[a := b], small[idx := [a] + small[idx]], large)
      && Held(blocks[a := b]) == Held(blocks) - {a}
  {
    var b := Block(blocks[a].size, SmallFree(idx));
    var blocks', small' := blocks[a := b], small[idx := [a] + small[idx]];
    forall i | 0 <= i < NUM_SIZES ensures SmallList(blocks', small'[i], i) {
      assert SmallList(blocks, small[i], i);
    }
  }

  function Dropped(large: seq<Node>, i: nat): (r: seq<Node>)
    requires i < |large|
    ensures |r| == |large| - 1
    ensures forall j :: 0 <= j < |r| ==> r[j] == large[if j < i then j else j + 1]
  {
    large[..i] + large[i + 1..]
  }

  lemma LargeDrop(blocks: map<nat, Block>, large: seq<Node>, i: nat)
    requires LargeList(blocks, large) && i < |large|
    ensures LargeList(Without(blocks, large[i].addr), Dropped(large, i))
  {
    var x, rest := large[i].addr, Dropped(large, i);
    var addrs := Addresses(large);
    forall j | 0 <= j < |rest| ensures rest[j].addr != x {
      var k := if j < i then j else j + 1;
      assert addrs[k] != addrs[i];
    }
    forall j, k | 0 <= j < k < |rest| ensures Addresses(rest)[j] != Addresses(rest)[k] {
      assert addrs[if j < i then j else j + 1] != addrs[if k < i then k else k + 1];
    }
    forall a | a in blocks && a != x && blocks[a].kind.LargeFree? ensures a in Addresses(rest) {
      var j :| 0 <= j < |addrs| && addrs[j] == a;
      assert Addresses(rest)[if j < i then j else j - 1] == a;
    }
  }

  lemma ListDrop(blocks: map<nat, Block>, small: seq<seq<nat>>, large: seq<Node>, i: nat)
    requires Lists(blocks, small, large) && i < |large|
    ensures var x := large[i].addr;
      && x in blocks && blocks[x] == Block(large[i].size, LargeFree)
      && Lists(Without(blocks, x), small, Dropped(large, i)) && Held(Without(blocks, x)) == Held(blocks)
  {
    LargeDrop(blocks, large, i);
    var blocks' := Without(blocks, large[i].addr);
    forall idx | 0 <= idx < NUM_SIZES ensures SmallList(blocks', small[idx], idx) {
      assert SmallList(blocks, small[idx], idx);
    }
  }

  lemma ListAddLarge(blocks: map<nat, Block>, small: seq<seq<nat>>, large: seq<Node>, a: nat, n: nat)
    requires Lists(blocks, small, large) && (a in blocks ==> blocks[a].kind.Live?)
    ensures var b := Block(n, LargeFree);
      && Lists(blocks[a := b], small, [Node(a, n)] + large) && Held(blocks[a := b]) == Held(blocks) - {a}
  {
    var b := Block(n, LargeFree);
    var blocks', large' := blocks[a := b], [Node(a, n)] + large;
    forall idx | 0 <= idx < NUM_SIZES ensures SmallList(blocks', small[idx], idx) {
      assert SmallList(blocks, small[idx], idx);
    }
    assert Addresses(large') == [a] + Addresses(large);
  }

  /** A large free block goes to a caller; what is not used of it is given up. */
  lemma TakeWhole(blocks: map<nat, Block>, grants: seq<Node>, cursor: nat, end: nat, small: seq<seq<nat>>,
                  large: seq<Node>, i: nat, start: nat, b: Block)
    requires Heap(blocks, grants, cursor, end) && Lists(blocks, small, large) && i < |large|
    requires Shaped(start, b) && b.kind.Live? && Inside(start, b.size, large[i])
    ensures large[i].addr in blocks && start !in Held(blocks)
    ensures var blocks' := Without(blocks, large[i].addr)[start := b];
      && Heap(blocks', grants, cursor, end) && Lists(blocks', small, Dropped(large, i))
      && Held(blocks') == Held(blocks)[start := (b.kind.size, b.kind.align)]
  {
    var x := large[i].addr;
    ListDrop(blocks, small, large, i);
    Shrink(blocks, grants, cursor, end, x, start, b);
    ListAddLive(Without(blocks, x), small, Dropped(large, i), start, b);
  }

  /** A large free block is split: the front goes to a caller, the rest back on the list. */
  lemma TakePart(blocks: map<nat, Block>, grants: seq<Node>, cursor: nat, end: nat, small: seq<seq<nat>>,
                 large: seq<Node>, i: nat, x: nat, start: nat, b: Block, rem: nat, n: nat)
    requires Heap(blocks, grants, cursor, end) == true && Lists(blocks, small, large) == true && i < |large|
    requires Shaped(start, b) == true && b.kind.Live? && Inside(start, b.size, large[i]) && start + b.size <= rem
    requires x == large[i].addr && rem + n == x + large[i].size && n >= LARGE_NODE_SIZE
    requires Aligned(rem, LARGE_NODE_ALIGN)
    ensures var blocks' := Without(blocks, x)[start := b][rem := Block(n, LargeFree)];
      && Heap(blocks', grants, cursor, end) && Lists(blocks', small, [Node(rem, n)] + Dropped(large, i))
      && Held(blocks') == Held(blocks)[start := (b.kind.size, b.kind.align)]
  {
    var d, mid := Block(n, LargeFree), Without(blocks, x)[start := b];
    ListDrop(blocks, small, large, i);
    SplitBlock(blocks, grants, cursor, end, x, start, b, rem, d);
    ListAddLive(Without(blocks, x), small, Dropped(large, i), start, b);
    ListAddLarge(mid, small, Dropped(large, i), rem, n);
    assert Held(mid) - {rem} == Held(mid);
  }

  // ---------------------------------------------------------------- the allocator

  class Allocator {
    var cursor: nat
    var end: nat
    var small: seq<seq<nat>>
    var large: seq<Node>
    ghost var blocks: map<nat, Block>
    ghost var grants: seq<Node>

    /** Held blocks, free blocks of both kinds and the bump range are pairwise disjoint, lie in
        granted memory, and each free block is on its list exactly once. */
    ghost predicate Valid()
      reads this
    {
      Heap(blocks, grants, cursor, end) && Lists(blocks, small, large)
    }

    constructor ()
      ensures Valid() && Held(blocks) == map[] && grants == []
    {
      cursor, end, small, large := 0, 0, seq(NUM_SIZES, _ => []), [];
      blocks, grants := map[], [];
    }

    /** Takes a slab from the system; the rest of the old bump range is given up. */
    method Grow(answer: Option<nat>) returns (ok: bool)
      requires Valid() && (answer.Some? ==> Fresh(grants, answer.value, SLAB_SIZE))
      modifies this`cursor, this`end, this`grants
      ensures Valid() && ok == answer.Some?
      ensures ok ==>
        cursor == answer.value && end == cursor + SLAB_SIZE && grants == old(grants) + [Node(cursor, SLAB_SIZE)]
      ensures !ok ==> cursor == old(cursor) && end == old(end) && grants == old(grants)
    {
      if answer.None? { return false; }
      NewSlab(blocks, grants, cursor, end, answer.value, SLAB_SIZE);
      cursor, end := answer.value, answer.value + SLAB_SIZE;
      grants := grants + [Node(answer.value, SLAB_SIZE)];
      ok := true;
    }

    /** A block of n bytes on the boundary, from the bump range or a new slab. Slabs are asked for
        until one holds the block or is refused. */
    method BumpAlloc(size: nat, align: nat, n: nat, boundary: nat, answers: seq<Option<nat>>)
      returns (r: Pointer, asked: nat)
      requires Valid() && n > 0 && PowerOfTwo(boundary) && (n <= SLAB_SIZE || Holds(cursor, end, n, boundary))
      requires Offers(grants, answers, 0, SLAB_SIZE)
      requires forall a :: Aligned(a, boundary) ==> Shaped(a, Block(n, Live(size, align)))
      modifies this
      ensures Valid() && small == old(small) && large == old(large)
      ensures asked == 0 <==> old(Holds(cursor, end, n, boundary))
      ensures asked > 0 ==> FromSlabs(answers, n, boundary, asked, r) == true
      ensures |grants| == old(|grants|) + Given(answers, asked)
      ensures r == Null ==> blocks == old(blocks) && asked > 0
      ensures asked == 0 ==> r == At(RoundUp(old(cursor), boundary)) && cursor == r.addr + n && end == old(end)
      ensures asked > 0 && r.At? ==> cursor == r.addr + n && answers[asked - 1] == Some(end - SLAB_SIZE)
      ensures r != Null ==>
        && r.At? && Aligned(r.addr, boundary) && r.addr !in old(blocks)
        && blocks == old(blocks)[r.addr := Block(n, Live(size, align))]
    {
      asked := 0;
      while true
        invariant Valid() && small == old(small) && large == old(large) && blocks == old(blocks)
        invariant asked == 0 ==> cursor == old(cursor) && end == old(end)
        invariant Offers(grants, answers, asked, SLAB_SIZE) == true
        invariant |grants| == old(|grants|) + asked
        invariant asked > 0 ==> !old(Holds(cursor, end, n, boundary))
        invariant asked > 0 ==> answers[asked - 1] == Some(cursor) && end == cursor + SLAB_SIZE
        invariant forall i :: 0 <= i < asked - 1 ==> answers[i].Some? && !SlabHolds(answers[i].value, n, boundary)
        decreases |answers| - asked
      {
        var aligned := RoundUp(cursor, boundary);
        if aligned + n <= end {
          CutBump(n, size, align, boundary, aligned);
          return At(aligned), asked;
        }
        ghost var grants0 := grants;
        var ok := Grow(answers[asked]);
        asked := asked + 1;
        if !ok { return Null, asked; }
        OffersNext(grants0, answers, asked - 1, SLAB_SIZE, SLAB_SIZE);
      }
    }

    /** Cuts a block from the front of the bump range. */
    method CutBump(n: nat, ghost size: nat, ghost align: nat, ghost boundary: nat, aligned: nat)
      requires Valid() && n > 0 && boundary > 0 && aligned == RoundUp(cursor, boundary) && aligned + n <= end
      requires forall a :: Aligned(a, boundary) ==> Shaped(a, Block(n, Live(size, align)))
      modifies this`cursor, this`blocks
      ensures Valid() && aligned !in old(blocks) && Aligned(aligned, boundary)
      ensures blocks == old(blocks)[aligned := Block(n, Live(size, align))] && cursor == aligned + n
    {
      RoundUpIs(cursor, boundary);
      ghost var b := Block(n, Live(size, align));
      Bump(blocks, grants, cursor, end, aligned, b);
      ListAddLive(blocks, small, large, aligned, b);
      cursor := aligned + n;
      blocks := blocks[aligned := b];
    }

    /** From the free list of the size class, or else from the bump range. */
    method AllocSmall(size: nat, align: nat, answers: seq<Option<nat>>) returns (r: Pointer, asked: nat)
      requires Valid() && size > 0 && PowerOfTwo(align) && IsSmall(size, align)
      requires Offers(grants, answers, 0, SLAB_SIZE)
      modifies this
      ensures Valid() && (asked == 0 <==> old(HasRoom(small, large, cursor, end, size, align)))
      ensures asked > 0 ==> FromSlabs(answers, Extent(size, align), Boundary(size, align), asked, r) == true
      ensures |grants| == old(|grants|) + Given(answers, asked)
      ensures r == Null ==> Held(blocks) == old(Held(blocks)) && asked > 0
      ensures r != Null ==> Obtained(old(blocks), blocks, r, size, align) && Aligned(r.addr, Boundary(size, align))
      ensures asked == 0 ==> Served(old(small), old(large), old(cursor), old(end), size, align,
                                    r, small, large, cursor, end) == true
      ensures asked > 0 ==> small == old(small) && large == old(large)
    {
      var idx := ListIndex(size).value;
      var n := BLOCK_SIZES[idx];
      ClassIsPower(idx);
      var b := Block(n, Live(size, align));
      if small[idx] != [] {
        var a := small[idx][0];
        ListPop(blocks, small, large, idx, b);
        assert Shaped(a, blocks[a]);
        Rekind(blocks, grants, cursor, end, a, b);
        small := small[idx := small[idx][1..]];
        blocks := blocks[a := b];
        return At(a), 0;
      }
      r, asked := BumpAlloc(size, align, n, n, answers);
      if r != Null { ListAddLive(old(blocks), small, large, r.addr, b); }
    }

    /** Takes the node at position i and puts what is left behind the block back on the list. */
    method TakeLarge(i: nat, size: nat, align: nat, n: nat, start: nat, used: nat) returns (r: Pointer)
      requires Valid() && i < |large| && Shaped(start, Block(n, Live(size, align)))
      requires Inside(start, n, large[i]) && used == start + n
      modifies this`large, this`blocks
      ensures Valid() && r == At(start) && Obtained(old(blocks), blocks, r, size, align)
      ensures LeftOver(old(large), i, used, large) == true
    {
      var nodeEnd := large[i].addr + large[i].size;
      var remStart := RoundUp(used, LARGE_NODE_ALIGN);
      RoundUpIs(used, LARGE_NODE_ALIGN);
      if remStart + LARGE_NODE_SIZE + LARGE_REMAINDER_MIN_BYTES <= nodeEnd {
        var left := nodeEnd - remStart;
        TakeFront(i, Block(n, Live(size, align)), start, remStart, left);
        PartLeft(old(large), i, used, remStart, left, large);
      } else {
        TakeAll(i, Block(n, Live(size, align)), start);
        NothingLeft(old(large), i, used, large);
      }
      r := At(start);
    }

    /** What is not used of the node is given up. */
    method TakeAll(i: nat, ghost b: Block, ghost start: nat)
      requires Valid() && i < |large| && Shaped(start, b) == true && b.kind.Live? && Inside(start, b.size, large[i])
      modifies this`large, this`blocks
      ensures Valid() && start !in old(Held(blocks))
      ensures Held(blocks) == old(Held(blocks))[start := (b.kind.size, b.kind.align)]
      ensures large == Dropped(old(large), i)
    {
      TakeWhole(blocks, grants, cursor, end, small, large, i, start, b);
      blocks := Without(blocks, large[i].addr)[start := b];
      large := Dropped(large, i);
    }

    method TakeFront(i: nat, ghost b: Block, ghost start: nat, rem: nat, n: nat)
      requires Valid() && i < |large| && Shaped(start, b) == true && b.kind.Live? && Inside(start, b.size, large[i])
      requires start + b.size <= rem
      requires rem + n == large[i].addr + large[i].size && n >= LARGE_NODE_SIZE && Aligned(rem, LARGE_NODE_ALIGN)
      modifies this`large, this`blocks
      ensures Valid() && start !in old(Held(blocks))
      ensures Held(blocks) == old(Held(blocks))[start := (b.kind.size, b.kind.align)]
      ensures large == [Node(rem, n)] + Dropped(old(large), i)
    {
      TakeWhole(blocks, grants, cursor, end, small, large, i, start, b);
      TakePart(blocks, grants, cursor, end, small, large, i, large[i].addr, start, b, rem, n);
      blocks := Without(blocks, large[i].addr)[start := b][rem := Block(n, LargeFree)];
      large := [Node(rem, n)] + Dropped(large, i);
    }

    method BumpLarge(size: nat, align: nat, n: nat, boundary: nat, answers: seq<Option<nat>>)
      returns (r: Pointer, asked: nat)
      requires Valid() && size > 0 && PowerOfTwo(align) && !IsSmall(size, align)
      requires n == Extent(size, align) && boundary == Boundary(size, align)
      requires n <= SLAB_SIZE || Holds(cursor, end, n, boundary)
      requires Offers(grants, answers, 0, SLAB_SIZE)
      modifies this
      ensures Valid() && (asked == 0 <==> old(Holds(cursor, end, n, boundary)))
      ensures asked > 0 ==> FromSlabs(answers, n, boundary, asked, r) == true
      ensures |grants| == old(|grants|) + Given(answers, asked)
      ensures r == Null ==> Held(blocks) == old(Held(blocks)) && asked > 0
      ensures r != Null ==> Obtained(old(blocks), blocks, r, size, align) && Aligned(r.addr, align)
      ensures small == old(small) && large == old(large)
      ensures asked == 0 ==> r == At(RoundUp(old(cursor), boundary)) && cursor == r.addr + n && end == old(end)
    {
      LargeShape(size, align, n, boundary);
      r, asked := BumpAlloc(size, align, n, boundary, answers);
      if r != Null {
        ListAddLive(old(blocks), small, large, r.addr, Block(n, Live(size, align)));
        PowerAligned(r.addr, boundary, align);
      }
    }

    /** A block of its own from the system, for requests larger than a slab. */
    method OwnGrant(size: nat, align: nat, base: nat) returns (r: Pointer)
      requires Valid() && size > SLAB_SIZE && PowerOfTwo(align) && Fresh(grants, base, size) && Aligned(base, PAGE)
      modifies this
      ensures Valid() && r == At(base) && grants == old(grants) + [Node(base, size)]
      ensures Obtained(old(blocks), blocks, r, size, align)
      ensures small == old(small) && large == old(large) && cursor == old(cursor) && end == old(end)
    {
      var b := Block(size, Live(size, align));
      PageShape(base, size, align);
      NewBlock(blocks, grants, cursor, end, base, b);
      ListAddLive(blocks, small, large, base, b);
      blocks := blocks[base := b];
      grants := grants + [Node(base, size)];
      r := At(base);
    }

    /** The first node of the large list that holds the request. */
    method FirstFit(n: nat, boundary: nat) returns (at: Option<nat>)
      requires boundary > 0
      ensures at.None? <==> !SomeHolds(large, n, boundary)
      ensures at.Some? ==>
        at.value < |large| && Holds(large[at.value].addr, large[at.value].addr + large[at.value].size, n, boundary)
      ensures at.Some? ==> Inside(RoundUp(large[at.value].addr, boundary), n, large[at.value]) == true
      ensures at.Some? ==> !SomeHolds(large[..at.value], n, boundary)
    {
      for i := 0 to |large|
        invariant !SomeHolds(large[..i], n, boundary)
      {
        var start := RoundUp(large[i].addr, boundary);
        RoundUpIs(large[i].addr, boundary);
        if large[i].size >= n + (start - large[i].addr) { return Some(i); }
        assert large[..i + 1] == large[..i] + [large[i]];
      }
      assert large[..|large|] == large;
      at := None;
    }

    /** First fit in the large list, then the bump range, then the system. */
    method AllocLarge(size: nat, align: nat, answers: seq<Option<nat>>) returns (r: Pointer, asked: nat)
      requires Valid() && size > 0 && PowerOfTwo(align) && !IsSmall(size, align)
      requires Offers(grants, answers, 0, Max(SLAB_SIZE, size))
      modifies this
      ensures Valid() && (asked == 0 <==> old(HasRoom(small, large, cursor, end, size, align)))
      ensures asked > 0 ==> FromSystem(answers, size, align, asked, r) == true
      ensures |grants| == old(|grants|) + Given(answers, asked)
      ensures r == Null ==> Held(blocks) == old(Held(blocks)) && asked > 0
      ensures r != Null ==> Obtained(old(blocks), blocks, r, size, align)
      ensures r != Null && (asked == 0 || size <= SLAB_SIZE) ==> Aligned(r.addr, align)
      ensures asked == 0 ==> Served(old(small), old(large), old(cursor), old(end), size, align,
                                    r, small, large, cursor, end) == true
      ensures asked > 0 ==> small == old(small) && large == old(large)
    {
      var n, boundary := Max(size, LARGE_NODE_SIZE), Max(align, LARGE_NODE_ALIGN);
      var at := FirstFit(n, boundary);
      if at.None? {
        r, asked := BumpOrGrant(size, align, n, boundary, answers);
        if asked == 0 { ServedBump(small, large, old(cursor), end, size, align, r, cursor); }
      } else {
        var start := RoundUp(large[at.value].addr, boundary);
        var used := start + n;
        r := TakeFit(at.value, size, align, n, boundary, start, used);
        asked := 0;
        FirstIsTaken(old(large), at.value, n, boundary, start, used, large);
        ServedLarge(small, old(large), cursor, end, size, align, at.value, r, large);
      }
    }

    method TakeFit(i: nat, size: nat, align: nat, n: nat, ghost boundary: nat, start: nat, used: nat)
      returns (r: Pointer)
      requires Valid() && i < |large| && size > 0 && PowerOfTwo(align) && !IsSmall(size, align)
      requires n == Extent(size, align) && boundary == Boundary(size, align)
      requires start == RoundUp(large[i].addr, boundary) && Inside(start, n, large[i]) == true
      requires used == start + n
      modifies this`large, this`blocks
      ensures Valid() && r == At(start) && Obtained(old(blocks), blocks, r, size, align) && Aligned(start, align)
      ensures LeftOver(old(large), i, used, large) == true
    {
      RoundUpIs(large[i].addr, boundary);
      LargeShape(size, align, n, boundary);
      PowerAligned(start, boundary, align);
      r := TakeLarge(i, size, align, n, start, used);
    }

    /** From the bump range, from new slabs, or a range of its own. */
    method BumpOrGrant(size: nat, align: nat, n: nat, boundary: nat, answers: seq<Option<nat>>)
      returns (r: Pointer, asked: nat)
      requires Valid() && size > 0 && PowerOfTwo(align) && !IsSmall(size, align)
      requires n == Extent(size, align) && boundary == Boundary(size, align)
      requires Offers(grants, answers, 0, Max(SLAB_SIZE, size))
      modifies this
      ensures Valid() && (asked == 0 <==> old(Holds(cursor, end, n, boundary)))
      ensures asked > 0 ==> FromSystem(answers, size, align, asked, r) == true
      ensures |grants| == old(|grants|) + Given(answers, asked)
      ensures r == Null ==> Held(blocks) == old(Held(blocks)) && asked > 0
      ensures r != Null ==> Obtained(old(blocks), blocks, r, size, align)
      ensures r != Null && (asked == 0 || size <= SLAB_SIZE) ==> Aligned(r.addr, align)
      ensures small == old(small) && large == old(large)
      ensures asked == 0 ==> r == At(RoundUp(old(cursor), boundary)) && cursor == r.addr + n && end == old(end)
    {
      if RoundUp(cursor, boundary) + n <= end || size <= SLAB_SIZE {
        OffersSlabs(grants, answers, Max(SLAB_SIZE, size));
        r, asked := BumpLarge(size, align, n, boundary, answers);
        if asked > 0 { SlabsAre(answers, size, align, asked, r); }
        return;
      }
      if answers[0].None? { return Null, 1; }
      r := OwnGrant(size, align, answers[0].value);
      asked := 1;
    }

    method ServeSmall(size: nat, align: nat, answers: seq<Option<nat>>) returns (r: Pointer, asked: nat)
      requires Valid() && size > 0 && PowerOfTwo(align) && IsSmall(size, align)
      requires Offers(grants, answers, 0, Max(SLAB_SIZE, size))
      modifies this
      ensures Valid() && (asked == 0 <==> old(HasRoom(small, large, cursor, end, size, align)))
      ensures asked > 0 ==> FromSystem(answers, size, align, asked, r) == true
      ensures |grants| == old(|grants|) + Given(answers, asked)
      ensures r == Null ==> Held(blocks) == old(Held(blocks)) && asked > 0
      ensures r != Null ==> Obtained(old(blocks), blocks, r, size, align) && Aligned(r.addr, align)
      ensures asked == 0 ==> Served(old(small), old(large), old(cursor), old(end), size, align,
                                    r, small, large, cursor, end) == true
      ensures asked > 0 ==> small == old(small) && large == old(large)
    {
      r, asked := AllocSmall(size, align, answers);
      ClassIsPower(ListIndex(size).value);
      if asked > 0 { SlabsAre(answers, size, align, asked, r); }
      if r != Null { PowerAligned(r.addr, Boundary(size, align), align); }
    }

    /** Allocates a block. A pointer that is returned is new and backed by at least `size` bytes of
        its own. The system is asked only if there is no room, and only its refusal makes the result
        null. The pointer is aligned as asked, except that a range of its own starts where the
        system says. */
    method Alloc(size: nat, align: nat, answers: seq<Option<nat>>) returns (r: Pointer, asked: nat)
      requires Valid() && PowerOfTwo(align)
      requires Offers(grants, answers, 0, Max(SLAB_SIZE, size))
      modifies this
      ensures Valid() && asked <= |answers| && (align <= PAGE ==> asked <= 1)
      ensures size == 0 ==> r == Dangling && Held(blocks) == old(Held(blocks)) && asked == 0
      ensures size > 0 ==> (asked == 0 <==> old(HasRoom(small, large, cursor, end, size, align)))
      ensures asked > 0 ==> FromSystem(answers, size, align, asked, r) == true
      ensures r == Null <==> asked > 0 && answers[asked - 1].None?
      ensures |grants| == old(|grants|) + Given(answers, asked)
      ensures size > 0 && asked == 0 ==> Served(old(small), old(large), old(cursor), old(end), size, align,
                                                r, small, large, cursor, end) == true
      ensures size == 0 || asked > 0 ==> small == old(small) && large == old(large)
      ensures r == Null ==> Held(blocks) == old(Held(blocks))
      ensures size > 0 && r != Null ==> Obtained(old(blocks), blocks, r, size, align) == true && r.At?
      ensures size > 0 && r != Null ==> r.addr in blocks && blocks[r.addr].size >= size
      ensures size > 0 && r != Null ==>
        (Aligned(r.addr, align) <==> asked == 0 || size <= SLAB_SIZE || Aligned(answers[0].value, align))
    {
      if size == 0 { return Dangling, 0; }
      if align <= 8 && ListIndex(size).Some? {
        r, asked := ServeSmall(size, align, answers);
      } else {
        r, asked := AllocLarge(size, align, answers);
      }
      if r != Null { HeldIsGood(blocks, r.addr, size, align); }
      if asked > 0 && align <= PAGE { OneSlab(answers, size, align, asked, r); }
    }

    /** Puts a block that is held, with the layout it was asked for, on its free list. A null pointer
        and a block of no bytes are let go. */
    method Dealloc(ptr: Pointer, size: nat, align: nat)
      requires Valid() && (size > 0 ==> ptr != Dangling)
      requires size > 0 && ptr.At? ==> ptr.addr in Held(blocks) && Held(blocks)[ptr.addr] == (size, align)
      modifies this`small, this`large, this`blocks
      ensures Valid()
      ensures Held(blocks) == if ptr == Null || size == 0 then old(Held(blocks)) else old(Held(blocks)) - {ptr.addr}
      ensures ptr == Null || size == 0 ==> small == old(small) && large == old(large)
      ensures size > 0 && ptr.At? && align <= 8 && size <= 4096 ==>
        var idx := ListIndex(size).value;
        && large == old(large) && idx < |old(small)| && small == old(small)[idx := [ptr.addr] + old(small)[idx]]
        && ptr.addr in blocks && blocks[ptr.addr].kind == SmallFree(idx)
      ensures size > 0 && ptr.At? && (align > 8 || size > 4096) ==>
        && small == old(small) && large == [Node(ptr.addr, if size < 16 then 16 else size)] + old(large)
        && ptr.addr in blocks && blocks[ptr.addr].kind == LargeFree
    {
      if ptr == Null || size == 0 { return; }
      if align <= 8 && ListIndex(size).Some? {
        PushSmall(ListIndex(size).value, ptr.addr, size, align);
      } else {
        PushLarge(ptr.addr, size, align);
      }
    }

    method PushSmall(idx: nat, ptr: nat, ghost size: nat, ghost align: nat)
      requires Valid() && ptr in Held(blocks) && Held(blocks)[ptr] == (size, align)
      requires IsSmall(size, align) && idx == ListIndex(size).value
      modifies this`small, this`blocks
      ensures Valid() && Held(blocks) == old(Held(blocks)) - {ptr}
      ensures idx < |old(small)| && small == old(small)[idx := [ptr] + old(small)[idx]]
      ensures ptr in blocks && blocks[ptr].kind == SmallFree(idx)
    {
      assert Shaped(ptr, blocks[ptr]);
      ListPush(blocks, small, large, idx, ptr);
      Rekind(blocks, grants, cursor, end, ptr, Block(blocks[ptr].size, SmallFree(idx)));
      small := small[idx := [ptr] + small[idx]];
      blocks := blocks[ptr := Block(blocks[ptr].size, SmallFree(idx))];
    }

    method PushLarge(ptr: nat, size: nat, ghost align: nat)
      requires Valid() && ptr in Held(blocks) && Held(blocks)[ptr] == (size, align) && !IsSmall(size, align)
      modifies this`large, this`blocks
      ensures Valid() && Held(blocks) == old(Held(blocks)) - {ptr}
      ensures large == [Node(ptr, Max(size, LARGE_NODE_SIZE))] + old(large)
      ensures ptr in blocks && blocks[ptr].kind == LargeFree
    {
      var n := Max(size, LARGE_NODE_SIZE);
      assert Shaped(ptr, blocks[ptr]);
      ListAddLarge(blocks, small, large, ptr, n);
      Rekind(blocks, grants, cursor, end, ptr, Block(n, LargeFree));
      large := [Node(ptr, n)] + large;
      blocks := blocks[ptr := Block(n, LargeFree)];
    }

    /** Replaces the bump range by one of the given size. */
    method Preallocate(size: nat, answer: Option<nat>)
      requires Valid() && (answer.Some? ==> Fresh(grants, answer.value, size))
      modifies this`cursor, this`end, this`grants
      ensures Valid()
      ensures answer.Some? ==> cursor == answer.value && end == cursor + size
      ensures answer.None? ==> cursor == old(cursor) && end == old(end)
    {
      if answer.Some? {
        NewSlab(blocks, grants, cursor, end, answer.value, size);
        cursor, end := answer.value, answer.value + size;
        grants := grants + [Node(answer.value, size)];
      }
    }
  }

  lemma PartLeft(large: seq<Node>, i: nat, used: nat, rem: nat, left: nat, large': seq<Node>)
    requires rem == RoundUp(used, LARGE_NODE_ALIGN) && i < |large| && rem + left == large[i].addr + large[i].size
    requires left >= LARGE_NODE_SIZE + LARGE_REMAINDER_MIN_BYTES
    requires large' == [Node(rem, left)] + Dropped(large, i)
    ensures LeftOver(large, i, used, large') == true
  {
  }

  lemma NothingLeft(large: seq<Node>, i: nat, used: nat, large': seq<Node>)
    requires i < |large| && large' == Dropped(large, i)
    requires RoundUp(used, LARGE_NODE_ALIGN) + LARGE_NODE_SIZE + LARGE_REMAINDER_MIN_BYTES
             > large[i].addr + large[i].size
    ensures LeftOver(large, i, used, large') == true
  {
    assert [] + Dropped(large, i) == Dropped(large, i);
  }

  lemma FirstIsTaken(large: seq<Node>, i: nat, n: nat, boundary: nat, start: nat, used: nat, large': seq<Node>)
    requires boundary > 0 && i < |large| && Holds(large[i].addr, large[i].addr + large[i].size, n, boundary)
    requires !SomeHolds(large[..i], n, boundary) && start == RoundUp(large[i].addr, boundary) && used == start + n
    requires LeftOver(large, i, used, large') == true
    ensures TakenFrom(large, i, n, boundary, At(start), large') == true && SomeHolds(large, n, boundary) == true
  {
    forall j | 0 <= j < i ensures !Holds(large[j].addr, large[j].addr + large[j].size, n, boundary) {
      assert large[..i][j] == large[j];
    }
  }

  lemma ServedLarge(small: seq<seq<nat>>, large: seq<Node>, cursor: nat, end: nat, size: nat, align: nat,
                    i: nat, r: Pointer, large': seq<Node>)
    requires |small| == NUM_SIZES && !IsSmall(size, align) && i < |large|
    requires TakenFrom(large, i, Extent(size, align), Boundary(size, align), r, large') == true
    requires SomeHolds(large, Extent(size, align), Boundary(size, align)) == true
    ensures Served(small, large, cursor, end, size, align, r, small, large', cursor, end) == true
    ensures HasRoom(small, large, cursor, end, size, align) == true
  {
  }

  lemma ServedBump(small: seq<seq<nat>>, large: seq<Node>, cursor: nat, end: nat, size: nat, align: nat,
                   r: Pointer, cursor': nat)
    requires |small| == NUM_SIZES && r == At(RoundUp(cursor, Boundary(size, align)))
    requires !IsSmall(size, align) && !SomeHolds(large, Extent(size, align), Boundary(size, align))
    requires cursor' == r.addr + Extent(size, align)
    ensures Served(small, large, cursor, end, size, align, r, small, large, cursor', end) == true
  {
  }

  /** A block that has just been freed lies first where requests of its layout are looked for. */
  ghost predicate LiesFirst(small: seq<seq<nat>>, large: seq<Node>, ptr: nat, size: nat, align: nat) {
    && |small| == NUM_SIZES && Aligned(ptr, Boundary(size, align))
    && if IsSmall(size, align) then small[ListIndex(size).value] != [] && small[ListIndex(size).value][0] == ptr
       else large != [] && large[0] == Node(ptr, Extent(size, align))
  }

  lemma FirstHasRoom(small: seq<seq<nat>>, large: seq<Node>, cursor: nat, end: nat, ptr: nat, size: nat, align: nat)
    requires LiesFirst(small, large, ptr, size, align)
    ensures HasRoom(small, large, cursor, end, size, align) == true
  {
    if !IsSmall(size, align) {
      RoundUpSame(ptr, Boundary(size, align));
      assert Holds(large[0].addr, large[0].addr + large[0].size, Extent(size, align), Boundary(size, align));
    }
  }

  lemma FirstIsServed(small: seq<seq<nat>>, large: seq<Node>, cursor: nat, end: nat, ptr: nat, size: nat, align: nat,
                      r: Pointer, small': seq<seq<nat>>, large': seq<Node>, cursor': nat, end': nat)
    requires LiesFirst(small, large, ptr, size, align)
    requires Served(small, large, cursor, end, size, align, r, small', large', cursor', end')
    ensures r == At(ptr) && cursor' == cursor && end' == end
    ensures small' == if IsSmall(size, align)
                      then small[ListIndex(size).value := small[ListIndex(size).value][1..]] else small
    ensures large' == if IsSmall(size, align) then large else large[1..]
  {
    if !IsSmall(size, align) {
      RoundUpSame(ptr, Boundary(size, align));
      RoundUpIs(ptr + Extent(size, align), LARGE_NODE_ALIGN);
      assert Holds(large[0].addr, large[0].addr + large[0].size, Extent(size, align), Boundary(size, align));
      assert Dropped(large, 0) == large[1..];
    }
  }

  /** A freed block is the first to be used again: the next request of the same layout gets it back,
      the free lists are as before, and the system is not asked. Only a large block that lies off the
      boundary it was asked for is excepted. */
  method FreedIsReused(a: Allocator, ptr: nat, size: nat, align: nat, answers: seq<Option<nat>>)
    returns (r: Pointer, asked: nat)
    requires a.Valid() && ptr in Held(a.blocks) && Held(a.blocks)[ptr] == (size, align) && size > 0
    requires PowerOfTwo(align) && Aligned(ptr, Boundary(size, align))
    requires Offers(a.grants, answers, 0, Max(SLAB_SIZE, size))
    modifies a
    ensures a.Valid() && r == At(ptr) && asked == 0 && Held(a.blocks) == old(Held(a.blocks))
    ensures a.small == old(a.small) && a.large == old(a.large) && a.cursor == old(a.cursor) && a.end == old(a.end)
  {
    FreeFirst(a, ptr, size, align);
    ghost var small, large, blocks := a.small, a.large, a.blocks;
    FirstHasRoom(a.small, a.large, a.cursor, a.end, ptr, size, align);
    r, asked := a.Alloc(size, align, answers);
    FirstIsServed(small, large, old(a.cursor), old(a.end), ptr, size, align, r, a.small, a.large, a.cursor, a.end);
    Regained(old(a.blocks), blocks, a.blocks, ptr, size, align);
  }

  lemma Regained(blocks0: map<nat, Block>, blocks1: map<nat, Block>, blocks2: map<nat, Block>, ptr: nat, size: nat,
                 align: nat)
    requires ptr in Held(blocks0) && Held(blocks0)[ptr] == (size, align) && Held(blocks1) == Held(blocks0) - {ptr}
    requires Obtained(blocks1, blocks2, At(ptr), size, align)
    ensures Held(blocks2) == Held(blocks0)
  {
  }

  method FreeFirst(a: Allocator, ptr: nat, size: nat, align: nat)
    requires a.Valid() && ptr in Held(a.blocks) && Held(a.blocks)[ptr] == (size, align) && size > 0
    requires Aligned(ptr, Boundary(size, align))
    modifies a`small, a`large, a`blocks
    ensures a.Valid() && Held(a.blocks) == old(Held(a.blocks)) - {ptr}
    ensures LiesFirst(a.small, a.large, ptr, size, align) == true
    ensures old(a.small) == if IsSmall(size, align)
      then a.small[ListIndex(size).value := a.small[ListIndex(size).value][1..]] else a.small
    ensures old(a.large) == if IsSmall(size, align) then a.large else a.large[1..]
  {
    a.Dealloc(At(ptr), size, align);
  }

  /** A held block has room for its layout and the alignment asked for, unless that is more than a
      page and the block has a range of its own. */
  lemma HeldIsGood(blocks: map<nat, Block>, a: nat, size: nat, align: nat)
    requires AllShaped(blocks) && a in Held(blocks) && Held(blocks)[a] == (size, align)
    ensures a in blocks && blocks[a].size >= size && PowerOfTwo(align)
    ensures Aligned(a, align) || BeyondPage(size, align)
  {
    assert Shaped(a, blocks[a]);
    if IsSmall(size, align) {
      ClassIsPower(ListIndex(size).value);
      PowerAligned(a, blocks[a].size, align);
    }
  }

  lemma LargeShape(size: nat, align: nat, n: nat, boundary: nat)
    requires size > 0 && PowerOfTwo(align) && !IsSmall(size, align)
    requires n == Extent(size, align) && boundary == Boundary(size, align)
    ensures PowerOfTwo(boundary)
    ensures forall a :: Aligned(a, boundary) ==> Shaped(a, Block(n, Live(size, align)))
  {
    ClassIsPower(0);
    forall a | Aligned(a, boundary) ensures Shaped(a, Block(n, Live(size, align))) {
      PowerAligned(a, boundary, align);
      PowerAligned(a, boundary, LARGE_NODE_ALIGN);
    }
  }

  /** What the system gives for one block. */
  lemma PageShape(base: nat, size: nat, align: nat)
    requires size > SLAB_SIZE && PowerOfTwo(align) && Aligned(base, PAGE)
    ensures Shaped(base, Block(size, Live(size, align)))
  {
    ClassIsPower(0);
    ClassIsPower(9);
    PowerAligned(base, PAGE, LARGE_NODE_ALIGN);
    if align <= PAGE { PowerAligned(base, PAGE, align); }
  }

  lemma OffersSlabs(grants: seq<Node>, answers: seq<Option<nat>>, size: nat)
    requires Offers(grants, answers, 0, size) && size >= SLAB_SIZE
    ensures Offers(grants, answers, 0, SLAB_SIZE)
  {
    forall j, k | 0 <= j < k < |answers| && answers[j].Some? && answers[k].Some?
      ensures Fresh([Node(answers[j].value, SLAB_SIZE)], answers[k].value, SLAB_SIZE)
    {
      assert Fresh([Node(answers[j].value, size)], answers[k].value, size);
      assert [Node(answers[j].value, size)][0] == Node(answers[j].value, size);
    }
  }

  /** Alignments of up to a page need one slab. */
  lemma OneSlab(answers: seq<Option<nat>>, size: nat, align: nat, asked: nat, r: Pointer)
    requires align <= PAGE && PowerOfTwo(align)
    requires forall j :: 0 <= j < |answers| && answers[j].Some? ==> Aligned(answers[j].value, PAGE)
    requires FromSystem(answers, size, align, asked, r)
    ensures asked == 1
  {
    if asked > 1 {
      ClassIsPower(if IsSmall(size, align) then ListIndex(size).value else 0);
      FirstSlabHolds(answers[0].value, Extent(size, align), Boundary(size, align));
      assert false;
    }
  }

  /** Two held blocks never share a byte, and neither reaches into a free block. */
  lemma HeldApart(blocks: map<nat, Block>, grants: seq<Node>, cursor: nat, end: nat, a: nat, b: nat)
    requires Heap(blocks, grants, cursor, end) && a in Held(blocks) && b in blocks && a != b
    ensures a + blocks[a].size <= b || b + blocks[b].size <= a
    ensures cursor < end ==> a + blocks[a].size <= cursor || end <= a
  {
  }

  /** The pointer is a new one for this layout, and nothing else that is held changed. */
  ghost predicate Obtained(blocks: map<nat, Block>, blocks': map<nat, Block>, r: Pointer, size: nat, align: nat) {
    && r.At? && r.addr !in Held(blocks) && Held(blocks') == Held(blocks)[r.addr := (size, align)]
  }

  lemma ClassIsPower(idx: nat)
    requires idx < NUM_SIZES
    ensures PowerOfTwo(BLOCK_SIZES[idx]) && 8 <= BLOCK_SIZES[idx] <= 4096
  {
    ClassSize(idx);
  }

  lemma {:induction false} ClassSize(idx: nat)
    requires idx < NUM_SIZES
    ensures BLOCK_SIZES[idx] == Pow2(idx + 3)
  {
    if idx > 0 { ClassSize(idx - 1); }
  }

  // ---------------------------------------------------------------- what it does not promise

  /** A block larger than a slab starts on the page the system gave, whatever alignment was asked. */
  method GrantCanBeMisaligned() returns (a: Allocator, r: Pointer, ghost asked: nat)
    ensures fresh(a) && a.Valid() && PowerOfTwo(0x2000) && r == At(0x1000) && !Aligned(0x1000, 0x2000)
    ensures Held(a.blocks) == map[0x1000 := (0x5000, 0x2000)]
  {
    a := new Allocator();
    assert Pow2(13) == 0x2000;
    assert Times(1, PAGE) == 0x1000;
    r, asked := a.Alloc(0x5000, 0x2000, [Some(0x1000), None]);
    NotOnTwoPages();
  }

  lemma NotOnTwoPages()
    ensures !Aligned(0x1000, 0x2000)
  {
    forall k: nat ensures Times(k, 0x2000) != 0x1000 {
      if k > 0 { assert Times(k, 0x2000) >= 0x2000; }
    }
  }

  /** A slab whose start is off by a page is given up although the system gave it: here two slabs are
      lost, and the request fails. */
  method SlabsCanBeWasted() returns (a: Allocator, r: Pointer, asked: nat)
    ensures fresh(a) && a.Valid() && r == Null && asked == 3 && |a.grants| == 2 && Held(a.blocks) == map[]
  {
    a := new Allocator();
    assert Pow2(13) == 0x2000;
    assert Times(1, PAGE) == 0x1000 && Times(7, PAGE) == 0x7000;
    r, asked := a.Alloc(0x4000, 0x2000, [Some(0x1000), Some(0x7000), None]);
  }
}
