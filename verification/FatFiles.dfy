/** The bytes of a cluster chain as one sequence, and how reading a slice and writing into one
    cluster look in it. */
module FatFiles {
  import opened FatDisk
  import opened FatChains

  ghost predicate Uniform(blocks: seq<seq<byte>>, size: nat) {
    forall i :: 0 <= i < |blocks| ==> |blocks[i]| == size
  }

  function Flat(blocks: seq<seq<byte>>): seq<byte> {
    if blocks == [] then [] else Flat(blocks[..|blocks| - 1]) + blocks[|blocks| - 1]
  }

  lemma {:induction false} FlatLength(blocks: seq<seq<byte>>, size: nat)
    requires Uniform(blocks, size)
    ensures |Flat(blocks)| == Span(|blocks|, size)
  {
    if blocks != [] {
      var n := |blocks| - 1;
      FlatLength(blocks[..n], size);
    }
  }

  /** Block i lies at i times the block size. */
  lemma {:induction false} FlatBlock(blocks: seq<seq<byte>>, size: nat, i: nat)
    requires Uniform(blocks, size) && i < |blocks|
    ensures Span(i, size) + size <= |Flat(blocks)| && Flat(blocks)[Span(i, size)..Span(i, size) + size] == blocks[i]
  {
    var n := |blocks| - 1;
    FlatLength(blocks, size);
    FlatLength(blocks[..n], size);
    Slot(i, |blocks|, size);
    if i < n {
      FlatBlock(blocks[..n], size, i);
      assert Flat(blocks)[..Span(n, size)] == Flat(blocks[..n]);
      assert Flat(blocks)[Span(i, size)..Span(i, size) + size]
          == Flat(blocks[..n])[Span(i, size)..Span(i, size) + size];
    }
  }

  lemma FlatSlice(blocks: seq<seq<byte>>, size: nat, i: nat, x: nat, k: nat, at: nat)
    requires Uniform(blocks, size) && i < |blocks| && x + k <= size && at == Span(i, size) + x
    ensures at + k <= |Flat(blocks)| && Flat(blocks)[at..at + k] == blocks[i][x..x + k]
  {
    FlatBlock(blocks, size, i);
    SliceOfSlice(Flat(blocks), Span(i, size), size, x, x + k);
  }

  lemma SliceOfSlice(s: seq<byte>, a: nat, n: nat, x: nat, y: nat)
    requires a + n <= |s| && x <= y <= n
    ensures s[a..a + n][x..y] == s[a + x..a + y]
  {
    var left, right := s[a..a + n][x..y], s[a + x..a + y];
    assert forall k :: 0 <= k < |left| ==> left[k] == right[k];
  }

  /** Patching inside one block is patching the whole at that block's place. */
  lemma {:induction false} FlatPatch(blocks: seq<seq<byte>>, size: nat, i: nat, x: nat, chunk: seq<byte>)
    requires Uniform(blocks, size) && i < |blocks| && x + |chunk| <= size
    ensures Span(i, size) + x + |chunk| <= |Flat(blocks)|
    ensures Flat(blocks[i := Patch(blocks[i], x, chunk)]) == Patch(Flat(blocks), Span(i, size) + x, chunk)
  {
    var n := |blocks| - 1;
    var blocks' := blocks[i := Patch(blocks[i], x, chunk)];
    FlatLength(blocks, size);
    FlatLength(blocks[..n], size);
    Slot(i, |blocks|, size);
    if i < n {
      FlatPatch(blocks[..n], size, i, x, chunk);
      assert blocks'[..n] == blocks[..n][i := Patch(blocks[i], x, chunk)];
    } else {
      assert blocks'[..n] == blocks[..n];
    }
  }

  lemma FlatAppend(blocks: seq<seq<byte>>, last: seq<byte>)
    ensures Flat(blocks + [last]) == Flat(blocks) + last
  {
    assert (blocks + [last])[..|blocks|] == blocks;
  }

  // ---------------------------------------------------------------- chains of a volume

  function Blocks(v: Volume, s: seq<nat>): (r: seq<seq<byte>>)
    requires forall i :: 0 <= i < |s| ==> s[i] < |v.body|
    ensures |r| == |s| && forall i :: 0 <= i < |r| ==> r[i] == v.body[s[i]]
  {
    seq(|s|, i requires 0 <= i < |s| => v.body[s[i]])
  }

  function Content(v: Volume, s: seq<nat>): seq<byte>
    requires forall i :: 0 <= i < |s| ==> s[i] < |v.body|
  {
    Flat(Blocks(v, s))
  }

  ghost predicate Bodies(v: Volume, size: nat) {
    forall c :: ROOT_CLUSTER <= c < |v.body| ==> |v.body[c]| == size
  }

  lemma ContentLength(v: Volume, s: seq<nat>, size: nat)
    requires |v.fat| == |v.body| && Bodies(v, size) && IsChain(v.fat, s)
    ensures |Content(v, s)| == Span(|s|, size) && Uniform(Blocks(v, s), size)
  {
    FlatLength(Blocks(v, s), size);
  }

  ghost predicate Patched(x: seq<byte>, y: seq<byte>, at: nat, chunk: seq<byte>) {
    at + |chunk| <= |x| && y == Patch(x, at, chunk)
  }

  /** Writing into one cluster of a chain patches the chain's content. */
  lemma ContentPatch(v: Volume, s: seq<nat>, size: nat, i: nat, x: nat, chunk: seq<byte>) returns (v': Volume)
    requires |v.fat| == |v.body| < BAD_CLUSTER && Bodies(v, size) && IsChain(v.fat, s)
    requires i < |s| && x + |chunk| <= size
    ensures |v.body[s[i]]| == size && v' == v.(body := v.body[s[i] := Patch(v.body[s[i]], x, chunk)])
    ensures Patched(Content(v, s), Content(v', s), Span(i, size) + x, chunk)
  {
    v' := v.(body := v.body[s[i] := Patch(v.body[s[i]], x, chunk)]);
    ContentLength(v, s, size);
    forall j | 0 <= j < |s| && j != i ensures s[j] != s[i] {
      if j < i { NoRepeat(v.fat, s, j, i); } else { NoRepeat(v.fat, s, i, j); }
    }
    assert Blocks(v', s) == Blocks(v, s)[i := Patch(v.body[s[i]], x, chunk)];
    FlatPatch(Blocks(v, s), size, i, x, chunk);
  }

  /** A chain whose clusters are not written keeps its content. */
  lemma ContentKept(v: Volume, v': Volume, s: seq<nat>)
    requires |v.body| == |v'.body| && forall i :: 0 <= i < |s| ==> s[i] < |v.body| && v'.body[s[i]] == v.body[s[i]]
    ensures Content(v', s) == Content(v, s)
  {
    assert Blocks(v', s) == Blocks(v, s);
  }

  /** Appending a cluster to a chain appends its bytes. */
  lemma ContentAppend(v: Volume, s: seq<nat>, c: nat)
    requires c < |v.body| && forall i :: 0 <= i < |s| ==> s[i] < |v.body|
    ensures Content(v, s + [c]) == Content(v, s) + v.body[c]
  {
    assert Blocks(v, s + [c]) == Blocks(v, s) + [v.body[c]];
    FlatAppend(Blocks(v, s), v.body[c]);
  }

  ghost predicate SameBody(v: Volume, v': Volume, c: nat) {
    c < |v.body| && c < |v'.body| && v'.body[c] == v.body[c]
  }

  /** The chains other than h are the same ones, with the same clusters and the same bytes. */
  ghost predicate OthersKept(v: Volume, chains: map<nat, seq<nat>>, v': Volume, chains': map<nat, seq<nat>>, h: nat) {
    && |v.body| == |v'.body|
    && (forall k :: k in chains && k != h ==> k in chains' && chains'[k] == chains[k])
    && (forall k :: k in chains' && k != h ==> k in chains)
    && (forall k, c :: k in chains && k != h && c in chains[k] ==> SameBody(v, v', c))
  }

  lemma OthersContent(v: Volume, chains: map<nat, seq<nat>>, v': Volume, chains': map<nat, seq<nat>>, h: nat, k: nat)
    requires OthersKept(v, chains, v', chains', h) && k in chains && k != h
    ensures (forall i :: 0 <= i < |chains[k]| ==> chains[k][i] < |v.body|)
    ensures k in chains' && chains'[k] == chains[k] && Content(v', chains'[k]) == Content(v, chains[k])
  {
    forall i | 0 <= i < |chains[k]| ensures chains[k][i] < |v.body| && v'.body[chains[k][i]] == v.body[chains[k][i]] {
      assert SameBody(v, v', chains[k][i]) by { assert chains[k][i] in chains[k]; }
    }
    ContentKept(v, v', chains[k]);
  }

  lemma OthersTrans(v: Volume, chains: map<nat, seq<nat>>, v1: Volume, chains1: map<nat, seq<nat>>,
                    v2: Volume, chains2: map<nat, seq<nat>>, h: nat)
    requires OthersKept(v, chains, v1, chains1, h) == true && OthersKept(v1, chains1, v2, chains2, h) == true
    ensures OthersKept(v, chains, v2, chains2, h)
  {
    forall k, c | k in chains && k != h && c in chains[k] ensures SameBody(v, v2, c) {
      assert SameBody(v, v1, c);
      assert chains1[k] == chains[k];
      assert SameBody(v1, v2, c);
    }
  }

  /** Only clusters of chain h were written. */
  lemma OthersByBody(v: Volume, chains: map<nat, seq<nat>>, v': Volume, h: nat, c: nat)
    requires WellFormed(v.fat, chains) && |v.fat| == |v.body| == |v'.body| && h in chains && c in chains[h]
    requires forall x :: 0 <= x < |v.body| && x != c ==> v'.body[x] == v.body[x]
    ensures OthersKept(v, chains, v', chains, h)
  {
    forall k, x | k in chains && k != h && x in chains[k] ensures SameBody(v, v', x) {
      MembersTaken(v.fat, chains[k], x);
    }
  }

  // ---------------------------------------------------------------- what a write leaves

  /** y is x, lengthened with zeros, with d written at off. */
  ghost predicate Spread(x: seq<byte>, y: seq<byte>, off: nat, d: seq<byte>) {
    |x| <= |y| && off + |d| <= |y| && y == Patch(x + Zeros(|y| - |x|), off, d)
  }

  /** y is x with zeros after it. */
  ghost predicate Extends(x: seq<byte>, y: seq<byte>) {
    |x| <= |y| && y == x + Zeros(|y| - |x|)
  }

  lemma ExtendsTrans(x: seq<byte>, y: seq<byte>, z: seq<byte>)
    requires Extends(x, y) && Extends(y, z)
    ensures Extends(x, z)
  {
  }

  lemma ExtendsBy(x: seq<byte>, n: nat)
    ensures Extends(x, x + Zeros(n)) && Extends(x, x)
  {
  }

  lemma SpreadStart(x: seq<byte>, y: seq<byte>, off: nat)
    requires Extends(x, y) && off <= |y|
    ensures Spread(x, y, off, [])
  {
  }

  lemma SpreadMore(x: seq<byte>, y: seq<byte>, z: seq<byte>, off: nat, d: seq<byte>, w: nat, k: nat)
    requires w + k <= |d| && Spread(x, y, off, d[..w]) && Patched(y, z, off + w, d[w..w + k])
    ensures Spread(x, z, off, d[..w + k])
  {
  }

  lemma SpreadGrow(x: seq<byte>, y: seq<byte>, z: seq<byte>, off: nat, d: seq<byte>)
    requires Spread(x, y, off, d) && Extends(y, z)
    ensures Spread(x, z, off, d)
  {
  }

  /** Both at once: the next k bytes are written at their place and the chain grows by zeros. */
  lemma SpreadOn(x: seq<byte>, y: seq<byte>, mid: seq<byte>, z: seq<byte>, off: nat, d: seq<byte>, w: nat, k: nat,
                 chunk: seq<byte>, at: nat, w': nat)
    requires w + k == w' <= |d| && at == off + w && chunk == d[w..w'] && Spread(x, y, off, d[..w]) == true
    requires Patched(y, mid, at, chunk) == true && Extends(mid, z) == true
    ensures Spread(x, z, off, d[..w']) == true
  {
    SpreadMore(x, y, mid, off, d, w, k);
    SpreadGrow(x, mid, z, off, d[..w']);
  }

  function Min(a: int, b: int): int { if a < b then a else b }

  ghost predicate IsTaken(x: seq<byte>, buf: seq<byte>, k: int) {
    0 <= k <= |x| && buf == x[..k]
  }

  /** Reading on from the start: what was read plus the beginning of block i. */
  lemma TakeMore(blocks: seq<seq<byte>>, size: nat, i: nat, n: nat, buf: seq<byte>)
    requires Uniform(blocks, size) && i < |blocks| && Span(i, size) < n && IsTaken(Flat(blocks), buf, Span(i, size))
    ensures IsTaken(Flat(blocks), buf + blocks[i][..Min(size, n - |buf|)], Min(Span(i + 1, size), n))
  {
    FlatBlock(blocks, size, i);
    var k := Min(size, n - Span(i, size));
    FlatSlice(blocks, size, i, 0, k, Span(i, size));
    Take(Flat(blocks), Span(i, size), k);
  }

  lemma Take(s: seq<byte>, a: nat, k: nat)
    requires a + k <= |s|
    ensures s[..a] + s[a..a + k] == s[..a + k]
  {
  }

  /** r is what reading n bytes at an offset gives, the file being `size` bytes of the content x:
      the bytes from there on, as far as both reach. */
  ghost predicate Reads(x: seq<byte>, size: nat, off: nat, n: nat, r: seq<byte>) {
    var end := Min(size, |x|);
    && |r| == (if off >= end then 0 else Min(n, end - off))
    && forall i :: 0 <= i < |r| ==> r[i] == x[off + i]
  }

  ghost predicate IsSlice(x: seq<byte>, buf: seq<byte>, from: nat, to: nat) {
    from <= to <= |x| && buf == x[from..to]
  }

  /** Reading on from an offset: what was read plus part of block i. */
  lemma ReadMore(blocks: seq<seq<byte>>, size: nat, from: nat, i: nat, x: nat, k: nat, buf: seq<byte>)
    requires Uniform(blocks, size) && i < |blocks| && x + k <= size
    requires IsSlice(Flat(blocks), buf, from, Span(i, size) + x)
    ensures IsSlice(Flat(blocks), buf + blocks[i][x..x + k], from, Span(i, size) + x + k)
  {
    var at := Span(i, size) + x;
    FlatSlice(blocks, size, i, x, k, at);
    Join(Flat(blocks), from, at, k);
  }

  /** The block and the place in it that an offset falls on. */
  lemma DivSpan(off: nat, size: nat)
    requires size > 0
    ensures Span(off / size, size) + off % size == off
  {
    SpanIsProduct(off / size, size);
  }

  lemma {:induction false} SpanGrows(i: nat, j: nat, size: nat)
    requires i <= j
    ensures Span(i, size) <= Span(j, size)
    decreases j
  {
    if i < j { SpanGrows(i, j - 1, size); }
  }

  lemma Join(s: seq<byte>, from: nat, a: nat, k: nat)
    requires from <= a && a + k <= |s|
    ensures s[from..a] + s[a..a + k] == s[from..a + k]
  {
  }

  lemma PatchPrefix(c: seq<byte>, b: seq<byte>, a: nat, n: nat, y: seq<byte>, z: seq<byte>)
    requires |b| == |c| && a + n <= |b|
    requires Patched(c, y, 0, b[..a]) && Patched(y, z, a, b[a..a + n])
    ensures Patched(c, z, 0, b[..a + n])
  {
  }

  /** Chain k is still there with the same clusters and bytes. */
  ghost predicate Untouched(v: Volume, chains: map<nat, seq<nat>>, v': Volume, chains': map<nat, seq<nat>>, k: nat) {
    && k in chains && k in chains' && chains'[k] == chains[k] && |v.body| == |v'.body|
    && (forall i :: 0 <= i < |chains[k]| ==> chains[k][i] < |v.body|)
    && Content(v', chains[k]) == Content(v, chains[k])
  }

  lemma OthersUntouched(v: Volume, chains: map<nat, seq<nat>>, v': Volume, chains': map<nat, seq<nat>>, h: nat)
    requires OthersKept(v, chains, v', chains', h)
    ensures forall k :: k in chains && k != h ==> Untouched(v, chains, v', chains', k)
  {
    forall k | k in chains && k != h ensures Untouched(v, chains, v', chains', k) {
      OthersContent(v, chains, v', chains', h, k);
    }
  }
}
