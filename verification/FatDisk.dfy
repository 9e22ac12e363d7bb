/** A FAT32 volume on a flat disk of bytes (kernel/src/filesystem/fat32/mod.rs, with the disk of
    kernel/src/io/disk.rs): 28-bit entries inside sectors and clusters of whole sectors. Every
    primitive is shown to change one entry or one cluster of the volume and nothing else. */
module FatDisk {

  type byte = b: int | 0 <= b < 256

  const SECTOR: nat := 512
  const ROOT_CLUSTER: nat := 2
  const ENTRY_LIMIT: nat := 0x1000_0000

  /** Where the table and the clusters lie, in sectors. */
  datatype Geometry = Geometry(fatStart: nat, dataStart: nat, sectorsPerCluster: nat, maxCluster: nat) {
    function ClusterSize(): nat { sectorsPerCluster * SECTOR }

    /** The table lies before the clusters, and the disk holds them all. */
    ghost predicate Fits(size: nat) {
      && sectorsPerCluster > 0 && ROOT_CLUSTER <= maxCluster < BAD_CLUSTER
      && fatStart * SECTOR + 4 * maxCluster <= dataStart * SECTOR
      && dataStart * SECTOR + Span(maxCluster - ROOT_CLUSTER, ClusterSize()) <= size
    }

    function ClusterToSector(c: nat): nat
      requires c >= ROOT_CLUSTER
    {
      dataStart + (c - ROOT_CLUSTER) * sectorsPerCluster
    }
  }

  const BAD_CLUSTER: nat := 0x0FFF_FFF7
  const END_OF_CHAIN: nat := 0x0FFF_FFFF

  // ---------------------------------------------------------------- bytes

  /** The length of i blocks of one size. */
  function Span(i: nat, size: nat): nat {
    if i == 0 then 0 else Span(i - 1, size) + size
  }

  lemma SpanIsProduct(i: nat, size: nat)
    ensures Span(i, size) == i * size
  {
  }

  lemma {:induction false} Slot(i: nat, n: nat, size: nat)
    requires i < n
    ensures Span(i, size) + size <= Span(n, size)
    decreases n
  {
    if i < n - 1 { Slot(i, n - 1, size); }
  }

  function Zeros(n: nat): (s: seq<byte>)
    ensures |s| == n
  {
    seq(n, i => 0)
  }

  function Patch(d: seq<byte>, at: nat, buf: seq<byte>): (r: seq<byte>)
    requires at + |buf| <= |d|
    ensures |r| == |d|
    ensures forall i :: 0 <= i < |d| ==> r[i] == if at <= i < at + |buf| then buf[i - at] else d[i]
  {
    d[..at] + buf + d[at + |buf|..]
  }

  lemma PatchHere(d: seq<byte>, at: nat, buf: seq<byte>)
    requires at + |buf| <= |d|
    ensures Patch(d, at, buf)[at..at + |buf|] == buf
  {
  }

  lemma PatchElsewhere(d: seq<byte>, at: nat, buf: seq<byte>, from: nat, to: nat)
    requires at + |buf| <= |d| && from <= to <= |d| && (to <= at || at + |buf| <= from)
    ensures Patch(d, at, buf)[from..to] == d[from..to]
  {
  }

  /** A byte and what stands above it. */
  function Above(low: byte, high: nat): nat { low as int + 0x100 * high }

  lemma Split(low: byte, high: nat)
    ensures Above(low, high) % 0x100 == low as int && Above(low, high) / 0x100 == high
  {
  }

  function FromLe(s: seq<byte>): (v: nat)
    requires |s| == 4
    ensures v < 0x1_0000_0000
  {
    Above(s[0], Above(s[1], Above(s[2], s[3])))
  }

  function ToLe(v: nat): (s: seq<byte>)
    requires v < 0x1_0000_0000
    ensures |s| == 4
  {
    var v1 := v / 0x100;
    var v2 := v1 / 0x100;
    [v % 0x100, v1 % 0x100, v2 % 0x100, v2 / 0x100]
  }

  lemma FromToLe(v: nat)
    requires v < 0x1_0000_0000
    ensures FromLe(ToLe(v)) == v
  {
  }

  lemma ToFromLe(s: seq<byte>)
    requires |s| == 4
    ensures ToLe(FromLe(s)) == s
  {
    Split(s[2], s[3]);
    Split(s[1], Above(s[2], s[3]));
    Split(s[0], Above(s[1], Above(s[2], s[3])));
  }

  function Value(b0: int, b1: int, b2: int, b3: int): int { b0 + 0x100 * b1 + 0x1_0000 * b2 + 0x100_0000 * b3 }

  /** Four bytes as a number, the lowest first. */
  lemma LittleEndian(s: seq<byte>)
    requires |s| == 4
    ensures FromLe(s) == Value(s[0], s[1], s[2], s[3])
  {
  }

  // ---------------------------------------------------------------- the volume a disk holds

  function FatOffset(g: Geometry, c: nat): nat { g.fatStart * SECTOR + 4 * c }

  function ClusterOffset(g: Geometry, c: nat): nat
    requires c >= ROOT_CLUSTER
  {
    g.ClusterToSector(c) * SECTOR
  }

  lemma InBounds(g: Geometry, size: nat, c: nat)
    requires g.Fits(size) && c < g.maxCluster
    ensures FatOffset(g, c) + 4 <= size
    ensures c >= ROOT_CLUSTER ==> FatOffset(g, c) + 4 <= g.dataStart * SECTOR <= ClusterOffset(g, c)
    ensures c >= ROOT_CLUSTER ==> ClusterOffset(g, c) + g.ClusterSize() <= size
  {
    if c >= ROOT_CLUSTER {
      ClusterPlace(g, c);
      Slot(c - ROOT_CLUSTER, g.maxCluster - ROOT_CLUSTER, g.ClusterSize());
    }
  }

  lemma ClusterPlace(g: Geometry, c: nat)
    requires c >= ROOT_CLUSTER
    ensures ClusterOffset(g, c) == g.dataStart * SECTOR + Span(c - ROOT_CLUSTER, g.ClusterSize())
  {
    SpanIsProduct(c - ROOT_CLUSTER, g.ClusterSize());
  }

  lemma ClustersApart(g: Geometry, a: nat, b: nat)
    requires ROOT_CLUSTER <= a < b
    ensures ClusterOffset(g, a) + g.ClusterSize() <= ClusterOffset(g, b)
  {
    ClusterPlace(g, a);
    ClusterPlace(g, b);
    Slot(a - ROOT_CLUSTER, b - ROOT_CLUSTER, g.ClusterSize());
  }

  /** The raw 32 bits of an entry; the upper four are not part of its value. */
  function RawEntry(g: Geometry, d: seq<byte>, c: nat): (v: nat)
    requires FatOffset(g, c) + 4 <= |d|
  {
    FromLe(d[FatOffset(g, c)..FatOffset(g, c) + 4])
  }

  function Entry(g: Geometry, d: seq<byte>, c: nat): (v: nat)
    requires FatOffset(g, c) + 4 <= |d|
    ensures v < ENTRY_LIMIT
  {
    RawEntry(g, d, c) % ENTRY_LIMIT
  }

  function Body(g: Geometry, d: seq<byte>, c: nat): (s: seq<byte>)
    requires c >= ROOT_CLUSTER && ClusterOffset(g, c) + g.ClusterSize() <= |d|
    ensures |s| == g.ClusterSize()
  {
    d[ClusterOffset(g, c)..ClusterOffset(g, c) + g.ClusterSize()]
  }

  /** Entries and cluster contents; the disk is this volume when they agree. */
  datatype Volume = Volume(fat: seq<nat>, body: seq<seq<byte>>)

  ghost predicate Holds(g: Geometry, d: seq<byte>, v: Volume) {
    && g.Fits(|d|) && |v.fat| == |v.body| == g.maxCluster
    && forall c :: 0 <= c < g.maxCluster ==> ClusterIs(g, d, v, c)
  }

  ghost predicate ClusterIs(g: Geometry, d: seq<byte>, v: Volume, c: nat)
    requires c < |v.fat| == |v.body|
  {
    EntryIs(g, d, c, v.fat[c]) && (c >= ROOT_CLUSTER ==> BodyIs(g, d, c, v.body[c]))
  }

  ghost predicate EntryIs(g: Geometry, d: seq<byte>, c: nat, x: nat) {
    FatOffset(g, c) + 4 <= |d| && Entry(g, d, c) == x
  }

  ghost predicate BodyIs(g: Geometry, d: seq<byte>, c: nat, s: seq<byte>) {
    c >= ROOT_CLUSTER && ClusterOffset(g, c) + g.ClusterSize() <= |d| && Body(g, d, c) == s
  }

  /** Patching the four bytes of an entry changes that entry of the volume alone. */
  lemma PatchEntry(g: Geometry, d: seq<byte>, v: Volume, c: nat, bytes: seq<byte>)
    requires Holds(g, d, v) && c < g.maxCluster && |bytes| == 4
    ensures FatOffset(g, c) + 4 <= |d|
    ensures Holds(g, Patch(d, FatOffset(g, c), bytes), v.(fat := v.fat[c := FromLe(bytes) % ENTRY_LIMIT]))
  {
    InBounds(g, |d|, c);
    var at := FatOffset(g, c);
    var d' := Patch(d, at, bytes);
    var v' := v.(fat := v.fat[c := FromLe(bytes) % ENTRY_LIMIT]);
    forall x | 0 <= x < g.maxCluster ensures ClusterIs(g, d', v', x) {
      assert ClusterIs(g, d, v, x);
      InBounds(g, |d|, x);
      if x == c {
        PatchHere(d, at, bytes);
      } else {
        PatchElsewhere(d, at, bytes, FatOffset(g, x), FatOffset(g, x) + 4);
      }
      if x >= ROOT_CLUSTER {
        assert at + 4 <= g.dataStart * SECTOR;
        PatchElsewhere(d, at, bytes, ClusterOffset(g, x), ClusterOffset(g, x) + g.ClusterSize());
      }
    }
  }

  /** Writing one cluster changes that cluster of the volume alone. */
  lemma PatchCluster(g: Geometry, d: seq<byte>, v: Volume, c: nat, buf: seq<byte>)
    requires Holds(g, d, v) && ROOT_CLUSTER <= c < g.maxCluster && |buf| == g.ClusterSize()
    ensures ClusterOffset(g, c) + |buf| <= |d|
    ensures Holds(g, Patch(d, ClusterOffset(g, c), buf), v.(body := v.body[c := buf]))
  {
    InBounds(g, |d|, c);
    var at := ClusterOffset(g, c);
    var d' := Patch(d, at, buf);
    var v' := v.(body := v.body[c := buf]);
    forall x | 0 <= x < g.maxCluster ensures ClusterIs(g, d', v', x) {
      assert ClusterIs(g, d, v, x);
      InBounds(g, |d|, x);
      PatchElsewhere(d, at, buf, FatOffset(g, x), FatOffset(g, x) + 4);
      if x == c {
        PatchHere(d, at, buf);
      } else if x >= ROOT_CLUSTER {
        if x < c { ClustersApart(g, x, c); } else { ClustersApart(g, c, x); }
        PatchElsewhere(d, at, buf, ClusterOffset(g, x), ClusterOffset(g, x) + g.ClusterSize());
      }
    }
  }
}
