/** The FAT32 driver (kernel/src/filesystem/fat32/mod.rs): allocation, linking and freeing of
    clusters, reading and writing of files, and the update of the directory entry. Contracts that
    pass a large predicate on whole compare it with true, so that it is not taken apart. */
module Fat32 {
  import opened Wrappers
  import opened FatDisk
  import opened FatChains
  import opened FatFiles
  import opened DirEntry

  datatype Error = NotFound | NoSpace | InvalidPath | IsDirectory
  datatype Next = End | To(cluster: nat) | Bad

  lemma SectorHoldsEntry(g: Geometry, size: nat, c: nat)
    requires g.Fits(size) && c < g.maxCluster
    ensures var sector := g.fatStart + 4 * c / SECTOR; var off := 4 * c % SECTOR;
      && off + 4 <= SECTOR && sector * SECTOR + SECTOR <= size && sector * SECTOR + off == FatOffset(g, c)
  {
    InBounds(g, size, c);
    var k := 4 * c / SECTOR;
    assert (g.fatStart + k) * SECTOR == g.fatStart * SECTOR + k * SECTOR;
  }

  lemma SectorSlice(d: seq<byte>, at: nat, off: nat, here: nat)
    requires at + SECTOR <= |d| && off + 4 <= SECTOR && here == at + off
    ensures d[at..at + SECTOR][off..off + 4] == d[here..here + 4]
  {
    SliceOfSlice(d, at, SECTOR, off, off + 4);
  }

  lemma RewriteSector(d: seq<byte>, at: nat, off: nat, bytes: seq<byte>, here: nat)
    requires at + SECTOR <= |d| && off + 4 <= SECTOR && |bytes| == 4 && here == at + off
    ensures d[at..at + SECTOR][off..off + 4] == d[here..here + 4]
    ensures Patch(d, at, Patch(d[at..at + SECTOR], off, bytes)) == Patch(d, here, bytes)
  {
    SliceOfSlice(d, at, SECTOR, off, off + 4);
    PatchThroughSector(d, at, SECTOR, off, bytes);
  }

  /** A patch inside a sector, written back with the sector, is a patch of the disk. */
  lemma PatchThroughSector(d: seq<byte>, at: nat, n: nat, off: nat, bytes: seq<byte>)
    requires at + n <= |d| && off + |bytes| <= n
    ensures Patch(d, at, Patch(d[at..at + n], off, bytes)) == Patch(d, at + off, bytes)
  {
  }

  /** The 28 lower bits of the value under the upper four of what is there. */
  function Merged(existing: nat, value: nat): (e: nat)
    requires existing < 0x1_0000_0000
    ensures e < 0x1_0000_0000 && e / ENTRY_LIMIT == existing / ENTRY_LIMIT && e % ENTRY_LIMIT == value % ENTRY_LIMIT
  {
    existing / ENTRY_LIMIT * ENTRY_LIMIT + value % ENTRY_LIMIT
  }

  lemma EntryValue(g: Geometry, d: seq<byte>, c: nat)
    requires FatOffset(g, c) + 4 <= |d|
    ensures var at := g.fatStart * 512 + 4 * c;
      at + 4 <= |d| && FatDisk.Entry(g, d, c) == Value(d[at], d[at + 1], d[at + 2], d[at + 3]) % 0x1000_0000
  {
    LittleEndian(d[FatOffset(g, c)..FatOffset(g, c) + 4]);
  }

  /** The four bytes hold the value, lowest byte first, and the upper half of the fourth is as before. */
  ghost predicate EntryBytes(d: seq<byte>, d': seq<byte>, at: nat, value: nat) {
    && at + 4 <= |d| == |d'| && value < 0x1000_0000
    && d'[at] == value % 0x100 && d'[at + 1] == value / 0x100 % 0x100 && d'[at + 2] == value / 0x1_0000 % 0x100
    && d'[at + 3] % 0x10 == value / 0x100_0000 && d'[at + 3] / 0x10 == d[at + 3] / 0x10
  }

  lemma MergedBytes(d: seq<byte>, at: nat, value: nat)
    requires at + 4 <= |d|
    ensures EntryBytes(d, Patch(d, at, ToLe(Merged(FromLe(d[at..at + 4]), value))), at, value % 0x1000_0000) == true
  {
    var s := d[at..at + 4];
    LittleEndian(s);
    var v := value % 0x1000_0000;
    var top := s[3] / 0x10;
    assert FromLe(s) / ENTRY_LIMIT == top;
    var merged := Merged(FromLe(s), value);
    assert merged == top * 0x1000_0000 + v;
    SplitBytes(top, v, ToLe(merged));
    var d' := Patch(d, at, ToLe(merged));
    assert d'[at] == ToLe(merged)[0] && d'[at + 1] == ToLe(merged)[1];
    assert d'[at + 2] == ToLe(merged)[2] && d'[at + 3] == ToLe(merged)[3];
  }

  lemma SplitBytes(top: nat, v: nat, s: seq<byte>)
    requires top < 0x10 && v < 0x1000_0000 && s == ToLe(top * 0x1000_0000 + v)
    ensures s[0] == v % 0x100 && s[1] == v / 0x100 % 0x100 && s[2] == v / 0x1_0000 % 0x100
    ensures s[3] % 0x10 == v / 0x100_0000 && s[3] / 0x10 == top
  {
    var x := top * 0x1000_0000 + v;
    OneByte(top, v, 0x10_0000, x);
    OneByte(top, v / 0x100, 0x1000, x / 0x100);
    OneByte(top, v / 0x100 / 0x100, 0x10, x / 0x100 / 0x100);
    Nested(v);
    LastByte(top, v / 0x100_0000);
  }

  lemma LastByte(top: nat, low: nat)
    requires low < 0x10
    ensures (top * 0x10 + low) % 0x10 == low && (top * 0x10 + low) / 0x10 == top
  {
  }

  lemma Nested(v: nat)
    ensures v / 0x100 / 0x100 == v / 0x1_0000 && v / 0x1_0000 / 0x100 == v / 0x100_0000
  {
  }

  lemma OneByte(top: nat, v: nat, n: nat, x: nat)
    requires n > 0 && x == top * (0x100 * n) + v
    ensures x % 0x100 == v % 0x100 && x / 0x100 == top * n + v / 0x100
  {
    assert top * (0x100 * n) == 0x100 * (top * n);
    Shifted(top * n, v);
  }

  lemma Shifted(a: nat, v: nat)
    ensures (0x100 * a + v) % 0x100 == v % 0x100 && (0x100 * a + v) / 0x100 == a + v / 0x100
  {
  }

  lemma RewriteEntry(g: Geometry, d: seq<byte>, v: Volume, c: nat, value: nat)
    requires Holds(g, d, v) && c < g.maxCluster
    ensures FatOffset(g, c) + 4 <= |d|
    ensures var d' := Patch(d, FatOffset(g, c), ToLe(Merged(RawEntry(g, d, c), value)));
      && Holds(g, d', v.(fat := v.fat[c := value % ENTRY_LIMIT]))
      && RawEntry(g, d', c) / ENTRY_LIMIT == RawEntry(g, d, c) / ENTRY_LIMIT
  {
    InBounds(g, |d|, c);
    var entry := Merged(RawEntry(g, d, c), value);
    FromToLe(entry);
    PatchEntry(g, d, v, c, ToLe(entry));
    PatchHere(d, FatOffset(g, c), ToLe(entry));
  }

  lemma FitsEntry(c: nat)
    requires c < ENTRY_LIMIT
    ensures c % ENTRY_LIMIT == c
  {
  }

  lemma HoldsBodies(g: Geometry, d: seq<byte>, v: Volume)
    requires Holds(g, d, v)
    ensures Bodies(v, g.ClusterSize())
  {
    forall c | ROOT_CLUSTER <= c < |v.body| ensures |v.body[c]| == g.ClusterSize() {
      assert ClusterIs(g, d, v, c);
    }
  }

  class Driver {
    const g: Geometry
    var data: seq<byte>
    ghost var vol: Volume
    ghost var chains: map<nat, seq<nat>>

    ghost predicate Sound()
      reads this
    {
      Holds(g, data, vol)
    }

    ghost predicate Valid()
      reads this
    {
      Sound() && WellFormed(vol.fat, chains)
    }

    constructor (geometry: Geometry, disk: seq<byte>, ghost v: Volume, ghost cs: map<nat, seq<nat>>)
      requires Holds(geometry, disk, v) && WellFormed(v.fat, cs)
      ensures Valid() && g == geometry && data == disk && vol == v && chains == cs
    {
      g, data, vol, chains := geometry, disk, v, cs;
    }

    // ------------------------------------------------------------- sectors

    method ReadFatEntry(c: nat) returns (v: nat)
      requires Sound() && c < g.maxCluster
      ensures v == vol.fat[c]
      ensures var at := g.fatStart * 512 + 4 * c;
        && at + 4 <= |data|
        && v == Value(data[at], data[at + 1], data[at + 2], data[at + 3]) % 0x1000_0000
    {
      SectorHoldsEntry(g, |data|, c);
      var at, off := (g.fatStart + 4 * c / SECTOR) * SECTOR, 4 * c % SECTOR;
      var buf := data[at..at + SECTOR];
      SectorSlice(data, at, off, FatOffset(g, c));
      assert ClusterIs(g, data, vol, c);
      v := FromLe(buf[off..off + 4]) % ENTRY_LIMIT;
      EntryValue(g, data, c);
    }

    /** Read, modify and write back one sector: one 28-bit value changes and its four upper
        bits and every other byte of the disk stay. */
    method WriteFatEntry(c: nat, value: nat)
      requires Sound() && c < g.maxCluster
      modifies this`data, this`vol
      ensures Sound() && vol == old(vol).(fat := old(vol).fat[c := value % ENTRY_LIMIT])
      ensures FatOffset(g, c) + 4 <= |data| == |old(data)|
      ensures RawEntry(g, data, c) / ENTRY_LIMIT == RawEntry(g, old(data), c) / ENTRY_LIMIT
      ensures forall i :: 0 <= i < |data| && !(FatOffset(g, c) <= i < FatOffset(g, c) + 4) ==> data[i] == old(data)[i]
      ensures EntryBytes(old(data), data, g.fatStart * 512 + 4 * c, value % 0x1000_0000) == true
    {
      SectorHoldsEntry(g, |data|, c);
      var at, off := (g.fatStart + 4 * c / SECTOR) * SECTOR, 4 * c % SECTOR;
      var buf := data[at..at + SECTOR];
      var bytes := ToLe(Merged(FromLe(buf[off..off + 4]), value));
      RewriteSector(data, at, off, bytes, FatOffset(g, c));
      RewriteEntry(g, data, vol, c, value);
      MergedBytes(data, FatOffset(g, c), value);
      data := Patch(data, at, Patch(buf, off, bytes));
      vol := vol.(fat := vol.fat[c := value % ENTRY_LIMIT]);
    }

    method ReadCluster(c: nat) returns (buf: seq<byte>)
      requires Sound() && ROOT_CLUSTER <= c < g.maxCluster
      ensures buf == vol.body[c] && |buf| == g.ClusterSize()
      ensures var at := (g.dataStart + (c - 2) * g.sectorsPerCluster) * 512;
        at + 512 * g.sectorsPerCluster <= |data| && buf == data[at..at + 512 * g.sectorsPerCluster]
    {
      InBounds(g, |data|, c);
      assert ClusterIs(g, data, vol, c);
      var at := g.ClusterToSector(c) * SECTOR;
      buf := data[at..at + g.ClusterSize()];
    }

    method WriteCluster(c: nat, buf: seq<byte>)
      requires Sound() && ROOT_CLUSTER <= c < g.maxCluster && |buf| == g.ClusterSize()
      modifies this`data, this`vol
      ensures Sound() && vol == old(vol).(body := old(vol).body[c := buf])
      ensures var at := (g.dataStart + (c - 2) * g.sectorsPerCluster) * 512;
        at + |buf| <= |old(data)| && data == Patch(old(data), at, buf)
    {
      PatchCluster(g, data, vol, c, buf);
      data := Patch(data, g.ClusterToSector(c) * SECTOR, buf);
      vol := vol.(body := vol.body[c := buf]);
    }

    /** Zeroes a cluster sector by sector. */
    method ClearCluster(c: nat)
      requires Sound() && ROOT_CLUSTER <= c < g.maxCluster
      modifies this`data, this`vol
      ensures Sound() && vol == old(vol).(body := old(vol).body[c := Zeros(g.ClusterSize())])
    {
      InBounds(g, |data|, c);
      PatchCluster(g, data, vol, c, Zeros(g.ClusterSize()));
      ZeroSectors(g.ClusterToSector(c), g.sectorsPerCluster);
      vol := vol.(body := vol.body[c := Zeros(g.ClusterSize())]);
    }

    method ZeroSectors(sector: nat, n: nat)
      requires sector * SECTOR + n * SECTOR <= |data|
      modifies this`data
      ensures data == Patch(old(data), sector * SECTOR, Zeros(n * SECTOR))
    {
      for i := 0 to n
        invariant |data| == |old(data)| && data == Patch(old(data), sector * SECTOR, Zeros(i * SECTOR))
      {
        ZeroMore(old(data), sector * SECTOR, i);
        data := Patch(data, (sector + i) * SECTOR, Zeros(SECTOR));
      }
    }

    // ------------------------------------------------------------- chains

    method GetNextCluster(c: nat) returns (next: Next)
      requires Sound() && ROOT_CLUSTER <= c < g.maxCluster
      ensures next == NextOf(vol.fat[c])
      ensures next.End? <==> vol.fat[c] >= 0x0FFF_FFF8
      ensures next.Bad? <==> vol.fat[c] == 0x0FFF_FFF7
      ensures next.To? ==> next.cluster == vol.fat[c]
    {
      var entry := ReadFatEntry(c);
      if entry == BAD_CLUSTER { return Bad; }
      if IsEnd(entry) { return End; }
      next := To(entry);
    }

    /** The lowest free cluster, None when there is none. */
    method FindFreeCluster() returns (r: Option<nat>)
      requires Sound()
      ensures r.Some? ==> ROOT_CLUSTER <= r.value < g.maxCluster && vol.fat[r.value] == 0
      ensures r.Some? ==> forall c :: ROOT_CLUSTER <= c < r.value ==> vol.fat[c] != 0
      ensures r.None? ==> forall c :: ROOT_CLUSTER <= c < g.maxCluster ==> vol.fat[c] != 0
    {
      for c := ROOT_CLUSTER to g.maxCluster
        invariant forall x :: ROOT_CLUSTER <= x < c ==> vol.fat[x] != 0
      {
        var entry := ReadFatEntry(c);
        if entry == 0 { return Some(c); }
      }
      r := None;
    }

    /** Takes one free cluster as a chain of its own. */
    method AllocateCluster() returns (r: Option<nat>)
      requires Valid()
      modifies this
      ensures Valid()
      ensures r.None? ==> vol == old(vol) && chains == old(chains) && IsFull(vol.fat)
      ensures r.None? <==> forall c :: 2 <= c < |old(vol).fat| ==> old(vol).fat[c] != 0
      ensures r.Some? ==> forall c :: 2 <= c < r.value && c < |old(vol).fat| ==> old(vol).fat[c] != 0
      ensures r.Some? ==>
        && ROOT_CLUSTER <= r.value < g.maxCluster && old(vol).fat[r.value] == 0
        && (forall h :: h in old(chains) ==> r.value !in old(chains)[h])
        && vol == old(vol).(fat := old(vol).fat[r.value := END_OF_CHAIN])
        && chains == old(chains)[r.value := [r.value]]
    {
      r := FindFreeCluster();
      if r.None? { return; }
      FatChains.Allocate(vol.fat, chains, r.value);
      FitsEntry(END_OF_CHAIN);
      WriteFatEntry(r.value, END_OF_CHAIN);
      chains := chains[r.value := [r.value]];
    }

    /** Appends a zeroed cluster to chain h, whose last cluster is given. */
    method Append(ghost h: nat, last: nat) returns (r: Option<nat>)
      requires Valid() && h in chains && last == Last(chains[h])
      modifies this
      ensures Valid() && OthersKept(old(vol), old(chains), vol, chains, h)
      ensures r.None? ==> vol == old(vol) && chains == old(chains) && IsFull(vol.fat) == true
      ensures r.Some? ==>
        && ROOT_CLUSTER <= r.value < g.maxCluster && chains == old(chains)[h := old(chains)[h] + [r.value]]
        && vol.fat == old(vol).fat[r.value := END_OF_CHAIN][last := r.value]
        && Content(vol, chains[h]) == old(Content(vol, chains[h])) + Zeros(g.ClusterSize())
    {
      r := AllocateCluster();
      if r.None? { return; }
      ClearCluster(r.value);
      Attach(h, last, r.value, old(vol), old(chains));
    }

    /** The link to a cluster that has just been taken and zeroed. */
    method Attach(ghost h: nat, last: nat, c: nat, ghost vol0: Volume, ghost chains0: map<nat, seq<nat>>)
      requires Sound() && WellFormed(vol0.fat, chains0) && |vol0.fat| == |vol0.body| == g.maxCluster
      requires h in chains0 && last == Last(chains0[h]) && ROOT_CLUSTER <= c < g.maxCluster && vol0.fat[c] == 0
      requires vol == Volume(vol0.fat[c := END_OF_CHAIN], vol0.body[c := Zeros(g.ClusterSize())])
      modifies this
      ensures Valid() && OthersKept(vol0, chains0, vol, chains, h)
      ensures chains == chains0[h := chains0[h] + [c]]
      ensures vol.fat == vol0.fat[c := END_OF_CHAIN][last := c]
      ensures Content(vol, chains[h]) == Content(vol0, chains0[h]) + Zeros(g.ClusterSize())
    {
      FitsEntry(c);
      WriteFatEntry(last, c);
      AppendWell(vol0.fat, chains0, h, c);
      AppendContent(vol0, chains0, vol, h, c, g.ClusterSize());
      chains := chains0[h := chains0[h] + [c]];
    }

    /** Zeroes the entries of exactly one chain. */
    method FreeClusterChain(start: nat)
      requires Valid() && start in chains
      modifies this
      ensures Valid() && chains == old(chains) - {start}
      ensures vol == old(vol).(fat := Freed(old(vol).fat, old(chains)[start], |old(chains)[start]|))
    {
      ghost var s, fat0 := chains[start], vol.fat;
      var curr := start;
      ghost var i := 0;
      FatChains.Free(vol.fat, chains, start);
      FitsEntry(0);
      while true
        invariant i < |s| && curr == s[i] && chains == old(chains)
        invariant Sound() && vol == old(vol).(fat := Freed(fat0, s, i))
        decreases |s| - i
      {
        FreedAhead(fat0, s, i);
        NextInChain(fat0, s, i);
        var next := GetNextCluster(curr);
        WriteFatEntry(curr, 0);
        FreedMore(fat0, s, i);
        if !next.To? { break; }
        curr := next.cluster;
        i := i + 1;
      }
      chains := chains - {start};
    }

    /** Walks to the last cluster of a chain. */
    method LastCluster(start: nat) returns (last: nat)
      requires Valid() && start in chains
      ensures last == Last(chains[start])
    {
      ghost var s := chains[start];
      last := start;
      ghost var i := 0;
      while true
        invariant i < |s| && last == s[i]
        decreases |s| - i
      {
        NextInChain(vol.fat, s, i);
        var next := GetNextCluster(last);
        if !next.To? { break; }
        last := next.cluster;
        i := i + 1;
      }
    }

    /** Makes room in a directory: one more zeroed cluster at its end. */
    method ExpandDirectory(dir: nat, count: nat) returns (slot: Option<nat>)
      requires Valid() && dir in chains
      modifies this
      ensures Valid() && OthersKept(old(vol), old(chains), vol, chains, dir)
      ensures slot.None? ==> vol == old(vol) && chains == old(chains) && IsFull(vol.fat)
      ensures slot.Some? ==>
        && slot.value == count && dir in chains
        && Content(vol, chains[dir]) == old(Content(vol, chains[dir])) + Zeros(g.ClusterSize())
    {
      var last := LastCluster(dir);
      var c := Append(dir, last);
      if c.None? { return None; }
      NoRepeat(vol.fat, chains[dir], |chains[dir]| - 2, |chains[dir]| - 1);
      MarkEnd(c.value);
      slot := Some(count);
    }

    /** Marks the end of a chain once more. */
    method MarkEnd(c: nat)
      requires Valid() && c < g.maxCluster && vol.fat[c] == END_OF_CHAIN
      modifies this`data, this`vol
      ensures Valid() && vol == old(vol)
    {
      FitsEntry(END_OF_CHAIN);
      WriteFatEntry(c, END_OF_CHAIN);
      assert vol.fat == old(vol.fat);
    }

    // ------------------------------------------------------------- directories

    method ChainLength(start: nat) returns (n: nat)
      requires Valid() && start in chains
      ensures n == |chains[start]|
    {
      ghost var s := chains[start];
      n := 0;
      var curr := start;
      while true
        invariant n < |s| && curr == s[n]
        decreases |s| - n
      {
        NextInChain(vol.fat, s, n);
        var next := GetNextCluster(curr);
        n := n + 1;
        if !next.To? { break; }
        curr := next.cluster;
      }
    }

    /** The first n bytes of a chain, or all of it when it is shorter. */
    method ReadClusterChain(start: nat, n: nat) returns (buf: seq<byte>)
      requires Valid() && start in chains
      ensures buf == Content(vol, chains[start])[..Min(n, |Content(vol, chains[start])|)]
    {
      ghost var s := chains[start];
      ghost var blocks := Blocks(vol, s);
      HoldsBodies(g, data, vol);
      ContentLength(vol, s, g.ClusterSize());
      buf := [];
      var curr := start;
      ghost var i := 0;
      while |buf| < n
        invariant i < |s| && curr == s[i]
        invariant IsTaken(Flat(blocks), buf, Min(Span(i, g.ClusterSize()), n))
        decreases |s| - i
      {
        var cluster := ReadCluster(curr);
        TakeMore(blocks, g.ClusterSize(), i, n, buf);
        NextInChain(vol.fat, s, i);
        assert cluster == blocks[i];
        buf := buf + cluster[..Min(g.ClusterSize(), n - |buf|)];
        var next := GetNextCluster(curr);
        if !next.To? { break; }
        curr := next.cluster;
        i := i + 1;
      }
    }

    /** The whole content of a directory. */
    method ReadDirectory(dir: nat) returns (buf: seq<byte>)
      requires Valid() && dir in chains
      ensures buf == Content(vol, chains[dir])
    {
      var n := ChainLength(dir);
      HoldsBodies(g, data, vol);
      ContentLength(vol, chains[dir], g.ClusterSize());
      SpanIsProduct(n, g.ClusterSize());
      buf := ReadClusterChain(dir, n * g.ClusterSize());
    }

    method ReadDirectoryEntries(dir: nat) returns (es: seq<DirEntry.Entry>)
      requires Valid() && dir in chains
      ensures es == Entries(Content(vol, chains[dir]))
    {
      var buf := ReadDirectory(dir);
      es := ParseEntries(buf);
    }

    /** Writes part of one cluster of chain h, by way of the old bytes unless all are replaced. */
    method UpdateCluster(ghost h: nat, ghost i: nat, c: nat, x: nat, chunk: seq<byte>, ghost at: nat)
      requires Valid() && h in chains && i < |chains[h]| && c == chains[h][i] && x + |chunk| <= g.ClusterSize()
      requires at == Span(i, g.ClusterSize()) + x
      modifies this`data, this`vol
      ensures Valid() && vol.fat == old(vol).fat && OthersKept(old(vol), chains, vol, chains, h)
      ensures Patched(old(Content(vol, chains[h])), Content(vol, chains[h]), at, chunk)
    {
      HoldsBodies(g, data, vol);
      ghost var after := ContentPatch(vol, chains[h], g.ClusterSize(), i, x, chunk);
      assert c in chains[h];
      OthersByBody(vol, chains, after, h, c);
      PatchBody(c, x, chunk);
      assert vol == after;
    }

    /** Read, patch and write back a cluster; a whole cluster is written without reading. */
    method PatchBody(c: nat, x: nat, chunk: seq<byte>)
      requires Sound() && ROOT_CLUSTER <= c < g.maxCluster && x + |chunk| <= g.ClusterSize() == |vol.body[c]|
      modifies this`data, this`vol
      ensures Sound() && vol == old(vol).(body := old(vol).body[c := Patch(old(vol).body[c], x, chunk)])
    {
      if x != 0 || |chunk| < g.ClusterSize() {
        var buf := ReadCluster(c);
        WriteCluster(c, Patch(buf, x, chunk));
      } else {
        assert chunk == Patch(vol.body[c], 0, chunk);
        WriteCluster(c, chunk);
      }
    }

    /** Replaces one entry of a directory by writing the directory back. */
    method WriteDirentry(dir: nat, index: nat, e: DirEntry.Entry) returns (ok: bool)
      requires Valid() && dir in chains && e.Valid()
      modifies this`data, this`vol
      ensures Valid() && vol.fat == old(vol).fat && OthersKept(old(vol), chains, vol, chains, dir)
      ensures ok <==> ENTRY_SIZE * index + ENTRY_SIZE <= |old(Content(vol, chains[dir]))|
      ensures Content(vol, chains[dir]) ==
        if ok then Patch(old(Content(vol, chains[dir])), ENTRY_SIZE * index, AsBytes(e))
        else old(Content(vol, chains[dir]))
    {
      var buf := ReadDirectory(dir);
      var at := ENTRY_SIZE * index;
      if at + ENTRY_SIZE > |buf| { return false; }
      buf := Patch(buf, at, AsBytes(e));
      WriteChain(dir, buf);
      ok := true;
    }

    /** The first clusters of the directory, up to number i, hold the bytes of buf. */
    ghost predicate Rewriting(dir: nat, vol0: Volume, buf: seq<byte>, i: int)
      reads this
    {
      && Valid() && vol.fat == vol0.fat && dir in chains && 0 <= i <= |chains[dir]|
      && OthersKept(vol0, chains, vol, chains, dir) && IsChain(vol0.fat, chains[dir]) && |vol0.fat| == |vol0.body|
      && |Content(vol0, chains[dir])| == |buf| == Span(|chains[dir]|, g.ClusterSize())
      && Span(i, g.ClusterSize()) <= |buf|
      && Patched(Content(vol0, chains[dir]), Content(vol, chains[dir]), 0, buf[..Span(i, g.ClusterSize())])
    }

    method RewriteCluster(ghost dir: nat, ghost i: nat, curr: nat, buf: seq<byte>, written: nat, ghost vol0: Volume)
      requires Rewriting(dir, vol0, buf, i) == true && i < |chains[dir]| && curr == chains[dir][i]
      requires written == Span(i, g.ClusterSize())
      modifies this`data, this`vol
      ensures Rewriting(dir, vol0, buf, i + 1) == true
    {
      Slot(i, |chains[dir]|, g.ClusterSize());
      ghost var vol1 := vol;
      UpdateCluster(dir, i, curr, 0, buf[written..written + g.ClusterSize()], written);
      OthersTrans(vol0, chains, vol1, chains, vol, chains, dir);
      PatchPrefix(Content(vol0, chains[dir]), buf, written, g.ClusterSize(),
                  Content(vol1, chains[dir]), Content(vol, chains[dir]));
    }

    /** Writes a whole directory back, cluster by cluster. */
    method WriteChain(dir: nat, buf: seq<byte>)
      requires Valid() && dir in chains && |buf| == |Content(vol, chains[dir])|
      modifies this`data, this`vol
      ensures Valid() && vol.fat == old(vol).fat && OthersKept(old(vol), chains, vol, chains, dir)
      ensures Content(vol, chains[dir]) == buf
    {
      ghost var s := chains[dir];
      HoldsBodies(g, data, vol);
      ContentLength(vol, s, g.ClusterSize());
      OthersSame(vol, chains, dir);
      var curr, written := dir, 0;
      ghost var i := 0;
      while true
        invariant i < |s| && curr == s[i] && written == Span(i, g.ClusterSize())
        invariant Rewriting(dir, old(vol), buf, i) == true
        decreases |s| - i
      {
        RewriteCluster(dir, i, curr, buf, written, old(vol));
        written := written + g.ClusterSize();
        NextInChain(vol.fat, s, i);
        i := i + 1;
        var next := GetNextCluster(curr);
        if !next.To? { break; }
        curr := next.cluster;
      }
      assert buf[..Span(i, g.ClusterSize())] == buf;
    }

    // ------------------------------------------------------------- files

    /** Steps n clusters along chain h, None when it is shorter. */
    method Skip(h: nat, n: nat) returns (r: Option<nat>)
      requires Valid() && h in chains
      ensures r.Some? <==> n < |chains[h]|
      ensures r.Some? ==> r.value == chains[h][n]
    {
      var curr := h;
      for i := 0 to n
        invariant i < |chains[h]| && curr == chains[h][i]
      {
        NextInChain(vol.fat, chains[h], i);
        var next := GetNextCluster(curr);
        if !next.To? { return None; }
        curr := next.cluster;
      }
      r := Some(curr);
    }

    /** Reads on through the rest of one cluster. */
    method ReadPiece(ghost h: nat, ghost i: nat, ghost from: nat, curr: nat, place: nat, count: nat, buf: seq<byte>)
      returns (r: seq<byte>)
      requires Valid() && h in chains && i < |chains[h]| && curr == chains[h][i] && place < g.ClusterSize()
      requires |buf| < count
      requires from + |buf| == Span(i, g.ClusterSize()) + place
      requires IsSlice(Content(vol, chains[h]), buf, from, from + |buf|)
      ensures |buf| < |r| <= count && (|r| < count ==> from + |r| == Span(i + 1, g.ClusterSize()))
      ensures IsSlice(Content(vol, chains[h]), r, from, from + |r|)
    {
      var cluster := ReadCluster(curr);
      var k := Min(g.ClusterSize() - place, count - |buf|);
      HoldsBodies(g, data, vol);
      ContentLength(vol, chains[h], g.ClusterSize());
      ReadMore(Blocks(vol, chains[h]), g.ClusterSize(), from, i, place, k, buf);
      r := buf + cluster[place..place + k];
    }

    /** Reads count bytes from place x of the given cluster on, or up to the end of the chain. */
    method ReadFrom(ghost h: nat, ghost at: nat, start: nat, x: nat, count: nat) returns (buf: seq<byte>)
      requires Valid() && h in chains && at < |chains[h]| && start == chains[h][at] && x < g.ClusterSize()
      ensures var from := Span(at, g.ClusterSize()) + x;
        IsSlice(Content(vol, chains[h]), buf, from, Min(from + count, |Content(vol, chains[h])|))
    {
      ghost var s := chains[h];
      ghost var from := Span(at, g.ClusterSize()) + x;
      HoldsBodies(g, data, vol);
      ContentLength(vol, s, g.ClusterSize());
      Slot(at, |s|, g.ClusterSize());
      buf := [];
      var curr, place := start, x;
      ghost var i := at;
      while |buf| < count
        invariant i < |s| && curr == s[i] && 0 <= place < g.ClusterSize() && |buf| <= count
        invariant IsSlice(Content(vol, s), buf, from, from + |buf|)
        invariant |buf| < count ==> from + |buf| == Span(i, g.ClusterSize()) + place
        decreases |s| - i, count - |buf|
      {
        buf := ReadPiece(h, i, from, curr, place, count, buf);
        if |buf| < count {
          NextInChain(vol.fat, s, i);
          var next := GetNextCluster(curr);
          if !next.To? { break; }
          curr, place := next.cluster, 0;
          i := i + 1;
        }
      }
    }

    method FindEntryByCluster(parent: nat, cluster: nat) returns (r: Option<DirEntry.Entry>, ghost k: nat)
      requires Valid() && parent in chains
      ensures var es := Entries(Content(vol, chains[parent]));
        && (r.Some? ==> IsFirst(es, cluster, k) && r.value == es[k])
        && (r.None? ==> forall j :: 0 <= j < |es| ==> es[j].FirstCluster() != cluster)
    {
      var es := ReadDirectoryEntries(parent);
      k := 0;
      for i := 0 to |es|
        invariant forall j :: 0 <= j < i ==> es[j].FirstCluster() != cluster
      {
        if es[i].FirstCluster() == cluster {
          k := i;
          return Some(es[i]), k;
        }
      }
      r := None;
    }

    /** Reads a range of a file: the bytes of the chain inside the file's size. */
    method ReadFile(id: nat, off: nat, n: nat) returns (r: Result<seq<byte>, Error>, ghost k: nat)
      requires Valid() && IsFileNode(id, chains)
      ensures var (cluster, parent, attrs) := DecodeNodeId(id);
        && (attrs / 16 % 2 == 1 ==> r == Err(Error.IsDirectory))
        && (attrs / 16 % 2 == 0 && cluster == 0 ==> r == Err(InvalidPath))
        && (attrs / 16 % 2 == 0 && cluster != 0 ==> ReadsAs(Entries(Content(vol, chains[parent])), cluster,
              Content(vol, chains[cluster]), off, n, r, k))
      ensures r.Ok? ==>
        var (cluster, parent, _) := DecodeNodeId(id);
        cluster in chains && var x, es := Content(vol, chains[cluster]), Entries(Content(vol, chains[parent]));
        && k < |es| && es[k].FirstCluster() == cluster && (forall j :: 0 <= j < k ==> es[j].FirstCluster() != cluster)
        && var end := if es[k].fileSize < |x| then es[k].fileSize else |x|;
           && |r.value| == (if off >= end then 0 else if n < end - off then n else end - off)
           && forall i :: 0 <= i < |r.value| ==> r.value[i] == x[off + i]
    {
      var (cluster, parent, attrs) := DecodeNodeId(id);
      k := 0;
      if attrs / 16 % 2 == 1 { return Err(Error.IsDirectory), 0; }
      if cluster == 0 { return Err(InvalidPath), 0; }
      var entry;
      entry, k := FindEntryByCluster(parent, cluster);
      if entry.None? { return Err(NotFound), 0; }
      var buf := ReadRange(cluster, entry.value.fileSize, off, n);
      r := Ok(buf);
    }

    method ReadRange(cluster: nat, size: nat, off: nat, n: nat) returns (buf: seq<byte>)
      requires Valid() && cluster in chains
      ensures Reads(Content(vol, chains[cluster]), size, off, n, buf)
    {
      if off >= size { return []; }
      HoldsBodies(g, data, vol);
      ContentLength(vol, chains[cluster], g.ClusterSize());
      var index, place := Locate(off, g.ClusterSize());
      var start := Skip(cluster, index);
      if start.None? {
        SpanGrows(|chains[cluster]|, index, g.ClusterSize());
        return [];
      }
      buf := ReadFrom(cluster, index, start.value, place, Min(n, size - off));
    }

    /** The cluster after position i of chain h, appended if the chain ends there. */
    method NextOrAppend(ghost h: nat, ghost i: nat, curr: nat, ghost n: nat) returns (r: Option<nat>)
      requires Valid() && h in chains && i < |chains[h]| && curr == chains[h][i] && n == i + 1
      modifies this
      ensures Valid() == true && h in chains && OthersKept(old(vol), old(chains), vol, chains, h) == true
      ensures Extends(old(Content(vol, chains[h])), Content(vol, chains[h])) == true
      ensures r.Some? ==> JustReaches(|chains[h]|, |old(chains)[h]|, n) && r.value == chains[h][n]
      ensures r.None? ==> vol == old(vol) && chains == old(chains) && IsFull(vol.fat) == true
    {
      NextInChain(vol.fat, chains[h], i);
      ExtendsBy(Content(vol, chains[h]), g.ClusterSize());
      OthersSame(vol, chains, h);
      var next := GetNextCluster(curr);
      if next.To? { return Some(next.cluster); }
      r := Append(h, curr);
    }

    /** Chain h has only been lengthened with zeros. */
    ghost predicate Lengthening(h: nat, vol0: Volume, chains0: map<nat, seq<nat>>, x0: seq<byte>)
      reads this
    {
      && Valid() && h in chains && h in chains0 && OthersKept(vol0, chains0, vol, chains, h)
      && Extends(x0, Content(vol, chains[h]))
    }

    /** As above, and the chain just reaches cluster curr at position i. */
    ghost predicate SeekState(h: nat, vol0: Volume, chains0: map<nat, seq<nat>>, x0: seq<byte>, i: int, curr: int)
      reads this
    {
      && Lengthening(h, vol0, chains0, x0) && 0 <= i
      && JustReaches(|chains[h]|, |chains0[h]|, i) && curr == chains[h][i]
    }

    method SeekNext(ghost h: nat, ghost i: nat, curr: nat, ghost vol0: Volume, ghost chains0: map<nat, seq<nat>>,
                    ghost x0: seq<byte>)
      returns (r: Option<nat>)
      requires SeekState(h, vol0, chains0, x0, i, curr) == true
      modifies this
      ensures r.Some? ==> SeekState(h, vol0, chains0, x0, i + 1, r.value) == true
      ensures r.None? ==> Lengthening(h, vol0, chains0, x0) == true && IsFull(vol.fat) == true
    {
      ghost var vol1, chains1, c1, n := vol, chains, Content(vol, chains[h]), i + 1;
      r := NextOrAppend(h, i, curr, n);
      LengthenedOn(h, vol0, chains0, x0, vol1, chains1, c1);
    }

    lemma LengthenedOn(h: nat, vol0: Volume, chains0: map<nat, seq<nat>>, x0: seq<byte>,
                       vol1: Volume, chains1: map<nat, seq<nat>>, c1: seq<byte>)
      requires Valid() && h in chains && h in chains0 && h in chains1
      requires OthersKept(vol0, chains0, vol1, chains1, h) && OthersKept(vol1, chains1, vol, chains, h)
      requires Extends(x0, c1) && Extends(c1, Content(vol, chains[h]))
      ensures Lengthening(h, vol0, chains0, x0) == true
    {
      OthersTrans(vol0, chains0, vol1, chains1, vol, chains, h);
      ExtendsTrans(x0, c1, Content(vol, chains[h]));
    }

    /** Goes to cluster number target of chain h, lengthening the chain with zeroed clusters. */
    method Seek(h: nat, target: nat, ghost vol0: Volume, ghost chains0: map<nat, seq<nat>>, ghost x0: seq<byte>)
      returns (r: Option<nat>)
      requires SeekState(h, vol0, chains0, x0, 0, h) == true
      modifies this
      ensures r.Some? ==> SeekState(h, vol0, chains0, x0, target, r.value) == true
      ensures r.None? ==> Lengthening(h, vol0, chains0, x0) == true && IsFull(vol.fat) == true
    {
      r := Some(h);
      for i := 0 to target
        invariant r.Some? && SeekState(h, vol0, chains0, x0, i, r.value) == true
      {
        r := SeekNext(h, i, r.value, vol0, chains0, x0);
        if r.None? { return; }
      }
    }

    /** The state of a write to chain h that has put the first w bytes of d at off. */
    ghost predicate Writing(h: nat, vol0: Volume, chains0: map<nat, seq<nat>>, x0: seq<byte>, off: nat, d: seq<byte>,
                            w: nat)
      reads this
    {
      && Valid() && h in chains && h in chains0 && OthersKept(vol0, chains0, vol, chains, h)
      && w <= |d| && Spread(x0, Content(vol, chains[h]), off, d[..w])
    }

    /** As above, at place `place` of cluster curr, which is number i of the chain. */
    ghost predicate WriteState(h: nat, vol0: Volume, chains0: map<nat, seq<nat>>, x0: seq<byte>, off: nat, d: seq<byte>,
                               w: int, i: int, curr: int, place: int)
      reads this
    {
      && 0 <= w < |d| && 0 <= i && 0 <= place < g.ClusterSize() && Writing(h, vol0, chains0, x0, off, d, w)
      && JustReaches(|chains[h]|, |chains0[h]|, i) && curr == chains[h][i]
      && Span(i, g.ClusterSize()) + place == off + w
    }

    /** All of d is written, and the chain just reaches the cluster of its last byte, number i. */
    ghost predicate Written(h: nat, vol0: Volume, chains0: map<nat, seq<nat>>, x0: seq<byte>, off: nat, d: seq<byte>,
                            i: int)
      reads this
    {
      && Writing(h, vol0, chains0, x0, off, d, |d|) && 0 <= i && JustReaches(|chains[h]|, |chains0[h]|, i)
      && Span(i, g.ClusterSize()) < off + |d| <= Span(i, g.ClusterSize()) + g.ClusterSize()
    }

    /** Between two passes of the write loop: done, or at the next cluster, or out of space. */
    ghost predicate Between(h: nat, vol0: Volume, chains0: map<nat, seq<nat>>, x0: seq<byte>, off: nat, d: seq<byte>,
                            w: int, i: int, next: Option<nat>, place: int)
      reads this
    {
      if w >= |d| then Written(h, vol0, chains0, x0, off, d, i)
      else if next.Some? then WriteState(h, vol0, chains0, x0, off, d, w, i, next.value, place)
      else w >= 0 && Writing(h, vol0, chains0, x0, off, d, w)
    }

    /** Writes into one cluster of chain h and goes to the next one, appending it if need be. */
    method UpdateThenNext(ghost h: nat, ghost i: nat, curr: nat, place: nat, chunk: seq<byte>, ghost at: nat,
                          ghost n: nat)
      returns (r: Option<nat>, ghost mid: seq<byte>)
      requires Valid() == true && h in chains && i < |chains[h]| && curr == chains[h][i]
      requires place + |chunk| <= g.ClusterSize()
      requires at == Span(i, g.ClusterSize()) + place && n == i + 1
      modifies this
      ensures Valid() && h in chains && OthersKept(old(vol), old(chains), vol, chains, h)
      ensures Patched(old(Content(vol, chains[h])), mid, at, chunk) == true
      ensures Extends(mid, Content(vol, chains[h])) == true
      ensures r.Some? ==> JustReaches(|chains[h]|, |old(chains)[h]|, n) && r.value == chains[h][n]
      ensures r.None? ==> IsFull(vol.fat) == true
    {
      UpdateCluster(h, i, curr, place, chunk, at);
      mid := Content(vol, chains[h]);
      ghost var vol1 := vol;
      r := NextOrAppend(h, i, curr, n);
      OthersTrans(old(vol), old(chains), vol1, old(chains), vol, chains, h);
    }

    /** The writes of such a pass. */
    method WriteChunk(ghost h: nat, ghost i: nat, curr: nat, place: nat, ghost off: nat, ghost d: seq<byte>,
                      ghost w: nat, chunk: seq<byte>, ghost at: nat, ghost i': nat, ghost w': nat,
                      ghost vol0: Volume, ghost chains0: map<nat, seq<nat>>, ghost x0: seq<byte>)
      returns (next: Option<nat>)
      requires Between(h, vol0, chains0, x0, off, d, w, i, Some(curr), place) == true
      requires w + |chunk| == w' < |d| && chunk == d[w..w'] && place + |chunk| == g.ClusterSize() && at == off + w
      requires i' == i + 1
      modifies this
      ensures Valid() == true && h in chains && h in chains0 && OthersKept(vol0, chains0, vol, chains, h) == true
      ensures Spread(x0, Content(vol, chains[h]), off, d[..w']) == true
      ensures next.Some? ==> JustReaches(|chains[h]|, |chains0[h]|, i') && next.value == chains[h][i']
      ensures next.None? ==> IsFull(vol.fat) == true
    {
      ghost var vol1, chains1, c1, mid := vol, chains, Content(vol, chains[h]), [];
      next, mid := UpdateThenNext(h, i, curr, place, chunk, at, i');
      OthersTrans(vol0, chains0, vol1, chains1, vol, chains, h);
      SpreadOn(x0, c1, mid, Content(vol, chains[h]), off, d, w, |chunk|, chunk, at, w');
    }

    /** A pass that fills the rest of a cluster and moves on. */
    method WriteOn(ghost h: nat, ghost i: nat, curr: nat, place: nat, off: nat, d: seq<byte>, w: nat,
                   ghost vol0: Volume, ghost chains0: map<nat, seq<nat>>, ghost x0: seq<byte>)
      returns (w': nat, next: Option<nat>, ghost i': nat)
      requires Between(h, vol0, chains0, x0, off, d, w, i, Some(curr), place) == true
      requires 0 < g.ClusterSize() - place < |d| - w
      modifies this
      ensures w < w' < |d| && Between(h, vol0, chains0, x0, off, d, w', i', next, 0) == true
      ensures next.None? ==> IsFull(vol.fat) == true
    {
      w', i' := w + (g.ClusterSize() - place), i + 1;
      NextPlace(h, vol0, chains0, x0, off, d, w, i, curr, place, i', w');
      next := WriteChunk(h, i, curr, place, off, d, w, d[w..w'], off + w, i', w', vol0, chains0, x0);
      Landed(h, vol0, chains0, x0, off, d, w', i', next);
    }

    lemma NextPlace(h: nat, vol0: Volume, chains0: map<nat, seq<nat>>, x0: seq<byte>, off: nat, d: seq<byte>,
                    w: nat, i: nat, curr: nat, place: nat, i': nat, w': nat)
      requires Between(h, vol0, chains0, x0, off, d, w, i, Some(curr), place) && w < w' == w + (g.ClusterSize() - place)
      requires w < |d| && i' == i + 1
      ensures Span(i', g.ClusterSize()) == off + w'
    {
    }

    lemma Landed(h: nat, vol0: Volume, chains0: map<nat, seq<nat>>, x0: seq<byte>, off: nat, d: seq<byte>,
                 w: nat, i: nat, next: Option<nat>)
      requires Valid() == true && h in chains && h in chains0 && OthersKept(vol0, chains0, vol, chains, h) == true
      requires w < |d| && Spread(x0, Content(vol, chains[h]), off, d[..w]) == true
      requires next.Some? ==> JustReaches(|chains[h]|, |chains0[h]|, i) && next.value == chains[h][i]
      requires Span(i, g.ClusterSize()) == off + w && g.ClusterSize() > 0
      ensures Between(h, vol0, chains0, x0, off, d, w, i, next, 0) == true
    {
    }

    /** The last pass. */
    method WriteLast(ghost h: nat, ghost i: nat, curr: nat, place: nat, off: nat, d: seq<byte>, w: nat,
                     ghost vol0: Volume, ghost chains0: map<nat, seq<nat>>, ghost x0: seq<byte>)
      requires Between(h, vol0, chains0, x0, off, d, w, i, Some(curr), place) == true
      requires g.ClusterSize() - place >= |d| - w > 0
      modifies this`data, this`vol
      ensures Between(h, vol0, chains0, x0, off, d, |d|, i, None, 0) == true
    {
      ghost var vol1, c1 := vol, Content(vol, chains[h]);
      UpdateCluster(h, i, curr, place, d[w..|d|], off + w);
      OthersTrans(vol0, chains0, vol1, chains, vol, chains, h);
      SpreadMore(x0, c1, Content(vol, chains[h]), off, d, w, |d| - w);
    }

    /** One pass of the write loop. */
    method WritePass(ghost h: nat, ghost i: nat, curr: nat, place: nat, off: nat, d: seq<byte>, w: nat,
                     ghost vol0: Volume, ghost chains0: map<nat, seq<nat>>, ghost x0: seq<byte>)
      returns (w': nat, next: Option<nat>, ghost i': nat)
      requires w < |d| && place < g.ClusterSize()
      requires Between(h, vol0, chains0, x0, off, d, w, i, Some(curr), place) == true
      modifies this
      ensures w < w' <= |d| && Between(h, vol0, chains0, x0, off, d, w', i', next, 0) == true
      ensures next.None? && w' < |d| ==> IsFull(vol.fat) == true
    {
      if g.ClusterSize() - place >= |d| - w {
        WriteLast(h, i, curr, place, off, d, w, vol0, chains0, x0);
        return |d|, None, i;
      }
      w', next, i' := WriteOn(h, i, curr, place, off, d, w, vol0, chains0, x0);
    }

    /** Writes the data from the given cluster on, extending the chain as far as needed. */
    method WriteAcross(ghost h: nat, ghost at: nat, start: nat, x: nat, off: nat, d: seq<byte>,
                       ghost vol0: Volume, ghost chains0: map<nat, seq<nat>>, ghost x0: seq<byte>)
      returns (w: nat, ghost i: nat)
      requires d != [] && x < g.ClusterSize() && Between(h, vol0, chains0, x0, off, d, 0, at, Some(start), x) == true
      modifies this
      ensures w <= |d| && Between(h, vol0, chains0, x0, off, d, w, i, None, 0) == true
      ensures w < |d| ==> IsFull(vol.fat) == true
    {
      w, i := 0, at;
      var next, place := Some(start), x;
      while w < |d| && next.Some?
        invariant 0 <= place < g.ClusterSize() && w <= |d|
        invariant Between(h, vol0, chains0, x0, off, d, w, i, next, place) == true
        invariant next.None? && w < |d| ==> IsFull(vol.fat) == true
        decreases |d| - w
      {
        w, next, i := WritePass(h, i, next.value, place, off, d, w, vol0, chains0, x0);
        place := 0;
      }
    }

    /** Lengthens the chain as far as needed and writes the data at the offset. */
    method WriteData(h: nat, off: nat, d: seq<byte>) returns (w: nat, ghost last: nat)
      requires Valid() && h in chains && d != []
      modifies this
      ensures Valid() && h in chains && OthersKept(old(vol), old(chains), vol, chains, h) && w <= |d|
      ensures w == |d| ==> Written(h, old(vol), old(chains), old(Content(vol, chains[h])), off, d, last)
      ensures Spread(old(Content(vol, chains[h])), Content(vol, chains[h]), off, d[..w])
        || (w == 0 && Extends(old(Content(vol, chains[h])), Content(vol, chains[h])))
      ensures w < |d| ==> IsFull(vol.fat) == true
    {
      ghost var x0 := Content(vol, chains[h]);
      ExtendsBy(x0, 0);
      OthersSame(vol, chains, h);
      var index, place := Locate(off, g.ClusterSize());
      var start := Seek(h, index, vol, chains, x0);
      if start.None? { return 0, 0; }
      Begin(h, old(vol), old(chains), x0, off, d, index, start.value, place);
      w, last := WriteAcross(h, index, start.value, place, off, d, old(vol), old(chains), x0);
    }

    lemma Begin(h: nat, vol0: Volume, chains0: map<nat, seq<nat>>, x0: seq<byte>, off: nat, d: seq<byte>,
                i: nat, curr: nat, place: nat)
      requires d != [] && SeekState(h, vol0, chains0, x0, i, curr) && place < g.ClusterSize()
      requires Span(i, g.ClusterSize()) + place == off
      ensures Between(h, vol0, chains0, x0, off, d, 0, i, Some(curr), place) == true
    {
      HoldsBodies(g, data, vol);
      ContentLength(vol, chains[h], g.ClusterSize());
      Slot(i, |chains[h]|, g.ClusterSize());
      SpreadStart(x0, Content(vol, chains[h]), off);
      assert d[..0] == [];
    }

    /** Writes the entry back with a new size, over the first live entry of the cluster. */
    method UpdateSize(parent: nat, cluster: nat, e: DirEntry.Entry, size: nat) returns (ok: bool, ghost k: nat)
      requires Valid() && parent in chains && e.Valid()
      modifies this`data, this`vol
      ensures Valid() && vol.fat == old(vol).fat && OthersKept(old(vol), chains, vol, chains, parent)
      ensures var old_ := old(Content(vol, chains[parent]));
        && (ok ==> IsFirstLive(Entries(old_), cluster, k) && Patched(old_, Content(vol, chains[parent]), ENTRY_SIZE * k,
                                                                     AsBytes(Resized(e, size))))
        && (!ok ==> vol == old(vol) && forall j :: 0 <= j < |Entries(old_)| ==> !IsLive(Entries(old_)[j], cluster))
    {
      var es := ReadDirectoryEntries(parent);
      OthersSame(vol, chains, parent);
      k := 0;
      var index := 0;
      while index < |es| && !IsLive(es[index], cluster)
        invariant 0 <= index <= |es| && forall j :: 0 <= j < index ==> !IsLive(es[j], cluster)
      {
        index := index + 1;
      }
      if index == |es| { return false, 0; }
      k := index;
      RecordsAt(Content(vol, chains[parent]), 0, index);
      ok := WriteDirentry(parent, index, Resized(e, size));
    }

    /** Writes data into a file: overlays it on the chain, which grows by zeroed clusters as far
        as needed, and raises the size in the directory entry to the end of the data. */
    method WriteFile(id: nat, off: nat, d: seq<byte>)
      returns (r: Result<nat, Error>, ghost k: nat, ghost j: nat, ghost last: nat)
      requires Valid() && IsFileNode(id, chains)
      modifies this
      ensures Valid()
      ensures var (cluster, parent, attrs) := DecodeNodeId(id);
        if d == [] || attrs / 16 % 2 == 1 || cluster == 0
        then r == Refusal(d, attrs) && vol == old(vol) && chains == old(chains)
        else Outcome(parent, cluster, off, d, r, k, j, last, old(vol), old(chains), vol, chains, g.ClusterSize())
      ensures d == [] ==> r == Ok(0)
      ensures var (cluster, _, attrs) := DecodeNodeId(id);
        && (d != [] && attrs / 16 % 2 == 1 ==> r == Err(Error.IsDirectory))
        && (d != [] && attrs / 16 % 2 == 0 && cluster == 0 ==> r == Err(InvalidPath))
    {
      k, j, last := 0, 0, 0;
      if d == [] { return Ok(0), 0, 0, 0; }
      var (cluster, parent, attrs) := DecodeNodeId(id);
      if attrs / 16 % 2 == 1 { return Err(Error.IsDirectory), 0, 0, 0; }
      if cluster == 0 { return Err(InvalidPath), 0, 0, 0; }
      r, k, j, last := WriteAndResize(parent, cluster, off, d);
    }

    method WriteAndResize(parent: nat, cluster: nat, off: nat, d: seq<byte>)
      returns (r: Result<nat, Error>, ghost k: nat, ghost j: nat, ghost last: nat)
      requires Valid() && parent in chains && cluster in chains && parent != cluster && d != []
      modifies this
      ensures Valid()
      ensures Outcome(parent, cluster, off, d, r, k, j, last,
                      old(vol), old(chains), vol, chains, g.ClusterSize()) == true
    {
      k, j, last := 0, 0, 0;
      var entry;
      entry, k := FindEntryByCluster(parent, cluster);
      if entry.None? {
        NothingTouched(vol, chains, cluster);
        NoEntry(parent, cluster, off, d, vol, chains, g.ClusterSize());
        return Err(NotFound), 0, 0, 0;
      }
      var w;
      w, last := StoreData(cluster, off, d);
      if w < |d| {
        NoRoom(parent, cluster, off, d, k, w, old(vol), old(chains), vol, chains, g.ClusterSize());
        return Err(NoSpace), k, 0, w;
      }
      DirectoryKept(parent, cluster, old(vol), old(chains), vol, chains);
      r, j := Resize(parent, cluster, off, d, entry.value, k, last, old(vol), old(chains));
    }

    method StoreData(cluster: nat, off: nat, d: seq<byte>) returns (w: nat, ghost last: nat)
      requires Valid() && cluster in chains && d != []
      modifies this
      ensures Valid() && w <= |d| && OnlyTouches(old(vol), old(chains), vol, chains, cluster) == true
      ensures w == |d| ==> Overlaid(cluster, off, d, last, old(vol), old(chains), vol, chains, g.ClusterSize()) == true
      ensures w < |d| ==>
        PartlySpread(Bytes(old(vol), old(chains), cluster), Bytes(vol, chains, cluster), off, d, w) == true
        && IsFull(vol.fat) == true
    {
      w, last := WriteData(cluster, off, d);
      OthersUntouched(old(vol), old(chains), vol, chains, cluster);
      assert d[..|d|] == d;
    }

    /** The directory half of a write, after the data is in place. */
    method Resize(parent: nat, cluster: nat, off: nat, d: seq<byte>, e: DirEntry.Entry, ghost k: nat, ghost last: nat,
                  ghost vol0: Volume, ghost chains0: map<nat, seq<nat>>)
      returns (r: Result<nat, Error>, ghost j: nat)
      requires Valid() && parent in chains && e.Valid()
      requires Stored(parent, cluster, off, d, e, k, last, vol0, chains0, vol, chains, g.ClusterSize()) == true
      modifies this`data, this`vol
      ensures Valid()
      ensures Outcome(parent, cluster, off, d, r, k, j, last, vol0, chains0, vol, chains, g.ClusterSize()) == true
    {
      j := 0;
      if off + |d| > e.fileSize {
        r, j := RaiseSize(parent, cluster, off, d, off + |d|, e, k, last, vol0, chains0);
      } else {
        NotGrown(parent, cluster, off, d, e, k, last, vol0, chains0, vol, chains, g.ClusterSize());
        r := Ok(|d|);
      }
    }

    method RaiseSize(parent: nat, cluster: nat, ghost off: nat, d: seq<byte>, end: nat, e: DirEntry.Entry, ghost k: nat,
                     ghost last: nat, ghost vol0: Volume, ghost chains0: map<nat, seq<nat>>)
      returns (r: Result<nat, Error>, ghost j: nat)
      requires Valid() && parent in chains && e.Valid() && end == off + |d| > e.fileSize
      requires Stored(parent, cluster, off, d, e, k, last, vol0, chains0, vol, chains, g.ClusterSize()) == true
      modifies this`data, this`vol
      ensures Valid()
      ensures Outcome(parent, cluster, off, d, r, k, j, last, vol0, chains0, vol, chains, g.ClusterSize()) == true
    {
      ghost var vol1, chains1 := vol, chains;
      var ok;
      ok, j := SetSize(parent, cluster, e, end);
      if ok {
        Grown(parent, cluster, off, d, end, e, k, j, last, vol0, chains0, vol1, vol, chains1, g.ClusterSize());
        r := Ok(|d|);
      } else {
        EntryGone(parent, cluster, off, d, end, e, k, j, last, vol0, chains0, vol1, vol, chains1, g.ClusterSize());
        r := Err(NotFound);
      }
    }

    method SetSize(parent: nat, cluster: nat, e: DirEntry.Entry, size: nat) returns (ok: bool, ghost j: nat)
      requires Valid() && parent in chains && e.Valid()
      modifies this`data, this`vol
      ensures Valid()
      ensures ok ==> SizeSet(parent, cluster, e, size, true, j, old(vol), vol, old(chains)) == true
      ensures !ok ==> SizeSet(parent, cluster, e, size, false, j, old(vol), vol, old(chains)) == true
    {
      ok, j := UpdateSize(parent, cluster, e, size);
      OthersUntouched(old(vol), chains, vol, chains, parent);
    }
  }

  /** Every chain but h is untouched. */
  ghost predicate OnlyTouches(v: Volume, chains: map<nat, seq<nat>>, v': Volume, chains': map<nat, seq<nat>>, h: nat) {
    h in chains' && forall x :: x in chains && x != h ==> Untouched(v, chains, v', chains', x)
  }

  ghost predicate SizeSet(parent: nat, cluster: nat, e: DirEntry.Entry, size: nat, ok: bool, j: nat,
                          v: Volume, v': Volume, chains: map<nat, seq<nat>>) {
    var dir := Bytes(v, chains, parent);
    && e.Valid() && OnlyTouches(v, chains, v', chains, parent)
    && (ok ==> IsFirstLive(Entries(dir), cluster, j) && EntryReplaced(dir, Bytes(v', chains, parent), j, e, size))
    && (!ok ==> v' == v && forall i :: 0 <= i < |Entries(dir)| ==> !IsLive(Entries(dir)[i], cluster))
  }

  lemma NothingTouched(v: Volume, chains: map<nat, seq<nat>>, h: nat)
    requires WellFormed(v.fat, chains) && |v.fat| == |v.body| && h in chains
    ensures OnlyTouches(v, chains, v, chains, h)
  {
    OthersSame(v, chains, h);
    OthersUntouched(v, chains, v, chains, h);
  }

  lemma DirectoryKept(parent: nat, cluster: nat, v: Volume, chains: map<nat, seq<nat>>, v': Volume,
                      chains': map<nat, seq<nat>>)
    requires OnlyTouches(v, chains, v', chains', cluster) && parent in chains && parent != cluster
    ensures parent in chains' && Bytes(v', chains', parent) == Bytes(v, chains, parent)
  {
    assert Untouched(v, chains, v', chains', parent);
  }

  lemma NoEntry(parent: nat, cluster: nat, off: nat, d: seq<byte>, v: Volume, chains: map<nat, seq<nat>>, size: nat)
    requires OnlyTouches(v, chains, v, chains, cluster)
    requires var es := Entries(Bytes(v, chains, parent)); forall i :: 0 <= i < |es| ==> es[i].FirstCluster() != cluster
    ensures Outcome(parent, cluster, off, d, Err(NotFound), 0, 0, 0, v, chains, v, chains, size)
  {
  }

  lemma NoRoom(parent: nat, cluster: nat, off: nat, d: seq<byte>, k: nat, w: nat, v: Volume, chains: map<nat, seq<nat>>,
               v': Volume, chains': map<nat, seq<nat>>, size: nat)
    requires OnlyTouches(v, chains, v', chains', cluster) && parent in chains && parent != cluster
    requires IsFirst(Entries(Bytes(v, chains, parent)), cluster, k)
    requires PartlySpread(Bytes(v, chains, cluster), Bytes(v', chains', cluster), off, d, w) == true
    requires IsFull(v'.fat) == true
    ensures Outcome(parent, cluster, off, d, Err(NoSpace), k, 0, w, v, chains, v', chains', size)
  {
    DirectoryKept(parent, cluster, v, chains, v', chains');
  }

  /** The data is in place and the directory is as before. */
  ghost predicate Stored(parent: nat, cluster: nat, off: nat, d: seq<byte>, e: DirEntry.Entry, k: nat, last: nat,
                         v: Volume, chains: map<nat, seq<nat>>, v': Volume, chains': map<nat, seq<nat>>, size: nat) {
    && OnlyTouches(v, chains, v', chains', cluster) && parent in chains && parent != cluster
    && Bytes(v', chains', parent) == Bytes(v, chains, parent)
    && IsFirst(Entries(Bytes(v, chains, parent)), cluster, k) && e == Entries(Bytes(v, chains, parent))[k]
    && Overlaid(cluster, off, d, last, v, chains, v', chains', size)
  }

  lemma NotGrown(parent: nat, cluster: nat, off: nat, d: seq<byte>, e: DirEntry.Entry, k: nat, last: nat,
                 v: Volume, chains: map<nat, seq<nat>>, v': Volume, chains': map<nat, seq<nat>>, size: nat)
    requires Stored(parent, cluster, off, d, e, k, last, v, chains, v', chains', size) == true
    requires off + |d| <= e.fileSize
    ensures Outcome(parent, cluster, off, d, Ok(|d|), k, 0, last, v, chains, v', chains', size) == true
  {
  }

  /** The data write followed by the directory write: the file and the other chains. */
  lemma ThenOnlyParent(parent: nat, cluster: nat, off: nat, d: seq<byte>, last: nat, v: Volume,
                       chains: map<nat, seq<nat>>, v1: Volume, v2: Volume, chains2: map<nat, seq<nat>>, size: nat)
    requires OnlyTouches(v, chains, v1, chains2, cluster) && OnlyTouches(v1, chains2, v2, chains2, parent)
    requires parent != cluster
    requires Overlaid(cluster, off, d, last, v, chains, v1, chains2, size)
    ensures Overlaid(cluster, off, d, last, v, chains, v2, chains2, size)
    ensures forall x :: x in chains && x != cluster && x != parent ==> Untouched(v, chains, v2, chains2, x)
  {
    assert Untouched(v1, chains2, v2, chains2, cluster);
    assert Bytes(v2, chains2, cluster) == Bytes(v1, chains2, cluster);
    forall x | x in chains && x != cluster && x != parent ensures Untouched(v, chains, v2, chains2, x) {
      assert Untouched(v, chains, v1, chains2, x);
      assert Untouched(v1, chains2, v2, chains2, x);
    }
  }

  lemma Grown(parent: nat, cluster: nat, off: nat, d: seq<byte>, end: nat, e: DirEntry.Entry, k: nat, j: nat, last: nat,
              v: Volume, chains: map<nat, seq<nat>>, v1: Volume, v2: Volume, chains2: map<nat, seq<nat>>, size: nat)
    requires Stored(parent, cluster, off, d, e, k, last, v, chains, v1, chains2, size) == true
    requires end == off + |d| > e.fileSize
    requires SizeSet(parent, cluster, e, end, true, j, v1, v2, chains2) == true
    ensures Outcome(parent, cluster, off, d, Ok(|d|), k, j, last, v, chains, v2, chains2, size)
  {
    ThenOnlyParent(parent, cluster, off, d, last, v, chains, v1, v2, chains2, size);
    Relist(Bytes(v1, chains2, parent), Bytes(v, chains, parent), Bytes(v2, chains2, parent),
           cluster, k, j, e, end, EndOf(off, d));
  }

  lemma Relist(dir1: seq<byte>, dir: seq<byte>, dir': seq<byte>, cluster: nat, k: nat, j: nat, e: DirEntry.Entry,
               end: nat, n: nat)
    requires dir1 == dir && end == n > e.fileSize && IsFirst(Entries(dir), cluster, k) && e == Entries(dir)[k]
    requires IsFirstLive(Entries(dir1), cluster, j) && EntryReplaced(dir1, dir', j, e, end) == true
    ensures Relisted(dir, dir', cluster, k, j, n) == true
  {
  }

  lemma EntryGone(parent: nat, cluster: nat, off: nat, d: seq<byte>, end: nat, e: DirEntry.Entry, k: nat, j: nat,
                  last: nat,
                  v: Volume, chains: map<nat, seq<nat>>, v1: Volume, v2: Volume, chains2: map<nat, seq<nat>>, size: nat)
    requires Stored(parent, cluster, off, d, e, k, last, v, chains, v1, chains2, size) == true
    requires SizeSet(parent, cluster, e, end, false, j, v1, v2, chains2) == true
    ensures Outcome(parent, cluster, off, d, Err(NotFound), k, j, last, v, chains, v2, chains2, size) == true
  {
    ThenOnlyParent(parent, cluster, off, d, last, v, chains, v1, v2, chains2, size);
  }

  /** After a write that grows the file, the directory lists the same entries but for one: the
      first live entry of the cluster is replaced by the first entry of any kind, resized. It is
      the same entry, and still live, exactly when that first entry is not a deleted one. */
  lemma DirectoryAfter(parent: nat, cluster: nat, off: nat, d: seq<byte>, k: nat, j: nat, last: nat,
                       v: Volume, chains: map<nat, seq<nat>>, v': Volume, chains': map<nat, seq<nat>>, size: nat)
    requires Outcome(parent, cluster, off, d, Ok(|d|), k, j, last, v, chains, v', chains', size)
    requires EndOf(off, d) > Entries(Bytes(v, chains, parent))[k].fileSize
    ensures ListedAfter(Entries(Bytes(v, chains, parent)), Entries(Bytes(v', chains', parent)), cluster, k, j,
                        EndOf(off, d)) == true
  {
    RelistedAfter(Bytes(v, chains, parent), Bytes(v', chains', parent), cluster, k, j, EndOf(off, d));
  }

  /** Entry j of the list has become entry k with size n as far as 32 bits hold it, name, attributes,
      times and cluster being the same. It is the entry that was found, and live, exactly when that
      is not deleted. */
  ghost predicate ListedAfter(es: seq<DirEntry.Entry>, es': seq<DirEntry.Entry>, cluster: nat, k: nat, j: nat, n: nat) {
    && k < |es| && j < |es| == |es'| && |es[k].name| == 8
    && (forall i :: 0 <= i < |es| && i != j ==> es'[i] == es[i])
    && es'[j] == es[k].(fileSize := es'[j].fileSize) && es'[j].fileSize == n % 0x1_0000_0000
    && (IsLive(es'[j], cluster) <==> !es[k].IsDeleted()) && (j == k <==> !es[k].IsDeleted())
  }

  lemma RelistedAfter(dir: seq<byte>, dir': seq<byte>, cluster: nat, k: nat, j: nat, end: nat)
    requires Relisted(dir, dir', cluster, k, j, end) && end > Entries(dir)[k].fileSize
    ensures ListedAfter(Entries(dir), Entries(dir'), cluster, k, j, end) == true
  {
    PatchEntries(dir, j, Resized(Entries(dir)[k], end));
  }

  /** Reading back after a successful write. The file has the larger of its old size and the end
      of the data. Whatever range is read, the answer goes as far as both that size and the chain
      reach, and each byte of it is the byte of the data that was put there, or else the byte that
      was there before, or else zero. */
  lemma ReadYourWrite(parent: nat, cluster: nat, off: nat, d: seq<byte>, k: nat, j: nat, last: nat,
                      v: Volume, chains: map<nat, seq<nat>>, v': Volume, chains': map<nat, seq<nat>>, size: nat,
                      o: nat, n: nat, r: seq<byte>)
    requires Outcome(parent, cluster, off, d, Ok(|d|), k, j, last, v, chains, v', chains', size)
    requires !Entries(Bytes(v, chains, parent))[k].IsDeleted() && off + |d| < 0x1_0000_0000
    requires ReadsAs(Entries(Bytes(v', chains', parent)), cluster, Bytes(v', chains', cluster), o, n, Ok(r), k)
    ensures var es, es' := Entries(Bytes(v, chains, parent)), Entries(Bytes(v', chains', parent));
      && IsFirst(es', cluster, k)
      && es'[k].fileSize == (if off + |d| > es[k].fileSize then off + |d| else es[k].fileSize)
    ensures ReadsOver(Bytes(v, chains, cluster), Bytes(v', chains', cluster), off, d,
                      Entries(Bytes(v', chains', parent))[k].fileSize, o, n, r) == true
  {
    SizeAfter(parent, cluster, off, d, k, j, last, v, chains, v', chains', size);
    ReadOver(Bytes(v, chains, cluster), Bytes(v', chains', cluster), off, d,
             Entries(Bytes(v', chains', parent))[k].fileSize, o, n, r);
  }

  /** r is what n bytes read at o show of a file of this size whose chain held x and holds y: d where it
      was put, x around it and zeros behind that. */
  ghost predicate ReadsOver(x: seq<byte>, y: seq<byte>, off: nat, d: seq<byte>, size: nat, o: nat, n: nat,
                            r: seq<byte>) {
    && |y| >= |x| && |y| >= off + |d|
    && (var end := Min(size, |y|); |r| == if o >= end then 0 else if n < end - o then n else end - o)
    && (forall i :: 0 <= i < |r| ==>
          r[i] == if off <= o + i < off + |d| then d[o + i - off] else if o + i < |x| then x[o + i] else 0)
    && (o == off && n == |d| ==> r == d)
  }

  lemma ReadOver(x: seq<byte>, y: seq<byte>, off: nat, d: seq<byte>, size: nat, o: nat, n: nat, r: seq<byte>)
    requires Spread(x, y, off, d) && Reads(y, size, o, n, r) && size >= off + |d|
    ensures ReadsOver(x, y, off, d, size, o, n, r) == true
  {
  }

  lemma SizeAfter(parent: nat, cluster: nat, off: nat, d: seq<byte>, k: nat, j: nat, last: nat,
                  v: Volume, chains: map<nat, seq<nat>>, v': Volume, chains': map<nat, seq<nat>>, size: nat)
    requires Outcome(parent, cluster, off, d, Ok(|d|), k, j, last, v, chains, v', chains', size)
    requires !Entries(Bytes(v, chains, parent))[k].IsDeleted() && off + |d| < 0x1_0000_0000
    ensures var es, es' := Entries(Bytes(v, chains, parent)), Entries(Bytes(v', chains', parent));
      && IsFirst(es', cluster, k)
      && es'[k].fileSize == (if off + |d| > es[k].fileSize then off + |d| else es[k].fileSize)
  {
    var es, es' := Entries(Bytes(v, chains, parent)), Entries(Bytes(v', chains', parent));
    if EndOf(off, d) > es[k].fileSize {
      DirectoryAfter(parent, cluster, off, d, k, j, last, v, chains, v', chains', size);
      ResizedFirst(es, es', cluster, k, j, EndOf(off, d));
    }
  }

  lemma ResizedFirst(es: seq<DirEntry.Entry>, es': seq<DirEntry.Entry>, cluster: nat, k: nat, j: nat, n: nat)
    requires IsFirst(es, cluster, k) && ListedAfter(es, es', cluster, k, j, n) && n < 0x1_0000_0000
    requires !es[k].IsDeleted()
    ensures IsFirst(es', cluster, k) && es'[k].fileSize == n
  {
    FitsSize(n);
  }

  lemma FitsSize(n: nat)
    requires n < 0x1_0000_0000
    ensures n % 0x1_0000_0000 == n
  {
  }

  /** A directory with a deleted and a live entry of one cluster: a write that grows the file
      replaces the live entry by the deleted one, and no entry is left for the cluster. */
  lemma GrowthCanDelete() returns (dir: seq<byte>, dir': seq<byte>)
    ensures Relisted(dir, dir', 5, 0, 1, 8) && IsFirstLive(Entries(dir), 5, 1)
    ensures forall i :: 0 <= i < |Entries(dir')| ==> !IsLive(Entries(dir')[i], 5)
  {
    var live := DirEntry.Entry(Text(65, 8), Text(66, 3), 0, 0, 0, 0, 0, 0, 0, 0, 0, 5, 4);
    var gone := live.(name := [DirEntry.DELETED] + Text(65, 7));
    dir := AsBytes(gone) + AsBytes(live);
    TwoEntries(dir, gone, live);
    dir' := Patch(dir, ENTRY_SIZE * 1, AsBytes(Resized(gone, 8)));
    TakesOver(dir, gone, live, dir');
  }

  lemma TakesOver(dir: seq<byte>, gone: DirEntry.Entry, live: DirEntry.Entry, dir': seq<byte>)
    requires gone.Valid() && gone.IsDeleted() && IsLive(live, 5) && Entries(dir) == [gone, live]
    requires gone.FirstCluster() == 5 && gone.fileSize < 8
    requires Patched(dir, dir', ENTRY_SIZE * 1, AsBytes(Resized(gone, 8)))
    ensures Relisted(dir, dir', 5, 0, 1, 8) && IsFirstLive(Entries(dir), 5, 1)
    ensures forall i :: 0 <= i < |Entries(dir')| ==> !IsLive(Entries(dir')[i], 5)
  {
    PatchEntries(dir, 1, Resized(gone, 8));
  }

  function Text(c: byte, n: nat): (s: seq<byte>)
    ensures |s| == n && forall i :: 0 <= i < n ==> s[i] == c
  {
    seq(n, _ => c)
  }

  lemma TwoEntries(dir: seq<byte>, e: DirEntry.Entry, f: DirEntry.Entry)
    requires e.Valid() && f.Valid() && !e.IsEmpty() && !f.IsEmpty() && dir == AsBytes(e) + AsBytes(f)
    ensures Entries(dir) == [e, f]
  {
    DirEntry.HeadFields(e);
    DirEntry.HeadFields(f);
    assert AsBytes(e)[0] == DirEntry.Head(e)[0..8][0] && AsBytes(f)[0] == DirEntry.Head(f)[0..8][0];
    assert Record(dir, 0) == AsBytes(e) && Record(dir, 1) == AsBytes(f);
    assert RecordsFrom(dir, 2) == [];
    assert RecordsFrom(dir, 1) == [AsBytes(f)] + RecordsFrom(dir, 2);
    assert RecordsFrom(dir, 0) == [AsBytes(e)] + RecordsFrom(dir, 1);
    DirEntry.ReadBack(e);
    DirEntry.ReadBack(f);
  }

  /** The entry with its size field set, as far as 32 bits hold it. */
  function Resized(e: DirEntry.Entry, size: nat): (r: DirEntry.Entry)
    ensures e.Valid() ==> r.Valid()
  {
    e.(fileSize := size % 0x1_0000_0000)
  }

  function Refusal(d: seq<byte>, attrs: nat): Result<nat, Error> {
    if d == [] then Ok(0) else if attrs / 16 % 2 == 1 then Err(Error.IsDirectory) else Err(InvalidPath)
  }

  /** The bytes of chain h. */
  ghost function Bytes(v: Volume, chains: map<nat, seq<nat>>, h: nat): seq<byte> {
    if h in chains && (forall i :: 0 <= i < |chains[h]| ==> chains[h][i] < |v.body|) then Content(v, chains[h]) else []
  }

  /** Entry j of the directory is now e with the given size. */
  ghost predicate EntryReplaced(dir: seq<byte>, dir': seq<byte>, j: nat, e: DirEntry.Entry, size: nat) {
    e.Valid() && Patched(dir, dir', ENTRY_SIZE * j, AsBytes(Resized(e, size)))
  }

  /** The entry found for the cluster is number k; if the end of the data lies behind its size,
      it is written back with the new size over the first live entry, number j. */
  ghost predicate Relisted(dir: seq<byte>, dir': seq<byte>, cluster: nat, k: nat, j: nat, end: nat) {
    var es := Entries(dir);
    && IsFirst(es, cluster, k)
    && if end > es[k].fileSize
       then IsFirstLive(es, cluster, j) && EntryReplaced(dir, dir', j, es[k], end)
       else dir' == dir
  }

  function EndOf(off: nat, d: seq<byte>): nat { off + |d| }

  /** No cluster is free. */
  predicate IsFull(fat: seq<nat>) {
    forall c :: ROOT_CLUSTER <= c < |fat| ==> fat[c] != 0
  }

  /** The first w bytes of the data lie over the old bytes and zeros; if there are none, the
      chain may have been lengthened without reaching the offset. */
  ghost predicate PartlySpread(x: seq<byte>, y: seq<byte>, off: nat, d: seq<byte>, w: nat) {
    w < |d| && (Spread(x, y, off, d[..w]) || (w == 0 && Extends(x, y)))
  }

  /** What a write to the file with this first cluster and directory does to the volume. If the
      space runs out, `last` is the number of bytes that were stored; if the entry turns out to
      be gone or deleted, the data has been stored all the same. */
  ghost predicate Outcome(parent: nat, cluster: nat, off: nat, d: seq<byte>, r: Result<nat, Error>, k: nat, j: nat,
                          last: nat,
                          v: Volume, chains: map<nat, seq<nat>>, v': Volume, chains': map<nat, seq<nat>>, size: nat) {
    var dir := Bytes(v, chains, parent);
    var es := Entries(dir);
    && (forall x :: x in chains && x != cluster && x != parent ==> Untouched(v, chains, v', chains', x))
    && match r
       case Ok(n) =>
         && n == |d| && Overlaid(cluster, off, d, last, v, chains, v', chains', size) == true
         && Relisted(dir, Bytes(v', chains', parent), cluster, k, j, EndOf(off, d)) == true
       case Err(NoSpace) =>
         && IsFirst(es, cluster, k) && Bytes(v', chains', parent) == dir
         && PartlySpread(Bytes(v, chains, cluster), Bytes(v', chains', cluster), off, d, last) == true
         && IsFull(v'.fat) == true
       case Err(NotFound) =>
         && Bytes(v', chains', parent) == dir
         && (if IsFirst(es, cluster, k) then Overlaid(cluster, off, d, last, v, chains, v', chains', size) == true
             else Bytes(v', chains', cluster) == Bytes(v, chains, cluster))
         && (forall i :: 0 <= i < |es| ==> !IsLive(es[i], cluster))
       case Err(_) => false
  }

  /** The data lies over the old bytes of the file and zeros, and the chain ends with the
      cluster of the last byte, number `last`, unless it was longer before. */
  ghost predicate Overlaid(cluster: nat, off: nat, d: seq<byte>, last: nat, v: Volume, chains: map<nat, seq<nat>>,
                           v': Volume, chains': map<nat, seq<nat>>, size: nat) {
    && Spread(Bytes(v, chains, cluster), Bytes(v', chains', cluster), off, d)
    && cluster in chains && cluster in chains' && JustReaches(|chains'[cluster]|, |chains[cluster]|, last)
    && Span(last, size) < off + |d| <= Span(last, size) + size
  }

  predicate IsLive(e: DirEntry.Entry, cluster: nat) {
    |e.name| == 8 && !e.IsDeleted() && e.FirstCluster() == cluster
  }

  ghost predicate IsFirstLive(es: seq<DirEntry.Entry>, cluster: nat, k: nat) {
    k < |es| && IsLive(es[k], cluster) && forall j :: 0 <= j < k ==> !IsLive(es[j], cluster)
  }

  /** A chain of length n, first n0 long, that has been lengthened only to reach position i. */
  predicate JustReaches(n: nat, n0: nat, i: nat) {
    n0 <= n && i < n && (n == n0 || n == i + 1)
  }

  lemma OthersSame(v: Volume, chains: map<nat, seq<nat>>, h: nat)
    requires WellFormed(v.fat, chains) && |v.fat| == |v.body|
    ensures OthersKept(v, chains, v, chains, h)
  {
    forall k, c | k in chains && k != h && c in chains[k] ensures SameBody(v, v, c) {
      MembersTaken(v.fat, chains[k], c);
    }
  }

  /** The decoded clusters head chains, and a file is not its own directory. */
  ghost predicate IsFileNode(id: nat, chains: map<nat, seq<nat>>) {
    var (cluster, parent, _) := DecodeNodeId(id);
    parent in chains && (cluster != 0 ==> cluster in chains) && cluster != parent
  }

  ghost predicate IsFirst(es: seq<DirEntry.Entry>, cluster: nat, k: nat) {
    k < |es| && es[k].FirstCluster() == cluster && forall j :: 0 <= j < k ==> es[j].FirstCluster() != cluster
  }

  ghost predicate ReadsAs(es: seq<DirEntry.Entry>, cluster: nat, content: seq<byte>, off: nat, n: nat,
                          r: Result<seq<byte>, Error>, k: nat) {
    match r
    case Ok(buf) => IsFirst(es, cluster, k) && Reads(content, es[k].fileSize, off, n, buf)
    case Err(e) => e == NotFound && forall j :: 0 <= j < |es| ==> es[j].FirstCluster() != cluster
  }

  /** The number of the cluster an offset falls in, and the place in it. */
  method Locate(off: nat, size: nat) returns (index: nat, place: nat)
    requires size > 0
    ensures Span(index, size) + place == off && place < size
  {
    DivSpan(off, size);
    index, place := off / size, off % size;
  }

  method ParseEntries(buf: seq<byte>) returns (es: seq<DirEntry.Entry>)
    ensures es == Entries(buf)
  {
    es := [];
    ghost var done: seq<seq<byte>> := [];
    for i := 0 to |buf| / ENTRY_SIZE
      invariant ParsedTo(buf, i, done, es) == true
    {
      var e := FromBytes(Record(buf, i));
      if e.IsEmpty() {
        ParsedAll(buf, i, done, es);
        return;
      }
      ParsedMore(buf, i, done, es);
      es := es + [e];
      done := done + [Record(buf, i)];
    }
    ParsedAll(buf, |buf| / ENTRY_SIZE, done, es);
  }

  /** The entries are those of the records. */
  ghost predicate Parsed(records: seq<seq<byte>>, es: seq<DirEntry.Entry>) {
    |es| == |records| && forall k :: 0 <= k < |records| ==> IsRecord(records[k]) && es[k] == FromBytes(records[k])
  }

  /** The records before position i are all in use and have been parsed. */
  ghost predicate ParsedTo(buf: seq<byte>, i: nat, records: seq<seq<byte>>, es: seq<DirEntry.Entry>) {
    Parsed(records, es) && RecordsFrom(buf, 0) == records + RecordsFrom(buf, i)
  }

  lemma ParsedMore(buf: seq<byte>, i: nat, records: seq<seq<byte>>, es: seq<DirEntry.Entry>)
    requires ParsedTo(buf, i, records, es) && ENTRY_SIZE * i + ENTRY_SIZE <= |buf| && Record(buf, i)[0] != 0
    ensures ParsedTo(buf, i + 1, records + [Record(buf, i)], es + [FromBytes(Record(buf, i))]) == true
  {
    assert RecordsFrom(buf, i) == [Record(buf, i)] + RecordsFrom(buf, i + 1);
  }

  lemma ParsedAll(buf: seq<byte>, i: nat, records: seq<seq<byte>>, es: seq<DirEntry.Entry>)
    requires ParsedTo(buf, i, records, es) == true
    requires ENTRY_SIZE * i + ENTRY_SIZE > |buf| || Record(buf, i)[0] == 0
    ensures es == Entries(buf)
  {
    assert RecordsFrom(buf, i) == [];
  }

  /** Freeing a chain zeroes exactly the entries of its clusters. */
  lemma FreedExactly(fat: seq<nat>, s: seq<nat>, c: nat)
    requires IsChain(fat, s) && c < |fat|
    ensures Freed(fat, s, |s|)[c] == if c in s then 0 else fat[c]
  {
    assert s[..|s|] == s;
  }

  /** The entries from position i on are still as they were. */
  lemma FreedAhead(fat: seq<nat>, s: seq<nat>, i: nat)
    requires IsChain(fat, s) && |fat| < BAD_CLUSTER && i < |s|
    ensures Freed(fat, s, i)[s[i]] == fat[s[i]]
  {
    forall j | 0 <= j < i ensures s[j] != s[i] { NoRepeat(fat, s, j, i); }
  }

  lemma FreedMore(fat: seq<nat>, s: seq<nat>, i: nat)
    requires IsChain(fat, s) && i < |s|
    ensures Freed(fat, s, i)[s[i] := 0] == Freed(fat, s, i + 1)
  {
  }

  /** Marking a free cluster as an end and linking it behind chain h appends it there. */
  lemma AppendWell(fat: seq<nat>, chains: map<nat, seq<nat>>, h: nat, c: nat)
    requires WellFormed(fat, chains) && h in chains && ROOT_CLUSTER <= c < |fat| && fat[c] == 0
    ensures WellFormed(fat[c := END_OF_CHAIN][Last(chains[h]) := c], chains[h := chains[h] + [c]])
    ensures forall k :: k in chains ==> c !in chains[k]
  {
    FatChains.Allocate(fat, chains, c);
    HeadIsMember(chains, c);
    FatChains.Link(fat[c := END_OF_CHAIN], chains[c := [c]], h, c);
    assert Joined(chains[c := [c]], h, c) == chains[h := chains[h] + [c]];
  }

  lemma HeadIsMember(chains: map<nat, seq<nat>>, c: nat)
    requires forall h :: h in chains ==> |chains[h]| > 0 && chains[h][0] == h && c !in chains[h]
    ensures c !in chains
  {
    forall h | h in chains ensures h != c { assert chains[h][0] in chains[h]; }
  }

  /** What the new cluster adds to the contents of the chains. */
  lemma AppendContent(v: Volume, chains: map<nat, seq<nat>>, v': Volume, h: nat, c: nat, size: nat)
    requires WellFormed(v.fat, chains) && |v.fat| == |v.body| && h in chains && c < |v.body|
    requires forall k :: k in chains ==> c !in chains[k]
    requires v'.body == v.body[c := Zeros(size)]
    ensures OthersKept(v, chains, v', chains[h := chains[h] + [c]], h)
    ensures Content(v', chains[h] + [c]) == Content(v, chains[h]) + Zeros(size)
  {
    var s := chains[h];
    forall k, x | k in chains && x in chains[k] ensures SameBody(v, v', x) { MembersTaken(v.fat, chains[k], x); }
    forall i | 0 <= i < |s| ensures v'.body[s[i]] == v.body[s[i]] {
      assert SameBody(v, v', s[i]) by { assert s[i] in s; }
    }
    ContentKept(v, v', s);
    ContentAppend(v', s, c);
  }

  function NextOf(entry: nat): Next {
    if entry == BAD_CLUSTER then Bad else if IsEnd(entry) then End else To(entry)
  }

  lemma NextInChain(fat: seq<nat>, s: seq<nat>, i: nat)
    requires IsChain(fat, s) && |fat| < BAD_CLUSTER && i < |s|
    ensures NextOf(fat[s[i]]) == if i + 1 < |s| then To(s[i + 1]) else End
  {
    if i + 1 < |s| { assert Linked(fat, s, i); }
  }

  lemma ZeroMore(d: seq<byte>, at: nat, i: nat)
    requires at + (i + 1) * SECTOR <= |d|
    ensures Patch(Patch(d, at, Zeros(i * SECTOR)), at + i * SECTOR, Zeros(SECTOR))
         == Patch(d, at, Zeros((i + 1) * SECTOR))
  {
  }
}
