/** Directory entries of 32 bytes (kernel/src/filesystem/fat32/direntry.rs), the list of entries a
    directory's bytes hold, and the packing of a node id (kernel/src/filesystem/fat32/mod.rs). */
module DirEntry {
  import opened FatDisk

  const ENTRY_SIZE: nat := 32
  const MAX_CLUSTER: nat := 0xFF_FFFF
  const DELETED: byte := 0xE5

  type u16 = x: int | 0 <= x < 0x1_0000
  type u32 = x: int | 0 <= x < 0x1_0000_0000

  datatype Entry = Entry(
    name: seq<byte>, extension: seq<byte>, attributes: byte, ntReserved: byte, creationTenth: byte,
    creationTime: u16, creationDate: u16, accessDate: u16, clusterHigh: u16,
    writeTime: u16, writeDate: u16, clusterLow: u16, fileSize: u32)
  {
    ghost predicate Valid() { |name| == 8 && |extension| == 3 }
    predicate IsEmpty() requires |name| == 8 { name[0] == 0 }
    predicate IsDeleted() requires |name| == 8 { name[0] == DELETED }
    function FirstCluster(): u32 { clusterHigh * 0x1_0000 + clusterLow }
  }

  function From16(s: seq<byte>): (v: u16)
    requires |s| == 2
  {
    Above(s[0], s[1])
  }

  function To16(v: u16): (s: seq<byte>)
    ensures |s| == 2 && From16(s) == v
  {
    [v % 0x100, v / 0x100]
  }

  lemma To16From(s: seq<byte>)
    requires |s| == 2
    ensures To16(From16(s)) == s
  {
    Split(s[0], s[1]);
  }

  function FromBytes(b: seq<byte>): (e: Entry)
    requires |b| == ENTRY_SIZE
    ensures e.Valid()
  {
    Entry(b[0..8], b[8..11], b[11], b[12], b[13], From16(b[14..16]), From16(b[16..18]), From16(b[18..20]),
          From16(b[20..22]), From16(b[22..24]), From16(b[24..26]), From16(b[26..28]), FromLe(b[28..32]))
  }

  /** Everything before the file size. */
  function Head(e: Entry): (b: seq<byte>)
    requires e.Valid()
    ensures |b| == 28
  {
    e.name + e.extension + [e.attributes, e.ntReserved, e.creationTenth]
      + To16(e.creationTime) + To16(e.creationDate) + To16(e.accessDate) + To16(e.clusterHigh)
      + To16(e.writeTime) + To16(e.writeDate) + To16(e.clusterLow)
  }

  function AsBytes(e: Entry): (b: seq<byte>)
    requires e.Valid()
    ensures |b| == ENTRY_SIZE
  {
    Head(e) + ToLe(e.fileSize)
  }

  /** Where each field of the head lies. */
  lemma HeadFields(e: Entry)
    requires e.Valid()
    ensures var b := Head(e);
      && b[0..8] == e.name && b[8..11] == e.extension
      && b[11] == e.attributes && b[12] == e.ntReserved && b[13] == e.creationTenth
  {
  }

  lemma HeadWords(e: Entry)
    requires e.Valid()
    ensures var b := Head(e);
      && b[14..16] == To16(e.creationTime) && b[16..18] == To16(e.creationDate) && b[18..20] == To16(e.accessDate)
      && b[20..22] == To16(e.clusterHigh) && b[22..24] == To16(e.writeTime) && b[24..26] == To16(e.writeDate)
      && b[26..28] == To16(e.clusterLow)
  {
  }

  /** Where the fields lie in the 32 bytes, numbers with the lowest byte first. */
  lemma FieldOffsets(b: seq<byte>)
    requires |b| == 32
    ensures var e := FromBytes(b);
      && |e.name| == 8 && (forall i :: 0 <= i < 8 ==> e.name[i] == b[i])
      && |e.extension| == 3 && (forall i :: 0 <= i < 3 ==> e.extension[i] == b[8 + i])
      && (e.IsEmpty() <==> b[0] == 0) && (e.IsDeleted() <==> b[0] == 0xE5)
      && e.attributes == b[11] && e.ntReserved == b[12] && e.creationTenth == b[13]
      && e.creationTime == Low(b, 14) && e.creationDate == Low(b, 16) && e.accessDate == Low(b, 18)
      && e.writeTime == Low(b, 22) && e.writeDate == Low(b, 24)
      && e.FirstCluster() == Value(b[26], b[27], b[20], b[21]) && e.fileSize == Value(b[28], b[29], b[30], b[31])
  {
    LittleEndian(b[28..32]);
    TwoBytes(b, 14);
    TwoBytes(b, 16);
    TwoBytes(b, 18);
    TwoBytes(b, 20);
    TwoBytes(b, 22);
    TwoBytes(b, 24);
    TwoBytes(b, 26);
  }

  /** The two bytes at a place as a number, the lower one first. */
  function Low(b: seq<byte>, at: nat): int
    requires at + 2 <= |b|
  {
    Value(b[at], b[at + 1], 0, 0)
  }

  lemma TwoBytes(b: seq<byte>, at: nat)
    requires at + 2 <= |b|
    ensures From16(b[at..at + 2]) == Low(b, at)
  {
  }

  lemma ReadBack(e: Entry)
    requires e.Valid()
    ensures FromBytes(AsBytes(e)) == e
  {
    HeadFields(e);
    HeadWords(e);
    var h, b := Head(e), AsBytes(e);
    assert forall i, j :: 0 <= i <= j <= 28 ==> b[i..j] == h[i..j];
    assert b[28..32] == ToLe(e.fileSize);
    FromToLe(e.fileSize);
  }

  lemma {:induction false} WriteBack(b: seq<byte>)
    requires |b| == ENTRY_SIZE
    ensures AsBytes(FromBytes(b)) == b
  {
    var e := FromBytes(b);
    HeadFields(e);
    HeadWords(e);
    To16From(b[14..16]);
    To16From(b[16..18]);
    To16From(b[18..20]);
    To16From(b[20..22]);
    To16From(b[22..24]);
    To16From(b[24..26]);
    To16From(b[26..28]);
    ToFromLe(b[28..32]);
    assert Head(e) == b[..28];
  }

  // ---------------------------------------------------------------- node ids

  /** The packed id: attributes, parent cluster and first cluster in separate bit fields. */
  function EncodeNodeId(e: Entry, parent: u32): nat {
    e.attributes % 0x80 * 0x100_0000_0000_0000 + parent % 0x100_0000 * 0x1_0000_0000 + e.FirstCluster() % 0x100_0000
  }

  function DecodeNodeId(id: nat): (nat, nat, nat) {
    (id % 0x100_0000, id / 0x1_0000_0000 % 0x100_0000, id / 0x100_0000_0000_0000 % 0x80)
  }

  /** Decoding gives back cluster, parent and attributes exactly when the clusters fit in 24
      bits and the attributes in seven. */
  lemma NodeIdRoundTrip(e: Entry, parent: u32)
    ensures DecodeNodeId(EncodeNodeId(e, parent)) == (e.FirstCluster(), parent, e.attributes) <==>
      e.FirstCluster() <= MAX_CLUSTER && parent <= MAX_CLUSTER && e.attributes < 0x80
  {
    Fields(e.attributes % 0x80, parent % 0x100_0000, e.FirstCluster() % 0x100_0000);
  }

  lemma Fields(a: nat, p: nat, c: nat)
    requires a < 0x80 && p < 0x100_0000 && c < 0x100_0000
    ensures DecodeNodeId(a * 0x100_0000_0000_0000 + p * 0x1_0000_0000 + c) == (c, p, a)
  {
    var x := p + 0x100_0000 * a;
    var id := a * 0x100_0000_0000_0000 + p * 0x1_0000_0000 + c;
    Low24(c, 0x100 * x);
    High32(c, x);
    Low24(p, a);
    High56(c, p, a);
  }

  lemma Low24(low: nat, high: nat)
    requires low < 0x100_0000
    ensures (low + 0x100_0000 * high) % 0x100_0000 == low
  {
  }

  lemma High32(low: nat, high: nat)
    requires low < 0x1_0000_0000
    ensures (low + 0x1_0000_0000 * high) / 0x1_0000_0000 == high
  {
  }

  lemma High56(c: nat, p: nat, a: nat)
    requires p < 0x100_0000 && c < 0x1_0000_0000
    ensures (a * 0x100_0000_0000_0000 + p * 0x1_0000_0000 + c) / 0x100_0000_0000_0000 == a
  {
    assert 0 <= p * 0x1_0000_0000 + c < 0x100_0000_0000_0000;
  }

  // ---------------------------------------------------------------- directories

  function Record(d: seq<byte>, i: nat): (b: seq<byte>)
    requires ENTRY_SIZE * i + ENTRY_SIZE <= |d|
    ensures |b| == ENTRY_SIZE
  {
    d[ENTRY_SIZE * i..ENTRY_SIZE * i + ENTRY_SIZE]
  }

  predicate IsRecord(b: seq<byte>) { |b| == ENTRY_SIZE && b[0] != 0 }

  /** The records from position i up to the first empty one. */
  function RecordsFrom(d: seq<byte>, i: nat): (rs: seq<seq<byte>>)
    ensures rs != [] ==> ENTRY_SIZE * (i + |rs|) <= |d|
    ensures forall k :: 0 <= k < |rs| ==> IsRecord(rs[k])
    decreases |d| - ENTRY_SIZE * i
  {
    if ENTRY_SIZE * i + ENTRY_SIZE > |d| || Record(d, i)[0] == 0 then [] else [Record(d, i)] + RecordsFrom(d, i + 1)
  }

  /** The entries of a directory with these bytes. */
  function Entries(d: seq<byte>): (es: seq<Entry>)
    ensures |es| == |RecordsFrom(d, 0)|
    ensures forall k :: 0 <= k < |es| ==> es[k].Valid() && !es[k].IsEmpty()
  {
    var rs := RecordsFrom(d, 0);
    seq(|rs|, k requires 0 <= k < |rs| => FromBytes(rs[k]))
  }

  lemma {:induction false} RecordsAt(d: seq<byte>, i: nat, k: nat)
    requires k < |RecordsFrom(d, i)|
    ensures ENTRY_SIZE * (i + k) + ENTRY_SIZE <= |d| && RecordsFrom(d, i)[k] == Record(d, i + k)
    decreases k
  {
    if k > 0 { RecordsAt(d, i + 1, k - 1); }
  }

  /** A directory lists its records in order, up to the first one that starts with zero or the end. */
  lemma ListedUntilEmpty(d: seq<byte>, k: nat)
    requires k <= |Entries(d)|
    ensures k < |Entries(d)| ==>
      32 * k + 32 <= |d| && d[32 * k] != 0 && Entries(d)[k] == FromBytes(d[32 * k..32 * k + 32])
    ensures k == |Entries(d)| ==> 32 * k + 32 > |d| || d[32 * k] == 0
  {
    if k < |Entries(d)| { RecordsAt(d, 0, k); } else { EndsThere(d, 0); }
  }

  lemma {:induction false} EndsThere(d: seq<byte>, i: nat)
    ensures var n := i + |RecordsFrom(d, i)|; ENTRY_SIZE * n + ENTRY_SIZE > |d| || d[ENTRY_SIZE * n] == 0
    decreases |d| - ENTRY_SIZE * i
  {
    if ENTRY_SIZE * i + ENTRY_SIZE <= |d| && Record(d, i)[0] != 0 { EndsThere(d, i + 1); }
  }

  lemma {:induction false} PatchAfter(d: seq<byte>, at: nat, bytes: seq<byte>, i: nat)
    requires at + |bytes| <= |d| && at + |bytes| <= ENTRY_SIZE * i
    ensures RecordsFrom(Patch(d, at, bytes), i) == RecordsFrom(d, i)
    decreases |d| - ENTRY_SIZE * i
  {
    if ENTRY_SIZE * i + ENTRY_SIZE <= |d| {
      PatchElsewhere(d, at, bytes, ENTRY_SIZE * i, ENTRY_SIZE * i + ENTRY_SIZE);
      PatchAfter(d, at, bytes, i + 1);
    }
  }

  lemma {:induction false} PatchRecords(d: seq<byte>, i: nat, k: nat, b: seq<byte>)
    requires k < |RecordsFrom(d, i)| && IsRecord(b)
    ensures ENTRY_SIZE * (i + k) + ENTRY_SIZE <= |d|
    ensures RecordsFrom(Patch(d, ENTRY_SIZE * (i + k), b), i) == RecordsFrom(d, i)[k := b]
    decreases k
  {
    RecordsAt(d, i, k);
    var at := ENTRY_SIZE * (i + k);
    var d' := Patch(d, at, b);
    if k == 0 {
      PatchHere(d, at, b);
      PatchAfter(d, at, b, i + 1);
    } else {
      PatchElsewhere(d, at, b, ENTRY_SIZE * i, ENTRY_SIZE * i + ENTRY_SIZE);
      PatchRecords(d, i + 1, k - 1, b);
    }
  }

  /** Overwriting one listed entry with a non-empty one replaces it in the list. */
  lemma PatchEntries(d: seq<byte>, k: nat, e: Entry)
    requires k < |Entries(d)| && e.Valid() && !e.IsEmpty()
    ensures ENTRY_SIZE * k + ENTRY_SIZE <= |d|
    ensures Entries(Patch(d, ENTRY_SIZE * k, AsBytes(e))) == Entries(d)[k := e]
  {
    HeadFields(e);
    assert AsBytes(e)[0] == Head(e)[0..8][0];
    PatchRecords(d, 0, k, AsBytes(e));
    ReadBack(e);
  }
}
