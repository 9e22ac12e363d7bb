/** The driver the file cache is written against is the FAT32 driver: what a write of a whole file
    leaves on disk, read back by the size in its directory entry, is what the cache assumes. */
module CacheDriver {

  import opened Wrappers
  import opened FatDisk
  import opened FatFiles
  import opened DirEntry
  import opened Fat32
  import FileCache

  /** What a file with these chain bytes and this entry size holds. */
  function Held(x: seq<byte>, size: nat): (r: seq<byte>)
    ensures Reads(x, size, 0, size, r)
  {
    x[..Min(size, |x|)]
  }

  /** A write that runs out of space leaves the part that was stored over the old bytes, and the
      size as it was. */
  lemma FailedWriteIsPartial(parent: nat, cluster: nat, d: seq<byte>, k: nat, j: nat, w: nat,
                             v: Volume, chains: map<nat, seq<nat>>, v': Volume, chains': map<nat, seq<nat>>, size: nat)
    requires Outcome(parent, cluster, 0, d, Err(NoSpace), k, j, w, v, chains, v', chains', size)
    requires Entries(Bytes(v, chains, parent))[k].fileSize <= |Bytes(v, chains, cluster)|
    ensures var es, es' := Entries(Bytes(v, chains, parent)), Entries(Bytes(v', chains', parent));
      && IsFirst(es', cluster, k) && es'[k] == es[k]
      && Held(Bytes(v', chains', cluster), es'[k].fileSize)
           == FileCache.Partial(Held(Bytes(v, chains, cluster), es[k].fileSize), d, w)
  {
    var e := Entries(Bytes(v, chains, parent))[k];
    PartBytes(Bytes(v, chains, cluster), Bytes(v', chains', cluster), d, w, e.fileSize);
  }

  lemma PartBytes(x: seq<byte>, y: seq<byte>, d: seq<byte>, w: nat, n: nat)
    requires PartlySpread(x, y, 0, d, w) && n <= |x|
    ensures Held(y, n) == FileCache.Partial(Held(x, n), d, w)
  {
    var p, held := d[..w], Held(x, n);
    assert held == x[..n] && Held(y, n) == y[..n];
    assert Spread(x, y, 0, p);
    forall i | 0 <= i < n ensures y[i] == if i < w then d[i] else x[i] {}
    assert FileCache.Partial(held, d, w) == FileCache.Overlay(held, p)[..n];
  }

  /** A write that succeeds leaves the data over the old bytes, longer if the data is longer. */
  lemma WriteIsOverlay(parent: nat, cluster: nat, d: seq<byte>, k: nat, j: nat, last: nat,
                       v: Volume, chains: map<nat, seq<nat>>, v': Volume, chains': map<nat, seq<nat>>, size: nat)
    requires Outcome(parent, cluster, 0, d, Ok(|d|), k, j, last, v, chains, v', chains', size)
    requires !Entries(Bytes(v, chains, parent))[k].IsDeleted() && |d| < 0x1_0000_0000
    requires Entries(Bytes(v, chains, parent))[k].fileSize <= |Bytes(v, chains, cluster)|
    ensures var es, es' := Entries(Bytes(v, chains, parent)), Entries(Bytes(v', chains', parent));
      && IsFirst(es', cluster, k)
      && Held(Bytes(v', chains', cluster), es'[k].fileSize)
           == FileCache.Overlay(Held(Bytes(v, chains, cluster), es[k].fileSize), d)
  {
    SizeAfter(parent, cluster, 0, d, k, j, last, v, chains, v', chains', size);
    var e := Entries(Bytes(v, chains, parent))[k];
    WholeBytes(Bytes(v, chains, cluster), Bytes(v', chains', cluster), d, e.fileSize);
  }

  lemma WholeBytes(x: seq<byte>, y: seq<byte>, d: seq<byte>, n: nat)
    requires Spread(x, y, 0, d) && n <= |x|
    ensures Held(y, if |d| > n then |d| else n) == FileCache.Overlay(Held(x, n), d)
  {
    assert Held(x, n) == x[..n];
    var n' := if |d| > n then |d| else n;
    assert Held(y, n') == y[..n'];
    forall i | 0 <= i < n' ensures y[i] == if i < |d| then d[i] else x[i] {}
  }
}
