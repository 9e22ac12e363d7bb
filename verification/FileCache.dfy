/** The whole-file write-back cache of kernel/src/filesystem/file_cache.rs over a driver that is
    modelled by the contents of its files and a script of faults. What a file holds is its
    cached bytes if it is cached and its bytes on disk otherwise. Contracts that pass a large
    predicate on whole compare it with true, so that it is not taken apart. */
module FileCache {
  import opened Wrappers
  import opened FatDisk

  datatype Error = DriverError | CacheFull | FileNotFound

  /** How the next driver call goes; a failing write may have stored a part of the data. */
  datatype Fault = Fine | Fail(written: nat)

  datatype File = File(off: nat, len: nat, lastAccess: nat, dirty: bool, pinned: bool, importance: nat)

  const INVALID: nat := 0
  const NORMAL: nat := 2
  const RESIDENT: nat := 6
  const U64: nat := 0x1_0000_0000_0000_0000

  // ---------------------------------------------------------------- contents

  function Bytes(arena: seq<byte>, f: File): (r: seq<byte>)
    requires f.off + f.len <= |arena|
    ensures |r| == f.len
  {
    arena[f.off..f.off + f.len]
  }

  /** Two extents share no byte. */
  predicate Apart(f: File, g: File) {
    f.len == 0 || g.len == 0 || f.off + f.len <= g.off || g.off + g.len <= f.off
  }

  ghost predicate InArena(files: map<nat, File>, push: nat) {
    forall id :: id in files ==> files[id].off + files[id].len <= push
  }

  ghost predicate Disjoint(files: map<nat, File>) {
    forall a, b :: a in files && b in files && a != b ==> Apart(files[a], files[b])
  }

  /** A cached copy is at least as long as the file on disk and, unless dirty, equal to it. */
  ghost predicate Agrees(arena: seq<byte>, f: File, stored: seq<byte>) {
    && f.off + f.len <= |arena| && |stored| <= f.len
    && (!f.dirty ==> Bytes(arena, f) == stored)
  }

  function Stored(disk: map<nat, seq<byte>>, id: nat): seq<byte> {
    if id in disk then disk[id] else []
  }

  ghost predicate AllAgree(arena: seq<byte>, files: map<nat, File>, disk: map<nat, seq<byte>>) {
    forall id :: id in files ==> Agrees(arena, files[id], Stored(disk, id))
  }

  ghost predicate Good(arena: seq<byte>, push: nat, files: map<nat, File>, disk: map<nat, seq<byte>>) {
    push <= |arena| && InArena(files, push) && Disjoint(files) && AllAgree(arena, files, disk)
  }

  /** What file id holds. */
  ghost function Contents(arena: seq<byte>, files: map<nat, File>, disk: map<nat, seq<byte>>, id: nat): seq<byte> {
    if id in files && files[id].off + files[id].len <= |arena| then Bytes(arena, files[id]) else Stored(disk, id)
  }

  ghost predicate SameContents(arena: seq<byte>, files: map<nat, File>, disk: map<nat, seq<byte>>,
                               arena': seq<byte>, files': map<nat, File>, disk': map<nat, seq<byte>>) {
    forall id: nat :: Contents(arena', files', disk', id) == Contents(arena, files, disk, id)
  }

  /** Every file but id holds what it held. */
  ghost predicate OthersSame(id: nat, arena: seq<byte>, files: map<nat, File>, disk: map<nat, seq<byte>>,
                             arena': seq<byte>, files': map<nat, File>, disk': map<nat, seq<byte>>) {
    forall x: nat :: x != id ==> Contents(arena', files', disk', x) == Contents(arena, files, disk, x)
  }

  // ---------------------------------------------------------------- the memory counter

  ghost function Total(files: map<nat, File>, ids: set<nat>): nat
    requires ids <= files.Keys
  {
    if ids == {} then 0 else
      var id :| id in ids;
      files[id].len + Total(files, ids - {id})
  }

  lemma {:induction false} TotalSplit(files: map<nat, File>, ids: set<nat>, id: nat)
    requires ids <= files.Keys && id in ids
    ensures Total(files, ids) == files[id].len + Total(files, ids - {id})
    decreases ids
  {
    var x :| x in ids && Total(files, ids) == files[x].len + Total(files, ids - {x});
    if x != id {
      TotalSplit(files, ids - {x}, id);
      TotalSplit(files, ids - {id}, x);
      assert ids - {x} - {id} == ids - {id} - {x};
    }
  }

  lemma {:induction false} TotalSame(files: map<nat, File>, files': map<nat, File>, ids: set<nat>)
    requires ids <= files.Keys && ids <= files'.Keys && forall id :: id in ids ==> files'[id].len == files[id].len
    ensures Total(files', ids) == Total(files, ids)
    decreases ids
  {
    if ids != {} {
      var id :| id in ids;
      TotalSplit(files, ids, id);
      TotalSplit(files', ids, id);
      TotalSame(files, files', ids - {id});
    }
  }

  ghost function Used(files: map<nat, File>): nat { Total(files, files.Keys) }

  lemma UsedWithout(files: map<nat, File>, id: nat)
    requires id in files
    ensures Used(files) == files[id].len + Used(files - {id})
  {
    TotalSplit(files, files.Keys, id);
    assert (files - {id}).Keys == files.Keys - {id};
    TotalSame(files, files - {id}, files.Keys - {id});
  }

  lemma UsedWith(files: map<nat, File>, id: nat, f: File)
    ensures Used(files[id := f]) == f.len + Used(files - {id})
    ensures id in files ==> Used(files[id := f]) == Used(files) - files[id].len + f.len
    ensures id !in files ==> Used(files[id := f]) == Used(files) + f.len
  {
    var files' := files[id := f];
    UsedWithout(files', id);
    assert files' - {id} == files - {id};
    if id in files { UsedWithout(files, id); } else { assert files - {id} == files; }
  }

  lemma UsedWithoutBoth(files: map<nat, File>, best: nat, keep: nat)
    requires best in files && best != keep
    ensures Used(files - {best} - {keep}) <= Used(files - {keep})
  {
    UsedWithout(files - {keep}, best);
    assert files - {keep} - {best} == files - {best} - {keep};
  }

  /** A nonempty file among these that starts highest. */
  lemma {:induction false} Highest(files: map<nat, File>, ids: set<nat>) returns (x: nat)
    requires ids <= files.Keys && exists id :: id in ids && files[id].len > 0
    ensures x in ids && files[x].len > 0
    ensures forall id :: id in ids && files[id].len > 0 ==> files[id].off <= files[x].off
    decreases ids
  {
    x :| x in ids && files[x].len > 0;
    var rest := ids - {x};
    if exists id :: id in rest && files[id].len > 0 {
      var y := Highest(files, rest);
      if files[y].off > files[x].off { x := y; }
    }
  }

  /** Extents that are apart and end by n hold at most n bytes. */
  lemma {:induction false} TotalFits(files: map<nat, File>, ids: set<nat>, n: nat)
    requires Disjoint(files) && ids <= files.Keys
    requires forall id :: id in ids ==> files[id].len == 0 || files[id].off + files[id].len <= n
    ensures Total(files, ids) <= n
    decreases ids
  {
    if exists id :: id in ids && files[id].len > 0 {
      var x := Highest(files, ids);
      TotalSplit(files, ids, x);
      forall id | id in ids - {x} ensures files[id].len == 0 || files[id].off + files[id].len <= files[x].off {
        assert Apart(files[id], files[x]);
      }
      TotalFits(files, ids - {x}, files[x].off);
    } else {
      TotalZero(files, ids);
    }
  }

  lemma {:induction false} TotalZero(files: map<nat, File>, ids: set<nat>)
    requires ids <= files.Keys && forall id :: id in ids ==> files[id].len == 0
    ensures Total(files, ids) == 0
    decreases ids
  {
    if ids != {} {
      var id :| id in ids;
      TotalSplit(files, ids, id);
      TotalZero(files, ids - {id});
    }
  }

  /** Packing the other files would not reach the bytes of file id. */
  ghost predicate Intact(files: map<nat, File>, id: nat) {
    id in files && (files[id].len == 0 || Used(files - {id}) <= files[id].off)
  }

  /** A file at the tail of the arena has all others below it. */
  lemma TailIsIntact(files: map<nat, File>, id: nat, push: nat)
    requires Disjoint(files) && InArena(files, push) && id in files && files[id].off + files[id].len == push
    ensures Intact(files, id)
  {
    if files[id].len > 0 {
      var rest := files - {id};
      forall x | x in rest ensures rest[x].len == 0 || rest[x].off + rest[x].len <= files[id].off {
        assert Apart(files[x], files[id]);
      }
      TotalFits(rest, rest.Keys, files[id].off);
    }
  }

  // ---------------------------------------------------------------- steps

  /** Bytes written outside an extent leave its content alone. */
  lemma BytesKept(arena: seq<byte>, at: nat, buf: seq<byte>, f: File)
    requires at + |buf| <= |arena| && f.off + f.len <= |arena|
    requires f.len == 0 || |buf| == 0 || f.off + f.len <= at || at + |buf| <= f.off
    ensures Bytes(Patch(arena, at, buf), f) == Bytes(arena, f)
  {
    if |buf| == 0 {
      assert Patch(arena, at, buf) == arena;
    } else if f.len > 0 { PatchElsewhere(arena, at, buf, f.off, f.off + f.len); }
  }

  /** The others of a cache when file id is replaced by g and buf is written at `at`, clear of them. */
  ghost predicate ClearOf(files: map<nat, File>, id: nat, at: nat, n: nat) {
    n == 0 || forall x :: x in files && x != id ==>
      files[x].len == 0 || files[x].off + files[x].len <= at || at + n <= files[x].off
  }

  /** The general step: bytes clear of every other file are written and file id becomes g. */
  lemma Replace(arena: seq<byte>, push: nat, files: map<nat, File>, disk: map<nat, seq<byte>>,
                id: nat, g: File, at: nat, buf: seq<byte>, push': nat)
    requires Good(arena, push, files, disk) == true && at + |buf| <= |arena| && push <= push' <= |arena|
    requires ClearOf(files, id, at, |buf|) == true && ClearOf(files, id, g.off, g.len) == true && g.off + g.len <= push'
    requires Agrees(Patch(arena, at, buf), g, Stored(disk, id))
    ensures Good(Patch(arena, at, buf), push', files[id := g], disk)
    ensures OthersSame(id, arena, files, disk, Patch(arena, at, buf), files[id := g], disk)
    ensures Contents(Patch(arena, at, buf), files[id := g], disk, id) == Bytes(Patch(arena, at, buf), g)
  {
    var arena', files' := Patch(arena, at, buf), files[id := g];
    forall x | x in files && x != id
      ensures Agrees(arena', files[x], Stored(disk, x)) && Bytes(arena', files[x]) == Bytes(arena, files[x])
    {
      assert Agrees(arena, files[x], Stored(disk, x));
      BytesKept(arena, at, buf, files[x]);
    }
  }

  /** File id moves down to w, everything else being below w or above its end. */
  lemma MoveDown(arena: seq<byte>, push: nat, files: map<nat, File>, disk: map<nat, seq<byte>>, id: nat, w: nat)
    requires Good(arena, push, files, disk) && id in files && w <= push && (files[id].len > 0 ==> w <= files[id].off)
    requires forall x :: x in files && x != id ==>
      files[x].len == 0 || files[x].off + files[x].len <= w || files[id].off + files[id].len <= files[x].off
    ensures w + files[id].len <= push
    ensures var f := files[id]; var arena', files' := Patch(arena, w, Bytes(arena, f)), files[id := f.(off := w)];
      Good(arena', push, files', disk) && SameContents(arena, files, disk, arena', files', disk)
  {
    var f := files[id];
    assert Agrees(arena, f, Stored(disk, id));
    PatchHere(arena, w, Bytes(arena, f));
    Replace(arena, push, files, disk, id, f.(off := w), w, Bytes(arena, f), push);
  }

  /** The file leaves the cache; the disk holds the same bytes. */
  lemma Evict(arena: seq<byte>, push: nat, files: map<nat, File>, disk: map<nat, seq<byte>>, id: nat)
    requires Good(arena, push, files, disk) && id in files && Stored(disk, id) == Bytes(arena, files[id])
    ensures Good(arena, push, files - {id}, disk) && SameContents(arena, files, disk, arena, files - {id}, disk)
  {
  }

  /** The driver stores bytes of a cached file: what it holds does not change. */
  lemma StoreBack(arena: seq<byte>, push: nat, files: map<nat, File>, disk: map<nat, seq<byte>>, id: nat, d: seq<byte>)
    requires Good(arena, push, files, disk) && id in files && id in disk && files[id].dirty && |d| <= files[id].len
    ensures Good(arena, push, files, disk[id := d]) && SameContents(arena, files, disk, arena, files, disk[id := d])
  {
    var disk' := disk[id := d];
    forall x | x in files ensures Agrees(arena, files[x], Stored(disk', x)) {
      assert Agrees(arena, files[x], Stored(disk, x));
    }
  }

  lemma SameExtents(files: map<nat, File>, push: nat, id: nat, g: File)
    requires InArena(files, push) && Disjoint(files) && id in files && g.off == files[id].off && g.len == files[id].len
    ensures InArena(files[id := g], push) && Disjoint(files[id := g])
  {
    forall x | x in files && x != id ensures Apart(files[x], g) && Apart(g, files[x]) {
      assert Apart(files[x], files[id]);
    }
  }

  lemma SameApart(files: map<nat, File>, id: nat, g: File)
    requires id in files && g.off == files[id].off && g.len == files[id].len
    ensures Disjoint(files[id := g]) ==> Disjoint(files)
  {
    var files' := files[id := g];
    if Disjoint(files') {
      forall a, b | a in files && b in files && a != b ensures Apart(files[a], files[b]) {
        assert Apart(files'[a], files'[b]);
      }
    }
  }

  /** Only the marks of a cached file change, and they stay true. */
  lemma Remark(arena: seq<byte>, push: nat, files: map<nat, File>, disk: map<nat, seq<byte>>, id: nat, g: File)
    requires Good(arena, push, files, disk) && id in files && g.off == files[id].off && g.len == files[id].len
    requires Agrees(arena, g, Stored(disk, id))
    ensures Good(arena, push, files[id := g], disk)
    ensures SameContents(arena, files, disk, arena, files[id := g], disk) && Used(files[id := g]) == Used(files)
  {
    SameExtents(files, push, id, g);
    SameMarked(arena, files, disk, id, g);
  }

  lemma SameMarked(arena: seq<byte>, files: map<nat, File>, disk: map<nat, seq<byte>>, id: nat, g: File)
    requires id in files && g.off == files[id].off && g.len == files[id].len
    ensures SameContents(arena, files, disk, arena, files[id := g], disk) == true && Used(files[id := g]) == Used(files)
  {
    UsedWith(files, id, g);
  }

  /** The whole file is read in at the push offset. */
  lemma ReadIn(arena: seq<byte>, push: nat, files: map<nat, File>, disk: map<nat, seq<byte>>, id: nat, g: File)
    requires Good(arena, push, files, disk) && id !in files && id in disk && push + |disk[id]| <= |arena|
    requires g.off == push && g.len == |disk[id]|
    ensures var arena', files' := Patch(arena, push, disk[id]), files[id := g];
      && Good(arena', push + |disk[id]|, files', disk) && SameContents(arena, files, disk, arena', files', disk)
      && Bytes(arena', g) == disk[id]
  {
    PatchHere(arena, push, disk[id]);
    Replace(arena, push, files, disk, id, g, push, disk[id], push + |disk[id]|);
  }

  /** Bytes behind the push offset belong to no file. */
  lemma Scribble(arena: seq<byte>, push: nat, files: map<nat, File>, disk: map<nat, seq<byte>>, buf: seq<byte>,
                 push': nat)
    requires Good(arena, push, files, disk) && push + |buf| <= push' <= |arena|
    ensures Good(Patch(arena, push, buf), push', files, disk)
    ensures SameContents(arena, files, disk, Patch(arena, push, buf), files, disk)
  {
    forall x | x in files ensures Bytes(Patch(arena, push, buf), files[x]) == Bytes(arena, files[x]) {
      assert Agrees(arena, files[x], Stored(disk, x));
      BytesKept(arena, push, buf, files[x]);
    }
    forall x | x in files ensures Agrees(Patch(arena, push, buf), files[x], Stored(disk, x)) {
      assert Agrees(arena, files[x], Stored(disk, x));
    }
  }

  /** An empty file enters the cache. */
  lemma NewEntry(arena: seq<byte>, push: nat, files: map<nat, File>, disk: map<nat, seq<byte>>, id: nat, f: File)
    requires Good(arena, push, files, disk) && id !in files && f.len == 0 && f.off <= push && !f.dirty
    ensures Good(arena, push, files[id := f], disk) <==> Stored(disk, id) == []
  {
    var files' := files[id := f];
    if Good(arena, push, files', disk) {
      assert Agrees(arena, files'[id], Stored(disk, id));
    }
    if Stored(disk, id) == [] {
      forall x | x in files' ensures Agrees(arena, files'[x], Stored(disk, x)) {
        if x != id { assert Agrees(arena, files[x], Stored(disk, x)); }
      }
    }
  }

  lemma Reserve(arena: seq<byte>, push: nat, files: map<nat, File>, disk: map<nat, seq<byte>>, id: nat, f: File,
                arena': seq<byte>, push': nat, zeros: seq<byte>)
    requires Good(arena, push, files, disk) == true && id !in files && f.len == 0 && f.off == push && !f.dirty
    requires push' == push + |zeros| <= |arena| && arena' == Patch(arena, push, zeros)
    ensures (Good(arena', push', files[id := f], disk) == true) <==> Stored(disk, id) == []
    ensures OthersSame(id, arena, files, disk, arena', files[id := f], disk) == true
    ensures Contents(arena', files[id := f], disk, id) == []
  {
    Scribble(arena, push, files, disk, zeros, push');
    NewEntry(arena', push', files, disk, id, f);
  }

  /** The n bytes from off on, or as many as there are. */
  function Slice(s: seq<byte>, off: nat, n: nat): (r: seq<byte>)
    ensures |r| == if off >= |s| then 0 else if n < |s| - off then n else |s| - off
    ensures forall i :: 0 <= i < |r| ==> r[i] == s[off + i]
  {
    if off >= |s| then [] else if off + n <= |s| then s[off..off + n] else s[off..]
  }

  /** x with zeros behind it up to n bytes. */
  function Padded(x: seq<byte>, n: nat): (r: seq<byte>)
    ensures |r| == if |x| < n then n else |x|
  {
    if |x| < n then x + Zeros(n - |x|) else x
  }

  /** x with d written at off, a hole in between being zeros. */
  function Written(x: seq<byte>, off: nat, d: seq<byte>): (r: seq<byte>)
    ensures |r| == if |x| < off + |d| then off + |d| else |x|
  {
    Patch(Padded(x, off + |d|), off, d)
  }

  /** y is x with d over it at off: the data where it was put, the old bytes around it, zeros between
      their end and the data, and nothing behind. */
  ghost predicate LiesOver(x: seq<byte>, off: nat, d: seq<byte>, y: seq<byte>) {
    && |y| == (if |x| < off + |d| then off + |d| else |x|)
    && forall i :: 0 <= i < |y| ==> y[i] == if off <= i < off + |d| then d[i - off] else if i < |x| then x[i] else 0
  }

  lemma PaddedBy(x: seq<byte>, extra: nat, end: nat, ok: bool)
    requires |x| + extra == end
    ensures x + Zeros(if ok then extra else 0) == Padded(x, if ok then end else 0)
  {
  }

  lemma NothingWritten(x: seq<byte>)
    ensures Written(x, 0, []) == x
  {
  }

  lemma WrittenOver(x: seq<byte>, off: nat, d: seq<byte>)
    ensures LiesOver(x, off, d, Written(x, off, d)) == true
  {
  }

  /** The file at the tail of the arena grows by zeros. */
  lemma GrowTail(arena: seq<byte>, push: nat, files: map<nat, File>, disk: map<nat, seq<byte>>, id: nat, g: File,
                 zeros: seq<byte>, push': nat)
    requires Good(arena, push, files, disk) == true && id in files && files[id].off + files[id].len == push
    requires g.off == files[id].off && g.len == files[id].len + |zeros| && g.dirty && push' == push + |zeros| <= |arena|
    ensures Good(Patch(arena, push, zeros), push', files[id := g], disk) == true
    ensures OthersSame(id, arena, files, disk, Patch(arena, push, zeros), files[id := g], disk) == true
  {
    assert Agrees(arena, files[id], Stored(disk, id));
    ClearInside(files, id, g.off, files[id].len);
    Replace(arena, push, files, disk, id, g, push, zeros, push');
  }

  lemma GrownContents(arena: seq<byte>, push: nat, files: map<nat, File>, disk: map<nat, seq<byte>>, id: nat, g: File,
                      zeros: seq<byte>)
    requires id in files && files[id].off + files[id].len == push && push + |zeros| <= |arena|
    requires g.off == files[id].off && g.len == files[id].len + |zeros|
    ensures Contents(Patch(arena, push, zeros), files[id := g], disk, id) == Contents(arena, files, disk, id) + zeros
  {
    Lengthen(arena, g.off, push, zeros, push + |zeros|);
  }

  lemma Lengthen(arena: seq<byte>, start: nat, end: nat, more: seq<byte>, end': nat)
    requires start <= end && end' == end + |more| <= |arena|
    ensures Patch(arena, end, more)[start..end'] == arena[start..end] + more
  {
  }

  /** The file is copied behind the push offset and grows there. */
  lemma CopyTail(arena: seq<byte>, push: nat, files: map<nat, File>, disk: map<nat, seq<byte>>, id: nat, g: File,
                 buf: seq<byte>, push': nat)
    requires Good(arena, push, files, disk) == true && id in files && |buf| >= files[id].len
    requires g.off == push && g.len == |buf| && g.dirty && push' == push + |buf| <= |arena|
    ensures Good(Patch(arena, push, buf), push', files[id := g], disk) == true
    ensures Bytes(Patch(arena, push, buf), g) == buf
    ensures OthersSame(id, arena, files, disk, Patch(arena, push, buf), files[id := g], disk)
  {
    assert Agrees(arena, files[id], Stored(disk, id));
    PatchHere(arena, push, buf);
    Replace(arena, push, files, disk, id, g, push, buf, push');
  }

  /** Data is written inside the extent of a file, which is dirty then. */
  lemma WriteInside(arena: seq<byte>, push: nat, files: map<nat, File>, disk: map<nat, seq<byte>>, id: nat,
                    d: seq<byte>, g: File, at: nat)
    requires Good(arena, push, files, disk) == true && id in files && g.off == files[id].off && g.len == files[id].len
    requires g.dirty
    requires g.off <= at && at + |d| <= g.off + g.len
    ensures at + |d| <= |arena|
    ensures Good(Patch(arena, at, d), push, files[id := g], disk) == true
    ensures OthersSame(id, arena, files, disk, Patch(arena, at, d), files[id := g], disk) == true
  {
    assert Agrees(arena, files[id], Stored(disk, id));
    ClearInside(files, id, g.off, g.len);
    ClearInside(files, id, at, |d|);
    Replace(arena, push, files, disk, id, g, at, d, push);
  }

  lemma Overwritten(arena: seq<byte>, push: nat, files: map<nat, File>, disk: map<nat, seq<byte>>, id: nat, off: nat,
                    d: seq<byte>, g: File, at: nat)
    requires id in files && off + |d| <= files[id].len && files[id].off + files[id].len <= |arena|
    requires at == g.off + off && g.off == files[id].off && g.len == files[id].len && g.dirty
    ensures Contents(Patch(arena, at, d), files[id := g], disk, id) == Patch(Contents(arena, files, disk, id), off, d)
    ensures Good(arena, push, files, disk) ==> Good(Patch(arena, at, d), push, files[id := g], disk) == true
    ensures Good(arena, push, files, disk) ==>
      OthersSame(id, arena, files, disk, Patch(arena, at, d), files[id := g], disk) == true
    ensures Disjoint(files[id := g]) ==> Disjoint(files)
    ensures Used(files[id := g]) == Used(files)
  {
    if Good(arena, push, files, disk) { WriteInside(arena, push, files, disk, id, d, g, at); }
    OverwrittenContents(arena, files, disk, id, off, d, g, at);
    UsedWith(files, id, g);
    SameApart(files, id, g);
  }

  /** What lies inside one file lies outside the others. */
  lemma ClearInside(files: map<nat, File>, id: nat, start: nat, n: nat)
    requires Disjoint(files) && id in files && files[id].off <= start && start + n <= files[id].off + files[id].len
    ensures ClearOf(files, id, start, n)
  {
    forall x | x in files && x != id && n > 0
      ensures files[x].len == 0 || files[x].off + files[x].len <= start || start + n <= files[x].off
    {
      assert Apart(files[x], files[id]);
    }
  }

  lemma OverwrittenContents(arena: seq<byte>, files: map<nat, File>, disk: map<nat, seq<byte>>, id: nat, off: nat,
                            d: seq<byte>, g: File, at: nat)
    requires id in files && g.off == files[id].off && g.len == files[id].len && g.off + g.len <= |arena|
    requires at == g.off + off && off + |d| <= g.len
    ensures Contents(Patch(arena, at, d), files[id := g], disk, id) == Patch(Contents(arena, files, disk, id), off, d)
  {
    OverwrittenBytes(arena, files[id], g, off, d, at, Patch(arena, at, d));
  }

  lemma OverwrittenBytes(arena: seq<byte>, f: File, g: File, off: nat, d: seq<byte>, at: nat, arena': seq<byte>)
    requires g.off == f.off && g.len == f.len && g.off + g.len <= |arena|
    requires at == g.off + off && off + |d| <= g.len && arena' == Patch(arena, at, d)
    ensures Bytes(arena', g) == Patch(Bytes(arena, f), off, d)
  {
    PatchInside(arena, g.off, g.off + g.len, off, d, at);
  }

  lemma PatchInside(arena: seq<byte>, start: nat, end: nat, off: nat, d: seq<byte>, at: nat)
    requires at == start + off && at + |d| <= end <= |arena|
    ensures Patch(arena, at, d)[start..end] == Patch(arena[start..end], off, d)
  {
  }

  /** The bytes a file has on disk after a write at its start. */
  function Overlay(stored: seq<byte>, d: seq<byte>): (r: seq<byte>)
    ensures |stored| <= |d| ==> r == d
    ensures |r| == if |d| < |stored| then |stored| else |d|
  {
    if |d| < |stored| then d + stored[|d|..] else d
  }

  /** What a failed write leaves: part of the data over the old bytes, the size as before. */
  function Partial(stored: seq<byte>, d: seq<byte>, k: nat): (r: seq<byte>)
    ensures |r| == |stored|
  {
    var n := if k < |d| then k else |d|;
    Overlay(stored, d[..n])[..|stored|]
  }

  // ---------------------------------------------------------------- listing and scoring

  ghost predicate Listed(live: seq<nat>, id: nat) {
    exists i :: 0 <= i < |live| && live[i] == id
  }

  /** Each of the ids once. */
  ghost predicate Lists(live: seq<nat>, ids: set<nat>) {
    && (forall id {:trigger Listed(live, id)} :: id in ids ==> Listed(live, id))
    && (forall i :: 0 <= i < |live| ==> live[i] in ids)
    && (forall i, j :: 0 <= i < j < |live| ==> live[i] != live[j])
  }

  ghost predicate ByOffset(files: map<nat, File>, live: seq<nat>) {
    && (forall i :: 0 <= i < |live| ==> live[i] in files)
    && (forall i, j :: 0 <= i < j < |live| ==> files[live[i]].off <= files[live[j]].off)
  }

  lemma ListOneMore(live: seq<nat>, ids: set<nat>, m: nat)
    requires Lists(live, ids) && m !in ids
    ensures Lists(live + [m], ids + {m})
  {
    var live' := live + [m];
    forall id | id in ids + {m} ensures Listed(live', id) {
      if id == m {
        assert live'[|live|] == m;
      } else {
        assert Listed(live, id);
        var i :| 0 <= i < |live| && live[i] == id;
        assert live'[i] == id;
      }
    }
  }

  method Lowest(files: map<nat, File>, ids: set<nat>) returns (m: nat)
    requires ids <= files.Keys && ids != {}
    ensures m in ids && forall id :: id in ids ==> files[m].off <= files[id].off
  {
    m :| m in ids;
    var rest := ids - {m};
    while rest != {}
      invariant rest <= ids && m in ids
      invariant forall id :: id in ids - rest ==> files[m].off <= files[id].off
      decreases rest
    {
      var id :| id in rest;
      if files[id].off < files[m].off { m := id; }
      rest := rest - {id};
    }
  }

  /** The cached files in the order of their place in the arena. */
  method SortByOffset(files: map<nat, File>) returns (live: seq<nat>)
    ensures Lists(live, files.Keys) && ByOffset(files, live)
  {
    live := [];
    var rest := files.Keys;
    while rest != {}
      invariant rest <= files.Keys && Lists(live, files.Keys - rest) && ByOffset(files, live)
      invariant forall i, id :: 0 <= i < |live| && id in rest ==> files[live[i]].off <= files[id].off
      decreases rest
    {
      var m := Lowest(files, rest);
      ListOneMore(live, files.Keys - rest, m);
      assert files.Keys - rest + {m} == files.Keys - (rest - {m});
      live := live + [m];
      rest := rest - {m};
    }
  }

  /** The larger the score, the sooner a file is evicted. */
  function Score(f: File, tick: nat): (s: nat)
    ensures s == 0 <==> f.importance == 0
    ensures s < U64
  {
    var priority := if f.importance >= RESIDENT then U64 - 1 else f.importance;
    var age := (tick - f.lastAccess) % U64;
    var product := priority * (if age < 1 then 1 else age);
    assert priority > 0 ==> product >= priority;
    if product >= U64 then U64 - 1 else product
  }

  predicate Evictable(f: File, id: nat, keep: nat, force: bool) {
    id != keep && (force || (!f.pinned && f.importance < RESIDENT))
  }

  /** While nothing overflows, the score is the importance times the age, which counts as one at least. */
  lemma ScoreIs(f: File, tick: nat)
    requires f.importance < RESIDENT && f.lastAccess <= tick && 5 * tick < U64 - 1
    ensures Score(f, tick) == f.importance * (if tick == f.lastAccess then 1 else tick - f.lastAccess)
    ensures Score(f, tick) < U64 - 1
  {
    var age := tick - f.lastAccess;
    assert age % U64 == age;
    var n := if age < 1 then 1 else age;
    Bounded(f.importance, n, tick);
  }

  lemma Bounded(p: nat, n: nat, tick: nat)
    requires p <= 5 && 1 <= n && (n <= tick || n == 1) && 5 * tick < U64 - 1
    ensures p * n < U64 - 1
  {
    assert p * n <= 5 * n;
  }

  lemma ResidentScore(f: File, tick: nat)
    requires f.importance >= RESIDENT
    ensures Score(f, tick) == U64 - 1
  {
    var age := (tick - f.lastAccess) % U64;
    var n := if age < 1 then 1 else age;
    assert (U64 - 1) * n >= U64 - 1;
  }

  /** Of two files that are equally important the one used longer ago goes first, and of two that were
      used at the same time the more important one. */
  lemma VictimOrder(files: map<nat, File>, tick: nat, keep: nat, force: bool, v: nat, id: nat)
    requires IsVictim(files, tick, keep, force, v) && id in files && Evictable(files[id], id, keep, force)
    requires files[v].importance < RESIDENT && files[id].importance < RESIDENT && 5 * tick < U64 - 1
    requires files[v].lastAccess < tick && files[id].lastAccess < tick
    ensures files[id].importance == files[v].importance ==> files[v].lastAccess <= files[id].lastAccess
    ensures files[id].lastAccess == files[v].lastAccess ==> files[id].importance <= files[v].importance
  {
    var f, g := files[v], files[id];
    ScoreIs(f, tick);
    ScoreIs(g, tick);
    if g.lastAccess < f.lastAccess { Scaled(f.importance, tick - f.lastAccess, tick - g.lastAccess); }
    if g.importance > f.importance { Scaled(tick - f.lastAccess, f.importance, g.importance); }
  }

  lemma Scaled(p: nat, a: nat, b: nat)
    requires p > 0 && a < b
    ensures p * a < p * b && a * p < b * p
  {
    assert p * b == p * a + p * (b - a);
  }

  /** A forced eviction takes a resident file before any other, if there is one to take. */
  lemma ResidentGoesFirst(files: map<nat, File>, tick: nat, keep: nat, v: nat, id: nat)
    requires IsVictim(files, tick, keep, true, v) && id in files && id != keep && files[id].importance >= RESIDENT
    requires 5 * tick < U64 - 1 && files[v].lastAccess <= tick
    ensures files[v].importance >= RESIDENT
  {
    ResidentScore(files[id], tick);
    if files[v].importance < RESIDENT { ScoreIs(files[v], tick); }
  }

  /** File v is evictable, has a score above zero, and no evictable file has a higher one. */
  ghost predicate IsVictim(files: map<nat, File>, tick: nat, keep: nat, force: bool, v: nat) {
    && v in files && Evictable(files[v], v, keep, force) && Score(files[v], tick) > 0
    && forall id :: id in files && Evictable(files[id], id, keep, force)
        ==> Score(files[id], tick) <= Score(files[v], tick)
  }

  /** Every evictable file has score zero. */
  ghost predicate NoVictim(files: map<nat, File>, tick: nat, keep: nat, force: bool) {
    forall id :: id in files && Evictable(files[id], id, keep, force) ==> Score(files[id], tick) == 0
  }

  /** Whom an eviction may take: never the file to keep, and only by force one that is pinned or
      resident. It takes nobody only if all others are of no importance. */
  lemma VictimRules(files: map<nat, File>, tick: nat, keep: nat, force: bool, v: nat)
    ensures IsVictim(files, tick, keep, force, v) ==>
      && v in files && v != keep && files[v].importance > 0
      && (!force ==> !files[v].pinned && files[v].importance < 6)
    ensures NoVictim(files, tick, keep, force) ==>
      forall id :: id in files && id != keep && files[id].importance > 0 ==>
        !force && (files[id].pinned || files[id].importance >= 6)
  {
    forall id | id in files && files[id].importance > 0 ensures Score(files[id], tick) > 0 {}
  }

  /** The evictable file with the highest score, INVALID exactly if no score is above zero. */
  method PickVictim(files: map<nat, File>, tick: nat, keep: nat, force: bool) returns (best: nat)
    requires INVALID !in files
    ensures best != INVALID ==> IsVictim(files, tick, keep, force, best)
    ensures best == INVALID ==> NoVictim(files, tick, keep, force)
  {
    best := INVALID;
    var bestScore := 0;
    var rest := files.Keys;
    while rest != {}
      invariant rest <= files.Keys
      invariant bestScore > 0 ==>
        best in files && Evictable(files[best], best, keep, force) && Score(files[best], tick) == bestScore
      invariant bestScore == 0 ==> best == INVALID
      invariant bestScore >= 0
      invariant forall id :: id in files.Keys - rest && Evictable(files[id], id, keep, force) ==>
        Score(files[id], tick) <= bestScore
      decreases rest
    {
      var id :| id in rest;
      if Evictable(files[id], id, keep, force) && Score(files[id], tick) > bestScore {
        best, bestScore := id, Score(files[id], tick);
      }
      rest := rest - {id};
    }
  }

  // ---------------------------------------------------------------- series of evictions

  /** Whether file v can be dropped, being clean or written back by the next driver call. */
  predicate CanDrop(f: File, v: nat, disk: map<nat, seq<byte>>, script: seq<Fault>) {
    f.dirty ==> v in disk && FirstFault(script).Fine?
  }

  predicate AllFine(script: seq<Fault>) {
    forall i :: 0 <= i < |script| ==> script[i].Fine?
  }

  /** The same files but for their places in the arena. */
  ghost predicate SameButPlaces(a: map<nat, File>, b: map<nat, File>) {
    a.Keys == b.Keys && forall id :: id in a ==> b[id] == a[id].(off := b[id].off)
  }

  /** What is left of the files after these have gone. */
  ghost function Minus(files: map<nat, File>, vs: seq<nat>): map<nat, File> {
    if vs == [] then files else Minus(files - {vs[0]}, vs[1..])
  }

  /** These files, none of them empty, are victims one after the other. */
  ghost predicate Evictions(files: map<nat, File>, tick: nat, keep: nat, force: bool, vs: seq<nat>) {
    vs == [] || (IsVictim(files, tick, keep, force, vs[0]) && files[vs[0]].len > 0
                 && Evictions(files - {vs[0]}, tick, keep, force, vs[1..]))
  }

  /** The test whether compacting pays, with `used` bytes left after `evicted` have gone. The code
      subtracts the evicted size a second time, as an unsigned difference. */
  predicate Pays(size: nat, needed: nat, used: int, evicted: nat) {
    0 <= used + needed - evicted <= size
  }

  lemma PaysIff(size: nat, needed: nat, used: int, evicted: nat)
    ensures Pays(size, needed, used, evicted) <==> evicted <= used + needed <= size + evicted
  {
  }

  /** The push offset after these evictions. */
  ghost function PushAfter(size: nat, needed: nat, push: nat, files: map<nat, File>, vs: seq<nat>): nat
    decreases |vs|
  {
    if vs == [] || vs[0] !in files then push else
      var rest := files - {vs[0]};
      PushAfter(size, needed, if Pays(size, needed, Used(rest), files[vs[0]].len) then Used(rest) else push, rest,
          vs[1..])
  }

  /** After one of these evictions the rest and the needed bytes fit, and it has not evicted more
      than those are. */
  ghost predicate RoomMade(size: nat, needed: nat, files: map<nat, File>, vs: seq<nat>)
    decreases |vs|
  {
    && vs != [] && vs[0] in files
    && var rest := files - {vs[0]};
       files[vs[0]].len <= Used(rest) + needed <= size || RoomMade(size, needed, rest, vs[1..])
  }

  /** Room is made exactly by an eviction after which the rest and the needed bytes fit, unless
      it has evicted more than those are. */
  lemma {:induction false} RoomIff(size: nat, needed: nat, push: nat, files: map<nat, File>, tick: nat, keep: nat,
                                   force: bool, vs: seq<nat>)
    requires Evictions(files, tick, keep, force, vs) && Used(files) <= push
    ensures PushAfter(size, needed, push, files, vs) + needed <= size <==>
      push + needed <= size || RoomMade(size, needed, files, vs)
    decreases |vs|
  {
    if vs == [] { return; }
    var rest := files - {vs[0]};
    UsedWithout(files, vs[0]);
    var next := if Pays(size, needed, Used(rest), files[vs[0]].len) then Used(rest) else push;
    RoomIff(size, needed, next, rest, tick, keep, force, vs[1..]);
  }

  lemma {:induction false} OneMore(size: nat, needed: nat, push: nat, files: map<nat, File>, tick: nat, keep: nat,
                                   force: bool, vs: seq<nat>, v: nat)
    requires Evictions(files, tick, keep, force, vs)
    requires IsVictim(Minus(files, vs), tick, keep, force, v) && Minus(files, vs)[v].len > 0
    ensures Evictions(files, tick, keep, force, vs + [v]) && Minus(files, vs + [v]) == Minus(files, vs) - {v}
    ensures var left := Minus(files, vs); var before := PushAfter(size, needed, push, files, vs);
      PushAfter(size, needed, push, files, vs + [v])
        == if Pays(size, needed, Used(left - {v}), left[v].len) then Used(left - {v}) else before
    decreases |vs|
  {
    if vs != [] {
      var rest := files - {vs[0]};
      var next := if Pays(size, needed, Used(rest), files[vs[0]].len) then Used(rest) else push;
      OneMore(size, needed, next, rest, tick, keep, force, vs[1..], v);
      assert (vs + [v])[1..] == vs[1..] + [v];
    } else {
      assert ([v])[1..] == [];
    }
  }

  /** Before each of these evictions there was no room. */
  ghost predicate AllNeeded(size: nat, needed: nat, push: nat, files: map<nat, File>, vs: seq<nat>) {
    forall n :: 0 <= n < |vs| ==> PushAfter(size, needed, push, files, vs[..n]) + needed > size
  }

  lemma OneMoreNeeded(size: nat, needed: nat, push: nat, files: map<nat, File>, vs: seq<nat>, v: nat)
    requires AllNeeded(size, needed, push, files, vs) && PushAfter(size, needed, push, files, vs) + needed > size
    ensures AllNeeded(size, needed, push, files, vs + [v])
  {
    forall n | 0 <= n < |vs + [v]| ensures PushAfter(size, needed, push, files, (vs + [v])[..n]) + needed > size {
      assert (vs + [v])[..n] == if n < |vs| then vs[..n] else vs;
    }
  }

  /** A cache that has evicted these files, compacting where that paid. */
  ghost predicate Evicts(counted: bool, size: nat, needed: nat, push0: nat, files0: map<nat, File>, tick: nat,
                         keep: nat, force: bool, vs: seq<nat>, push: nat, files: map<nat, File>) {
    && Evictions(files0, tick, keep, force, vs) && SameButPlaces(Minus(files0, vs), files)
    && (vs == [] ==> push == push0) && (counted ==> push == PushAfter(size, needed, push0, files0, vs))
    && (counted ==> AllNeeded(size, needed, push0, files0, vs))
  }

  /** No further eviction is possible: there is no victim, or it is file `last`, which is empty
      or cannot be written back. */
  ghost predicate IsStuck(files: map<nat, File>, tick: nat, keep: nat, force: bool, last: nat,
                          disk: map<nat, seq<byte>>, script: seq<Fault>) {
    if last == INVALID then NoVictim(files, tick, keep, force)
    else && IsVictim(files, tick, keep, force, last)
         && (files[last].len == 0 || (files[last].dirty && (last !in disk || !AllFine(script))))
  }

  /** What one call for an eviction comes to: the answer is 0 exactly if there is no victim, the
      victim is empty or it cannot be written back. */
  ghost predicate EvictOutcome(size: nat, victim: nat, tick: nat, keep: nat, force: bool, files0: map<nat, File>,
                               disk0: map<nat, seq<byte>>, script0: seq<Fault>, files: map<nat, File>) {
    if victim == INVALID then NoVictim(files0, tick, keep, force) && size == 0 && files == files0
    else
      && IsVictim(files0, tick, keep, force, victim)
      && (size == 0 <==> files0[victim].len == 0 || !CanDrop(files0[victim], victim, disk0, script0))
      && if CanDrop(files0[victim], victim, disk0, script0)
         then files == files0 - {victim} && size == files0[victim].len
         else files == files0
  }

  lemma EvictedOne(size: nat, victim: nat, tick: nat, keep: nat, force: bool, files0: map<nat, File>,
                   disk0: map<nat, seq<byte>>, script0: seq<Fault>, files: map<nat, File>)
    requires EvictOutcome(size, victim, tick, keep, force, files0, disk0, script0, files) && size > 0
    ensures IsVictim(files0, tick, keep, force, victim) == true && victim in files0 && files0[victim].len == size
    ensures files == files0 - {victim} && files.Keys < files0.Keys
  {
  }

  lemma EvictedNone(size: nat, victim: nat, tick: nat, keep: nat, force: bool, files0: map<nat, File>,
                    disk1: map<nat, seq<byte>>, script1: seq<Fault>, files: map<nat, File>,
                    disk0: map<nat, seq<byte>>, script0: seq<Fault>)
    requires EvictOutcome(size, victim, tick, keep, force, files0, disk1, script1, files) && size == 0
    requires disk1.Keys == disk0.Keys && (AllFine(script0) ==> AllFine(script1))
    ensures IsStuck(files0, tick, keep, force, victim, disk0, script0) == true
    ensures files == files0 || files == files0 - {victim}
  {
  }

  /** What making room comes to. It succeeds or it gets stuck. */
  ghost predicate RoomOutcome(ok: bool, counted: bool, size: nat, needed: nat, push0: nat, files0: map<nat, File>,
                              tick: nat, keep: nat, force: bool, disk0: map<nat, seq<byte>>, script0: seq<Fault>,
                              vs: seq<nat>, last: nat, push: nat, files: map<nat, File>) {
    && (ok <==> push + needed <= size)
    && Evictions(files0, tick, keep, force, vs)
    && (counted ==> (ok <==> push0 + needed <= size || RoomMade(size, needed, files0, vs)))
    && (counted ==> push == PushAfter(size, needed, push0, files0, vs)) && (vs == [] ==> push == push0)
    && (counted ==> AllNeeded(size, needed, push0, files0, vs))
    && (ok ==> SameButPlaces(Minus(files0, vs), files))
    && (!ok ==> IsStuck(Minus(files0, vs), tick, keep, force, last, disk0, script0))
    && (!ok ==> SameButPlaces(Minus(files0, vs), files) || SameButPlaces(Minus(files0, vs) - {last}, files))
  }

  /** The files with one of them taken for dirty. */
  function Marked(files: map<nat, File>, id: nat): map<nat, File> {
    if id in files then files[id := files[id].(dirty := true)] else files
  }

  /** Some series of evictions has this outcome. */
  ghost predicate RoomSought(ok: bool, counted: bool, size: nat, needed: nat, push0: nat, files0: map<nat, File>,
                             tick: nat, keep: nat, force: bool, disk0: map<nat, seq<byte>>, script0: seq<Fault>) {
    exists vs, last, push, files ::
      RoomOutcome(ok, counted, size, needed, push0, files0, tick, keep, force, disk0, script0, vs, last, push, files)
  }

  /** Room for a file to grow up to `end` has been sought, and found or not. */
  ghost predicate GrowthSought(ok: bool, counted: bool, size: nat, push0: nat, files0: map<nat, File>, id: nat,
                               end: nat, tick: nat, disk0: map<nat, seq<byte>>, script0: seq<Fault>) {
    && id in files0 && files0[id].len < end
    && RoomSought(ok, counted, size, end - files0[id].len, push0, Marked(files0, id), tick, id, true, disk0, script0)
  }

  lemma GrowthIs(ok: bool, counted: bool, size: nat, push0: nat, files0: map<nat, File>, id: nat, end: nat,
                 tick: nat, disk0: map<nat, seq<byte>>, script0: seq<Fault>, extra: nat)
    requires id in files0 && files0[id].len < end && extra == end - files0[id].len
    requires RoomSought(ok, counted, size, extra, push0, Marked(files0, id), tick, id, true, disk0, script0) == true
    ensures GrowthSought(ok, counted, size, push0, files0, id, end, tick, disk0, script0) == true
  {
  }

  /** One more eviction, with or without a compaction. */
  lemma EvictsMore(counted: bool, size: nat, needed: nat, push0: nat, files0: map<nat, File>, tick: nat, keep: nat,
                   force: bool, vs: seq<nat>, push1: nat, files1: map<nat, File>, v: nat, rest: map<nat, File>,
                   push: nat, files: map<nat, File>)
    requires Evicts(counted, size, needed, push0, files0, tick, keep, force, vs, push1, files1) == true
    requires IsVictim(files1, tick, keep, force, v) == true && v in files1 && files1[v].len > 0 && rest == files1 - {v}
    requires SameButPlaces(rest, files) && push1 + needed > size
    requires counted ==> push == if Pays(size, needed, Used(rest), files1[v].len) then Used(rest) else push1
    ensures Evicts(counted, size, needed, push0, files0, tick, keep, force, vs + [v], push, files) == true
  {
    var left := Minus(files0, vs);
    SameVictims(left, files1, tick, keep, force, v);
    OneMore(size, needed, push0, files0, tick, keep, force, vs, v);
    if counted { OneMoreNeeded(size, needed, push0, files0, vs, v); }
    TotalSame(left - {v}, rest, rest.Keys);
  }

  lemma RoomDone(ok: bool, counted: bool, size: nat, needed: nat, push0: nat, files0: map<nat, File>,
                 tick: nat, keep: nat, force: bool, disk0: map<nat, seq<byte>>, script0: seq<Fault>,
                 vs: seq<nat>, last: nat, push: nat, files1: map<nat, File>, files: map<nat, File>)
    requires Evicts(counted, size, needed, push0, files0, tick, keep, force, vs, push, files1) == true
    requires Used(files0) <= push0 && (ok <==> push + needed <= size)
    requires ok ==> files == files1
    requires !ok ==> IsStuck(files1, tick, keep, force, last, disk0, script0)
    requires !ok ==> files == files1 || files == files1 - {last}
    ensures RoomOutcome(ok, counted, size, needed, push0, files0, tick, keep, force, disk0, script0, vs, last, push,
        files)
  {
    SameVictims(Minus(files0, vs), files1, tick, keep, force, last);
    RoomIff(size, needed, push0, files0, tick, keep, force, vs);
  }

  /** A single file can wedge the cache: if the request is smaller than the file, evicting it is
      not followed by a compaction, and the push offset stays where it was. */
  lemma OneFile(ok: bool, size: nat, needed: nat, push0: nat, files0: map<nat, File>,
                tick: nat, keep: nat, force: bool, disk0: map<nat, seq<byte>>, script0: seq<Fault>,
                vs: seq<nat>, last: nat, push: nat, files: map<nat, File>, v: nat)
    requires RoomOutcome(ok, true, size, needed, push0, files0, tick, keep, force, disk0, script0, vs, last, push,
        files)
    requires files0.Keys == {v} && needed < files0[v].len && push0 + needed > size
    ensures !ok && push == push0
  {
    if vs != [] {
      var rest := files0 - {v};
      UsedWithout(files0, v);
      assert vs[0] == v && rest == map[];
      assert Used(rest) == 0;
      assert Evictions(rest, tick, keep, force, vs[1..]);
      assert vs[1..] == [];
      assert !RoomMade(size, needed, files0, vs);
      assert PushAfter(size, needed, push0, files0, vs) == PushAfter(size, needed, push0, rest, vs[1..]);
    }
  }

  lemma SameVictims(a: map<nat, File>, b: map<nat, File>, tick: nat, keep: nat, force: bool, v: nat)
    requires SameButPlaces(a, b)
    ensures IsVictim(a, tick, keep, force, v) <==> IsVictim(b, tick, keep, force, v)
    ensures NoVictim(a, tick, keep, force) <==> NoVictim(b, tick, keep, force)
    ensures SameButPlaces(a - {v}, b - {v}) && Used(a) == Used(b)
  {
    forall id | id in a && Evictable(a[id], id, keep, force) ensures Score(b[id], tick) == Score(a[id], tick) {
    }
    TotalSame(a, b, a.Keys);
  }

  // ---------------------------------------------------------------- the three ways to grow

  /** Whether a file gets `end` bytes in one of the two ways that do not compact: as it is or in
      place at the tail, or by a copy at the tail. */
  predicate GrowsSimply(size: nat, push: nat, f: File, end: nat) {
    end <= f.len || (f.off + f.len == push && push + (end - f.len) <= size) || push + end <= size
  }

  /** Neither of these, and yet the extra bytes alone would fit behind the push offset, so that
      no eviction and no compaction takes place. */
  predicate GrowsWhereItIs(size: nat, push: nat, f: File, end: nat) {
    !GrowsSimply(size, push, f, end) && push + (end - f.len) <= size
  }

  /** A write up to `end` into file id does what it should: compaction spares the file, if there
      has to be one. */
  ghost predicate Sound(size: nat, push: nat, files: map<nat, File>, id: nat, end: nat) {
    && id in files && !GrowsWhereItIs(size, push, files[id], end)
    && (GrowsSimply(size, push, files[id], end) || Intact(files, id))
  }

  /** The bytes between the end of the file and off that lie below the push offset are zero. */
  ghost predicate ZeroHole(arena: seq<byte>, push: nat, f: File, off: nat) {
    forall i :: f.off + f.len <= i < f.off + off && i < push && i < |arena| ==> arena[i] == 0
  }

  // ---------------------------------------------------------------- the cache

  /** Where compaction stands: the first i files of the list lie packed below w. */
  ghost predicate Packing(files: map<nat, File>, live: seq<nat>, i: nat, w: nat) {
    && i <= |live| && ByOffset(files, live[i..])
    && (forall j :: 0 <= j < i ==> live[j] in files && files[live[j]].off + files[live[j]].len <= w)
    && (forall j :: i <= j < |live| ==> live[j] in files && (files[live[j]].len > 0 ==> w <= files[live[j]].off))
  }

  /** The next file can move down to w, and then the one after it is next. */
  lemma PackNext(arena: seq<byte>, push: nat, files: map<nat, File>, disk: map<nat, seq<byte>>, live: seq<nat>, i: nat,
                 w: nat)
    requires Good(arena, push, files, disk) && Lists(live, files.Keys) && Packing(files, live, i, w) && i < |live|
    ensures live[i] in files && (files[live[i]].len > 0 ==> w <= files[live[i]].off)
    ensures forall x :: x in files && x != live[i] ==>
      files[x].len == 0 || files[x].off + files[x].len <= w || files[live[i]].off + files[live[i]].len <= files[x].off
    ensures var f := files[live[i]]; Packing(files[live[i] := f.(off := w)], live, i + 1, w + f.len)
  {
    var id, f := live[i], files[live[i]];
    var files' := files[id := f.(off := w)];
    assert live[i..][0] == id;
    forall j | i < j < |live|
      ensures live[j] in files && f.off <= files[live[j]].off
      ensures f.len > 0 && files[live[j]].len > 0 ==> f.off + f.len <= files[live[j]].off
    {
      assert live[i..][j - i] == live[j];
      assert Apart(f, files[live[j]]);
    }
    forall x | x in files && x != id
      ensures files[x].len == 0 || files[x].off + files[x].len <= w || f.off + f.len <= files[x].off
    {
      assert Listed(live, x);
      var j :| 0 <= j < |live| && live[j] == x;
    }
    assert live[i + 1..] == live[i..][1..];
  }

  class Cache {
    var arena: seq<byte>
    var push: nat
    var used: int
    var tick: nat
    var files: map<nat, File>
    var hints: map<nat, nat>
    var disk: map<nat, seq<byte>>        // the driver's files
    var script: seq<Fault>               // how its next calls go

    ghost predicate Valid()
      reads this
    {
      Good(arena, push, files, disk) && INVALID !in files && INVALID !in disk
    }

    /** The counter is the sum of the cached lengths. */
    ghost predicate Counted()
      reads this
    {
      used == Used(files)
    }

    constructor (maxMemory: nat, contents: map<nat, seq<byte>>, faults: seq<Fault>)
      requires INVALID !in contents
      ensures Valid() && Counted() && arena == Zeros(maxMemory) && push == 0 && files == map[] && disk == contents
      ensures script == faults && used == 0 && tick == 0 && hints == map[]
    {
      arena, push, used, tick := Zeros(maxMemory), 0, 0, 0;
      files, hints, disk, script := map[], map[], contents, faults;
    }

    // ------------------------------------------------------------- the driver

    method NextFault() returns (f: Fault)
      modifies this`script
      ensures f == FirstFault(old(script)) && script == AfterFault(old(script))
    {
      if script == [] { return Fine; }
      f := script[0];
      script := script[1..];
    }

    /** Stores a cached file from its beginning. */
    method DriverWrite(id: nat) returns (ok: bool)
      requires Valid() && id in files && files[id].dirty
      modifies this`disk, this`script
      ensures Valid() && SameContents(arena, files, old(disk), arena, files, disk)
      ensures ok ==> Stored(disk, id) == Bytes(arena, files[id])
      ensures ok <==> CanDrop(files[id], id, old(disk), old(script))
      ensures disk.Keys == old(disk).Keys && script == AfterFault(old(script))
      ensures forall x: nat :: x != id ==> Stored(disk, x) == Stored(old(disk), x)
    {
      var fault := NextFault();
      if id !in disk { return false; }
      var d := Bytes(arena, files[id]);
      assert Agrees(arena, files[id], Stored(disk, id));
      match fault
      case Fail(k) =>
        StoreBack(arena, push, files, disk, id, Partial(disk[id], d, k));
        disk := disk[id := Partial(disk[id], d, k)];
        ok := false;
      case Fine =>
        StoreBack(arena, push, files, disk, id, Overlay(disk[id], d));
        disk := disk[id := Overlay(disk[id], d)];
        ok := true;
    }

    // ------------------------------------------------------------- eviction and compaction

    /** Packs the cached files at the front of the arena, in the order they lie in. */
    method Compact(ghost sortLast: nat)
      requires Valid() && sortLast !in files
      modifies this`arena, this`push, this`files
      ensures Valid() && SameContents(old(arena), old(files), disk, arena, files, disk)
      ensures |arena| == |old(arena)| && SameButPlaces(old(files), files)
      ensures push == Used(files) == Used(old(files)) <= old(push)
    {
      arena, files, push := PackAll(arena, push, files, disk);
    }

    /** Writes the victim back if it is dirty and drops it. Returns its length; that is 0 exactly
        if there is no victim, the victim is empty or it cannot be written back. No file's
        contents change. */
    method EvictOneKeepAlive(keep: nat, force: bool) returns (size: nat, ghost victim: nat)
      requires Valid()
      modifies this`files, this`used, this`disk, this`script
      ensures Valid() && SameContents(arena, old(files), old(disk), arena, files, disk) == true
      ensures EvictOutcome(size, victim, tick, keep, force, old(files), old(disk), old(script), files) == true
      ensures files.Keys <= old(files).Keys && forall id :: id in files ==> files[id] == old(files)[id]
      ensures keep in old(files) ==> keep in files
      ensures used == old(used) - size && (old(Counted()) ==> Counted())
      ensures disk.Keys == old(disk).Keys && (AllFine(old(script)) ==> AllFine(script))
      ensures Used(files - {keep}) <= Used(old(files) - {keep}) && Stored(disk, keep) == Stored(old(disk), keep)
    {
      var best := PickVictim(files, tick, keep, force);
      victim := best;
      if best == INVALID { return 0, best; }
      var ok := WriteBack(best, keep);
      if !ok { return 0, best; }
      size := files[best].len;
      Drop(best, keep);
    }

    /** Stores a cached file unless it is clean. */
    method WriteBack(id: nat, ghost keep: nat) returns (ok: bool)
      requires Valid() && id in files && id != keep
      modifies this`disk, this`script
      ensures Valid() && SameContents(arena, files, old(disk), arena, files, disk) == true
      ensures ok <==> CanDrop(files[id], id, old(disk), old(script))
      ensures ok ==> Stored(disk, id) == Bytes(arena, files[id])
      ensures disk.Keys == old(disk).Keys && (AllFine(old(script)) ==> AllFine(script))
      ensures Stored(disk, keep) == Stored(old(disk), keep)
    {
      ok := true;
      if files[id].dirty {
        ok := DriverWrite(id);
      } else {
        assert Agrees(arena, files[id], Stored(disk, id));
      }
    }

    /** A file whose bytes are on disk leaves the cache. */
    method Drop(id: nat, ghost keep: nat)
      requires Valid() && id in files && id != keep && Stored(disk, id) == Bytes(arena, files[id])
      modifies this`files, this`used
      ensures Valid() && SameContents(arena, old(files), disk, arena, files, disk) == true
      ensures files == old(files) - {id} && used == old(used) - old(files)[id].len
      ensures Used(old(files)) == old(files)[id].len + Used(files) && Used(files - {keep}) <= Used(old(files) - {keep})
    {
      Evict(arena, push, files, disk, id);
      UsedWithout(files, id);
      UsedWithoutBoth(files, id, keep);
      used, files := used - files[id].len, files - {id};
    }

    predicate SameState(arena0: seq<byte>, push0: nat, files0: map<nat, File>, used0: int, disk0: map<nat, seq<byte>>,
                        script0: seq<Fault>)
      reads this
    {
      arena == arena0 && push == push0 && files == files0 && used == used0 && disk == disk0 && script == script0
    }

    /** Evicts and compacts until `needed` bytes fit behind the push offset. Without room it makes
        some exactly if after one of the evictions the rest and the needed bytes fit and the
        evicted file was not longer than those; it gives up exactly when it is stuck before. */
    method EnsureSpace(needed: nat, keep: nat, force: bool) returns (ok: bool, ghost vs: seq<nat>, ghost last: nat)
      requires Valid() && keep !in files
      modifies this`arena, this`push, this`files, this`used, this`disk, this`script
      ensures Valid() && SameContents(old(arena), old(files), old(disk), arena, files, disk) == true
      ensures |arena| == |old(arena)| && files.Keys <= old(files).Keys && (old(Counted()) ==> Counted())
      ensures RoomOutcome(ok, old(Counted()), |arena|, needed, old(push), old(files), tick, keep, force,
                          old(disk), old(script), vs, last, push, files) == true
      ensures RoomSought(ok, old(Counted()), |arena|, needed, old(push), old(files), tick, keep, force,
                         old(disk), old(script)) == true
      ensures ok ==> push + needed <= |arena|
      ensures old(files == map[]) ==> (ok <==> old(push) + needed <= |arena|) && files == map[] && push == old(push)
      ensures AllFine(old(script)) ==> AllFine(script)
      ensures old(Counted() && push + needed > |arena|) ==>
        forall v :: old(files).Keys == {v} && needed < old(files)[v].len ==> !ok && push == old(push)
      ensures old(push + needed <= |arena|) ==>
        ok && SameState(old(arena), old(push), old(files), old(used), old(disk), old(script))
    {
      ok, vs, last := true, [], INVALID;
      ghost var counted, before := Counted(), files;
      assert Used(files) <= push by { TotalFits(files, files.Keys, push); }
      while ok && push + needed > |arena|
        invariant Valid() && SameContents(old(arena), old(files), old(disk), arena, files, disk) == true
        invariant |arena| == |old(arena)| && files.Keys <= old(files).Keys && (counted ==> Counted())
        invariant Evicts(counted, |arena|, needed, old(push), old(files), tick, keep, force, vs, push, before) == true
        invariant disk.Keys == old(disk).Keys && (AllFine(old(script)) ==> AllFine(script)) && (ok ==> files == before)
        invariant !ok ==> push + needed > |arena| && (files == before || files == before - {last})
        invariant !ok ==> IsStuck(before, tick, keep, force, last, old(disk), old(script)) == true
        invariant old(push + needed <= |arena|) ==>
          ok && SameState(old(arena), old(push), old(files), old(used), old(disk), old(script))
        decreases ok, files.Keys
      {
        ok, vs, last, before := EvictThenCompact(needed, keep, force, counted, old(push), old(files), old(disk),
            old(script), vs);
      }
      RoomDone(ok, counted, |arena|, needed, old(push), old(files), tick, keep, force, old(disk), old(script),
               vs, last, push, before, files);
      forall v | counted && old(files).Keys == {v} && needed < old(files)[v].len && old(push) + needed > |arena|
        ensures !ok && push == old(push)
      {
        OneFile(ok, |arena|, needed, old(push), old(files), tick, keep, force, old(disk), old(script),
                vs, last, push, files, v);
      }
    }

    method CompactIfPays(needed: nat, keep: nat, evicted: nat)
      requires Valid() && keep !in files
      modifies this`arena, this`push, this`files
      ensures Valid() && SameContents(old(arena), old(files), disk, arena, files, disk) == true
      ensures SameButPlaces(old(files), files) && |arena| == |old(arena)| && (old(Counted()) ==> Counted())
      ensures push == if Pays(|arena|, needed, used, evicted) then Used(old(files)) else old(push)
      ensures old(Counted()) ==>
        push == if Pays(|arena|, needed, Used(old(files)), evicted) then Used(old(files)) else old(push)
    {
      if Pays(|arena|, needed, used, evicted) { Compact(keep); }
    }

    /** One pass of EnsureSpace. */
    method EvictThenCompact(needed: nat, keep: nat, force: bool, ghost counted: bool, ghost push0: nat,
                            ghost files0: map<nat, File>, ghost disk0: map<nat, seq<byte>>, ghost script0: seq<Fault>,
                            ghost vs0: seq<nat>)
      returns (ok: bool, ghost vs: seq<nat>, ghost last: nat, ghost before: map<nat, File>)
      requires Valid() && keep !in files && (counted ==> Counted()) && push + needed > |arena|
      requires Evicts(counted, |arena|, needed, push0, files0, tick, keep, force, vs0, push, files) == true
      requires disk.Keys == disk0.Keys && (AllFine(script0) ==> AllFine(script))
      modifies this`arena, this`push, this`files, this`used, this`disk, this`script
      ensures Valid() && SameContents(old(arena), old(files), old(disk), arena, files, disk) == true
      ensures |arena| == |old(arena)| && (counted ==> Counted())
      ensures Evicts(counted, |arena|, needed, push0, files0, tick, keep, force, vs, push, before) == true
      ensures ok ==> files == before && files.Keys < old(files).Keys
      ensures disk.Keys == disk0.Keys && (AllFine(script0) ==> AllFine(script))
      ensures !ok ==> push == old(push) && before == old(files) && (files == before || files == before - {last})
      ensures !ok ==> IsStuck(before, tick, keep, force, last, disk0, script0) == true
    {
      var evicted;
      evicted, last := EvictOneKeepAlive(keep, force);
      if evicted == 0 {
        EvictedNone(0, last, tick, keep, force, old(files), old(disk), old(script), files, disk0, script0);
        return false, vs0, last, old(files);
      }
      EvictedOne(evicted, last, tick, keep, force, old(files), old(disk), old(script), files);
      ghost var rest := files;
      CompactIfPays(needed, keep, evicted);
      EvictsMore(counted, |arena|, needed, push0, files0, tick, keep, force, vs0, old(push), old(files), last, rest,
          push, files);
      ok, vs, before := true, vs0 + [last], files;
    }

    /** Compaction that puts a live file last: the files behind it are moved down before it is,
        and may be moved over it. */
    method CompactKeeping(id: nat)
      requires Valid() && id in files && files[id].dirty
      modifies this`arena, this`push, this`files
      ensures Valid() == true && id in files
      ensures files[id].off + files[id].len == push && |arena| == |old(arena)|
      ensures OthersSame(id, old(arena), old(files), disk, arena, files, disk) == true
      ensures old(Intact(files, id)) ==> Contents(arena, files, disk, id) == old(Contents(arena, files, disk, id))
      ensures KeptWhenIntact(old(arena), old(files), disk, id, arena, files) == true
      ensures SameButPlaces(old(files), files) && push == Used(files) == Used(old(files))
      ensures Used(files - {id}) == Used(old(files) - {id})
    {
      arena, files, push := PackAround(arena, push, files, disk, id);
    }

    /** The same for a file that stays: it is not evicted, and compaction puts it last. */
    method EnsureSpaceKeeping(needed: nat, id: nat, force: bool)
      returns (ok: bool, ghost vs: seq<nat>, ghost last: nat)
      requires Valid() && id in files && files[id].dirty && id != INVALID
      modifies this`arena, this`push, this`files, this`used, this`disk, this`script
      ensures Keeping(id, old(arena), old(push), old(files), old(disk)) == true
      ensures old(Counted()) ==> Counted()
      ensures RoomOutcome(ok, old(Counted()), |arena|, needed, old(push), old(files), tick, id, force,
                          old(disk), old(script), vs, last, push, files) == true
      ensures RoomSought(ok, old(Counted()), |arena|, needed, old(push), old(files), tick, id, force,
                         old(disk), old(script)) == true
      ensures ok ==> push + needed <= |arena|
      ensures ok && old(push) + needed > |arena| ==> files[id].off + files[id].len == push
    {
      KeepingStart(id);
      ok, vs, last := true, [], INVALID;
      ghost var counted, before := Counted(), files;
      assert Used(files) <= push by { TotalFits(files, files.Keys, push); }
      while ok && push + needed > |arena|
        invariant Keeping(id, old(arena), old(push), old(files), old(disk)) == true && (counted ==> Counted())
        invariant Evicts(counted, |arena|, needed, old(push), old(files), tick, id, force, vs, push, before) == true
        invariant ok ==> files == before && disk.Keys == old(disk).Keys && (AllFine(old(script)) ==> AllFine(script))
        invariant !ok ==> push + needed > |arena| && (files == before || files == before - {last})
        invariant !ok ==> IsStuck(before, tick, id, force, last, old(disk), old(script)) == true
        decreases ok, files.Keys
      {
        ok, vs, last, before :=
          EvictOrCompact(needed, id, force, old(arena), counted, old(push), old(files), old(disk), old(script), vs);
      }
      RoomDone(ok, counted, |arena|, needed, old(push), old(files), tick, id, force, old(disk), old(script),
               vs, last, push, before, files);
    }

    /** File id is still cached, dirty and as long; the other files hold what they held, and so
        does file id if it was intact. It has moved to the tail or nothing has moved. */
    ghost predicate Keeping(id: nat, arena0: seq<byte>, push0: nat, files0: map<nat, File>, disk0: map<nat, seq<byte>>)
      reads this
    {
      && Valid() && id in files && id in files0 && files[id] == files0[id].(off := files[id].off) && files[id].dirty
      && |arena| == |arena0| && files.Keys <= files0.Keys
      && OthersSame(id, arena0, files0, disk0, arena, files, disk)
      && Used(files - {id}) <= Used(files0 - {id}) && Stored(disk, id) == Stored(disk0, id)
      && (files[id].off + files[id].len == push || (push == push0 && files[id] == files0[id]))
      && (Intact(files0, id) ==>
            Intact(files, id) && Contents(arena, files, disk, id) == Contents(arena0, files0, disk0, id))
    }

    lemma KeepingStart(id: nat)
      requires Valid() && id in files && files[id].dirty
      ensures Keeping(id, arena, push, files, disk) == true
    {
    }

    method EvictKeeping(id: nat, force: bool, ghost arena0: seq<byte>, ghost push0: nat, ghost files0: map<nat, File>,
                        ghost disk0: map<nat, seq<byte>>) returns (size: nat, ghost victim: nat)
      requires Keeping(id, arena0, push0, files0, disk0) == true && id != INVALID
      modifies this`files, this`used, this`disk, this`script
      ensures Keeping(id, arena0, push0, files0, disk0) == true && (old(Counted()) ==> Counted())
      ensures EvictOutcome(size, victim, tick, id, force, old(files), old(disk), old(script), files) == true
      ensures disk.Keys == old(disk).Keys && (AllFine(old(script)) ==> AllFine(script))
    {
      size, victim := EvictOneKeepAlive(id, force);
      Evicted(id, arena0, push0, files0, disk0, old(arena), old(push), old(files), old(disk));
    }

    method EvictOrCompact(needed: nat, id: nat, force: bool, ghost arena0: seq<byte>, ghost counted: bool,
                          ghost push0: nat, ghost files0: map<nat, File>, ghost disk0: map<nat, seq<byte>>,
                          ghost script0: seq<Fault>, ghost vs0: seq<nat>)
      returns (ok: bool, ghost vs: seq<nat>, ghost last: nat, ghost before: map<nat, File>)
      requires Keeping(id, arena0, push0, files0, disk0) == true && id != INVALID && (counted ==> Counted())
      requires push + needed > |arena|
      requires Evicts(counted, |arena|, needed, push0, files0, tick, id, force, vs0, push, files) == true
      requires disk.Keys == disk0.Keys && (AllFine(script0) ==> AllFine(script))
      modifies this`arena, this`push, this`files, this`used, this`disk, this`script
      ensures Keeping(id, arena0, push0, files0, disk0) == true && |arena| == |old(arena)| && (counted ==> Counted())
      ensures Evicts(counted, |arena|, needed, push0, files0, tick, id, force, vs, push, before) == true
      ensures ok ==> files == before && files.Keys < old(files).Keys
      ensures disk.Keys == disk0.Keys && (AllFine(script0) ==> AllFine(script))
      ensures !ok ==> push == old(push) && before == old(files) && (files == before || files == before - {last})
      ensures !ok ==> IsStuck(before, tick, id, force, last, disk0, script0) == true
    {
      var evicted;
      evicted, last := EvictKeeping(id, force, arena0, push0, files0, disk0);
      if evicted == 0 {
        EvictedNone(0, last, tick, id, force, old(files), old(disk), old(script), files, disk0, script0);
        return false, vs0, last, old(files);
      }
      EvictedOne(evicted, last, tick, id, force, old(files), old(disk), old(script), files);
      ghost var rest := files;
      CompactOnIfPays(needed, evicted, id, arena0, push0, files0, disk0);
      EvictsMore(counted, |arena|, needed, push0, files0, tick, id, force, vs0, old(push), old(files), last, rest,
          push, files);
      ok, vs, before := true, vs0 + [last], files;
    }

    method CompactOnIfPays(needed: nat, evicted: nat, id: nat, ghost arena0: seq<byte>, ghost push0: nat,
                           ghost files0: map<nat, File>, ghost disk0: map<nat, seq<byte>>)
      requires Keeping(id, arena0, push0, files0, disk0) == true
      modifies this`arena, this`push, this`files
      ensures Keeping(id, arena0, push0, files0, disk0) == true
      ensures SameButPlaces(old(files), files) && |arena| == |old(arena)| && (old(Counted()) ==> Counted())
      ensures push == if Pays(|arena|, needed, used, evicted) then Used(old(files)) else old(push)
      ensures old(Counted()) ==>
        push == if Pays(|arena|, needed, Used(old(files)), evicted) then Used(old(files)) else old(push)
    {
      if Pays(|arena|, needed, used, evicted) { CompactOn(id, arena0, push0, files0, disk0); }
    }

    method CompactOn(id: nat, ghost arena0: seq<byte>, ghost push0: nat, ghost files0: map<nat, File>,
                     ghost disk0: map<nat, seq<byte>>)
      requires Keeping(id, arena0, push0, files0, disk0) == true
      modifies this`arena, this`push, this`files
      ensures Keeping(id, arena0, push0, files0, disk0) == true && |arena| == |old(arena)|
      ensures SameButPlaces(old(files), files) && push == Used(files) == Used(old(files))
    {
      CompactKeeping(id);
      TailIsIntact(files, id, push);
    }

    /** An eviction that spares file id keeps what Keeping says. */
    lemma Evicted(id: nat, arena0: seq<byte>, push0: nat, files0: map<nat, File>, disk0: map<nat, seq<byte>>,
                  arena1: seq<byte>, push1: nat, files1: map<nat, File>, disk1: map<nat, seq<byte>>)
      requires Valid() && arena == arena1 && push == push1 && id in files0 && id in files1 && id in files
      requires files1[id] == files0[id].(off := files1[id].off) && files1[id].dirty && files[id] == files1[id]
      requires |arena1| == |arena0| && files1.Keys <= files0.Keys && files.Keys <= files1.Keys
      requires OthersSame(id, arena0, files0, disk0, arena1, files1, disk1)
      requires SameContents(arena1, files1, disk1, arena, files, disk)
      requires Used(files1 - {id}) <= Used(files0 - {id}) && Used(files - {id}) <= Used(files1 - {id})
      requires Stored(disk1, id) == Stored(disk0, id) && Stored(disk, id) == Stored(disk1, id)
      requires files1[id].off + files1[id].len == push1 || (push1 == push0 && files1[id] == files0[id])
      requires Intact(files0, id) ==>
        Intact(files1, id) && Contents(arena1, files1, disk1, id) == Contents(arena0, files0, disk0, id)
      ensures Keeping(id, arena0, push0, files0, disk0) == true
    {
      forall x: nat | x != id ensures Contents(arena, files, disk, x) == Contents(arena0, files0, disk0, x) {
        assert Contents(arena, files, disk, x) == Contents(arena1, files1, disk1, x);
      }
    }

    /** Brings a file that is on disk into the cache. The memory counter misses it exactly when
        the file has been cached and its metadata cannot be read. */
    method Load(id: nat, size: nat) returns (r: Result<nat, Error>)
      requires Valid() && id !in files && id in disk && size == |disk[id]| > 0
      modifies this
      ensures Valid() && SameContents(old(arena), old(files), old(disk), arena, files, disk) && tick == old(tick)
      ensures r.Ok? ==> id in files && r.value == files[id].off && files[id].off + files[id].len == push
      ensures hints == old(hints)
      ensures old(Counted()) ==> used == Used(files) - (if Missed(r, id, old(files), files) then size else 0)
      ensures Missed(r, id, old(files), files) <==> r.Err? && id in files
      ensures old(push + size <= |arena|) ==> r != Err(CacheFull)
      ensures RoomSought(r != Err(CacheFull), old(Counted()), |old(arena)|, size, old(push), old(files), tick, INVALID,
                         true, old(disk), old(script)) == true
      ensures old(push + size <= |arena|) && FirstFault(old(script)).Fail? ==>
        r == Err(DriverError) && files == old(files) && push == old(push) + size && used == old(used)
      ensures old(files == map[] && push + size > |arena|) ==>
        r == Err(CacheFull) && files == map[] && push == old(push) && |arena| == |old(arena)|
      ensures old(push + size <= |arena|) ==> (Missed(r, id, old(files), files) <==> SecondFails(old(script)))
      ensures old(push + size <= |arena| && script == []) ==>
        r.Ok? && LoadedAt(id, old(arena), old(push), old(files), old(used), old(disk))
    {
      var ok, _, _ := EnsureSpace(size, INVALID, true);
      if !ok { return Err(CacheFull); }
      assert Contents(arena, files, disk, id) == Contents(old(arena), old(files), old(disk), id);
      r := ReadWhole(id, size);
    }

    /** File id has been read in behind the push offset and nothing else has changed. */
    ghost predicate LoadedAt(id: nat, arena0: seq<byte>, push0: nat, files0: map<nat, File>, used0: int,
                             disk0: map<nat, seq<byte>>)
      reads this
    {
      && id in disk0 && push0 + |disk0[id]| <= |arena0| && arena == Patch(arena0, push0, disk0[id])
      && files == files0[id := File(push0, |disk0[id]|, tick, false, false, if id in hints then hints[id] else NORMAL)]
      && push == push0 + |disk0[id]| && used == used0 + |disk0[id]| && disk == disk0 && script == []
    }

    /** Reads a file in behind the push offset. */
    method ReadWhole(id: nat, size: nat) returns (r: Result<nat, Error>)
      requires Valid() && id !in files && id in disk && size == |disk[id]| > 0 && push + size <= |arena|
      modifies this
      ensures Valid() && SameContents(old(arena), old(files), old(disk), arena, files, disk) == true
      ensures tick == old(tick) && hints == old(hints)
      ensures r.Ok? ==> id in files && r.value == files[id].off && files[id].off + files[id].len == push
      ensures old(Counted()) ==> used == Used(files) - (if Missed(r, id, old(files), files) then size else 0)
      ensures Missed(r, id, old(files), files) <==> r.Err? && id in files
      ensures Missed(r, id, old(files), files) <==> SecondFails(old(script))
      ensures r != Err(CacheFull)
      ensures FirstFault(old(script)).Fail? ==>
        r == Err(DriverError) && files == old(files) && push == old(push) + size && used == old(used)
      ensures old(script == []) ==>
              r.Ok? && LoadedAt(id, old(arena), old(push), old(files), old(used), old(disk)) == true
    {
      var off := push;
      var fault := NextFault();
      if fault.Fail? {
        ReadPart(id, if fault.written < size then fault.written else size, size);
        return Err(DriverError);
      }
      TakeIn(id, size);
      fault := NextFault();
      if fault.Fail? { return Err(DriverError); }
      used := used + size;
      r := Ok(off);
    }

    /** A failed read has written behind the push offset, which moves all the same. */
    method ReadPart(id: nat, n: nat, size: nat)
      requires Valid() && id in disk && n <= size == |disk[id]| && push + size <= |arena|
      modifies this`arena, this`push
      ensures Valid() && SameContents(old(arena), files, disk, arena, files, disk) == true
      ensures push == old(push) + size
    {
      Scribble(arena, push, files, disk, disk[id][..n], push + size);
      arena, push := Patch(arena, push, disk[id][..n]), push + size;
    }

    method TakeIn(id: nat, size: nat)
      requires Valid() && id !in files && id in disk && size == |disk[id]| && push + size <= |arena|
      modifies this`arena, this`push, this`files
      ensures Valid() && SameContents(old(arena), old(files), disk, arena, files, disk) == true
      ensures files == old(files)[id := File(old(push), size, tick, false, false,
          if id in hints then hints[id] else NORMAL)]
      ensures arena == Patch(old(arena), old(push), disk[id]) && push == old(push) + size
      ensures Used(files) == Used(old(files)) + size
    {
      var f := File(push, size, tick, false, false, if id in hints then hints[id] else NORMAL);
      ReadIn(arena, push, files, disk, id, f);
      UsedWith(files, id, f);
      arena, push, files := Patch(arena, push, disk[id]), push + size, files[id := f];
    }

    /** Caches a file whose size was given as zero, with room reserved for what is written next.
        That is right exactly when the file is empty. */
    method NewFile(id: nat, needed: nat) returns (ok: bool)
      requires Valid() && id !in files && id != INVALID && push + needed <= |arena|
      modifies this`arena, this`push, this`files, this`script
      ensures id in files && Contents(arena, files, disk, id) == []
      ensures OthersSame(id, old(arena), old(files), disk, arena, files, disk)
      ensures Valid() <==> Stored(disk, id) == []
      ensures Used(files) == Used(old(files))
      ensures ok == FirstFault(old(script)).Fine? && script == AfterFault(old(script))
      ensures push == old(push) + needed && |arena| == |old(arena)|
      ensures files == old(files)[id := File(old(push), 0, tick, false, false,
                                             if id in hints then hints[id] else NORMAL)]
    {
      Insert(id, needed);
      var fault := NextFault();
      ok := fault.Fine?;
    }

    method Insert(id: nat, needed: nat)
      requires Valid() && id !in files && id != INVALID && push + needed <= |arena|
      modifies this`arena, this`push, this`files
      ensures id in files && Contents(arena, files, disk, id) == []
      ensures OthersSame(id, old(arena), old(files), disk, arena, files, disk)
      ensures Valid() <==> Stored(disk, id) == []
      ensures Used(files) == Used(old(files))
      ensures push == old(push) + needed && |arena| == |old(arena)|
      ensures files == old(files)[id := File(old(push), 0, tick, false, false,
                                             if id in hints then hints[id] else NORMAL)]
    {
      var f := File(push, 0, tick, false, false, if id in hints then hints[id] else NORMAL);
      var bytes, next := Patch(arena, push, Zeros(needed)), push + needed;
      Reserve(arena, push, files, disk, id, f, bytes, next, Zeros(needed));
      UsedWith(files, id, f);
      arena, push, files := bytes, next, files[id := f];
    }

    /** Reads a range of a file through the cache, loading the whole file on a miss. The answer
        is that range of what the file holds, and no file's contents change. The memory counter
        stays right exactly unless the metadata of a file just loaded cannot be read. */
    method ReadFileRange(id: nat, off: nat, n: nat) returns (r: Result<seq<byte>, Error>)
      requires Valid()
      modifies this
      ensures Valid() && SameContents(old(arena), old(files), old(disk), arena, files, disk) == true
      ensures r.Ok? ==>
        var x := old(Contents(arena, files, disk, id));
        && |r.value| == (if off >= |x| then 0 else if n < |x| - off then n else |x| - off)
        && (forall i :: 0 <= i < |r.value| ==> r.value[i] == x[off + i]) && (id in files || x == [])
      ensures r == Err(CacheFull) ==>
        && id in old(disk)
        && RoomSought(false, old(Counted()), |old(arena)|, |old(disk)[id]|, old(push), old(files), tick, INVALID, true,
                      old(disk), AfterFault(old(script))) == true
      ensures old(id in files) ==>
        && r.Ok? && files == old(files)[id := old(files)[id].(lastAccess := tick)]
        && arena == old(arena) && push == old(push) && used == old(used) && disk == old(disk) && script == old(script)
      ensures old(Counted()) ==> (Counted() <==> !Missed(r, id, old(files), files))
      ensures Missed(r, id, old(files), files) <==> id !in old(files) && r.Err? && id in files
      ensures old(FitsBehind(id)) ==> (Missed(r, id, old(files), files) <==> ThirdFails(old(script)))
      ensures old(files == map[]) ==> (r == Err(CacheFull) <==> old(NeverFits(id)))
      ensures old(files == map[]) && r == Err(CacheFull) ==>
        files == map[] && push == old(push) && |arena| == |old(arena)|
      ensures old(FitsBehind(id) && script == []) ==>
        r.Ok? && LoadedAt(id, old(arena), old(push), old(files), old(used), old(disk)) == true
      ensures tick == (old(tick) + 1) % U64 && hints == old(hints)
    {
      tick := (tick + 1) % U64;
      if id in files {
        var buf := ReadHit(id, off, n);
        return Ok(buf);
      }
      r := ReadMiss(id, off, n);
    }

    method ReadHit(id: nat, off: nat, n: nat) returns (buf: seq<byte>)
      requires Valid() && id in files
      modifies this`files
      ensures Valid() && SameContents(arena, old(files), disk, arena, files, disk) == true
      ensures files == old(files)[id := old(files)[id].(lastAccess := tick)] && Used(files) == Used(old(files))
      ensures buf == Slice(old(Contents(arena, files, disk, id)), off, n)
    {
      assert Agrees(arena, files[id], Stored(disk, id));
      var g := files[id].(lastAccess := tick);
      Remark(arena, push, files, disk, id, g);
      files := files[id := g];
      buf := Slice(Bytes(arena, g), off, n);
    }

    method ReadMiss(id: nat, off: nat, n: nat) returns (r: Result<seq<byte>, Error>)
      requires Valid() && id !in files
      modifies this
      ensures Valid() && SameContents(old(arena), old(files), old(disk), arena, files, disk) == true
      ensures r.Ok? ==> r.value == Slice(Stored(old(disk), id), off, n)
      ensures r.Ok? ==> id in files || Stored(old(disk), id) == []
      ensures r == Err(CacheFull) ==>
        && id in old(disk)
        && RoomSought(false, old(Counted()), |old(arena)|, |old(disk)[id]|, old(push), old(files), tick, INVALID, true,
                      old(disk), AfterFault(old(script))) == true
      ensures old(Counted()) ==> (Counted() <==> !Missed(r, id, old(files), files))
      ensures Missed(r, id, old(files), files) <==> r.Err? && id in files
      ensures old(FitsBehind(id)) ==> (Missed(r, id, old(files), files) <==> ThirdFails(old(script)))
      ensures old(files == map[]) ==> (r == Err(CacheFull) <==> old(NeverFits(id)))
      ensures old(files == map[]) && r == Err(CacheFull) ==>
        files == map[] && push == old(push) && |arena| == |old(arena)|
      ensures old(FitsBehind(id) && script == []) ==>
        r.Ok? && LoadedAt(id, old(arena), old(push), old(files), old(used), old(disk)) == true
      ensures tick == old(tick) && hints == old(hints)
    {
      var fault := NextFault();
      if fault.Fail? || id !in disk { return Err(DriverError); }
      if disk[id] == [] { return Ok([]); }
      var loaded := Load(id, |disk[id]|);
      if loaded.Err? { return Err(loaded.error); }
      r := Ok(Slice(Bytes(arena, files[id]), off, n));
      assert Contents(arena, files, disk, id) == old(Contents(arena, files, disk, id));
    }

    /** Loads a file by an empty read and marks it as one that should stay. An empty file is not
        loaded. */
    method PinFile(id: nat) returns (r: Result<nat, Error>)
      requires Valid()
      modifies this
      ensures Valid() && SameContents(old(arena), old(files), old(disk), arena, files, disk) == true
      ensures r.Ok? && id in files ==> files[id].pinned && files[id].importance == RESIDENT
      ensures r.Ok? && id !in files ==> Contents(arena, files, disk, id) == []
      ensures r.Ok? && old(Counted()) ==> Counted()
      ensures old(id in files) ==>
        && r.Ok? && files == old(files)[id := old(files)[id].(pinned := true, importance := RESIDENT)]
        && arena == old(arena) && push == old(push) && used == old(used) && tick == old(tick) && disk == old(disk)
        && script == old(script)
    {
      if id !in files {
        var fault := NextFault();
        if fault.Fail? || id !in disk { return Err(DriverError); }
        if disk[id] != [] {
          var probe := ReadFileRange(id, 0, 0);
          if probe.Err? { return Err(probe.error); }
        }
      }
      if id in files { SetPinned(id); }
      r := Ok(0);
    }

    method SetPinned(id: nat)
      requires Valid() && id in files
      modifies this`files
      ensures Valid() && SameContents(arena, old(files), disk, arena, files, disk) == true
      ensures files == old(files)[id := old(files)[id].(pinned := true, importance := RESIDENT)]
      ensures Used(files) == Used(old(files))
    {
      assert Agrees(arena, files[id], Stored(disk, id));
      Remark(arena, push, files, disk, id, files[id].(pinned := true, importance := RESIDENT));
      files := files[id := files[id].(pinned := true, importance := RESIDENT)];
    }

    /** The file has contents that do not fit behind the push offset. */
    ghost predicate NeverFits(id: nat)
      reads this
    {
      FirstFault(script).Fine? && Stored(disk, id) != [] && push + |Stored(disk, id)| > |arena|
    }

    /** A file that is not cached, has contents and fits behind the push offset. */
    ghost predicate FitsBehind(id: nat)
      reads this
    {
      id !in files && id in disk && disk[id] != [] && push + |disk[id]| <= |arena|
    }

    /** Writes one dirty file back. */
    method FlushFile(id: nat) returns (ok: bool)
      requires Valid()
      modifies this`files, this`disk, this`script
      ensures Valid() && SameContents(arena, old(files), old(disk), arena, files, disk) && files.Keys == old(files).Keys
      ensures Used(files) == Used(old(files))
      ensures ok ==> Stored(disk, id) == Contents(arena, files, disk, id)
      ensures ok <==> (id in old(files) && old(files)[id].dirty ==> id in old(disk) && FirstFault(old(script)).Fine?)
      ensures disk.Keys == old(disk).Keys && (AllFine(old(script)) ==> AllFine(script))
      ensures forall x :: x in files ==> files[x] == old(files)[x] || (x == id && !files[x].dirty)
      ensures ok && id in files ==> !files[id].dirty
    {
      if id in files && files[id].dirty {
        ok := DriverWrite(id);
        if !ok { return; }
        Remark(arena, push, files, disk, id, files[id].(dirty := false));
        files := files[id := files[id].(dirty := false)];
      } else if id in files {
        assert Agrees(arena, files[id], Stored(disk, id));
      }
      ok := true;
    }

    /** The driver will take whatever is written back. */
    ghost predicate Willing()
      reads this
    {
      AllFine(script) && forall x :: x in files && files[x].dirty ==> x in disk
    }

    /** The first i of the listed files are clean, and nothing is lost. */
    ghost predicate Flushing(files0: map<nat, File>, disk0: map<nat, seq<byte>>, ids: seq<nat>, i: nat)
      reads this
    {
      && Valid() && SameContents(arena, files0, disk0, arena, files, disk) && files.Keys == files0.Keys
      && Used(files) == Used(files0) && i <= |ids|
      && (forall j :: 0 <= j < i && ids[j] in files ==> !files[ids[j]].dirty)
    }

    method FlushNext(ids: seq<nat>, i: nat, ghost files0: map<nat, File>, ghost disk0: map<nat, seq<byte>>)
      returns (ok: bool)
      requires i < |ids| && Flushing(files0, disk0, ids, i) == true
      modifies this`files, this`disk, this`script
      ensures ok ==> Flushing(files0, disk0, ids, i + 1)
      ensures !ok ==> Flushing(files0, disk0, ids, i)
      ensures old(Willing()) ==> ok && Willing()
    {
      ok := FlushFile(ids[i]);
    }

    /** Writes every listed file back, stopping at the first failure. */
    method FlushNodes(ids: seq<nat>) returns (ok: bool)
      requires Valid()
      modifies this`files, this`disk, this`script
      ensures Valid() && SameContents(arena, old(files), old(disk), arena, files, disk) && files.Keys == old(files).Keys
      ensures Used(files) == Used(old(files))
      ensures ok ==> forall i :: 0 <= i < |ids| && ids[i] in files ==> !files[ids[i]].dirty
      ensures old(Willing()) ==> ok
    {
      for i := 0 to |ids|
        invariant Flushing(old(files), old(disk), ids, i) == true
        invariant old(Willing()) ==> Willing() == true
      {
        ok := FlushNext(ids, i, old(files), old(disk));
        if !ok { return; }
      }
      ok := true;
    }

    /** Writes every dirty file back; on success the disk holds what the files hold. It succeeds if no
        write fails and every dirty file is on disk. */
    method FlushAll() returns (ok: bool)
      requires Valid()
      modifies this`files, this`disk, this`script
      ensures Valid() && SameContents(arena, old(files), old(disk), arena, files, disk) && files.Keys == old(files).Keys
      ensures Used(files) == Used(old(files))
      ensures ok ==> forall id: nat :: Stored(disk, id) == Contents(arena, files, disk, id)
      ensures old(Willing()) ==> ok
    {
      var ids := SortByOffset(files);
      ok := FlushNodes(ids);
      if ok { AllOnDisk(arena, push, files, disk, ids); }
    }

    /** Makes a cached file at least `end` bytes long, in place at the tail or by copying it
        there. The new bytes are zeros. */
    method GrowFile(id: nat, end: nat)
      requires Valid() && id in files && files[id].len < end && GrowsSimply(|arena|, push, files[id], end)
      modifies this`arena, this`push, this`files, this`used
      ensures Valid() && id in files && files[id].len == end && |arena| == |old(arena)|
      ensures files[id].off + files[id].len <= |arena|
      ensures Contents(arena, files, disk, id) == Padded(old(Contents(arena, files, disk, id)), end)
      ensures OthersSame(id, old(arena), old(files), old(disk), arena, files, disk) == true
      ensures old(Counted()) ==> Counted()
    {
      var f := files[id];
      assert Agrees(arena, f, Stored(disk, id));
      var extra := end - f.len;
      if f.off + f.len == push && push + extra <= |arena| {
        GrowInPlace(id, extra);
      } else {
        GrowByCopy(id, extra);
      }
      assert Agrees(arena, files[id], Stored(disk, id));
    }

    /** Takes in the bytes behind the file and zeroes as many behind the push offset, which are
        the same bytes if the file is at the tail. The files stay apart exactly when no other
        file lies in the bytes taken in. */
    method GrowInPlace(id: nat, extra: nat)
      requires Valid() && id in files && push + extra <= |arena|
      modifies this`arena, this`push, this`files, this`used
      ensures var f := old(files)[id]; files == old(files)[id := f.(len := f.len + extra, dirty := true)]
      ensures arena == Patch(old(arena), old(push), Zeros(extra)) && push == old(push) + extra
      ensures Extended(old(arena), old(push), old(files), disk, id, Zeros(extra), arena, push, files) == true
      ensures old(Counted()) ==> Counted()
    {
      var g := files[id].(len := files[id].len + extra, dirty := true);
      var bytes, next := Patch(arena, push, Zeros(extra)), push + extra;
      Extend(arena, push, files, disk, id, g, Zeros(extra), bytes, next, files[id := g]);
      UsedWith(files, id, g);
      arena, files, push, used := bytes, files[id := g], next, used + extra;
    }

    method GrowByCopy(id: nat, extra: nat)
      requires Valid() && id in files && push + files[id].len + extra <= |arena|
      modifies this`arena, this`push, this`files, this`used
      ensures Valid() && id in files && files[id].len == old(files[id].len) + extra && |arena| == |old(arena)|
      ensures Contents(arena, files, disk, id) == old(Contents(arena, files, disk, id)) + Zeros(extra)
      ensures OthersSame(id, old(arena), old(files), old(disk), arena, files, disk) == true
      ensures old(Counted()) ==> Counted()
    {
      var buf := Bytes(arena, files[id]) + Zeros(extra);
      var g := files[id].(off := push, len := |buf|, dirty := true);
      CopyTail(arena, push, files, disk, id, g, buf, push + |buf|);
      UsedWith(files, id, g);
      arena, files, push, used := Patch(arena, push, buf), files[id := g], push + |buf|, used + extra;
    }

    /** Writes inside the length of a cached file. */
    method Overwrite(id: nat, off: nat, d: seq<byte>) returns (at: nat)
      requires id in files && off + |d| <= files[id].len && files[id].off + files[id].len <= |arena|
      modifies this`arena, this`files
      ensures at == old(files[id].off) + off && arena == Patch(old(arena), at, d)
      ensures files == old(files)[id := old(files)[id].(dirty := true, lastAccess := tick)]
      ensures Contents(arena, files, disk, id) == Patch(old(Contents(arena, files, disk, id)), off, d)
      ensures old(Valid()) ==>
        Valid() == true && OthersSame(id, old(arena), old(files), disk, arena, files, disk) == true
      ensures Disjoint(files) ==> old(Disjoint(files))
      ensures old(Counted()) ==> Counted()
    {
      var g := files[id].(dirty := true, lastAccess := tick);
      at := g.off + off;
      Overwritten(arena, push, files, disk, id, off, d, g, at);
      arena, files := Patch(arena, at, d), files[id := g];
    }

    /** Makes a cached file `end` bytes long in one of the three ways, if it has to be moved or is
        at the tail. */
    method Grow(id: nat, end: nat) returns (ok: bool)
      requires Valid() && id in files && id != INVALID && files[id].len < end
      requires !GrowsWhereItIs(|arena|, push, files[id], end)
      modifies this`arena, this`push, this`files, this`used, this`disk, this`script
      ensures id in files && |arena| == |old(arena)| && files[id].off + files[id].len <= |arena|
      ensures files[id].len == if ok then end else old(files[id].len)
      ensures old(GrowsSimply(|arena|, push, files[id], end)) ==> ok && script == old(script)
      ensures !old(GrowsSimply(|arena|, push, files[id], end)) ==>
        GrowthSought(ok, old(Counted()), |arena|, old(push), old(files), id, end, tick, old(disk), old(script)) == true
      ensures OthersSame(id, old(arena), old(files), old(disk), arena, files, disk) == true
      ensures old(Counted()) ==> Counted()
      ensures ok || old(Sound(|arena|, push, files, id, end)) ==> Valid() == true
      ensures old(Sound(|arena|, push, files, id, end)) ==>
        Contents(arena, files, disk, id) == Padded(old(Contents(arena, files, disk, id)), if ok then end else 0)
    {
      assert Agrees(arena, files[id], Stored(disk, id));
      var extra := end - files[id].len;
      if GrowsSimply(|arena|, push, files[id], end) {
        GrowFile(id, end);
        ok := true;
      } else {
        ok := GrowBehind(id, extra);
        PaddedBy(old(Contents(arena, files, disk, id)), extra, end, ok);
        GrowthIs(ok, old(Counted()), |arena|, old(push), old(files), id, end, tick, old(disk), old(script), extra);
      }
    }

    method PutMoved(id: nat, off: nat, d: seq<byte>, end: nat) returns (ok: bool)
      requires Valid() && id in files && id != INVALID && end == off + |d|
      requires !GrowsWhereItIs(|arena|, push, files[id], end)
      modifies this`arena, this`push, this`files, this`used, this`disk, this`script
      ensures id in files && (ok ==> files[id].dirty && files[id].lastAccess == tick) && |arena| == |old(arena)|
      ensures old(GrowsSimply(|arena|, push, files[id], end)) ==> ok && script == old(script)
      ensures !old(GrowsSimply(|arena|, push, files[id], end)) ==>
        GrowthSought(ok, old(Counted()), |arena|, old(push), old(files), id, end, tick, old(disk), old(script)) == true
      ensures OthersSame(id, old(arena), old(files), old(disk), arena, files, disk) == true
      ensures old(Counted()) ==> Counted()
      ensures ok || old(Sound(|arena|, push, files, id, end)) ==> Valid() == true
      ensures old(Sound(|arena|, push, files, id, end)) ==>
        Contents(arena, files, disk, id) == (
          if ok then Written(old(Contents(arena, files, disk, id)), off, d) else old(Contents(arena, files, disk, id)))
    {
      ok := LongEnough(id, end);
      if !ok { return; }
      ghost var arena1, files1, disk1 := arena, files, disk;
      var at := Overwrite(id, off, d);
      OthersBoth(id, old(arena), old(files), old(disk), arena1, files1, disk1, arena, files, disk);
    }

    /** Grows the file if it is not that long yet. */
    method LongEnough(id: nat, end: nat) returns (ok: bool)
      requires Valid() && id in files && id != INVALID && !GrowsWhereItIs(|arena|, push, files[id], end)
      modifies this`arena, this`push, this`files, this`used, this`disk, this`script
      ensures id in files && |arena| == |old(arena)| && files[id].off + files[id].len <= |arena|
      ensures ok ==> end <= files[id].len
      ensures old(GrowsSimply(|arena|, push, files[id], end)) ==> ok && script == old(script)
      ensures !old(GrowsSimply(|arena|, push, files[id], end)) ==>
        GrowthSought(ok, old(Counted()), |arena|, old(push), old(files), id, end, tick, old(disk), old(script)) == true
      ensures OthersSame(id, old(arena), old(files), old(disk), arena, files, disk) == true
      ensures old(Counted()) ==> Counted()
      ensures ok || old(Sound(|arena|, push, files, id, end)) ==> Valid() == true
      ensures old(Sound(|arena|, push, files, id, end)) ==>
        Contents(arena, files, disk, id) ==
          if ok then Padded(old(Contents(arena, files, disk, id)), end) else old(Contents(arena, files, disk, id))
    {
      assert Agrees(arena, files[id], Stored(disk, id));
      ok := true;
      if files[id].len < end { ok := Grow(id, end); }
    }

    /** There is room for the extra bytes, so nothing is evicted or moved. */
    method GrowThere(id: nat, end: nat)
      requires Valid() && id in files && GrowsWhereItIs(|arena|, push, files[id], end)
      modifies this`arena, this`push, this`files, this`used
      ensures GrownThere(old(arena), old(push), old(files), disk, id, end, arena, push, files) == true
      ensures OthersSame(id, old(arena), old(files), disk, arena, files, disk) == true
      ensures id in files && files[id].len == end && files[id].off + files[id].len <= |arena|
      ensures INVALID !in files && (old(Counted()) ==> Counted())
    {
      assert Agrees(arena, files[id], Stored(disk, id));
      var extra := end - files[id].len;
      GrowInPlace(id, extra);
      HasGrown(old(arena), old(push), old(files), disk, id, end, extra, arena, push, files);
    }

    method PutThere(id: nat, off: nat, d: seq<byte>, end: nat)
      requires end == off + |d| && Valid() && id in files && GrowsWhereItIs(|arena|, push, files[id], end)
      modifies this`arena, this`push, this`files, this`used
      ensures id in files && files[id].dirty && (old(Counted()) ==> Counted())
      ensures Wrote(id, off, d, old(arena), old(files), disk) == true <==>
        ClearOf(old(files), id, old(files)[id].off, end) && ZeroHole(old(arena), old(push), old(files)[id], off)
      ensures SetThere(old(arena), old(push), old(files), id, off, d, arena, files, tick) == true
    {
      ghost var arena0, push0, files0 := arena, push, files;
      GrowThere(id, end);
      assert Good(arena0, push0, files0, disk) == true;
      PutGrown(id, off, d, end, arena0, push0, files0);
    }

    method PutGrown(id: nat, off: nat, d: seq<byte>, ghost end: nat, ghost arena0: seq<byte>, ghost push0: nat,
                    ghost files0: map<nat, File>)
      requires Good(arena0, push0, files0, disk) == true && id in files0 && files0[id].len < end == off + |d|
      requires GrownThere(arena0, push0, files0, disk, id, end, arena, push, files) == true
      requires OthersSame(id, arena0, files0, disk, arena, files, disk) == true
      requires id in files && files[id].len == end && files[id].off + files[id].len <= |arena|
      requires INVALID !in files && INVALID !in disk
      modifies this`arena, this`files
      ensures id in files && files[id].dirty && (old(Counted()) ==> Counted())
      ensures Wrote(id, off, d, arena0, files0, disk) == true <==>
        ClearOf(files0, id, files0[id].off, end) && ZeroHole(arena0, push0, files0[id], off)
      ensures SetThere(arena0, push0, files0, id, off, d, arena, files, tick) == true
    {
      ghost var arena1, files1, g := arena, files, files[id];
      var at := Overwrite(id, off, d);
      Placed(arena0, push0, files0, disk, id, off, d, g, at, arena1, push, files1, arena, files, tick);
      DoneThere(arena0, push0, files0, disk, id, off, d, arena1, push, files1, arena, files);
    }

    /** The file does not grow, or the bytes it needs fit without an eviction. */
    predicate HasRoom(id: nat, end: nat)
      reads this
    {
      id in files && (GrowsSimply(|arena|, push, files[id], end) || GrowsWhereItIs(|arena|, push, files[id], end))
    }

    predicate GrowsOver(id: nat, end: nat)
      reads this
    {
      id in files && GrowsWhereItIs(|arena|, push, files[id], end)
    }

    /** Writes into a cached file. If the way it grows is sound, the file holds the data over its
        old bytes and zeros whenever the write gets past the growth, and no other file has
        changed. If it grows where it is, that is so exactly when no other file lies in the bytes
        it takes in and those it leaves as a hole are zero. */
    method WriteCached(id: nat, off: nat, d: seq<byte>, end: nat) returns (r: Result<nat, Error>)
      requires Valid() && id in files && id != INVALID && end == off + |d|
      modifies this`arena, this`push, this`files, this`used, this`disk, this`script
      ensures id in files && (r.Ok? ==> r.value == |d|)
      ensures r != Err(CacheFull) ==> files[id].dirty && files[id].lastAccess == tick
      ensures !old(HasRoom(id, end)) ==>
        GrowthSought(r != Err(CacheFull), old(Counted()), |old(arena)|, old(push), old(files), id, end, tick,
                     old(disk), old(script)) == true
      ensures old(HasRoom(id, end)) ==>
        r == if FirstFault(old(script)).Fine? then Ok(|d|) else Err(DriverError)
      ensures old(Sound(|arena|, push, files, id, end)) ==> Valid() == true
      ensures old(Sound(|arena|, push, files, id, end)) ==>
        Contents(arena, files, disk, id) == (
          if r == Err(CacheFull) then old(Contents(arena, files, disk, id))
          else Written(old(Contents(arena, files, disk, id)), off, d))
      ensures old(!GrowsWhereItIs(|arena|, push, files[id], end)) ==>
        OthersSame(id, old(arena), old(files), old(disk), arena, files, disk) == true
      ensures old(!GrowsWhereItIs(|arena|, push, files[id], end)) && r != Err(CacheFull) ==> Valid() == true
      ensures old(GrowsWhereItIs(|arena|, push, files[id], end)) ==>
        (Wrote(id, off, d, old(arena), old(files), old(disk)) == true <==>
         ClearOf(old(files), id, old(files)[id].off, end) && ZeroHole(old(arena), old(push), old(files)[id], off))
      ensures old(GrowsWhereItIs(|arena|, push, files[id], end)) ==>
        SetThere(old(arena), old(push), old(files), id, off, d, arena, files, tick) && disk == old(disk)
      ensures old(Counted()) ==> Counted()
    {
      if GrowsWhereItIs(|arena|, push, files[id], end) {
        PutThere(id, off, d, end);
      } else {
        var ok := PutMoved(id, off, d, end);
        if !ok { return Err(CacheFull); }
      }
      var fault := NextFault();
      r := if fault.Fail? then Err(DriverError) else Ok(|d|);
    }

    /** The outcome of a write as it should be. */
    ghost predicate Wrote(id: nat, off: nat, d: seq<byte>, arena0: seq<byte>, files0: map<nat, File>,
                          disk0: map<nat, seq<byte>>)
      reads this
    {
      && Valid() && OthersSame(id, arena0, files0, disk0, arena, files, disk)
      && Contents(arena, files, disk, id) == Written(Contents(arena0, files0, disk0, id), off, d)
    }

    /** Brings a file that is not cached into the cache before a write; one whose size is zero or
        not known is taken for empty. No file's contents change. */
    method EnsureCached(id: nat, needed: nat) returns (r: Result<nat, Error>)
      requires Valid() && id !in files && id != INVALID && (FirstFault(script).Fail? ==> Stored(disk, id) == [])
      modifies this
      ensures Valid() && SameContents(old(arena), old(files), old(disk), arena, files, disk) == true
      ensures tick == old(tick)
      ensures r.Ok? ==> id in files && (files[id].len == 0 || files[id].off + files[id].len == push)
      ensures id in files ==> r.Ok? || Missed(r, id, old(files), files) || files[id].len == 0
      ensures old(FitsBehind(id) && script == []) ==>
        && r.Ok? && id in files && files[id].off == old(push) && files[id].len == |old(disk)[id]|
        && push == old(push) + |old(disk)[id]| && |arena| == |old(arena)| && script == []
      ensures old(Stored(disk, id) == [] && script == [] && push + needed <= |arena|) ==>
        && r.Ok? && id in files && files[id].len == 0 && push == old(push) + needed
        && |arena| == |old(arena)| && script == []
      ensures old(Counted()) ==> (Counted() <==> !Missed(r, id, old(files), files))
      ensures old(FitsBehind(id)) ==> (Missed(r, id, old(files), files) <==> ThirdFails(old(script)))
    {
      var fault := NextFault();
      var size := if fault.Fail? || id !in disk then 0 else |disk[id]|;
      if size > 0 {
        r := Load(id, size);
      } else {
        assert Stored(disk, id) == [];
        r := MakeFile(id, needed);
      }
    }

    method MakeFile(id: nat, needed: nat) returns (r: Result<nat, Error>)
      requires Valid() && id !in files && id != INVALID && Stored(disk, id) == []
      modifies this
      ensures Valid() && SameContents(old(arena), old(files), old(disk), arena, files, disk) == true
      ensures tick == old(tick)
      ensures (r.Ok? ==> id in files) && (id in files ==> files[id].len == 0)
      ensures old(script == [] && push + needed <= |arena|) ==>
        r.Ok? && push == old(push) + needed && |arena| == |old(arena)| && script == []
      ensures old(Counted()) ==> Counted()
    {
      var ok, _, _ := EnsureSpace(needed, INVALID, true);
      if !ok { return Err(CacheFull); }
      assert Contents(arena, files, disk, id) == Contents(old(arena), old(files), old(disk), id);
      ghost var arena1, files1, disk1 := arena, files, disk;
      ok := NewFile(id, needed);
      SameBoth(id, old(arena), old(files), old(disk), arena1, files1, disk1, arena, files, disk);
      r := if ok then Ok(0) else Err(DriverError);
    }

    /** There is room behind the push offset to load the file and to grow it there, or to make it and,
        as the code does, to copy it once more. */
    ghost predicate FitsFor(id: nat, end: nat)
      reads this
    {
      if Stored(disk, id) == [] then push + 2 * end <= |arena|
      else push + |Stored(disk, id)| <= |arena| && push + end <= |arena|
    }

    /** A write to a file that is not cached. */
    method WriteMiss(id: nat, off: nat, d: seq<byte>) returns (r: Result<nat, Error>)
      requires Valid() && id !in files && id != INVALID && (FirstFault(script).Fail? ==> Stored(disk, id) == [])
      modifies this
      ensures Valid() == true && OthersSame(id, old(arena), old(files), old(disk), arena, files, disk) == true
      ensures Contents(arena, files, disk, id) == Written(Stored(old(disk), id), off, d) ||
              (r.Err? && Contents(arena, files, disk, id) == Stored(old(disk), id))
      ensures r.Ok? ==> Contents(arena, files, disk, id) == Written(Stored(old(disk), id), off, d)
      ensures r.Ok? ==> r.value == |d| && id in files && files[id].dirty && files[id].lastAccess == tick
      ensures tick == old(tick)
      ensures id in files && !files[id].dirty ==> Contents(arena, files, disk, id) == Stored(old(disk), id)
      ensures old(FitsFor(id, off + |d|) && script == []) ==> r == Ok(|d|)
      ensures old(Counted()) ==> (Counted() <==> !Missed(r, id, old(files), files))
      ensures old(FitsBehind(id)) ==> (Missed(r, id, old(files), files) <==> ThirdFails(old(script)))
    {
      var cached := EnsureCached(id, off + |d|);
      assert Contents(arena, files, disk, id) == old(Contents(arena, files, disk, id));
      if cached.Err? { return Err(cached.error); }
      ghost var arena1, files1, disk1 := arena, files, disk;
      FreshIsSound(arena, push, files, disk, id, off + |d|);
      r := WriteCached(id, off, d, off + |d|);
      OthersBoth(id, old(arena), old(files), old(disk), arena1, files1, disk1, arena, files, disk);
    }

    /** The size of a file with contents could not be read, and it will be taken for empty. */
    ghost predicate Misjudged(id: nat)
      reads this
    {
      id !in files && FirstFault(script).Fail? && Stored(disk, id) != []
    }

    /** Writes through the cache. A file that is not cached is loaded first, a new one is made.
        The file then holds the data over its old bytes and zeros, or, after an error, possibly
        what it held before, and no other file has changed. The exceptions are a file taken for
        empty, which loses its contents, and a cached file whose growth is not sound. The memory
        counter stays right exactly unless the metadata of a file just loaded cannot be read. */
    method WriteFile(id: nat, off: nat, d: seq<byte>) returns (r: Result<nat, Error>)
      requires Valid() && id != INVALID
      modifies this
      ensures r.Ok? ==> r.value == |d| && id in files && files[id].dirty && files[id].lastAccess == tick
      ensures tick == (old(tick) + 1) % U64
      ensures old(id in files && !HasRoom(id, off + |d|)) ==>
        GrowthSought(r != Err(CacheFull), old(Counted()), |old(arena)|, old(push), old(files), id, off + |d|, tick,
                     old(disk), old(script)) == true
      ensures old(HasRoom(id, off + |d|)) ==> r == if FirstFault(old(script)).Fine? then Ok(|d|) else Err(DriverError)
      ensures old(id !in files && FitsFor(id, off + |d|) && script == []) ==> r == Ok(|d|)
      ensures old(Counted()) ==> (Counted() <==> !Missed(r, id, old(files), files))
      ensures old(FitsBehind(id)) ==> (Missed(r, id, old(files), files) <==> ThirdFails(old(script)))
      ensures old(!Misjudged(id) && (id in files ==> Sound(|arena|, push, files, id, off + |d|))) ==>
        || Wrote(id, off, d, old(arena), old(files), old(disk)) == true
        || (r.Err? && Wrote(id, 0, [], old(arena), old(files), old(disk)) == true)
      ensures old(!Misjudged(id) && (id in files ==> Sound(|arena|, push, files, id, off + |d|))) && r.Ok? ==>
        Wrote(id, off, d, old(arena), old(files), old(disk)) == true
      ensures old(!Misjudged(id) && (id in files ==> Sound(|arena|, push, files, id, off + |d|))) && r.Ok? ==>
        LiesOver(old(Contents(arena, files, disk, id)), off, d, Contents(arena, files, disk, id)) == true
      ensures old(id in files && GrowsWhereItIs(|arena|, push, files[id], off + |d|)) ==>
        (Wrote(id, off, d, old(arena), old(files), old(disk)) == true <==>
         ClearOf(old(files), id, old(files)[id].off, off + |d|) && ZeroHole(old(arena), old(push), old(files)[id], off))
      ensures old(id in files && GrowsWhereItIs(|arena|, push, files[id], off + |d|)) ==>
        SetThere(old(arena), old(push), old(files), id, off, d, arena, files, tick) == true
      ensures old(id in files && !GrowsWhereItIs(|arena|, push, files[id], off + |d|)) ==>
        OthersSame(id, old(arena), old(files), old(disk), arena, files, disk) == true
      ensures old(Misjudged(id)) ==>
        AsIfEmpty(id, off, d, r, old(arena), old(files), old(disk)) == true
    {
      tick := (tick + 1) % U64;
      WrittenOver(Contents(arena, files, disk, id), off, d);
      if id in files {
        r := WriteHit(id, off, d);
      } else if FirstFault(script).Fail? && Stored(disk, id) != [] {
        r := WriteMisjudged(id, off, d);
      } else {
        r := WriteMiss(id, off, d);
      }
    }

    /** A write to a cached file. */
    method WriteHit(id: nat, off: nat, d: seq<byte>) returns (r: Result<nat, Error>)
      requires Valid() && id in files && id != INVALID
      modifies this`arena, this`push, this`files, this`used, this`disk, this`script
      ensures id in files && (r.Ok? ==> r.value == |d| && files[id].dirty && files[id].lastAccess == tick)
      ensures !old(HasRoom(id, off + |d|)) ==>
        GrowthSought(r != Err(CacheFull), old(Counted()), |old(arena)|, old(push), old(files), id, off + |d|, tick,
                     old(disk), old(script)) == true
      ensures old(HasRoom(id, off + |d|)) ==> r == if FirstFault(old(script)).Fine? then Ok(|d|) else Err(DriverError)
      ensures old(Counted()) ==> Counted()
      ensures old(Sound(|arena|, push, files, id, off + |d|)) ==>
        || Wrote(id, off, d, old(arena), old(files), old(disk)) == true
        || (r.Err? && Wrote(id, 0, [], old(arena), old(files), old(disk)) == true)
      ensures old(Sound(|arena|, push, files, id, off + |d|)) && r.Ok? ==>
        Wrote(id, off, d, old(arena), old(files), old(disk)) == true
      ensures old(GrowsWhereItIs(|arena|, push, files[id], off + |d|)) ==>
        (Wrote(id, off, d, old(arena), old(files), old(disk)) == true <==>
         ClearOf(old(files), id, old(files)[id].off, off + |d|) && ZeroHole(old(arena), old(push), old(files)[id], off))
      ensures old(GrowsWhereItIs(|arena|, push, files[id], off + |d|)) ==>
        SetThere(old(arena), old(push), old(files), id, off, d, arena, files, tick) == true
      ensures old(!GrowsWhereItIs(|arena|, push, files[id], off + |d|)) ==>
        OthersSame(id, old(arena), old(files), old(disk), arena, files, disk) == true
    {
      r := WriteCached(id, off, d, off + |d|);
      NothingWritten(old(Contents(arena, files, disk, id)));
    }

    /** A file with contents has been written as if it were empty: once it is cached it holds the
        data or nothing, and it is lost unless that is at least as long as it was. */
    ghost predicate AsIfEmpty(id: nat, off: nat, d: seq<byte>, r: Result<nat, Error>,
                              arena0: seq<byte>, files0: map<nat, File>, disk0: map<nat, seq<byte>>)
      reads this
    {
      var now, before := Contents(arena, files, disk, id), Stored(disk0, id);
      && OthersSame(id, arena0, files0, disk0, arena, files, disk)
      && (id !in files ==> r.Err? && now == before && Valid())
      && (id in files ==> now == Written([], off, d) || (r.Err? && now == []))
      && (id in files ==> (Valid() <==> |before| <= |now|))
      && (r.Ok? ==> id in files && now == Written([], off, d))
    }

    /** The same with the file taken for empty: nothing looks at its stored bytes, which are put
        out of sight meanwhile. */
    method WriteMisjudged(id: nat, off: nat, d: seq<byte>) returns (r: Result<nat, Error>)
      requires Valid() && id != INVALID && Misjudged(id)
      modifies this
      ensures AsIfEmpty(id, off, d, r, old(arena), old(files), old(disk)) == true
      ensures r.Ok? ==> r.value == |d| && id in files && files[id].dirty && files[id].lastAccess == tick
      ensures tick == old(tick)
      ensures old(Counted()) ==> (Counted() <==> !Missed(r, id, old(files), files))
      ensures !Missed(r, id, old(files), files)
    {
      var kept := disk[id];
      Restored(arena, push, files, disk, id, []);
      disk := disk[id := []];
      ghost var disk0 := disk;
      r := WriteMiss(id, off, d);
      Restored(arena, push, files, disk, id, kept);
      ghost var disk1 := disk;
      disk := disk[id := kept];
      OthersBoth(id, old(arena), old(files), old(disk), old(arena), old(files), disk0, arena, files, disk1);
      OthersBoth(id, old(arena), old(files), old(disk), arena, files, disk1, arena, files, disk);
    }

    /** Evicts and compacts for a file that could not be grown otherwise, and grows it at the
        tail. The file counts as dirty meanwhile, which nothing looks at. */
    method GrowBehind(id: nat, extra: nat) returns (ok: bool)
      requires Valid() && id in files && id != INVALID && push + extra > |arena|
      modifies this`arena, this`push, this`files, this`used, this`disk, this`script
      ensures id in files && |arena| == |old(arena)| && files[id].off + files[id].len <= |arena|
      ensures files[id].len == old(files[id].len) + (if ok then extra else 0)
      ensures RoomSought(ok, old(Counted()), |arena|, extra, old(push), Marked(old(files), id), tick, id, true,
                         old(disk), old(script)) == true
      ensures OthersSame(id, old(arena), old(files), old(disk), arena, files, disk) == true
      ensures old(Counted()) ==> Counted()
      ensures ok || old(Intact(files, id)) ==> Valid() == true
      ensures old(Intact(files, id)) ==>
        Contents(arena, files, disk, id) == old(Contents(arena, files, disk, id)) + Zeros(if ok then extra else 0)
    {
      var was;
      ok, was := MakeRoom(id, extra);
      ghost var arena1, files1, disk1 := arena, files, disk;
      if ok {
        GrowInPlace(id, extra);
      } else {
        Unmark(id, was);
      }
      OthersBoth(id, old(arena), old(files), old(disk), arena1, files1, disk1, arena, files, disk);
    }

    method Unmark(id: nat, was: bool)
      requires Valid() && id in files && files[id].dirty
      modifies this`files
      ensures files == old(files)[id := old(files[id]).(dirty := was)] && Used(files) == Used(old(files))
      ensures was || Contents(arena, files, disk, id) == Stored(disk, id) ==> Valid() == true
      ensures SameContents(arena, old(files), disk, arena, files, disk) == true
    {
      var g := files[id].(dirty := was);
      assert Agrees(arena, files[id], Stored(disk, id));
      if was || Contents(arena, files, disk, id) == Stored(disk, id) { Remark(arena, push, files, disk, id, g); }
      SameMarked(arena, files, disk, id, g);
      files := files[id := g];
    }

    method MakeRoom(id: nat, extra: nat) returns (ok: bool, was: bool)
      requires Valid() && id in files && id != INVALID && push + extra > |arena|
      modifies this`arena, this`push, this`files, this`used, this`disk, this`script
      ensures Valid() && id in files && files[id].dirty && files[id].len == old(files[id].len)
      ensures |arena| == |old(arena)| && files[id].off + files[id].len <= |arena|
      ensures OthersSame(id, old(arena), old(files), old(disk), arena, files, disk) == true
      ensures old(Counted()) ==> Counted()
      ensures ok ==> push + extra <= |arena| && files[id].off + files[id].len == push
      ensures RoomSought(ok, old(Counted()), |arena|, extra, old(push), Marked(old(files), id), tick, id, true,
                         old(disk), old(script)) == true
      ensures old(Intact(files, id)) ==> Contents(arena, files, disk, id) == old(Contents(arena, files, disk, id))
      ensures old(Intact(files, id)) && !was ==> Contents(arena, files, disk, id) == Stored(disk, id)
    {
      was := MarkDirty(id);
      ghost var vs, last;
      ok, vs, last := EnsureSpaceKeeping(extra, id, true);
      assert Agrees(arena, files[id], Stored(disk, id));
    }

    method MarkDirty(id: nat) returns (was: bool)
      requires Valid() && id in files
      modifies this`files
      ensures Valid() && was == old(files[id].dirty) && files == old(files)[id := old(files[id]).(dirty := true)]
      ensures SameContents(arena, old(files), disk, arena, files, disk) && Used(files) == Used(old(files))
      ensures files - {id} == old(files) - {id} && (Intact(files, id) <==> old(Intact(files, id)))
      ensures !was ==> Contents(arena, files, disk, id) == Stored(disk, id)
    {
      was := files[id].dirty;
      assert Agrees(arena, files[id], Stored(disk, id));
      Remark(arena, push, files, disk, id, files[id].(dirty := true));
      files := files[id := files[id].(dirty := true)];
      assert files - {id} == old(files) - {id};
    }
  }

  lemma SameBoth(id: nat, arena0: seq<byte>, files0: map<nat, File>, disk0: map<nat, seq<byte>>,
                 arena1: seq<byte>, files1: map<nat, File>, disk1: map<nat, seq<byte>>,
                 arena2: seq<byte>, files2: map<nat, File>, disk2: map<nat, seq<byte>>)
    requires SameContents(arena0, files0, disk0, arena1, files1, disk1)
    requires OthersSame(id, arena1, files1, disk1, arena2, files2, disk2)
    requires Contents(arena2, files2, disk2, id) == Contents(arena0, files0, disk0, id)
    ensures SameContents(arena0, files0, disk0, arena2, files2, disk2) == true
  {
    forall x: nat ensures Contents(arena2, files2, disk2, x) == Contents(arena0, files0, disk0, x) {
      assert Contents(arena1, files1, disk1, x) == Contents(arena0, files0, disk0, x);
    }
  }

  /** A file that has just been loaded or made can be written to. */
  lemma FreshIsSound(arena: seq<byte>, push: nat, files: map<nat, File>, disk: map<nat, seq<byte>>, id: nat, end: nat)
    requires Good(arena, push, files, disk) && id in files
    requires files[id].len == 0 || files[id].off + files[id].len == push
    ensures Sound(|arena|, push, files, id, end)
  {
    if files[id].len > 0 { TailIsIntact(files, id, push); }
  }

  /** Other bytes of file id are put on disk. */
  lemma Restored(arena: seq<byte>, push: nat, files: map<nat, File>, disk: map<nat, seq<byte>>, id: nat,
                 kept: seq<byte>)
    requires Good(arena, push, files, disk)
    ensures OthersSame(id, arena, files, disk, arena, files, disk[id := kept]) == true
    ensures id !in files ==> Good(arena, push, files, disk[id := kept])
    ensures id in files ==> Contents(arena, files, disk[id := kept], id) == Contents(arena, files, disk, id)
    ensures id in files && (files[id].dirty || kept != []) ==>
      (Good(arena, push, files, disk[id := kept]) ==> |kept| <= |Contents(arena, files, disk, id)|)
    ensures id in files && files[id].dirty && |kept| <= |Contents(arena, files, disk, id)| ==>
      Good(arena, push, files, disk[id := kept])
  {
    var disk' := disk[id := kept];
    forall x | x in files ensures Agrees(arena, files[x], Stored(disk, x)) {}
    if id in files && Good(arena, push, files, disk') { assert Agrees(arena, files[id], Stored(disk', id)); }
  }

  lemma OthersBoth(id: nat, arena0: seq<byte>, files0: map<nat, File>, disk0: map<nat, seq<byte>>,
                   arena1: seq<byte>, files1: map<nat, File>, disk1: map<nat, seq<byte>>,
                   arena2: seq<byte>, files2: map<nat, File>, disk2: map<nat, seq<byte>>)
    requires OthersSame(id, arena0, files0, disk0, arena1, files1, disk1)
    requires OthersSame(id, arena1, files1, disk1, arena2, files2, disk2)
    ensures OthersSame(id, arena0, files0, disk0, arena2, files2, disk2) == true
  {
    forall x: nat | x != id ensures Contents(arena2, files2, disk2, x) == Contents(arena0, files0, disk0, x) {
      assert Contents(arena1, files1, disk1, x) == Contents(arena0, files0, disk0, x);
    }
  }

  lemma AllOnDisk(arena: seq<byte>, push: nat, files: map<nat, File>, disk: map<nat, seq<byte>>, ids: seq<nat>)
    requires Good(arena, push, files, disk) && Lists(ids, files.Keys)
    requires forall i :: 0 <= i < |ids| && ids[i] in files ==> !files[ids[i]].dirty
    ensures forall id: nat :: Stored(disk, id) == Contents(arena, files, disk, id)
  {
    forall id: nat | id in files ensures Stored(disk, id) == Contents(arena, files, disk, id) {
      assert Listed(ids, id);
      var i :| 0 <= i < |ids| && ids[i] == id;
      assert Agrees(arena, files[id], Stored(disk, id));
    }
  }

  /** The others are packed below w and file id, which is dirty, comes behind them. Its bytes
      survive if packing the others did not reach them. */
  lemma KeepLast(arena: seq<byte>, push: nat, files: map<nat, File>, disk: map<nat, seq<byte>>, id: nat,
                 bytes: seq<byte>, moved: map<nat, File>, w: nat, src: seq<byte>, g: File, push': nat)
    requires Good(arena, push, files, disk) == true && id in files && files[id].dirty
    requires Good(bytes, w, moved, disk) == true && moved.Keys == (files - {id}).Keys && w == Used(files - {id})
    requires SameContents(arena, files - {id}, disk, bytes, moved, disk) == true && SameFrom(arena, bytes, w) == true
    requires files[id].off + files[id].len <= |bytes| && src == bytes[files[id].off..files[id].off + files[id].len]
    requires g == files[id].(off := w) && push' == w + |src| <= |bytes|
    ensures Good(Patch(bytes, w, src), push', moved[id := g], disk) == true
    ensures OthersSame(id, arena, files, disk, Patch(bytes, w, src), moved[id := g], disk) == true
  {
    assert Agrees(arena, files[id], Stored(disk, id));
    Replace(bytes, w, moved, disk, id, g, w, src, push');
    OthersThrough(id, arena, files, disk, bytes, moved, Patch(bytes, w, src), moved[id := g]);
  }

  lemma OthersThrough(id: nat, arena: seq<byte>, files: map<nat, File>, disk: map<nat, seq<byte>>,
                      bytes: seq<byte>, moved: map<nat, File>, arena': seq<byte>, files': map<nat, File>)
    requires SameContents(arena, files - {id}, disk, bytes, moved, disk)
    requires OthersSame(id, bytes, moved, disk, arena', files', disk)
    ensures OthersSame(id, arena, files, disk, arena', files', disk)
  {
    forall x: nat | x != id ensures Contents(arena', files', disk, x) == Contents(arena, files, disk, x) {
      assert Contents(bytes, moved, disk, x) == Contents(arena, files - {id}, disk, x);
    }
  }

  lemma KeptBytes(arena: seq<byte>, files: map<nat, File>, disk: map<nat, seq<byte>>, id: nat,
                  bytes: seq<byte>, moved: map<nat, File>, w: nat, src: seq<byte>, g: File)
    requires Intact(files, id) && SameFrom(arena, bytes, w) && w == Used(files - {id})
    requires files[id].off + files[id].len <= |bytes| && src == bytes[files[id].off..files[id].off + files[id].len]
    requires g == files[id].(off := w) && w + |src| <= |bytes|
    ensures Contents(Patch(bytes, w, src), moved[id := g], disk, id) == Contents(arena, files, disk, id)
  {
    var f := files[id];
    PatchHere(bytes, w, src);
    if f.len > 0 { SameFromSlice(arena, bytes, w, f.off, f.off + f.len); }
  }

  /** The other files have been packed over the first byte of this one. */
  lemma LostByte(bytes: seq<byte>, at: nat, moved: map<nat, File>, disk: map<nat, seq<byte>>, id: nat, w: nat,
                 src: seq<byte>, g: File)
    requires ZeroBelow(bytes, w) && 0 < |src| == g.len && g.off == w && w + |src| <= |bytes|
    requires at < w && at + |src| <= |bytes| && src == bytes[at..at + |src|]
    ensures Contents(Patch(bytes, w, src), moved[id := g], disk, id) == src && src[0] == 0
  {
    assert src[0] == bytes[..w][at];
    PatchHere(bytes, w, src);
  }

  lemma KeptIfIntact(arena: seq<byte>, files: map<nat, File>, disk: map<nat, seq<byte>>, id: nat,
                     bytes: seq<byte>, moved: map<nat, File>, w: nat, src: seq<byte>, g: File)
    requires id in files && SameFrom(arena, bytes, w) && w == Used(files - {id})
    requires files[id].off + files[id].len <= |bytes| && src == bytes[files[id].off..files[id].off + files[id].len]
    requires g == files[id].(off := w) && w + |src| <= |bytes|
    requires Blank(arena, files - {id}) ==> ZeroBelow(bytes, w)
    ensures KeptWhenIntact(arena, files, disk, id, Patch(bytes, w, src), moved[id := g]) == true
  {
    if Intact(files, id) {
      KeptBytes(arena, files, disk, id, bytes, moved, w, src, g);
    } else if Blank(arena, files - {id}) {
      LostByte(bytes, files[id].off, moved, disk, id, w, src, g);
    }
  }

  lemma KeptUsed(files: map<nat, File>, id: nat, moved: map<nat, File>, g: File)
    requires id in files && moved.Keys == (files - {id}).Keys && Used(moved) == Used(files - {id})
    requires g.len == files[id].len
    ensures Used(moved[id := g]) == Used(files) && Used(moved[id := g] - {id}) == Used(files - {id})
    ensures moved[id := g].Keys == files.Keys
  {
    UsedWith(moved, id, g);
    UsedWithout(files, id);
    assert moved[id := g] - {id} == moved;
  }

  lemma SameFromSlice(x: seq<byte>, y: seq<byte>, w: nat, from: nat, to: nat)
    requires SameFrom(x, y, w) && w <= from <= to <= |x|
    ensures y[from..to] == x[from..to]
  {
    forall i | from <= i < to ensures y[i] == x[i] {
      assert y[i] == y[w..][i - w] && x[i] == x[w..][i - w];
    }
  }

  /** Everything fits below the push offset. */
  lemma UsedFits(arena: seq<byte>, push: nat, files: map<nat, File>, disk: map<nat, seq<byte>>, id: nat)
    requires Good(arena, push, files, disk) && id in files
    ensures Used(files - {id}) + files[id].len <= push
    ensures Good(arena, push, files - {id}, disk)
  {
    TotalFits(files, files.Keys, push);
    UsedWithout(files, id);
  }

  /** Moves the files down one by one, lowest first. */
  method PackAll(arena: seq<byte>, push: nat, files: map<nat, File>, ghost disk: map<nat, seq<byte>>)
    returns (bytes: seq<byte>, moved: map<nat, File>, w: nat)
    requires Good(arena, push, files, disk)
    ensures Good(bytes, w, moved, disk) == true && w == Used(moved) == Used(files) && w <= push
    ensures SameContents(arena, files, disk, bytes, moved, disk) == true && SameButPlaces(files, moved)
    ensures SameFrom(arena, bytes, w) == true && |bytes| == |arena| && (Blank(arena, files) ==> ZeroBelow(bytes, w))
  {
    var live := SortByOffset(files);
    PackStart(arena, push, files, disk, live);
    bytes, moved, w := arena, files, 0;
    ghost var rest := files.Keys;
    for i := 0 to |live|
      invariant Packs(arena, files, bytes, push, moved, disk, live, i, w, rest) == true
      invariant SameFrom(arena, bytes, w)
      invariant Blank(arena, files) ==> ZeroBelow(bytes, w)
    {
      if Blank(arena, files) { ZeroPacked(arena, files, bytes, push, moved, disk, live, i, w, rest); }
      PackStep(arena, files, bytes, push, moved, disk, live, i, w, rest);
      var f := moved[live[i]];
      // a file that is in place already is moved onto itself
      var bytes', moved', w' := Patch(bytes, w, Bytes(bytes, f)), moved[live[i] := f.(off := w)], w + f.len;
      PackOn(arena, files, bytes, push, moved, disk, live, i, w, rest, f, bytes', moved', w', rest - {live[i]});
      SameFromPatch(arena, bytes, w, Bytes(bytes, f), w');
      bytes, moved, w, rest := bytes', moved', w', rest - {live[i]};
    }
    Packed(arena, files, bytes, push, moved, disk, live, w, rest);
  }

  /** Packs the other files and puts file id, which is dirty, behind them. */
  method PackAround(arena: seq<byte>, push: nat, files: map<nat, File>, ghost disk: map<nat, seq<byte>>, id: nat)
    returns (bytes: seq<byte>, moved: map<nat, File>, next: nat)
    requires Good(arena, push, files, disk) && id in files && files[id].dirty
    ensures Good(bytes, next, moved, disk) == true && OthersSame(id, arena, files, disk, bytes, moved, disk) == true
    ensures SameButPlaces(files, moved) && next == Used(files) && |bytes| == |arena|
    ensures moved[id].off + moved[id].len == next && Used(moved) == Used(files)
    ensures Used(moved - {id}) == Used(files - {id})
    ensures KeptWhenIntact(arena, files, disk, id, bytes, moved) == true
  {
    var f, rest := files[id], files - {id};
    UsedFits(arena, push, files, disk, id);
    assert Agrees(arena, f, Stored(disk, id));
    var w;
    bytes, moved, w := PackAll(arena, push, rest, disk);
    var src, g := bytes[f.off..f.off + f.len], f.(off := w);
    next := w + |src|;
    PutLast(arena, push, files, disk, id, bytes, moved, w, src, g, next);
    bytes, moved := Patch(bytes, w, src), moved[id := g];
  }

  lemma PutLast(arena: seq<byte>, push: nat, files: map<nat, File>, disk: map<nat, seq<byte>>, id: nat,
                bytes: seq<byte>, moved: map<nat, File>, w: nat, src: seq<byte>, g: File, next: nat)
    requires Good(arena, push, files, disk) == true && id in files && files[id].dirty
    requires Good(bytes, w, moved, disk) == true && moved.Keys == (files - {id}).Keys
    requires w == Used(moved) == Used(files - {id}) && SameButPlaces(files - {id}, moved)
    requires SameContents(arena, files - {id}, disk, bytes, moved, disk) == true && SameFrom(arena, bytes, w) == true
    requires Blank(arena, files - {id}) ==> ZeroBelow(bytes, w)
    requires files[id].off + files[id].len <= |bytes| && src == bytes[files[id].off..files[id].off + files[id].len]
    requires g == files[id].(off := w) && next == w + |src| <= |bytes|
    ensures Good(Patch(bytes, w, src), next, moved[id := g], disk) == true
    ensures OthersSame(id, arena, files, disk, Patch(bytes, w, src), moved[id := g], disk) == true
    ensures SameButPlaces(files, moved[id := g]) && next == Used(files)
    ensures Used(moved[id := g]) == Used(files) && Used(moved[id := g] - {id}) == Used(files - {id})
    ensures KeptWhenIntact(arena, files, disk, id, Patch(bytes, w, src), moved[id := g]) == true
  {
    KeepLast(arena, push, files, disk, id, bytes, moved, w, src, g, next);
    KeptIfIntact(arena, files, disk, id, bytes, moved, w, src, g);
    KeptUsed(files, id, moved, g);
    UsedWithout(files, id);
  }

  /** A file that comes last in compaction is kept if it is intact. Otherwise there are contents
      with which it is not. */
  ghost predicate KeptWhenIntact(arena: seq<byte>, files: map<nat, File>, disk: map<nat, seq<byte>>, id: nat,
                                 arena': seq<byte>, files': map<nat, File>) {
    var x, x' := Contents(arena, files, disk, id), Contents(arena', files', disk, id);
    && (Intact(files, id) ==> x' == x)
    && (Blank(arena, files - {id}) && x != [] && x[0] != 0 ==> (x' == x <==> Intact(files, id)))
  }

  /** The files hold zeros only. */
  ghost predicate Blank(arena: seq<byte>, files: map<nat, File>) {
    forall id :: id in files ==>
      files[id].off + files[id].len <= |arena| && Bytes(arena, files[id]) == Zeros(files[id].len)
  }

  ghost predicate ZeroBelow(bytes: seq<byte>, w: nat) {
    w <= |bytes| && bytes[..w] == Zeros(w)
  }

  /** Packing zeros makes zeros. */
  lemma ZeroPacked(arena0: seq<byte>, files0: map<nat, File>, arena: seq<byte>, push: nat, files: map<nat, File>,
                   disk: map<nat, seq<byte>>, live: seq<nat>, i: nat, w: nat, rest: set<nat>)
    requires i < |live| && Packs(arena0, files0, arena, push, files, disk, live, i, w, rest) && Blank(arena0, files0)
    requires ZeroBelow(arena, w)
    ensures live[i] in files && files[live[i]].off + files[live[i]].len <= |arena| && w + files[live[i]].len <= |arena|
    ensures ZeroBelow(Patch(arena, w, Bytes(arena, files[live[i]])), w + files[live[i]].len)
  {
    var id, f := live[i], files[live[i]];
    PackStep(arena0, files0, arena, push, files, disk, live, i, w, rest);
    assert Contents(arena, files, disk, id) == Contents(arena0, files0, disk, id);
    assert Bytes(arena, f) == Zeros(f.len);
    MoreZeros(arena, w, f.len);
  }

  lemma MoreZeros(arena: seq<byte>, w: nat, n: nat)
    requires ZeroBelow(arena, w) && w + n <= |arena|
    ensures ZeroBelow(Patch(arena, w, Zeros(n)), w + n)
  {
    var arena' := Patch(arena, w, Zeros(n));
    assert forall k :: 0 <= k < w ==> arena[k] == arena[..w][k];
    assert arena'[..w + n] == Zeros(w + n);
  }

  /** The two agree from w on. */
  ghost predicate SameFrom(x: seq<byte>, y: seq<byte>, w: nat) {
    |x| == |y| && w <= |x| && y[w..] == x[w..]
  }

  lemma SameFromPatch(x: seq<byte>, y: seq<byte>, w: nat, buf: seq<byte>, w': nat)
    requires SameFrom(x, y, w) && w' == w + |buf| <= |y|
    ensures SameFrom(x, Patch(y, w, buf), w')
  {
    PatchElsewhere(y, w, buf, w', |y|);
    assert x[w'..] == x[w..][|buf|..] && y[w'..] == y[w..][|buf|..];
  }

  /** The state of a compaction that has packed the first i files below w. */
  ghost predicate Packs(arena0: seq<byte>, files0: map<nat, File>, arena: seq<byte>, push: nat, files: map<nat, File>,
                        disk: map<nat, seq<byte>>, live: seq<nat>, i: nat, w: nat, rest: set<nat>) {
    && Good(arena, push, files, disk) && Lists(live, files.Keys) && Packing(files, live, i, w) && w <= push
    && |arena| == |arena0| && SameContents(arena0, files0, disk, arena, files, disk)
    && Remaining(files0, files, live, i, w, rest)
  }

  /** What is left to pack, and how many bytes that is. */
  ghost predicate Remaining(files0: map<nat, File>, files: map<nat, File>, live: seq<nat>, i: nat, w: nat,
                            rest: set<nat>) {
    && SameButPlaces(files0, files)
    && rest <= files0.Keys && (forall j :: 0 <= j < |live| ==> (live[j] in rest <==> j >= i))
    && w + Total(files0, rest) == Used(files0)
  }

  lemma RemainingStep(files0: map<nat, File>, files: map<nat, File>, live: seq<nat>, i: nat, w: nat, rest: set<nat>,
                      f: File)
    requires Remaining(files0, files, live, i, w, rest) && Lists(live, files.Keys) && i < |live|
    requires live[i] in files && f == files[live[i]].(off := f.off)
    ensures Remaining(files0, files[live[i] := f], live, i + 1, w + f.len, rest - {live[i]})
  {
    TotalSplit(files0, rest, live[i]);
  }

  lemma PackStep(arena0: seq<byte>, files0: map<nat, File>, arena: seq<byte>, push: nat, files: map<nat, File>,
                 disk: map<nat, seq<byte>>, live: seq<nat>, i: nat, w: nat, rest: set<nat>)
    requires i < |live| && Packs(arena0, files0, arena, push, files, disk, live, i, w, rest) == true
    ensures live[i] in files && files[live[i]].off + files[live[i]].len <= |arena| && w + files[live[i]].len <= |arena|
    ensures var f := files[live[i]];
      Packs(arena0, files0, Patch(arena, w, Bytes(arena, f)), push, files[live[i] := f.(off := w)], disk,
            live, i + 1, w + f.len, rest - {live[i]})
  {
    PackNext(arena, push, files, disk, live, i, w);
    MoveDown(arena, push, files, disk, live[i], w);
    RemainingStep(files0, files, live, i, w, rest, files[live[i]].(off := w));
  }

  lemma PackOn(arena0: seq<byte>, files0: map<nat, File>, arena: seq<byte>, push: nat, files: map<nat, File>,
               disk: map<nat, seq<byte>>, live: seq<nat>, i: nat, w: nat, rest: set<nat>,
               f: File, arena': seq<byte>, files': map<nat, File>, w': nat, rest': set<nat>)
    requires i < |live| && Packs(arena0, files0, arena, push, files, disk, live, i, w, rest) == true
    requires live[i] in files && f == files[live[i]] && f.off + f.len <= |arena| && w + f.len <= |arena|
    requires arena' == Patch(arena, w, Bytes(arena, f)) && files' == files[live[i] := f.(off := w)]
    requires w' == w + f.len && rest' == rest - {live[i]}
    ensures Packs(arena0, files0, arena', push, files', disk, live, i + 1, w', rest') == true
  {
    PackStep(arena0, files0, arena, push, files, disk, live, i, w, rest);
  }

  lemma PackStart(arena: seq<byte>, push: nat, files: map<nat, File>, disk: map<nat, seq<byte>>, live: seq<nat>)
    requires Good(arena, push, files, disk) && Lists(live, files.Keys) && ByOffset(files, live)
    ensures Packs(arena, files, arena, push, files, disk, live, 0, 0, files.Keys) == true
  {
    assert live[0..] == live;
  }

  lemma Packed(arena0: seq<byte>, files0: map<nat, File>, arena: seq<byte>, push: nat, files: map<nat, File>,
               disk: map<nat, seq<byte>>, live: seq<nat>, w: nat, rest: set<nat>)
    requires Packs(arena0, files0, arena, push, files, disk, live, |live|, w, rest) == true
    ensures Good(arena, w, files, disk) && w == Used(files) == Used(files0) && w <= push
    ensures SameContents(arena0, files0, disk, arena, files, disk) && |arena| == |arena0|
        && SameButPlaces(files0, files)
  {
    forall id | id in files ensures id !in rest && files[id].off + files[id].len <= w {
      assert Listed(live, id);
      var j :| 0 <= j < |live| && live[j] == id;
    }
    assert rest == {};
    TotalSame(files0, files, files.Keys);
  }

  /** A load has cached the file, and then its metadata could not be read. */
  ghost predicate Missed<T>(r: Result<T, Error>, id: nat, files0: map<nat, File>, files: map<nat, File>) {
    && id !in files0 && r.Err? && r.error == DriverError
    && id in files && !files[id].dirty && files[id].len > 0
  }

  predicate SecondFails(script: seq<Fault>) {
    FirstFault(script).Fine? && FirstFault(AfterFault(script)).Fail?
  }

  /** The first two of the coming driver calls succeed and the third does not. */
  predicate ThirdFails(script: seq<Fault>) {
    FirstFault(script).Fine? && SecondFails(AfterFault(script))
  }

  function FirstFault(script: seq<Fault>): Fault { if script == [] then Fine else script[0] }
  function AfterFault(script: seq<Fault>): seq<Fault> { if script == [] then [] else script[1..] }

  /** Lengthening a file where it is keeps the files apart exactly when no other file lies in
      the bytes it takes in. */
  lemma LengthenedApart(files: map<nat, File>, id: nat, g: File)
    requires Disjoint(files) && id in files
    ensures Disjoint(files[id := g]) <==> ClearOf(files, id, g.off, g.len)
  {
    var files' := files[id := g];
    if ClearOf(files, id, g.off, g.len) {
      forall a, b | a in files' && b in files' && a != b ensures Apart(files'[a], files'[b]) {
        if a != id && b != id { assert Apart(files[a], files[b]); }
      }
    }
    if Disjoint(files') {
      forall x | x in files && x != id
        ensures g.len == 0 || files[x].len == 0 || files[x].off + files[x].len <= g.off || g.off + g.len <= files[x].off
      {
        assert Apart(files'[id], files'[x]);
      }
    }
  }

  /** The file has taken in the bytes behind it without having been moved. */
  ghost predicate GrownThere(arena: seq<byte>, push: nat, files: map<nat, File>, disk: map<nat, seq<byte>>, id: nat,
                             end: nat, arena': seq<byte>, push': nat, files': map<nat, File>) {
    && push <= |arena| && id in files && files[id].len <= end && push + (end - files[id].len) <= |arena|
    && arena' == Patch(arena, push, Zeros(end - files[id].len))
    && files' == files[id := files[id].(len := end, dirty := true)]
    && (Good(arena', push', files', disk) <==> ClearOf(files, id, files[id].off, end))
    && (Disjoint(files') <==> ClearOf(files, id, files[id].off, end))
  }

  lemma HasGrown(arena: seq<byte>, push: nat, files: map<nat, File>, disk: map<nat, seq<byte>>, id: nat, end: nat,
                 extra: nat, arena': seq<byte>, push': nat, files': map<nat, File>)
    requires push <= |arena| && id in files && files[id].len + extra == end && push + extra <= |arena|
    requires arena' == Patch(arena, push, Zeros(extra))
    requires files' == files[id := files[id].(len := files[id].len + extra, dirty := true)]
    requires Extended(arena, push, files, disk, id, Zeros(extra), arena', push', files') == true
    ensures GrownThere(arena, push, files, disk, id, end, arena', push', files') == true
  {
  }

  /** Data written at off to a file of the bytes x, lengthened to y, is right exactly when y has
      zeros up to off. */
  lemma RightOverZeros(x: seq<byte>, y: seq<byte>, off: nat, d: seq<byte>)
    requires |x| < |y| == off + |d| && y[..|x|] == x
    ensures Patch(y, off, d) == Written(x, off, d) <==> forall i :: |x| <= i < off ==> y[i] == 0
  {
    var z := Padded(x, off + |d|);
    assert forall i :: 0 <= i < |x| ==> y[i] == y[..|x|][i];
    assert Patch(y, off, d) == y[..off] + d && Patch(z, off, d) == z[..off] + d;
    if Patch(y, off, d) == Patch(z, off, d) {
      forall i | |x| <= i < off ensures y[i] == 0 {
        assert (y[..off] + d)[i] == (z[..off] + d)[i];
      }
    }
    if forall i :: |x| <= i < off ==> y[i] == 0 {
      assert y[..off] == z[..off];
    }
  }

  lemma HoleIsZero(arena: seq<byte>, push: nat, f: File, extra: nat, off: nat, y: seq<byte>)
    requires f.off + f.len <= push && push + extra <= |arena| && off <= f.len + extra
    requires y == Patch(arena, push, Zeros(extra))[f.off..f.off + f.len + extra]
    ensures y[..f.len] == arena[f.off..f.off + f.len]
    ensures (forall i :: f.len <= i < off ==> y[i] == 0) <==> ZeroHole(arena, push, f, off)
  {
    var arena' := Patch(arena, push, Zeros(extra));
    forall i | 0 <= i < |y| ensures y[i] == if f.off + i < push then arena[f.off + i] else 0 {
      assert y[i] == arena'[f.off + i];
    }
    if forall i :: f.len <= i < off ==> y[i] == 0 {
      forall i | f.off + f.len <= i < f.off + off && i < push && i < |arena| ensures arena[i] == 0 {
        assert y[i - f.off] == 0;
      }
    }
  }

  lemma WrittenThere(arena: seq<byte>, push: nat, files: map<nat, File>, disk: map<nat, seq<byte>>, id: nat,
                     off: nat, d: seq<byte>, arena': seq<byte>, push': nat, files': map<nat, File>)
    requires Good(arena, push, files, disk) && id in files && files[id].len < off + |d|
    requires GrownThere(arena, push, files, disk, id, off + |d|, arena', push', files')
    ensures Patch(Contents(arena', files', disk, id), off, d) == Written(Contents(arena, files, disk, id), off, d)
       <==> ZeroHole(arena, push, files[id], off)
  {
    var f, y := files[id], Contents(arena', files', disk, id);
    var extra := off + |d| - f.len;
    assert Agrees(arena, f, Stored(disk, id));
    HoleIsZero(arena, push, f, extra, off, y);
    RightOverZeros(Bytes(arena, f), y, off, d);
  }

  /** The bytes that are in the arena after a write has grown the file where it is. */
  ghost predicate SetThere(arena: seq<byte>, push: nat, files: map<nat, File>, id: nat, off: nat, d: seq<byte>,
                           arena': seq<byte>, files': map<nat, File>, tick: nat) {
    && id in files && files[id].len < off + |d| && files[id].off + off + |d| <= |arena|
    && push + (off + |d| - files[id].len) <= |arena|
    && arena' == Patch(Patch(arena, push, Zeros(off + |d| - files[id].len)), files[id].off + off, d)
    && files' == files[id := files[id].(len := off + |d|, dirty := true, lastAccess := tick)]
  }

  lemma Placed(arena: seq<byte>, push: nat, files: map<nat, File>, disk: map<nat, seq<byte>>, id: nat, off: nat,
               d: seq<byte>,
               g: File, at: nat, arena1: seq<byte>, push1: nat, files1: map<nat, File>, arena2: seq<byte>,
               files2: map<nat, File>, tick: nat)
    requires GrownThere(arena, push, files, disk, id, off + |d|, arena1, push1, files1) == true
    requires id in files && files[id].len < off + |d| && id in files1 && g == files1[id]
    requires at == g.off + off && at + |d| <= |arena1| && arena2 == Patch(arena1, at, d)
    requires files2 == files1[id := g.(dirty := true, lastAccess := tick)]
    ensures SetThere(arena, push, files, id, off, d, arena2, files2, tick) == true
  {
  }

  lemma DoneThere(arena0: seq<byte>, push0: nat, files0: map<nat, File>, disk: map<nat, seq<byte>>, id: nat,
                  off: nat, d: seq<byte>, arena1: seq<byte>, push1: nat, files1: map<nat, File>,
                  arena2: seq<byte>, files2: map<nat, File>)
    requires Good(arena0, push0, files0, disk) == true && id in files0 && files0[id].len < off + |d|
    requires GrownThere(arena0, push0, files0, disk, id, off + |d|, arena1, push1, files1) == true
    requires OthersSame(id, arena0, files0, disk, arena1, files1, disk) == true
    requires |Contents(arena1, files1, disk, id)| == off + |d|
    requires Contents(arena2, files2, disk, id) == Patch(Contents(arena1, files1, disk, id), off, d)
    requires Good(arena1, push1, files1, disk) ==>
      Good(arena2, push1, files2, disk) == true && OthersSame(id, arena1, files1, disk, arena2, files2, disk) == true
    requires Disjoint(files2) ==> Disjoint(files1)
    ensures Good(arena2, push1, files2, disk) && OthersSame(id, arena0, files0, disk, arena2, files2, disk) &&
            Contents(arena2, files2, disk, id) == Written(Contents(arena0, files0, disk, id), off, d)
       <==> ClearOf(files0, id, files0[id].off, off + |d|) && ZeroHole(arena0, push0, files0[id], off)
  {
    WrittenThere(arena0, push0, files0, disk, id, off, d, arena1, push1, files1);
    if Good(arena1, push1, files1, disk) {
      OthersBoth(id, arena0, files0, disk, arena1, files1, disk, arena2, files2, disk);
    }
  }

  /** How file id is extended by zeros behind the push offset. */
  ghost predicate Extended(arena: seq<byte>, push: nat, files: map<nat, File>, disk: map<nat, seq<byte>>, id: nat,
                           zeros: seq<byte>, arena': seq<byte>, push': nat, files': map<nat, File>) {
    && id in files && id in files'
    && (Good(arena', push', files', disk) <==> ClearOf(files, id, files'[id].off, files'[id].len))
    && (Disjoint(files') <==> ClearOf(files, id, files'[id].off, files'[id].len))
    && OthersSame(id, arena, files, disk, arena', files', disk)
    && (files[id].off + files[id].len == push ==>
          && Good(arena', push', files', disk)
          && Contents(arena', files', disk, id) == Contents(arena, files, disk, id) + zeros)
  }

  lemma Extend(arena: seq<byte>, push: nat, files: map<nat, File>, disk: map<nat, seq<byte>>, id: nat, g: File,
               zeros: seq<byte>, arena': seq<byte>, push': nat, files': map<nat, File>)
    requires Good(arena, push, files, disk) && id in files && push' == push + |zeros| <= |arena|
    requires arena' == Patch(arena, push, zeros) && files' == files[id := g]
    requires g.off == files[id].off && g.len == files[id].len + |zeros| && g.dirty
    ensures Extended(arena, push, files, disk, id, zeros, arena', push', files') == true
  {
    LengthenedApart(files, id, g);
    ExtendOthers(arena, push, files, disk, id, g, zeros, push');
    if files[id].off + files[id].len == push {
      GrowTail(arena, push, files, disk, id, g, zeros, push');
      GrownContents(arena, push, files, disk, id, g, zeros);
    }
  }

  lemma ExtendOthers(arena: seq<byte>, push: nat, files: map<nat, File>, disk: map<nat, seq<byte>>, id: nat, g: File,
                     zeros: seq<byte>, push': nat)
    requires Good(arena, push, files, disk) && id in files && push' == push + |zeros| <= |arena|
    requires g.off == files[id].off && g.len == files[id].len + |zeros| && g.dirty
    ensures Good(Patch(arena, push, zeros), push', files[id := g], disk) <==> Disjoint(files[id := g])
    ensures OthersSame(id, arena, files, disk, Patch(arena, push, zeros), files[id := g], disk)
  {
    Scribble(arena, push, files, disk, zeros, push');
    var arena', files' := Patch(arena, push, zeros), files[id := g];
    assert Agrees(arena, files[id], Stored(disk, id));
    forall x | x in files' ensures Agrees(arena', files'[x], Stored(disk, x)) {
      if x != id { assert Agrees(arena', files[x], Stored(disk, x)); }
    }
    forall x: nat | x != id ensures Contents(arena', files', disk, x) == Contents(arena, files, disk, x) {
      assert Contents(arena', files, disk, x) == Contents(arena, files, disk, x);
    }
  }

  /** A cache that has read two files, one of ones and one of zeros, which lie side by side. */
  method TwoFiles(size: nat) returns (c: Cache)
    requires 9 <= size
    ensures fresh(c) && c.Valid() == true && c.Counted() && |c.arena| == size && c.push == 8 && c.tick == 2
    ensures c.arena == [1, 1, 1, 1] + Zeros(size - 4)
    ensures c.files == map[1 := File(0, 4, 1, false, false, NORMAL), 2 := File(4, 4, 2, false, false, NORMAL)]
  {
    var ones: seq<byte> := [1, 1, 1, 1];
    c := new Cache(size, map[1 := ones, 2 := Zeros(4)], []);
    OnesThenZeros(size);
    ReadNext(c, 1);
    ReadNext(c, 2);
  }

  lemma OnesThenZeros(size: nat)
    requires 9 <= size
    ensures var ones: seq<byte> := [1, 1, 1, 1];
      && Patch(Zeros(size), 0, ones) == ones + Zeros(size - 4)
      && Patch(ones + Zeros(size - 4), 4, Zeros(4)) == ones + Zeros(size - 4)
  {
  }

  method ReadNext(c: Cache, id: nat)
    requires c.Valid() && c.FitsBehind(id) && c.script == [] && c.tick < 9
    modifies c
    ensures c.Valid() == true && c.tick == old(c.tick) + 1 && c.hints == old(c.hints)
    ensures old(c.Counted()) ==> c.Counted()
    ensures c.LoadedAt(id, old(c.arena), old(c.push), old(c.files), old(c.used), old(c.disk))
  {
    var r := c.ReadFileRange(id, 0, 0);
  }

  method WriteTwo(c: Cache)
    requires c.Valid() && 1 in c.files && c.GrowsOver(1, 6)
    modifies c
    ensures SetThere(old(c.arena), old(c.push), old(c.files), 1, 4, [9, 9], c.arena, c.files, c.tick) == true
  {
    var r := c.WriteFile(1, 4, [9, 9]);
  }

  /** A write that grows a file where it is can destroy its neighbour. */
  method GrowthCanOverlap() returns (c: Cache, ghost before: seq<byte>)
    ensures before == Zeros(4) && Contents(c.arena, c.files, c.disk, 2) != before && !c.Valid()
  {
    c := TwoFiles(11);
    before := Contents(c.arena, c.files, c.disk, 2);
    ghost var files0 := c.files;
    assert before == Zeros(4);
    WriteTwo(c);
    assert c.files[2] == files0[2] && !Apart(c.files[1], c.files[2]);
    assert Contents(c.arena, c.files, c.disk, 2)[0] == c.arena[4] == 9;
  }

  /** Compaction that puts a file last can destroy it. */
  method CompactionCanDestroy() returns (c: Cache, ghost before: seq<byte>)
    ensures before == [1, 1, 1, 1] && Contents(c.arena, c.files, c.disk, 1) != before
  {
    c := TwoFiles(9);
    before := Contents(c.arena, c.files, c.disk, 1);
    FirstIsLost(c.arena, c.files, c.disk);
    var was := c.MarkDirty(1);
    FirstIsLost(c.arena, c.files, c.disk);
    c.CompactKeeping(1);
  }

  lemma FirstIsLost(arena: seq<byte>, files: map<nat, File>, disk: map<nat, seq<byte>>)
    requires arena == [1, 1, 1, 1] + Zeros(5) && files.Keys == {1, 2}
    requires files[1].off == 0 && files[1].len == 4 && files[2].off == 4 && files[2].len == 4
    ensures Contents(arena, files, disk, 1) == [1, 1, 1, 1]
    ensures Blank(arena, files - {1}) == true && !Intact(files, 1)
  {
    var rest := files - {1};
    assert rest.Keys == {2} && Bytes(arena, rest[2]) == Zeros(4);
    UsedWithout(rest, 2);
  }

  /** A cache with an old ordinary file and a newer pinned one, which has no room for two bytes more:
      the pinned one goes. */
  method PinnedGoesFirst() returns (c: Cache, ok: bool, ghost before: map<nat, File>)
    ensures before.Keys == {1, 2} && before[2].pinned && !before[1].pinned
    ensures before[1].lastAccess < before[2].lastAccess && before[1].importance < before[2].importance
    ensures c.Valid() && ok && c.files.Keys == {1}
  {
    c := TwoFiles(9);
    var r := c.PinFile(2);
    before := c.files;
    ok := AskForMore(c);
  }

  method AskForMore(c: Cache) returns (ok: bool)
    requires c.Valid() && c.Counted() && |c.arena| == 9 && c.push == 8 && c.tick == 2 && c.files.Keys == {1, 2}
    requires c.files[1] == File(0, 4, 1, false, false, NORMAL) && c.files[2] == File(4, 4, 2, false, true, RESIDENT)
    modifies c
    ensures c.Valid() && ok && c.files.Keys == {1}
  {
    ghost var vs, last;
    ok, vs, last := c.EnsureSpace(2, INVALID, true);
    SecondIsTaken(ok, old(c.files), old(c.disk), old(c.script), vs, last, c.push, c.files);
  }

  lemma SecondIsTaken(ok: bool, files0: map<nat, File>, disk: map<nat, seq<byte>>, script: seq<Fault>,
                      vs: seq<nat>, last: nat, push: nat, files: map<nat, File>)
    requires RoomOutcome(ok, true, 9, 2, 8, files0, 2, INVALID, true, disk, script, vs, last, push, files)
    requires files0.Keys == {1, 2}
    requires files0[1] == File(0, 4, 1, false, false, NORMAL) && files0[2] == File(4, 4, 2, false, true, RESIDENT)
    ensures ok && files.Keys == {1}
  {
    OnlySecond(files0);
    var rest := files0 - {2};
    UsedWithout(files0, 2);
    UsedWithout(rest, 1);
    assert rest - {1} == map[];
    if vs != [] {
      assert vs[0] == 2 && vs[..1] == [2];
      assert PushAfter(9, 2, 8, files0, vs[..1]) == PushAfter(9, 2, 4, rest, []);
      assert Minus(files0, vs) == Minus(rest, vs[1..]);
    }
  }

  lemma OnlySecond(files: map<nat, File>)
    requires files.Keys == {1, 2}
    requires files[1] == File(0, 4, 1, false, false, NORMAL) && files[2] == File(4, 4, 2, false, true, RESIDENT)
    ensures forall v :: IsVictim(files, 2, INVALID, true, v) ==> v == 2
    ensures !NoVictim(files, 2, INVALID, true)
  {
    ScoreIs(files[1], 2);
    ResidentScore(files[2], 2);
  }

  /** A file that has been loaded and not counted. */
  method CounterCanMiss() returns (c: Cache)
    ensures c.Valid() && 1 in c.files && !c.Counted()
  {
    var script := [Fine, Fine, Fail(0)];
    assert AfterFault(script) == [Fine, Fail(0)] && AfterFault([Fine, Fail(0)]) == [Fail(0)];
    assert ThirdFails(script);
    c := new Cache(4, map[1 := [7]], script);
    var r := c.ReadFileRange(1, 0, 1);
  }

  method OneFileOfNine() returns (c: Cache)
    ensures fresh(c) && c.Valid() && c.Counted() && |c.arena| == 10 && c.push == 9 && c.script == []
    ensures c.files == map[1 := File(0, 9, 1, false, false, NORMAL)] && Stored(c.disk, 2) == Zeros(2)
  {
    c := new Cache(10, map[1 := Zeros(9), 2 := Zeros(2)], []);
    var r := c.ReadFileRange(1, 0, 0);
  }

  /** A cache that holds one file of nine bytes out of ten and is asked for two: afterwards it
      holds nothing, and has room for one byte for ever. */
  method EvictionCanWedge() returns (c: Cache, first: bool, again: Result<seq<byte>, Error>)
    ensures c.Valid() && c.Counted() && c.files == map[] && |c.arena| == 10 && c.push == 9
    ensures !first && again == Err(CacheFull)
  {
    c := OneFileOfNine();
    first := AskForTwo(c);
    again := c.ReadFileRange(2, 0, 2);
  }

  method AskForTwo(c: Cache) returns (ok: bool)
    requires c.Valid() && c.Counted() && |c.arena| == 10 && c.push == 9 && c.script == []
    requires c.files == map[1 := File(0, 9, 1, false, false, NORMAL)] && Stored(c.disk, 2) == Zeros(2)
    modifies c
    ensures c.Valid() && c.Counted() && |c.arena| == 10 && c.files == map[] && c.push == 9 && !ok
    ensures Stored(c.disk, 2) == Zeros(2) && AllFine(c.script)
  {
    ghost var vs, last;
    ok, vs, last := c.EnsureSpace(2, INVALID, true);
    assert Contents(c.arena, c.files, c.disk, 2) == Contents(old(c.arena), old(c.files), old(c.disk), 2);
    WedgedByOne(ok, old(c.files), c.tick, old(c.disk), old(c.script), vs, last, c.push, c.files);
  }

  /** A file whose size could not be read is made anew, whatever it holds. */
  method NewFileCanDestroy() returns (c: Cache, ghost before: seq<byte>)
    ensures before == [7] && Contents(c.arena, c.files, c.disk, 1) != before && !c.Valid()
  {
    c := new Cache(4, map[1 := [7]], []);
    before := Contents(c.arena, c.files, c.disk, 1);
    var ok := c.NewFile(1, 2);
  }

  lemma WedgedByOne(ok: bool, files0: map<nat, File>, tick: nat, disk: map<nat, seq<byte>>, script: seq<Fault>,
                    vs: seq<nat>, last: nat, push: nat, files: map<nat, File>)
    requires RoomOutcome(ok, true, 10, 2, 9, files0, tick, INVALID, true, disk, script, vs, last, push, files)
    requires files0.Keys == {1} && files0[1].len == 9 && !files0[1].dirty && files0[1].importance > 0
    ensures !ok && files == map[] && push == 9
  {
    OneFile(ok, 10, 2, 9, files0, tick, INVALID, true, disk, script, vs, last, push, files, 1);
    if vs == [] {
      assert Score(files0[1], tick) > 0;
    } else {
      assert vs[0] == 1 && files0 - {1} == map[];
      assert Evictions(files0 - {1}, tick, INVALID, true, vs[1..]);
      assert vs[1..] == [];
      assert Minus(files0, vs) == Minus(map[], []);
    }
  }
}
