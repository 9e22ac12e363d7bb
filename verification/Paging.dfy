/** The books of one address space: which frame backs its root table, each of its lower tables
    and each of its own pages. A frame appears once, so putting every booked frame back frees
    nothing twice. Leaf entries whose frame is not booked under their page are borrowed. */
module Paging {

  /** A table by its place in the tree, for pages of the lower half of the address space. */
  datatype TableId = Pdpt(i: nat) | Pd(i: nat, j: nat) | Pt(i: nat, j: nat, k: nat)
  datatype Use = Root | Table(id: TableId) | Page(page: nat)

  const USER_SLOTS: nat := 256
  const SLOTS: nat := 512
  const USER_PAGES: nat := 0x8_0000_0000

  function PdptOf(p: nat): TableId { Pdpt(p / 0x800_0000) }
  function PdOf(p: nat): TableId { Pd(p / 0x800_0000, p / 0x4_0000 % 512) }
  function PtOf(p: nat): TableId { Pt(p / 0x800_0000, p / 0x4_0000 % 512, p / 512 % 512) }

  /** Pages share a table of the last level if they lie in the same two megabytes, one of the middle
      level if they lie in the same gigabyte, and one of the upper level if in the same 512. */
  lemma SharedTables(p: nat, q: nat)
    ensures PtOf(p) == PtOf(q) <==> p / 0x200 == q / 0x200
    ensures PdOf(p) == PdOf(q) <==> p / 0x4_0000 == q / 0x4_0000
    ensures PdptOf(p) == PdptOf(q) <==> p / 0x800_0000 == q / 0x800_0000
  {
    assert p / 0x800_0000 == p / 0x4_0000 / 0x200 && q / 0x800_0000 == q / 0x4_0000 / 0x200;
    assert p / 0x4_0000 == p / 0x200 / 0x200 && q / 0x4_0000 == q / 0x200 / 0x200;
  }

  /** In range, and its parent table is there. */
  ghost predicate Hangs(tables: map<TableId, nat>, id: TableId) {
    match id
    case Pdpt(i) => i < USER_SLOTS
    case Pd(i, j) => j < SLOTS && Pdpt(i) in tables
    case Pt(i, j, k) => k < SLOTS && Pd(i, j) in tables
  }

  ghost predicate TablesBooked(tables: map<TableId, nat>, ledger: map<nat, Use>) {
    && (forall id :: id in tables ==> Hangs(tables, id))
    && (forall id :: id in tables ==> tables[id] in ledger && ledger[tables[id]] == Table(id))
    && (forall f :: f in ledger && ledger[f].Table? ==> ledger[f].id in tables && tables[ledger[f].id] == f)
  }

  ghost predicate PagesBooked(leaf: map<nat, nat>, ledger: map<nat, Use>) {
    forall f :: f in ledger && ledger[f].Page? ==> ledger[f].page in leaf && leaf[ledger[f].page] == f
  }

  ghost predicate RootBooked(root: nat, ledger: map<nat, Use>) {
    root in ledger && forall f :: f in ledger ==> (ledger[f].Root? <==> f == root)
  }

  ghost predicate LeavesHang(tables: map<TableId, nat>, leaf: map<nat, nat>) {
    forall p :: p in leaf ==> PtOf(p) in tables
  }

  ghost predicate Books(root: nat, tables: map<TableId, nat>, leaf: map<nat, nat>, ledger: map<nat, Use>) {
    && RootBooked(root, ledger) && TablesBooked(tables, ledger)
    && PagesBooked(leaf, ledger) && LeavesHang(tables, leaf)
  }

  /** The address space owns the frame behind page p. */
  ghost predicate Owns(leaf: map<nat, nat>, ledger: map<nat, Use>, p: nat) {
    p in leaf && leaf[p] in ledger && ledger[leaf[p]] == Page(p)
  }

  /** No page of [a, b) is mapped to a frame of somebody else. */
  ghost predicate OwnedOrFree(leaf: map<nat, nat>, ledger: map<nat, Use>, a: nat, b: nat) {
    forall p :: a <= p < b && p in leaf ==> Owns(leaf, ledger, p)
  }

  ghost predicate SameOwners(leaf: map<nat, nat>, ledger: map<nat, Use>, leaf': map<nat, nat>, ledger': map<nat, Use>) {
    forall p: nat :: Owns(leaf', ledger', p) <==> Owns(leaf, ledger, p)
  }

  /** Exactly the pages of [a, b) stop being owned. */
  ghost predicate OwnersWithout(leaf: map<nat, nat>, ledger: map<nat, Use>, leaf': map<nat, nat>,
                                ledger': map<nat, Use>, a: nat, b: nat) {
    forall p: nat :: Owns(leaf', ledger', p) <==> Owns(leaf, ledger, p) && !(a <= p < b)
  }

  /** Exactly the pages of [a, b) become owned. */
  ghost predicate OwnersWith(leaf: map<nat, nat>, ledger: map<nat, Use>, leaf': map<nat, nat>, ledger': map<nat, Use>,
                             a: nat, b: nat) {
    forall p: nat :: Owns(leaf', ledger', p) <==> Owns(leaf, ledger, p) || a <= p < b
  }

  function Without(leaf: map<nat, nat>, a: nat, b: nat): (r: map<nat, nat>)
    ensures forall p :: p in r <==> p in leaf && !(a <= p < b)
    ensures forall p :: p in r ==> r[p] == leaf[p]
  {
    map p | p in leaf && !(a <= p < b) :: leaf[p]
  }

  lemma FilledMore(leaf: map<nat, nat>, ledger: map<nat, Use>, leaf1: map<nat, nat>, ledger1: map<nat, Use>,
                   leaf2: map<nat, nat>, ledger2: map<nat, Use>, a: nat, p: nat, q: nat)
    requires a <= p && q == p + 1 && Filled(leaf, leaf1, a, p) && OwnersWith(leaf, ledger, leaf1, ledger1, a, p)
    requires Filled(leaf1, leaf2, p, p + 1) && OwnersWith(leaf1, ledger1, leaf2, ledger2, p, p + 1)
    ensures Filled(leaf, leaf2, a, q) == true && OwnersWith(leaf, ledger, leaf2, ledger2, a, q) == true
  {
  }

  /** After the pages of [a, p) have been filled, page p is as it was. */
  lemma OwnedNow(leaf: map<nat, nat>, ledger: map<nat, Use>, leaf1: map<nat, nat>, ledger1: map<nat, Use>,
                 a: nat, p: nat, b: nat)
    requires OwnedOrFree(leaf, ledger, a, b) && a <= p < b
    requires Filled(leaf, leaf1, a, p) && OwnersWith(leaf, ledger, leaf1, ledger1, a, p)
    ensures p in leaf1 ==> Owns(leaf1, ledger1, p) == true
    ensures p in leaf1 <==> p in leaf
  {
    assert Owns(leaf1, ledger1, p) <==> Owns(leaf, ledger, p);
  }

  /** None of the given frames is owned by the page it is to be mapped at. */
  ghost predicate NotYetOwned(leaf: map<nat, nat>, ledger: map<nat, Use>, a: nat, frames: seq<nat>) {
    forall i :: 0 <= i < |frames| && Owns(leaf, ledger, a + i) ==> leaf[a + i] != frames[i]
  }

  /** After the first i frames have been mapped, the next page is as it was. */
  lemma SameThere(leaf: map<nat, nat>, ledger: map<nat, Use>, leaf1: map<nat, nat>, ledger1: map<nat, Use>, a: nat,
                  frames: seq<nat>, i: nat, p: nat)
    requires Progress(leaf, ledger, leaf1, ledger1, a, frames, i) && i < |frames| && p == a + i
    requires NotYetOwned(leaf, ledger, a, frames)
    ensures Owns(leaf, ledger, p) ==> leaf[p] != frames[i]
    ensures (p in leaf1 <==> p in leaf) && (p in leaf ==> leaf1[p] == leaf[p])
  {
  }

  predicate NoneMapped(leaf: map<nat, nat>, a: nat, b: nat) {
    forall p :: a <= p < b ==> p !in leaf
  }

  lemma NothingLost(leaf: map<nat, nat>, a: nat, p: nat, b: nat)
    requires p <= b
    ensures Without(leaf, a, p) == leaf <==> NoneMapped(leaf, a, p) == true
    ensures NoneMapped(leaf, a, b) ==> NoneMapped(leaf, a, p) == true
  {
    if NoneMapped(leaf, a, p) {
      assert Without(leaf, a, p) == leaf;
    } else {
      var q :| a <= q < p && q in leaf;
      assert q !in Without(leaf, a, p);
    }
  }

  /** The pages of [a, b) are mapped too, the other entries are as before. */
  ghost predicate Filled(leaf: map<nat, nat>, leaf': map<nat, nat>, a: nat, b: nat) {
    && (forall p :: p in leaf' <==> p in leaf || a <= p < b)
    && (forall p :: p in leaf ==> leaf'[p] == leaf[p])
  }

  /** The entries from page a on are the given frames, the others are as before. */
  ghost predicate Loaded(leaf: map<nat, nat>, leaf': map<nat, nat>, a: nat, frames: seq<nat>) {
    && (forall p :: p in leaf' <==> p in leaf || a <= p < a + |frames|)
    && (forall p :: p in leaf && !(a <= p < a + |frames|) ==> leaf'[p] == leaf[p])
    && (forall p :: a <= p < a + |frames| ==> leaf'[p] == frames[p - a])
  }

  /** Wherever the entries from page a on are present, they are the given frames. */
  ghost predicate Agrees(leaf: map<nat, nat>, a: nat, frames: seq<nat>) {
    forall p :: a <= p < a + |frames| && p in leaf ==> leaf[p] == frames[p - a]
  }

  /** The first i frames are mapped; none of those pages is owned, and no owner changed. */
  ghost predicate Progress(leaf: map<nat, nat>, ledger: map<nat, Use>, leaf': map<nat, nat>, ledger': map<nat, Use>,
                           a: nat, frames: seq<nat>, i: nat) {
    && i <= |frames| && SameOwners(leaf, ledger, leaf', ledger')
    && Agrees(leaf, a, frames[..i]) && Loaded(leaf, leaf', a, frames[..i])
    && (forall p: nat :: a <= p < a + i ==> !Owns(leaf', ledger', p))
  }

  lemma ProgressStep(leaf: map<nat, nat>, ledger: map<nat, Use>, leaf1: map<nat, nat>, ledger1: map<nat, Use>,
                     leaf2: map<nat, nat>, ledger2: map<nat, Use>, a: nat, frames: seq<nat>, i: nat)
    requires Progress(leaf, ledger, leaf1, ledger1, a, frames, i) && i < |frames|
    requires SameOwners(leaf1, ledger1, leaf2, ledger2)
    requires leaf2 == leaf1[a + i := frames[i]] && (a + i in leaf1 ==> leaf1[a + i] == frames[i])
    requires Owns(leaf, ledger, a + i) ==> leaf[a + i] != frames[i]
    ensures Progress(leaf, ledger, leaf2, ledger2, a, frames, i + 1)
  {
    forall p: nat | a <= p < a + i + 1 ensures !Owns(leaf2, ledger2, p) {
      assert Owns(leaf2, ledger2, p) <==> Owns(leaf1, ledger1, p);
      assert Owns(leaf1, ledger1, p) <==> Owns(leaf, ledger, p);
    }
  }

  lemma ProgressKept(leaf: map<nat, nat>, ledger: map<nat, Use>, leaf1: map<nat, nat>, ledger1: map<nat, Use>,
                     ledger2: map<nat, Use>, a: nat, frames: seq<nat>, i: nat)
    requires Progress(leaf, ledger, leaf1, ledger1, a, frames, i) && SameOwners(leaf1, ledger1, leaf1, ledger2)
    ensures Progress(leaf, ledger, leaf1, ledger2, a, frames, i)
  {
  }

  lemma ProgressUndone(leaf: map<nat, nat>, ledger: map<nat, Use>, leaf1: map<nat, nat>, ledger1: map<nat, Use>,
                       leaf2: map<nat, nat>, ledger2: map<nat, Use>, a: nat, frames: seq<nat>, i: nat)
    requires Progress(leaf, ledger, leaf1, ledger1, a, frames, i)
    requires leaf2 == Without(leaf1, a, a + i) && OwnersWithout(leaf1, ledger1, leaf2, ledger2, a, a + i)
    ensures leaf2 == Without(leaf, a, a + i) && SameOwners(leaf, ledger, leaf2, ledger2)
  {
    forall p: nat ensures Owns(leaf2, ledger2, p) <==> Owns(leaf, ledger, p) {
      assert Owns(leaf1, ledger1, p) <==> Owns(leaf, ledger, p);
    }
  }

  lemma OwnersChain(leaf: map<nat, nat>, ledger: map<nat, Use>, leaf': map<nat, nat>, ledger': map<nat, Use>,
                    ledger'': map<nat, Use>, p: nat, f: nat)
    requires SameOwners(leaf, ledger, leaf', ledger')
    requires if p in leaf then leaf' == leaf && ledger'' == ledger' && Owns(leaf, ledger, p)
             else leaf' == leaf[p := f] && OwnersWith(leaf', ledger', leaf', ledger'', p, p + 1)
    ensures Filled(leaf, leaf', p, p + 1) && OwnersWith(leaf, ledger, leaf', ledger'', p, p + 1)
  {
    forall q: nat ensures Owns(leaf', ledger'', q) <==> Owns(leaf, ledger, q) || p <= q < p + 1 {
      assert Owns(leaf', ledger', q) <==> Owns(leaf, ledger, q);
    }
  }

  /** Emptying a range that was just filled is emptying the original one. */
  lemma Emptied(leaf: map<nat, nat>, ledger: map<nat, Use>, leaf': map<nat, nat>, ledger': map<nat, Use>, a: nat,
                b: nat)
    requires Filled(leaf, leaf', a, b) && OwnersWith(leaf, ledger, leaf', ledger', a, b)
    ensures Without(leaf', a, b) == Without(leaf, a, b)
    ensures forall leaf'', ledger'' :: OwnersWithout(leaf', ledger', leaf'', ledger'', a, b) ==>
      OwnersWithout(leaf, ledger, leaf'', ledger'', a, b)
  {
  }

  lemma AddTable(root: nat, tables: map<TableId, nat>, leaf: map<nat, nat>, ledger: map<nat, Use>, id: TableId, f: nat)
    requires Books(root, tables, leaf, ledger) && id !in tables && f !in ledger && Hangs(tables, id)
    ensures Books(root, tables[id := f], leaf, ledger[f := Table(id)]) == true
    ensures SameOwners(leaf, ledger, leaf, ledger[f := Table(id)]) == true
  {
  }

  /** A mapped frame that is not booked yet becomes the page's own. */
  lemma Adopt(root: nat, tables: map<TableId, nat>, leaf: map<nat, nat>, ledger: map<nat, Use>, p: nat)
    requires Books(root, tables, leaf, ledger) && p in leaf && leaf[p] !in ledger
    ensures Books(root, tables, leaf, ledger[leaf[p] := Page(p)])
    ensures forall q: nat :: Owns(leaf, ledger[leaf[p] := Page(p)], q) <==> Owns(leaf, ledger, q) || q == p
  {
    var g' := ledger[leaf[p] := Page(p)];
    forall q: nat ensures Owns(leaf, g', q) <==> Owns(leaf, ledger, q) || q == p {
    }
  }

  lemma AddLeaf(root: nat, tables: map<TableId, nat>, leaf: map<nat, nat>, ledger: map<nat, Use>, p: nat, f: nat)
    requires Books(root, tables, leaf, ledger) && p !in leaf && PtOf(p) in tables
    ensures Books(root, tables, leaf[p := f], ledger)
    ensures SameOwners(leaf, ledger, leaf[p := f], ledger)
  {
  }

  lemma DropOwned(root: nat, tables: map<TableId, nat>, leaf: map<nat, nat>, ledger: map<nat, Use>, p: nat)
    requires Books(root, tables, leaf, ledger) && Owns(leaf, ledger, p)
    ensures Books(root, tables, leaf - {p}, ledger - {leaf[p]}) && leaf - {p} == Without(leaf, p, p + 1)
    ensures OwnersWithout(leaf, ledger, leaf - {p}, ledger - {leaf[p]}, p, p + 1)
  {
    var l', g' := leaf - {p}, ledger - {leaf[p]};
    forall q: nat ensures Owns(l', g', q) <==> Owns(leaf, ledger, q) && !(p <= q < p + 1) {
    }
  }

  lemma DropBorrowed(root: nat, tables: map<TableId, nat>, leaf: map<nat, nat>, ledger: map<nat, Use>, p: nat)
    requires Books(root, tables, leaf, ledger) && p in leaf && !Owns(leaf, ledger, p)
    ensures Books(root, tables, leaf - {p}, ledger) && leaf - {p} == Without(leaf, p, p + 1)
    ensures OwnersWithout(leaf, ledger, leaf - {p}, ledger, p, p + 1)
  {
    var l' := leaf - {p};
    forall q: nat ensures Owns(l', ledger, q) <==> Owns(leaf, ledger, q) && !(p <= q < p + 1) {
    }
  }

  lemma NothingThere(leaf: map<nat, nat>, ledger: map<nat, Use>, p: nat)
    requires p !in leaf
    ensures leaf == Without(leaf, p, p + 1) && OwnersWithout(leaf, ledger, leaf, ledger, p, p + 1)
  {
  }

  lemma WithoutMore(leaf: map<nat, nat>, ledger: map<nat, Use>, leaf1: map<nat, nat>, ledger1: map<nat, Use>,
                    leaf2: map<nat, nat>, ledger2: map<nat, Use>, a: nat, b: nat)
    requires a <= b && leaf1 == Without(leaf, a, b) && leaf2 == Without(leaf1, b, b + 1)
    requires OwnersWithout(leaf, ledger, leaf1, ledger1, a, b)
    requires OwnersWithout(leaf1, ledger1, leaf2, ledger2, b, b + 1)
    ensures leaf2 == Without(leaf, a, b + 1) && OwnersWithout(leaf, ledger, leaf2, ledger2, a, b + 1)
  {
    forall p: nat ensures Owns(leaf2, ledger2, p) <==> Owns(leaf, ledger, p) && !(a <= p < b + 1) {
      assert Owns(leaf1, ledger1, p) <==> Owns(leaf, ledger, p) && !(a <= p < b);
    }
  }

  /** No table hangs under this one. */
  ghost predicate Childless(tables: map<TableId, nat>, id: TableId) {
    match id
    case Pdpt(i) => forall j :: Pd(i, j) !in tables
    case Pd(i, j) => forall k :: Pt(i, j, k) !in tables
    case Pt(_, _, _) => true
  }

  lemma DropTable(root: nat, tables: map<TableId, nat>, ledger: map<nat, Use>, id: TableId)
    requires Books(root, tables, map[], ledger) && id in tables && Childless(tables, id)
    ensures Books(root, tables - {id}, map[], ledger - {tables[id]})
  {
    var t', g' := tables - {id}, ledger - {tables[id]};
    forall x | x in t' ensures Hangs(t', x) {
      assert Hangs(tables, x);
    }
  }
}
