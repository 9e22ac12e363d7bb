/** Cluster chains of a file allocation table, as values: what a chain is, why it cannot loop,
    and how allocating, linking and freeing act on a table whose chains are disjoint. */
module FatChains {
  import opened FatDisk

  predicate IsEnd(entry: nat) { entry > BAD_CLUSTER }

  /** The end marks are the eight highest of the 28-bit entries. */
  lemma EndMarks(entry: nat)
    requires entry < ENTRY_LIMIT
    ensures IsEnd(entry) <==> 0x0FFF_FFF8 <= entry <= 0x0FFF_FFFF
    ensures IsEnd(END_OF_CHAIN)
  {
  }

  ghost predicate Linked(fat: seq<nat>, s: seq<nat>, i: int) {
    0 <= i < |s| - 1 && s[i] < |fat| && fat[s[i]] == s[i + 1]
  }

  /** The clusters of s, each linked to the next, the last one marked as the end. */
  ghost predicate IsChain(fat: seq<nat>, s: seq<nat>) {
    && |s| > 0
    && (forall i :: 0 <= i < |s| ==> ROOT_CLUSTER <= s[i] < |fat|)
    && (forall i :: 0 <= i < |s| - 1 ==> Linked(fat, s, i))
    && IsEnd(fat[s[|s| - 1]])
  }

  /** A chain that ends cannot come back to a cluster. */
  lemma {:induction false} NoRepeat(fat: seq<nat>, s: seq<nat>, i: nat, j: nat)
    requires IsChain(fat, s) && |fat| < BAD_CLUSTER && i < j < |s|
    ensures s[i] != s[j]
    decreases |s| - j
  {
    assert Linked(fat, s, i);
    if j + 1 < |s| {
      assert Linked(fat, s, j);
      NoRepeat(fat, s, i + 1, j + 1);
    }
  }

  /** The table is a set of chains that share no cluster, with free and bad clusters besides. */
  ghost predicate WellFormed(fat: seq<nat>, chains: map<nat, seq<nat>>) {
    && |fat| < BAD_CLUSTER
    && (forall h :: h in chains ==> IsChain(fat, chains[h]) && chains[h][0] == h)
    && (forall h, k, c :: h in chains && k in chains && c in chains[h] && c in chains[k] ==> h == k)
    && (forall c :: ROOT_CLUSTER <= c < |fat| ==> Settled(fat, chains, c))
  }

  /** A cluster that is not free and not bad belongs to a chain. */
  ghost predicate Settled(fat: seq<nat>, chains: map<nat, seq<nat>>, c: nat)
    requires c < |fat|
  {
    fat[c] == 0 || fat[c] == BAD_CLUSTER || exists h :: InChain(chains, h, c)
  }

  ghost predicate InChain(chains: map<nat, seq<nat>>, h: nat, c: nat) { h in chains && c in chains[h] }

  /** A chain member's entry is a cluster or an end mark, so never free. */
  lemma MembersTaken(fat: seq<nat>, s: seq<nat>, c: nat)
    requires IsChain(fat, s) && |fat| < BAD_CLUSTER && c in s
    ensures c < |fat| && fat[c] != 0 && fat[c] != BAD_CLUSTER
  {
    var i :| 0 <= i < |s| && s[i] == c;
    if i < |s| - 1 { assert Linked(fat, s, i); }
  }

  lemma ChainKept(fat: seq<nat>, s: seq<nat>, c: nat, v: nat)
    requires IsChain(fat, s) && c !in s && c < |fat|
    ensures IsChain(fat[c := v], s)
  {
    var fat' := fat[c := v];
    forall i | 0 <= i < |s| - 1 ensures Linked(fat', s, i) { assert Linked(fat, s, i); }
  }

  lemma KeepOthers(fat: seq<nat>, chains: map<nat, seq<nat>>, h: nat, c: nat, v: nat)
    requires WellFormed(fat, chains) && c < |fat| && (forall k :: k in chains && c in chains[k] ==> k == h)
    ensures forall k :: k in chains && k != h ==> IsChain(fat[c := v], chains[k])
  {
    forall k | k in chains && k != h ensures IsChain(fat[c := v], chains[k]) { ChainKept(fat, chains[k], c, v); }
  }

  /** Marking a free cluster as an end makes it a chain of its own. */
  lemma Allocate(fat: seq<nat>, chains: map<nat, seq<nat>>, c: nat)
    requires WellFormed(fat, chains) && ROOT_CLUSTER <= c < |fat| && fat[c] == 0
    ensures WellFormed(fat[c := END_OF_CHAIN], chains[c := [c]])
    ensures forall h :: h in chains ==> c !in chains[h]
  {
    forall h | h in chains ensures c !in chains[h] {
      if c in chains[h] { MembersTaken(fat, chains[h], c); }
    }
    KeepOthers(fat, chains, c, c, END_OF_CHAIN);
    var fat', chains' := fat[c := END_OF_CHAIN], chains[c := [c]];
    forall x | ROOT_CLUSTER <= x < |fat'| ensures Settled(fat', chains', x) {
      if x == c { assert InChain(chains', c, c); } else {
        assert Settled(fat, chains, x);
        if h :| InChain(chains, h, x) { assert InChain(chains', h, x); }
      }
    }
  }

  function Last(s: seq<nat>): nat requires |s| > 0 { s[|s| - 1] }

  /** Joins chain c to the end of chain h. */
  function Joined(chains: map<nat, seq<nat>>, h: nat, c: nat): map<nat, seq<nat>>
    requires h in chains && c in chains
  {
    (chains - {c})[h := chains[h] + chains[c]]
  }

  lemma JoinIsChain(fat: seq<nat>, s: seq<nat>, t: seq<nat>)
    requires IsChain(fat, s) && IsChain(fat, t) && |fat| < BAD_CLUSTER && (forall c :: c in s ==> c !in t)
    ensures IsChain(fat[Last(s) := t[0]], s + t)
  {
    var fat' := fat[Last(s) := t[0]];
    var u := s + t;
    forall i | 0 <= i < |u| - 1 ensures Linked(fat', u, i) {
      if i < |s| - 1 {
        NoRepeat(fat, s, i, |s| - 1);
        assert Linked(fat, s, i);
      } else if i >= |s| {
        assert u[i] == t[i - |s|] && t[i - |s|] in t;
        assert Linked(fat, t, i - |s|);
      }
    }
    assert Last(u) in t;
  }

  /** Linking the last cluster of one chain to the head of another joins them. */
  lemma Link(fat: seq<nat>, chains: map<nat, seq<nat>>, h: nat, c: nat)
    requires WellFormed(fat, chains) && h in chains && c in chains && h != c
    ensures WellFormed(fat[Last(chains[h]) := c], Joined(chains, h, c))
  {
    var last := Last(chains[h]);
    var fat', chains' := fat[last := c], Joined(chains, h, c);
    JoinIsChain(fat, chains[h], chains[c]);
    KeepOthers(fat, chains, h, last, c);
    forall x | ROOT_CLUSTER <= x < |fat'| ensures Settled(fat', chains', x) {
      assert Settled(fat, chains, x);
      if k :| InChain(chains, k, x) { assert InChain(chains', if k == c then h else k, x); }
    }
  }

  /** The first n clusters of s are set free. */
  function Freed(fat: seq<nat>, s: seq<nat>, n: nat): (r: seq<nat>)
    requires n <= |s| && forall i :: 0 <= i < |s| ==> s[i] < |fat|
    ensures |r| == |fat|
    ensures forall c :: 0 <= c < |fat| ==> r[c] == if c in s[..n] then 0 else fat[c]
  {
    if n == 0 then fat else
      assert s[..n] == s[..n - 1] + [s[n - 1]];
      Freed(fat, s, n - 1)[s[n - 1] := 0]
  }

  /** Freeing a whole chain removes it and leaves the others. */
  lemma Free(fat: seq<nat>, chains: map<nat, seq<nat>>, h: nat)
    requires WellFormed(fat, chains) && h in chains
    ensures WellFormed(Freed(fat, chains[h], |chains[h]|), chains - {h})
  {
    var s := chains[h];
    assert s[..|s|] == s;
    var fat', chains' := Freed(fat, s, |s|), chains - {h};
    forall k | k in chains' ensures IsChain(fat', chains'[k]) {
      assert forall c :: c in chains[k] ==> c !in s;
      var t := chains[k];
      forall i | 0 <= i < |t| ensures fat'[t[i]] == fat[t[i]] { assert t[i] in t; }
      forall i | 0 <= i < |t| - 1 ensures Linked(fat', t, i) { assert Linked(fat, t, i); }
    }
    forall x | ROOT_CLUSTER <= x < |fat'| ensures Settled(fat', chains', x) {
      assert Settled(fat, chains, x);
      if k :| InChain(chains, k, x) && k != h { assert InChain(chains', k, x); }
    }
  }
}
