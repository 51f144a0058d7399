/** What a Merkle root commits to. No property of the hash is assumed, so every theorem ends in
    one of two ways: the conclusion holds, or the lemma hands back two different preimages of
    the sizes the tree hashes (40-byte leaves, 64-byte pairs) with equal digests. */
module MerkleSecurity {
  import opened Wrappers
  import opened Bytes
  import opened SnapshotModel
  import opened MerkleTree
  import opened MerkleSplit

  datatype Evidence = NoCollision | Collision(p: seq<Byte>, q: seq<Byte>)

  predicate TreePreimage(s: seq<Byte>) {
    |s| == 40 || |s| == 64
  }

  /** An exhibited collision is a real one. */
  predicate Sound(h: Hash, ev: Evidence) {
    ev.Collision? ==>
      ev.p != ev.q && h.Of(ev.p) == h.Of(ev.q) && TreePreimage(ev.p) && TreePreimage(ev.q)
  }

  lemma LeafPreimageInjective(a: HolderEntry, b: HolderEntry)
    requires LeafPreimage(a.owner, a.lpBalance) == LeafPreimage(b.owner, b.lpBalance)
    ensures a == b
  {
    var p, q := LeafPreimage(a.owner, a.lpBalance), LeafPreimage(b.owner, b.lpBalance);
    assert p[..32] == Raw(a.owner) && p[32..] == Le64(a.lpBalance);
    assert q[..32] == Raw(b.owner) && q[32..] == Le64(b.lpBalance);
    RawInjective(a.owner, b.owner);
    Pow256Widths();
    ToLeInjective(a.lpBalance, b.lpBalance, 8);
  }

  /** A pair preimage fixes the pair, up to which came first. */
  lemma PairPreimageInjective(a: Bytes32, b: Bytes32, c: Bytes32, d: Bytes32)
    requires PairPreimage(a, b) == PairPreimage(c, d)
    ensures (a == c && b == d) || (a == d && b == c)
  {
    var p, q := PairPreimage(a, b), PairPreimage(c, d);
    var lo1, hi1 := if a <= b then a else b, if a <= b then b else a;
    var lo2, hi2 := if c <= d then c else d, if c <= d then d else c;
    assert p[..32] == Raw(lo1) && p[32..] == Raw(hi1);
    assert q[..32] == Raw(lo2) && q[32..] == Raw(hi2);
    RawInjective(lo1, lo2);
    RawInjective(hi1, hi2);
  }

  /** What is hashed, byte by byte: a leaf is the key and the balance, least significant byte first; a
      pair is the two digests in byte order, whichever came first. */
  lemma PreimageLayout(holder: Bytes32, lpBalance: U64, a: Bytes32, b: Bytes32)
    ensures var leaf := LeafPreimage(holder, lpBalance);
            |leaf| == 40 && leaf[..32] == Raw(holder) && FromLe(leaf[32..]) == lpBalance
    ensures var pair := PairPreimage(a, b);
            && |pair| == 64 && LexLe(pair[..32], pair[32..])
            && multiset{pair[..32], pair[32..]} == multiset{Raw(a), Raw(b)}
  {
    Pow256Widths();
    FromLeOfToLe(lpBalance, 8);
    var lo, hi := if a <= b then a else b, if a <= b then b else a;
    assert LeafPreimage(holder, lpBalance)[32..] == Le64(lpBalance);
    assert PairPreimage(a, b)[..32] == Raw(lo) && PairPreimage(a, b)[32..] == Raw(hi);
    Bytes32OrderIsLexicographic(lo, hi);
  }

  /** Two equal pair digests: the same pair, or a collision. */
  lemma PairDigestBinds(h: Hash, a: Bytes32, b: Bytes32, c: Bytes32, d: Bytes32) returns (ev: Evidence)
    requires HashPair(h, a, b) == HashPair(h, c, d)
    ensures Sound(h, ev)
    ensures ev.NoCollision? ==> (a == c && b == d) || (a == d && b == c)
  {
    if PairPreimage(a, b) == PairPreimage(c, d) {
      PairPreimageInjective(a, b, c, d);
      ev := NoCollision;
    } else {
      ev := Collision(PairPreimage(a, b), PairPreimage(c, d));
    }
  }

  /** A leaf and an inner node with one digest are a collision: the preimage sizes differ. */
  function LeafMeetsPair(e: HolderEntry, a: Bytes32, b: Bytes32): Evidence {
    Collision(LeafPreimage(e.owner, e.lpBalance), PairPreimage(a, b))
  }

  // ---------------------------------------------------------------- the root binds the list

  ghost predicate Ascending(entries: seq<HolderEntry>) {
    forall i, j :: 0 <= i < j < |entries| ==> entries[i].owner < entries[j].owner
  }

  /** The root of an entry list. */
  function RootOf(h: Hash, entries: seq<HolderEntry>): Bytes32
    requires entries != []
  {
    SplitRoot(h, Leaves(h, entries))
  }

  lemma RootSplits(h: Hash, entries: seq<HolderEntry>)
    requires |entries| >= 2
    ensures var k := SplitPoint(|entries|);
            RootOf(h, entries) == HashPair(h, RootOf(h, entries[..k]), RootOf(h, entries[k..]))
  {
    LeavesSplit(h, entries, SplitPoint(|entries|));
  }

  lemma LeavesSplit(h: Hash, entries: seq<HolderEntry>, k: nat)
    requires k <= |entries|
    ensures Leaves(h, entries)[..k] == Leaves(h, entries[..k])
    ensures Leaves(h, entries)[k..] == Leaves(h, entries[k..])
  {
  }

  lemma SingleRoot(h: Hash, entries: seq<HolderEntry>)
    requires |entries| == 1
    ensures RootOf(h, entries) == h.Of(LeafPreimage(entries[0].owner, entries[0].lpBalance))
  {
  }

  /** Sorted pairs let two subtrees change places; the owner order does not. */
  lemma SwappedHalvesDescend(xs: seq<HolderEntry>, k: nat, ys: seq<HolderEntry>, m: nat)
    requires 0 < k < |xs| && 0 < m < |ys|
    requires Ascending(xs)
    requires xs[..k] == ys[m..] && xs[k..] == ys[..m]
    ensures !Ascending(ys)
  {
    assert xs[0] == xs[..k][0] == ys[m..][0] == ys[m];
    assert xs[k] == xs[k..][0] == ys[..m][0] == ys[0];
    assert ys[m].owner < ys[0].owner;
  }

  lemma HalvesGiveWhole(xs: seq<HolderEntry>, k: nat, ys: seq<HolderEntry>, m: nat)
    requires 0 < k < |xs| && 0 < m < |ys| && Ascending(xs) && Ascending(ys)
    requires (xs[..k] == ys[..m] && xs[k..] == ys[m..]) || (xs[..k] == ys[m..] && xs[k..] == ys[..m])
    ensures xs == ys
  {
    if xs[..k] == ys[..m] && xs[k..] == ys[m..] {
      assert xs == xs[..k] + xs[k..] && ys == ys[..m] + ys[m..];
    } else {
      SwappedHalvesDescend(xs, k, ys, m);
    }
  }

  /** Two pairs of halves under one pair digest: equal pairwise, possibly crosswise. */
  lemma {:induction false} HalvesBind(h: Hash, xl: seq<HolderEntry>, xr: seq<HolderEntry>,
                                      yl: seq<HolderEntry>, yr: seq<HolderEntry>, bound: nat)
      returns (ev: Evidence)
    requires xl != [] && xr != [] && yl != [] && yr != []
    requires Ascending(xl) && Ascending(xr) && Ascending(yl) && Ascending(yr)
    requires HashPair(h, RootOf(h, xl), RootOf(h, xr)) == HashPair(h, RootOf(h, yl), RootOf(h, yr))
    requires |xl| < bound && |xr| < bound
    ensures Sound(h, ev)
    ensures ev.NoCollision? ==> (xl == yl && xr == yr) || (xl == yr && xr == yl)
    decreases bound, 0
  {
    ev := PairDigestBinds(h, RootOf(h, xl), RootOf(h, xr), RootOf(h, yl), RootOf(h, yr));
    if ev.NoCollision? {
      var straight := RootOf(h, xl) == RootOf(h, yl) && RootOf(h, xr) == RootOf(h, yr);
      ev := RootBindsEntries(h, xl, if straight then yl else yr);
      if ev.NoCollision? {
        ev := RootBindsEntries(h, xr, if straight then yr else yl);
      }
    }
  }

  lemma {:induction false} RootBindsEntries(h: Hash, xs: seq<HolderEntry>, ys: seq<HolderEntry>)
      returns (ev: Evidence)
    requires xs != [] && ys != [] && Ascending(xs) && Ascending(ys)
    requires RootOf(h, xs) == RootOf(h, ys)
    ensures Sound(h, ev)
    ensures ev.NoCollision? ==> xs == ys
    decreases |xs|, 2
  {
    if |xs| == 1 && |ys| == 1 {
      SingleRoot(h, xs);
      SingleRoot(h, ys);
      var p, q := LeafPreimage(xs[0].owner, xs[0].lpBalance), LeafPreimage(ys[0].owner, ys[0].lpBalance);
      if p == q {
        LeafPreimageInjective(xs[0], ys[0]);
        ev := NoCollision;
      } else {
        ev := Collision(p, q);
      }
    } else if |xs| == 1 {
      SingleRoot(h, xs);
      RootSplits(h, ys);
      var m := SplitPoint(|ys|);
      ev := LeafMeetsPair(xs[0], RootOf(h, ys[..m]), RootOf(h, ys[m..]));
    } else if |ys| == 1 {
      SingleRoot(h, ys);
      RootSplits(h, xs);
      var k := SplitPoint(|xs|);
      ev := LeafMeetsPair(ys[0], RootOf(h, xs[..k]), RootOf(h, xs[k..]));
    } else {
      ev := InnerRootsBind(h, xs, ys);
    }
  }

  lemma {:induction false} InnerRootsBind(h: Hash, xs: seq<HolderEntry>, ys: seq<HolderEntry>)
      returns (ev: Evidence)
    requires |xs| >= 2 && |ys| >= 2 && Ascending(xs) && Ascending(ys)
    requires RootOf(h, xs) == RootOf(h, ys)
    ensures Sound(h, ev)
    ensures ev.NoCollision? ==> xs == ys
    decreases |xs|, 1
  {
    var k, m := SplitPoint(|xs|), SplitPoint(|ys|);
    RootSplits(h, xs);
    RootSplits(h, ys);
    ev := HalvesBind(h, xs[..k], xs[k..], ys[..m], ys[m..], |xs|);
    if ev.NoCollision? {
      HalvesGiveWhole(xs, k, ys, m);
    }
  }

  /** The root binds the whole holder list: entry lists the builder accepts and that have one
      root are equal in length, owners, balances and order. */
  lemma RootBindsHolderList(h: Hash, xs: seq<HolderEntry>, ys: seq<HolderEntry>) returns (ev: Evidence)
    requires TreeOf(h, xs).Ok? && TreeOf(h, ys).Ok?
    requires TreeOf(h, xs).value.Root() == TreeOf(h, ys).value.Root()
    ensures Sound(h, ev)
    ensures ev.NoCollision? ==> xs == ys
  {
    ValidateEntriesIffCanonical(xs);
    ValidateEntriesIffCanonical(ys);
    LevelsComputeSplitRoot(h, Leaves(h, xs));
    LevelsComputeSplitRoot(h, Leaves(h, ys));
    ev := RootBindsEntries(h, xs, ys);
  }

  // ---------------------------------------------------------------- proofs are unforgeable

  /** The audit path of entry `i`. */
  function EntryProof(h: Hash, entries: seq<HolderEntry>, i: nat): seq<Bytes32>
    requires i < |entries|
  {
    SplitProof(h, Leaves(h, entries), i)
  }

  lemma EntryProofSplits(h: Hash, entries: seq<HolderEntry>, i: nat)
    requires |entries| >= 2 && i < |entries|
    ensures var k := SplitPoint(|entries|);
            EntryProof(h, entries, i) ==
            if i < k then EntryProof(h, entries[..k], i) + [RootOf(h, entries[k..])]
            else EntryProof(h, entries[k..], i - k) + [RootOf(h, entries[..k])]
  {
    LeavesSplit(h, entries, SplitPoint(|entries|));
  }

  lemma {:induction false} FoldedLeafIsAnEntry(
      h: Hash, entries: seq<HolderEntry>, e: HolderEntry, proof: seq<Bytes32>)
      returns (i: nat, ev: Evidence)
    requires entries != []
    requires Fold(h, ComputeLeaf(h, e.owner, e.lpBalance), proof) == RootOf(h, entries)
    ensures Sound(h, ev)
    ensures ev.NoCollision? ==>
            i < |entries| && entries[i] == e && proof == EntryProof(h, entries, i)
    decreases |entries|, 2
  {
    i := 0;
    if |entries| == 1 {
      SingleRoot(h, entries);
      if proof != [] {
        ev := LeafMeetsPair(entries[0], Fold(h, ComputeLeaf(h, e.owner, e.lpBalance), proof[..|proof| - 1]),
                            proof[|proof| - 1]);
      } else if LeafPreimage(e.owner, e.lpBalance) ==
                LeafPreimage(entries[0].owner, entries[0].lpBalance) {
        LeafPreimageInjective(e, entries[0]);
        ev := NoCollision;
      } else {
        ev := Collision(LeafPreimage(e.owner, e.lpBalance),
                        LeafPreimage(entries[0].owner, entries[0].lpBalance));
      }
    } else {
      i, ev := FoldedIntoAHalf(h, entries, e, proof);
    }
  }

  lemma {:induction false} FoldedIntoAHalf(
      h: Hash, entries: seq<HolderEntry>, e: HolderEntry, proof: seq<Bytes32>)
      returns (i: nat, ev: Evidence)
    requires |entries| >= 2
    requires Fold(h, ComputeLeaf(h, e.owner, e.lpBalance), proof) == RootOf(h, entries)
    ensures Sound(h, ev)
    ensures ev.NoCollision? ==>
            i < |entries| && entries[i] == e && proof == EntryProof(h, entries, i)
    decreases |entries|, 1
  {
    i := 0;
    var k := SplitPoint(|entries|);
    RootSplits(h, entries);
    if proof == [] {
      ev := LeafMeetsPair(e, RootOf(h, entries[..k]), RootOf(h, entries[k..]));
    } else {
      var inLeft: bool;
      assert proof == proof[..|proof| - 1] + [proof[|proof| - 1]];
      inLeft, i, ev := FoldedIntoHalves(h, entries[..k], entries[k..], e,
                                        proof[..|proof| - 1], proof[|proof| - 1], |entries|);
      if ev.NoCollision? {
        i := if inLeft then i else i + k;
        EntryProofSplits(h, entries, i);
      }
    }
  }

  lemma {:induction false} FoldedIntoHalves(
      h: Hash, left: seq<HolderEntry>, right: seq<HolderEntry>, e: HolderEntry,
      inner: seq<Bytes32>, last: Bytes32, bound: nat)
      returns (inLeft: bool, i: nat, ev: Evidence)
    requires left != [] && right != [] && |left| < bound && |right| < bound
    requires HashPair(h, Fold(h, ComputeLeaf(h, e.owner, e.lpBalance), inner), last) ==
             HashPair(h, RootOf(h, left), RootOf(h, right))
    ensures Sound(h, ev)
    ensures ev.NoCollision? && inLeft ==>
            i < |left| && left[i] == e && inner == EntryProof(h, left, i) && last == RootOf(h, right)
    ensures ev.NoCollision? && !inLeft ==>
            i < |right| && right[i] == e && inner == EntryProof(h, right, i) && last == RootOf(h, left)
    decreases bound, 0
  {
    var current := Fold(h, ComputeLeaf(h, e.owner, e.lpBalance), inner);
    i := 0;
    inLeft := current == RootOf(h, left) && last == RootOf(h, right);
    ev := PairDigestBinds(h, current, last, RootOf(h, left), RootOf(h, right));
    if ev.NoCollision? {
      i, ev := FoldedLeafIsAnEntry(h, if inLeft then left else right, e, inner);
    }
  }

  /** Unforgeability: whatever proof the on-chain verifier accepts for `(holder, balance)` against
      a built root, that holder has an entry with exactly that balance, and the proof is the very
      one the builder emits for it. */
  lemma AcceptedProofIsTheBuiltProof(
      h: Hash, entries: seq<HolderEntry>, holder: Bytes32, balance: U64, proof: seq<Bytes32>)
      returns (i: nat, ev: Evidence)
    requires TreeOf(h, entries).Ok?
    requires Fold(h, ComputeLeaf(h, holder, balance), proof) == TreeOf(h, entries).value.Root()
    ensures Sound(h, ev)
    ensures ev.NoCollision? ==>
            && i < |entries| && entries[i] == HolderEntry(holder, balance)
            && proof == PathSiblings(h, TreeOf(h, entries).value.levels[0], i)
            && (forall j :: 0 <= j < |entries| && entries[j].owner == holder ==> j == i)
  {
    ValidateEntriesIffCanonical(entries);
    LevelsComputeSplitRoot(h, Leaves(h, entries));
    i, ev := FoldedLeafIsAnEntry(h, entries, HolderEntry(holder, balance), proof);
    if ev.NoCollision? {
      ProofIsSplitProof(h, Leaves(h, entries), i);
    }
  }
}
