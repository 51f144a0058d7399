/** An independent definition of the same tree: split the leaves at the largest power of two
    below their number (the shape of section 2.1 of RFC 6962) and hash the two halves. The
    level-by-level builder with promotion computes this tree and its audit paths. */
module MerkleSplit {
  import opened Bytes
  import opened MerkleTree

  function Pow2(e: nat): (r: nat)
    ensures r > 0
  {
    if e == 0 then 1 else 2 * Pow2(e - 1)
  }

  /** The largest power of two strictly below `n`. */
  function SplitPoint(n: nat): (k: nat)
    requires n >= 2
    ensures 0 < k < n <= 2 * k
    decreases n
  {
    if n == 2 then 1 else 2 * SplitPoint((n + 1) / 2)
  }

  lemma {:induction false} SplitPointIsPowerOfTwo(n: nat) returns (e: nat)
    requires n >= 2
    ensures SplitPoint(n) == Pow2(e) && SplitPoint(n) < n <= 2 * SplitPoint(n)
    decreases n
  {
    e := 0;
    if n > 2 {
      var half := SplitPointIsPowerOfTwo((n + 1) / 2);
      e := half + 1;
    }
  }

  function SplitRoot(h: Hash, leaves: seq<Bytes32>): Bytes32
    requires leaves != []
    decreases |leaves|
  {
    if |leaves| == 1 then leaves[0]
    else
      var k := SplitPoint(|leaves|);
      HashPair(h, SplitRoot(h, leaves[..k]), SplitRoot(h, leaves[k..]))
  }

  /** The audit path of leaf `i`, leaf to root. */
  function SplitProof(h: Hash, leaves: seq<Bytes32>, i: nat): seq<Bytes32>
    requires i < |leaves|
    decreases |leaves|
  {
    if |leaves| == 1 then []
    else
      var k := SplitPoint(|leaves|);
      if i < k then SplitProof(h, leaves[..k], i) + [SplitRoot(h, leaves[k..])]
      else SplitProof(h, leaves[k..], i - k) + [SplitRoot(h, leaves[..k])]
  }

  // ---------------------------------------------------------------- levels compute the split

  /** Hashing a level splits wherever the level splits evenly. */
  lemma {:induction false} NextLevelSplits(h: Hash, level: seq<Bytes32>, k: nat)
    requires k <= |level| && k % 2 == 0
    ensures NextLevel(h, level)[..k / 2] == NextLevel(h, level[..k])
    ensures NextLevel(h, level)[k / 2..] == NextLevel(h, level[k..])
    decreases |level|
  {
    if k == 0 {
      assert level[..k] == [] && level[k..] == level;
    } else {
      var rest := level[2..];
      NextLevelSplits(h, rest, k - 2);
      assert rest[..k - 2] == level[..k][2..] && rest[k - 2..] == level[k..];
      assert k / 2 == (k - 2) / 2 + 1;
      ConsSplits(HashPair(h, level[0], level[1]), NextLevel(h, rest), (k - 2) / 2);
    }
  }

  lemma ConsSplits(first: Bytes32, rest: seq<Bytes32>, k: nat)
    requires k <= |rest|
    ensures ([first] + rest)[..k + 1] == [first] + rest[..k]
    ensures ([first] + rest)[k + 1..] == rest[k..]
  {
  }

  /** A level of more than two nodes and the level above it are split at the same place. */
  lemma SplitsAlike(h: Hash, leaves: seq<Bytes32>)
    requires |leaves| > 2
    ensures var k, next := SplitPoint(|leaves|), NextLevel(h, leaves);
            && k % 2 == 0 && k >= 2 && SplitPoint(|next|) == k / 2
            && next[..k / 2] == NextLevel(h, leaves[..k])
            && next[k / 2..] == NextLevel(h, leaves[k..])
            && (|leaves[k..]| == 1 ==> NextLevel(h, leaves[k..]) == leaves[k..])
  {
    var k := SplitPoint(|leaves|);
    assert k == 2 * SplitPoint((|leaves| + 1) / 2);
    NextLevelSplits(h, leaves, k);
  }

  lemma {:induction false} SplitRootNext(h: Hash, leaves: seq<Bytes32>)
    requires |leaves| >= 2
    ensures SplitRoot(h, NextLevel(h, leaves)) == SplitRoot(h, leaves)
    decreases |leaves|
  {
    if |leaves| == 2 {
      assert leaves[..1] == [leaves[0]] && leaves[1..] == [leaves[1]];
    } else {
      var k, next := SplitPoint(|leaves|), NextLevel(h, leaves);
      SplitsAlike(h, leaves);
      SplitRootNext(h, leaves[..k]);
      if |leaves[k..]| == 1 {
        assert next[k / 2..] == leaves[k..];
      } else {
        SplitRootNext(h, leaves[k..]);
      }
    }
  }

  /** The built root is the recursive split's root. */
  lemma {:induction false} LevelsComputeSplitRoot(h: Hash, leaves: seq<Bytes32>)
    requires leaves != []
    ensures SnapshotMerkleTree(Levels(h, leaves)).Root() == SplitRoot(h, leaves)
    decreases |leaves|
  {
    if |leaves| > 1 {
      LevelsComputeSplitRoot(h, NextLevel(h, leaves));
      SplitRootNext(h, leaves);
    }
  }

  lemma {:induction false} SplitProofNext(h: Hash, leaves: seq<Bytes32>, i: nat)
    requires |leaves| >= 2 && i < |leaves|
    ensures SplitProof(h, leaves, i) ==
            Sibling(leaves, i) + SplitProof(h, NextLevel(h, leaves), i / 2)
    decreases |leaves|, 1
  {
    if |leaves| == 2 {
      assert leaves[..1] == [leaves[0]] && leaves[1..] == [leaves[1]];
    } else {
      SplitsAlike(h, leaves);
      if i < SplitPoint(|leaves|) {
        SplitProofNextLeft(h, leaves, i);
      } else {
        SplitProofNextRight(h, leaves, i);
      }
    }
  }

  lemma SiblingsStayInTheirHalf(level: seq<Bytes32>, k: nat, i: nat)
    requires k % 2 == 0 && k < |level| && i < |level|
    ensures i < k ==> Sibling(level[..k], i) == Sibling(level, i)
    ensures k <= i ==> Sibling(level[k..], i - k) == Sibling(level, i)
  {
    assert k <= i ==> (i - k) % 2 == i % 2;
  }

  /** If a path and the path above it end alike and differ by `first` below, they differ by it. */
  lemma Extend(path: seq<Bytes32>, above: seq<Bytes32>, first: seq<Bytes32>,
               half: seq<Bytes32>, halfAbove: seq<Bytes32>, last: Bytes32)
    requires path == half + [last] && above == halfAbove + [last] && half == first + halfAbove
    ensures path == first + above
  {
  }

  lemma {:induction false} SplitProofNextLeft(h: Hash, leaves: seq<Bytes32>, i: nat)
    requires |leaves| > 2 && i < SplitPoint(|leaves|)
    ensures SplitProof(h, leaves, i) ==
            Sibling(leaves, i) + SplitProof(h, NextLevel(h, leaves), i / 2)
    decreases |leaves|, 0
  {
    var left, right := leaves[..SplitPoint(|leaves|)], leaves[SplitPoint(|leaves|)..];
    Extend(SplitProof(h, leaves, i), SplitProof(h, NextLevel(h, leaves), i / 2), Sibling(leaves, i),
           SplitProof(h, left, i), SplitProof(h, NextLevel(h, left), i / 2), SplitRoot(h, right))
    by {
      SiblingsStayInTheirHalf(leaves, SplitPoint(|leaves|), i);
      HalfPathNext(h, leaves, left, i, i);
      AboveLeft(h, leaves, i);
    }
  }

  lemma {:induction false} SplitProofNextRight(h: Hash, leaves: seq<Bytes32>, i: nat)
    requires |leaves| > 2 && SplitPoint(|leaves|) <= i < |leaves|
    ensures SplitProof(h, leaves, i) ==
            Sibling(leaves, i) + SplitProof(h, NextLevel(h, leaves), i / 2)
    decreases |leaves|, 0
  {
    var k := SplitPoint(|leaves|);
    var left, right := leaves[..k], leaves[k..];
    Extend(SplitProof(h, leaves, i), SplitProof(h, NextLevel(h, leaves), i / 2), Sibling(leaves, i),
           SplitProof(h, right, i - k), SplitProof(h, NextLevel(h, right), (i - k) / 2),
           SplitRoot(h, left))
    by {
      SiblingsStayInTheirHalf(leaves, k, i);
      HalfPathNext(h, leaves, right, i, i - k);
      AboveRight(h, leaves, i);
    }
  }

  /** Inside the half that holds leaf `i`, its path starts with the sibling it has in the whole. */
  lemma {:induction false} HalfPathNext(h: Hash, leaves: seq<Bytes32>, half: seq<Bytes32>, i: nat, at: nat)
    requires i < |leaves| && at < |half|
    requires Sibling(half, at) == Sibling(leaves, i)
    ensures SplitProof(h, half, at) ==
            Sibling(leaves, i) + SplitProof(h, NextLevel(h, half), at / 2)
    decreases |half|, 2
  {
    if |half| == 1 {
      assert Sibling(half, at) == [] && at / 2 == 0;
      assert SplitProof(h, half, at) == [];
    } else {
      SplitProofNext(h, half, at);
    }
  }

  lemma AboveLeft(h: Hash, leaves: seq<Bytes32>, i: nat)
    requires |leaves| > 2 && i < SplitPoint(|leaves|)
    ensures var k := SplitPoint(|leaves|);
            SplitProof(h, NextLevel(h, leaves), i / 2) ==
            SplitProof(h, NextLevel(h, leaves[..k]), i / 2) + [SplitRoot(h, leaves[k..])]
  {
    SplitsAlike(h, leaves);
    NextHalfRoot(h, leaves[SplitPoint(|leaves|)..]);
  }

  lemma AboveRight(h: Hash, leaves: seq<Bytes32>, i: nat)
    requires |leaves| > 2 && SplitPoint(|leaves|) <= i < |leaves|
    ensures var k := SplitPoint(|leaves|);
            SplitProof(h, NextLevel(h, leaves), i / 2) ==
            SplitProof(h, NextLevel(h, leaves[k..]), (i - k) / 2) + [SplitRoot(h, leaves[..k])]
  {
    var k := SplitPoint(|leaves|);
    SplitsAlike(h, leaves);
    SplitRootNext(h, leaves[..k]);
    assert (i - k) / 2 == i / 2 - k / 2;
  }

  lemma NextHalfRoot(h: Hash, half: seq<Bytes32>)
    requires half != []
    ensures SplitRoot(h, NextLevel(h, half)) == SplitRoot(h, half)
  {
    if |half| == 1 {
      assert NextLevel(h, half) == half;
    } else {
      SplitRootNext(h, half);
    }
  }

  /** Every proof the builder emits is the recursive split's audit path. */
  lemma {:induction false} ProofIsSplitProof(h: Hash, leaves: seq<Bytes32>, i: nat)
    requires i < |leaves|
    ensures PathSiblings(h, leaves, i) == SplitProof(h, leaves, i)
    decreases |leaves|
  {
    if |leaves| > 1 {
      ProofIsSplitProof(h, NextLevel(h, leaves), i / 2);
      SplitProofNext(h, leaves, i);
    }
  }

  // ---------------------------------------------------------------- every proof is accepted

  lemma HashPairCommutes(h: Hash, a: Bytes32, b: Bytes32)
    ensures HashPair(h, a, b) == HashPair(h, b, a)
  {
  }

  lemma {:induction false} SplitProofFolds(h: Hash, leaves: seq<Bytes32>, i: nat)
    requires i < |leaves|
    ensures Fold(h, leaves[i], SplitProof(h, leaves, i)) == SplitRoot(h, leaves)
    decreases |leaves|
  {
    if |leaves| > 1 {
      var k := SplitPoint(|leaves|);
      var left, right := SplitRoot(h, leaves[..k]), SplitRoot(h, leaves[k..]);
      var proof := SplitProof(h, leaves, i);
      if i < k {
        SplitProofFolds(h, leaves[..k], i);
        assert proof[..|proof| - 1] == SplitProof(h, leaves[..k], i);
      } else {
        SplitProofFolds(h, leaves[k..], i - k);
        assert proof[..|proof| - 1] == SplitProof(h, leaves[k..], i - k);
        HashPairCommutes(h, left, right);
      }
    }
  }

  /** Completeness: the on-chain verifier accepts every proof of every built tree. */
  lemma EveryProofVerifies(h: Hash, leaves: seq<Bytes32>, i: nat)
    requires i < |leaves|
    ensures Fold(h, leaves[i], PathSiblings(h, leaves, i)) ==
            SnapshotMerkleTree(Levels(h, leaves)).Root()
  {
    ProofIsSplitProof(h, leaves, i);
    LevelsComputeSplitRoot(h, leaves);
    SplitProofFolds(h, leaves, i);
  }

  // ---------------------------------------------------------------- depth and proof length

  /** Levels above the leaves: halve, rounding up, until one node is left. */
  function Halvings(n: nat): nat {
    if n <= 1 then 0 else 1 + Halvings((n + 1) / 2)
  }

  lemma {:induction false} HalvingsIsLeastPower(n: nat)
    requires n >= 1
    ensures Pow2(Halvings(n)) >= n
    ensures n > 1 ==> Halvings(n) >= 1 && Pow2(Halvings(n) - 1) < n
  {
    if n > 1 {
      HalvingsIsLeastPower((n + 1) / 2);
    }
  }

  lemma {:induction false} LevelCount(h: Hash, leaves: seq<Bytes32>)
    requires leaves != []
    ensures |Levels(h, leaves)| == 1 + Halvings(|leaves|)
    decreases |leaves|
  {
    if |leaves| > 1 {
      LevelCount(h, NextLevel(h, leaves));
    }
  }

  lemma LeastPower(n: nat, d: nat)
    requires n >= 1
    ensures Halvings(n) <= d <==> Pow2(d) >= n
  {
    HalvingsIsLeastPower(n);
    if Halvings(n) <= d {
      Pow2Monotone(Halvings(n), d);
    } else {
      Pow2Monotone(d, Halvings(n) - 1);
    }
  }

  /** The depth is the least `d` with `2^d >= n`. */
  lemma DepthIsLeastPower(h: Hash, leaves: seq<Bytes32>, d: nat)
    requires leaves != []
    ensures SnapshotMerkleTree(Levels(h, leaves)).TreeDepth() <= d <==> Pow2(d) >= |leaves|
  {
    LevelCount(h, leaves);
    LeastPower(|leaves|, d);
  }

  lemma {:induction false} Pow2Monotone(d: nat, e: nat)
    requires d <= e
    ensures Pow2(d) <= Pow2(e)
    decreases e
  {
    if d < e {
      Pow2Monotone(d, e - 1);
    }
  }

  /** On the path from leaf `i`, the levels whose node has a sibling to be hashed with: at level
      `l` the node has index `i / 2^l`, and it is promoted when it is even and last. */
  function HashedLevels(levels: seq<seq<Bytes32>>, i: nat): nat {
    if |levels| <= 1 then 0
    else (if i % 2 == 0 && i + 1 == |levels[0]| then 0 else 1) + HashedLevels(levels[1..], i / 2)
  }

  lemma {:induction false} ProofCountsHashedLevels(h: Hash, leaves: seq<Bytes32>, i: nat)
    requires i < |leaves|
    ensures |PathSiblings(h, leaves, i)| == HashedLevels(Levels(h, leaves), i)
    decreases |leaves|
  {
    if |leaves| > 1 {
      var next := NextLevel(h, leaves);
      ProofCountsHashedLevels(h, next, i / 2);
      assert Levels(h, leaves)[1..] == Levels(h, next);
    }
  }

  lemma {:induction false} ProofAtMostHalvings(h: Hash, leaves: seq<Bytes32>, i: nat)
    requires i < |leaves|
    ensures |PathSiblings(h, leaves, i)| <= Halvings(|leaves|)
    ensures |leaves| > 1 ==> |PathSiblings(h, leaves, i)| >= 1
    decreases |leaves|
  {
    if |leaves| > 1 {
      ProofAtMostHalvings(h, NextLevel(h, leaves), i / 2);
    }
  }

  /** A proof has one element for every non-promoted level on its path: at most the depth, and at
      least one as soon as there are two leaves. */
  lemma ProofLength(h: Hash, leaves: seq<Bytes32>, i: nat)
    requires i < |leaves|
    ensures |PathSiblings(h, leaves, i)| == HashedLevels(Levels(h, leaves), i)
    ensures |PathSiblings(h, leaves, i)| <= SnapshotMerkleTree(Levels(h, leaves)).TreeDepth()
    ensures |leaves| > 1 ==> |PathSiblings(h, leaves, i)| >= 1
  {
    ProofCountsHashedLevels(h, leaves, i);
    ProofAtMostHalvings(h, leaves, i);
    LevelCount(h, leaves);
  }
}
