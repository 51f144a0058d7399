/** The TypeScript Merkle tree (sdk/src/merkle.ts), and what it shares with the Rust one. */
module SdkMerkle {
  import opened Wrappers
  import opened Bytes
  import opened SnapshotModel
  import opened MerkleTree
  import opened MerkleSecurity

  /** `lpBalance` is a `bigint`: of any size and sign. */
  datatype SdkEntry = SdkEntry(owner: Bytes32, lpBalance: int)

  datatype SdkError =
    | EmptyEntrySet
    | NonPositiveBalance(index: nat)
    | DuplicateOwner(index: nat)
    | NotSorted(index: nat)
    | CompletenessGate

  // ---------------------------------------------------------------- bytes

  lemma {:induction false} LexLeSkip(a: seq<Byte>, b: seq<Byte>, i: nat)
    requires i <= |a| && i <= |b| && a[..i] == b[..i]
    ensures LexLe(a, b) <==> LexLe(a[i..], b[i..])
  {
    if i > 0 {
      assert a[0] == a[..i][0] == b[..i][0] == b[0];
      assert a[1..][..i - 1] == a[..i][1..] && b[1..][..i - 1] == b[..i][1..];
      LexLeSkip(a[1..], b[1..], i - 1);
    }
  }

  method CompareBytes(a: seq<Byte>, b: seq<Byte>) returns (d: int)
    ensures d <= 0 <==> LexLe(a, b)
    ensures d == 0 <==> a == b
  {
    var n := if |a| < |b| then |a| else |b|;
    for i := 0 to n
      invariant a[..i] == b[..i]
    {
      if a[i] != b[i] {
        LexLeSkip(a, b, i);
        return (a[i] as int) - (b[i] as int);
      }
      assert a[..i + 1] == a[..i] + [a[i]] && b[..i + 1] == b[..i] + [b[i]];
    }
    LexLeSkip(a, b, n);
    if |a| == |b| {
      assert a[..n] == a && b[..n] == b;
    }
    d := |a| - |b|;
  }

  /** The byte comparison of two keys or digests is their order. */
  method CompareKeys(a: Bytes32, b: Bytes32) returns (d: int)
    ensures d <= 0 <==> a <= b
    ensures d == 0 <==> a == b
  {
    d := CompareBytes(Raw(a), Raw(b));
    Bytes32OrderIsLexicographic(a, b);
    if Raw(a) == Raw(b) {
      RawInjective(a, b);
    }
  }

  method SdkHashPair(h: Hash, a: Bytes32, b: Bytes32) returns (r: Bytes32)
    ensures r == HashPair(h, a, b)
  {
    var d := CompareKeys(a, b);
    var le, hi := if d <= 0 then a else b, if d <= 0 then b else a;
    r := h.Of(Raw(le) + Raw(hi));
  }

  // ---------------------------------------------------------------- the tree

  /** `setBigUint64` keeps the low 64 bits. */
  function Low64(balance: nat): U64 {
    balance % (U64_MAX + 1)
  }

  function Reduced(entries: seq<SdkEntry>): (r: seq<HolderEntry>)
    requires forall i :: 0 <= i < |entries| ==> entries[i].lpBalance > 0
    ensures |r| == |entries|
    ensures forall i :: 0 <= i < |r| ==>
              r[i] == HolderEntry(entries[i].owner, Low64(entries[i].lpBalance))
  {
    seq(|entries|, i requires 0 <= i < |entries| =>
      HolderEntry(entries[i].owner, Low64(entries[i].lpBalance)))
  }

  ghost predicate SdkCanonical(entries: seq<SdkEntry>) {
    && entries != []
    && (forall i :: 0 <= i < |entries| ==> entries[i].lpBalance > 0)
    && (forall i, j :: 0 <= i < j < |entries| ==> entries[i].owner < entries[j].owner)
  }

  method SdkValidate(entries: seq<SdkEntry>) returns (r: Result<(), SdkError>)
    ensures r.Ok? <==> SdkCanonical(entries)
    ensures r == Err(EmptyEntrySet) <==> entries == []
  {
    if |entries| == 0 {
      return Err(EmptyEntrySet);
    }
    for i := 0 to |entries|
      invariant forall k :: 0 <= k < i ==> entries[k].lpBalance > 0
      invariant forall k, j :: 0 <= k < j < i ==> entries[k].owner < entries[j].owner
    {
      if entries[i].lpBalance <= 0 {
        return Err(NonPositiveBalance(i));
      }
      if i > 0 {
        var d := CompareKeys(entries[i - 1].owner, entries[i].owner);
        if d == 0 {
          return Err(DuplicateOwner(i));
        }
        if d > 0 {
          return Err(NotSorted(i));
        }
      }
    }
    r := Ok(());
  }

  method SdkNextLevel(h: Hash, last: seq<Bytes32>) returns (next: seq<Bytes32>)
    ensures next == NextLevel(h, last)
  {
    next := [];
    var i := 0;
    while i < |last|
      invariant i <= |last|
      invariant NextLevel(h, last) == next + NextLevel(h, last[i..])
    {
      HashedUpTo(h, last, i, next);
      if i + 1 < |last| {
        var pair := SdkHashPair(h, last[i], last[i + 1]);
        next := next + [pair];
        i := i + 2;
      } else {
        next := next + [last[i]];
        i := i + 1;
        assert last[i..] == [];
      }
    }
    assert last[i..] == [];
  }

  /** The SDK accepts the canonical lists and builds the Rust tree over their balances modulo
      2^64. */
  method SdkFromEntries(h: Hash, entries: seq<SdkEntry>)
      returns (r: Result<SnapshotMerkleTree, SdkError>)
    ensures r.Ok? <==> SdkCanonical(entries)
    ensures r.Ok? ==> r.value == SnapshotMerkleTree(Levels(h, Leaves(h, Reduced(entries))))
    ensures r == Err(EmptyEntrySet) <==> entries == []
  {
    var validated := SdkValidate(entries);
    if validated.Err? {
      return Err(validated.error);
    }
    var leaves := Leaves(h, Reduced(entries));
    var levels := [leaves];
    var last := leaves;
    while |last| > 1
      invariant levels != [] && levels[0] == leaves
      invariant last == levels[|levels| - 1] && last != []
      invariant Linked(h, levels)
      decreases |last|
    {
      var next := SdkNextLevel(h, last);
      ghost var below := levels;
      levels := levels + [next];
      forall l: nat | l + 1 < |levels| ensures LinkedAt(h, levels, l) {
        assert l + 1 < |below| ==> LinkedAt(h, below, l);
      }
      last := next;
    }
    LinkedLevelsAreLevels(h, levels);
    r := Ok(SnapshotMerkleTree(levels));
  }

  /** The SDK's proof walk emits the Rust proof. */
  method SdkProof(h: Hash, tree: SnapshotMerkleTree, index: int) returns (r: Option<seq<Bytes32>>)
    requires tree.Built(h)
    ensures r == if 0 <= index < tree.LeafCount() then Some(PathSiblings(h, tree.levels[0], index)) else None
  {
    if index < 0 || index >= tree.LeafCount() {
      return None;
    }
    var proof := [];
    var idx: nat := index;
    var lvl := 0;
    while lvl < |tree.levels| - 1
      invariant lvl < |tree.levels| && idx < |tree.levels[lvl]|
      invariant PathSiblings(h, tree.levels[0], index) == proof + PathSiblings(h, tree.levels[lvl], idx)
    {
      assert LinkedAt(h, tree.levels, lvl);
      PathStep(h, tree.levels[lvl], idx, proof);
      proof := PushSibling(tree.levels[lvl], idx, proof);
      idx := idx / 2;
      lvl := lvl + 1;
    }
    PathEnd(h, tree.levels[lvl], idx, proof);
    r := Some(proof);
  }

  method SdkVerifyProof(h: Hash, root: Bytes32, leaf: Bytes32, proof: seq<Bytes32>)
      returns (accepted: bool)
    ensures accepted <==> Fold(h, leaf, proof) == root
  {
    var current: Bytes32 := leaf;
    for i := 0 to |proof|
      invariant current == Fold(h, leaf, proof[..i])
    {
      assert proof[..i + 1][..i] == proof[..i];
      current := SdkHashPair(h, current, proof[i]);
    }
    assert proof[..|proof|] == proof;
    var d := CompareKeys(current, root);
    accepted := d == 0;
  }

  // ---------------------------------------------------------------- agreement with the Rust tree

  /** The entries as the SDK holds them. */
  function AsSdk(entries: seq<HolderEntry>): (r: seq<SdkEntry>)
    ensures |r| == |entries|
    ensures forall i :: 0 <= i < |r| ==> r[i] == SdkEntry(entries[i].owner, entries[i].lpBalance)
  {
    seq(|entries|, i requires 0 <= i < |entries| => SdkEntry(entries[i].owner, entries[i].lpBalance))
  }

  /** On balances that fit `u64` the two builders accept the same lists and build one tree. */
  lemma SdkTreeAgrees(h: Hash, entries: seq<HolderEntry>)
    ensures SdkCanonical(AsSdk(entries)) <==> TreeOf(h, entries).Ok?
    ensures SdkCanonical(AsSdk(entries)) ==>
            TreeOf(h, entries) ==
            Ok(SnapshotMerkleTree(Levels(h, Leaves(h, Reduced(AsSdk(entries))))))
  {
    ValidateEntriesIffCanonical(entries);
    var sdk := AsSdk(entries);
    if SdkCanonical(sdk) {
      forall i | 0 <= i < |entries| ensures entries[i].lpBalance > 0 {
        assert sdk[i].lpBalance > 0;
      }
      forall i, j | 0 <= i < j < |entries| ensures entries[i].owner < entries[j].owner {
        assert sdk[i].owner < sdk[j].owner;
      }
      assert Reduced(sdk) == entries;
    }
  }

  predicate SameEntryModulo(x: SdkEntry, y: SdkEntry)
    requires x.lpBalance > 0 && y.lpBalance > 0
  {
    x.owner == y.owner && Low64(x.lpBalance) == Low64(y.lpBalance)
  }

  ghost predicate SameModulo(xs: seq<SdkEntry>, ys: seq<SdkEntry>)
    requires SdkCanonical(xs) && SdkCanonical(ys)
  {
    |xs| == |ys| && forall i :: 0 <= i < |xs| ==> SameEntryModulo(xs[i], ys[i])
  }

  /** An SDK root binds owners and order, but balances only modulo 2^64. */
  lemma SdkRootBindsModulo(h: Hash, xs: seq<SdkEntry>, ys: seq<SdkEntry>) returns (ev: Evidence)
    requires SdkCanonical(xs) && SdkCanonical(ys)
    requires RootOf(h, Reduced(xs)) == RootOf(h, Reduced(ys))
    ensures Sound(h, ev)
    ensures ev.NoCollision? ==> SameModulo(xs, ys)
  {
    var rx, ry := Reduced(xs), Reduced(ys);
    ev := RootBindsEntries(h, rx, ry);
    if ev.NoCollision? {
      assert |xs| == |rx| == |ry| == |ys|;
      forall i | 0 <= i < |xs|
        ensures SameEntryModulo(xs[i], ys[i])
      {
        assert rx[i] == ry[i];
      }
    }
  }

  /** Conversely nothing more is bound: lists that agree modulo 2^64 have one root. */
  lemma SdkRootIgnoresHighBits(h: Hash, xs: seq<SdkEntry>, ys: seq<SdkEntry>)
    requires SdkCanonical(xs) && SdkCanonical(ys) && SameModulo(xs, ys)
    ensures RootOf(h, Reduced(xs)) == RootOf(h, Reduced(ys))
  {
    forall i | 0 <= i < |xs| ensures Reduced(xs)[i] == Reduced(ys)[i] {
      assert SameEntryModulo(xs[i], ys[i]);
    }
    assert Reduced(xs) == Reduced(ys);
  }

  /** For instance one holder of 1 and one of 1 + 2^64. */
  lemma TwoSdkListsOneRoot(h: Hash)
    ensures var xs, ys := [SdkEntry(1, 1)], [SdkEntry(1, 2 + U64_MAX)];
            xs != ys && SdkCanonical(xs) && SdkCanonical(ys) && RootOf(h, Reduced(xs)) == RootOf(h, Reduced(ys))
  {
    var xs, ys := [SdkEntry(1, 1)], [SdkEntry(1, 2 + U64_MAX)];
    assert xs[0].lpBalance != ys[0].lpBalance;
    assert SameEntryModulo(xs[0], ys[0]);
    SdkRootIgnoresHighBits(h, xs, ys);
  }
}
