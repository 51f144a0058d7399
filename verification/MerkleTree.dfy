/** The Merkle tree builder and proof generator (snapshotter/src/tree.rs) and the on-chain
    proof verifier (programs/grave-vault/src/merkle.rs).

    SHA-256 is a parameter `h`: every theorem holds for every function from byte strings to
    32-byte digests. Nothing is assumed about it, in particular not injectivity. */
module MerkleTree {
  import opened Wrappers
  import opened Bytes
  import opened SnapshotModel

  datatype Hash = Hash(f: seq<Byte> -> Bytes32) {
    function Of(preimage: seq<Byte>): Bytes32 {
      f(preimage)
    }
  }

  function LeafPreimage(holder: Bytes32, lpBalance: U64): (s: seq<Byte>)
    ensures |s| == 40
  {
    Raw(holder) + Le64(lpBalance)
  }

  function ComputeLeaf(h: Hash, holder: Bytes32, lpBalance: U64): Bytes32 {
    h.Of(LeafPreimage(holder, lpBalance))
  }

  function PairPreimage(a: Bytes32, b: Bytes32): (s: seq<Byte>)
    ensures |s| == 64
  {
    if a <= b then Raw(a) + Raw(b) else Raw(b) + Raw(a)
  }

  function HashPair(h: Hash, a: Bytes32, b: Bytes32): Bytes32 {
    h.Of(PairPreimage(a, b))
  }

  /** One level up: pairs are hashed, a trailing odd node is promoted unchanged. */
  function NextLevel(h: Hash, level: seq<Bytes32>): (next: seq<Bytes32>)
    ensures |next| == (|level| + 1) / 2
  {
    if |level| <= 1 then level
    else [HashPair(h, level[0], level[1])] + NextLevel(h, level[2..])
  }

  function Levels(h: Hash, leaves: seq<Bytes32>): (levels: seq<seq<Bytes32>>)
    requires leaves != []
    ensures levels != [] && levels[0] == leaves && |levels[|levels| - 1]| == 1
    decreases |leaves|
  {
    if |leaves| == 1 then [leaves] else [leaves] + Levels(h, NextLevel(h, leaves))
  }

  function Leaves(h: Hash, entries: seq<HolderEntry>): (leaves: seq<Bytes32>)
    ensures |leaves| == |entries|
  {
    seq(|entries|, i requires 0 <= i < |entries| =>
      ComputeLeaf(h, entries[i].owner, entries[i].lpBalance))
  }

  /** Level `l` has more than one node and level `l + 1` is what it hashes to. */
  ghost predicate LinkedAt(h: Hash, levels: seq<seq<Bytes32>>, l: nat)
    requires l + 1 < |levels|
  {
    |levels[l]| > 1 && levels[l + 1] == NextLevel(h, levels[l])
  }

  ghost predicate Linked(h: Hash, levels: seq<seq<Bytes32>>) {
    forall l: nat :: l + 1 < |levels| ==> LinkedAt(h, levels, l)
  }

  datatype SnapshotMerkleTree = SnapshotMerkleTree(levels: seq<seq<Bytes32>>) {

    /** The private field is only ever filled by the builder. */
    ghost predicate Built(h: Hash) {
      levels != [] && Linked(h, levels) && |levels[|levels| - 1]| == 1
    }

    function Root(): Bytes32
      requires levels != [] && levels[|levels| - 1] != []
    {
      levels[|levels| - 1][0]
    }

    function LeafCount(): nat {
      if levels == [] then 0 else |levels[0]|
    }

    function TreeDepth(): nat
      requires levels != []
    {
      |levels| - 1
    }

    function Leaf(index: nat): Option<Bytes32> {
      if index < LeafCount() then Some(levels[0][index]) else None
    }
  }

  /** What the builder returns for an entry list. */
  function TreeOf(h: Hash, entries: seq<HolderEntry>): Result<SnapshotMerkleTree, SnapshotError> {
    match ValidateEntries(entries)
    case Err(e) => Err(e)
    case Ok(_) => assert entries != []; Ok(SnapshotMerkleTree(Levels(h, Leaves(h, entries))))
  }

  /** The level loop's progress: `done` is final and the rest of the level is still to be hashed. */
  lemma HashedUpTo(h: Hash, level: seq<Bytes32>, at: nat, done: seq<Bytes32>)
    requires at < |level| && NextLevel(h, level) == done + NextLevel(h, level[at..])
    ensures at + 1 < |level| ==>
              NextLevel(h, level) == done + [HashPair(h, level[at], level[at + 1])] + NextLevel(h, level[at + 2..])
    ensures at + 1 == |level| ==> NextLevel(h, level) == done + [level[at]]
  {
    var rest := level[at..];
    if at + 1 < |level| {
      var pair, tail := [HashPair(h, rest[0], rest[1])], NextLevel(h, rest[2..]);
      assert rest[2..] == level[at + 2..];
      assert done + (pair + tail) == done + pair + tail;
    } else {
      assert rest == [level[at]];
    }
  }

  /** One step of the level loop: the inner `chunks(2)` loop of the builder. */
  method HashLevel(h: Hash, current: seq<Bytes32>) returns (next: seq<Bytes32>)
    ensures next == NextLevel(h, current)
  {
    next := [];
    var at := 0;
    while at < |current|
      invariant at <= |current|
      invariant NextLevel(h, current) == next + NextLevel(h, current[at..])
    {
      HashedUpTo(h, current, at, next);
      if at + 1 < |current| {
        next := next + [HashPair(h, current[at], current[at + 1])];
        at := at + 2;
      } else {
        next := next + [current[at]];
        at := at + 1;
        assert current[at..] == [];
      }
    }
    assert current[at..] == [];
  }

  method FromEntries(h: Hash, entries: seq<HolderEntry>)
      returns (r: Result<SnapshotMerkleTree, SnapshotError>)
    ensures r == TreeOf(h, entries)
  {
    var validated := ValidateEntries(entries);
    if validated.Err? {
      return Err(validated.error);
    }
    assert entries != [];
    var leaves := Leaves(h, entries);
    var levels := [leaves];
    var last := leaves;
    while |last| > 1
      invariant levels != [] && levels[0] == leaves
      invariant last == levels[|levels| - 1] && last != []
      invariant Linked(h, levels)
      decreases |last|
    {
      var next := HashLevel(h, last);
      ghost var below := levels;
      levels := levels + [next];
      forall l: nat | l + 1 < |levels| ensures LinkedAt(h, levels, l) {
        assert l + 1 < |below| ==> LinkedAt(h, below, l);
      }
      last := next;
    }
    LinkedLevelsAreLevels(h, levels);
    r := Ok(SnapshotMerkleTree(levels));
  }

  /** The level loop has one possible outcome. */
  lemma {:induction false} LinkedLevelsAreLevels(h: Hash, levels: seq<seq<Bytes32>>)
    requires SnapshotMerkleTree(levels).Built(h)
    ensures levels[0] != [] && levels == Levels(h, levels[0])
    decreases |levels|
  {
    if |levels| > 1 {
      var above := levels[1..];
      assert LinkedAt(h, levels, 0);
      forall l: nat | l + 1 < |above| ensures LinkedAt(h, above, l) {
        assert LinkedAt(h, levels, l + 1);
      }
      LinkedLevelsAreLevels(h, above);
    }
  }

  lemma {:induction false} LevelsAreBuilt(h: Hash, leaves: seq<Bytes32>)
    requires leaves != []
    ensures SnapshotMerkleTree(Levels(h, leaves)).Built(h)
    decreases |leaves|
  {
    if |leaves| > 1 {
      var levels, above := Levels(h, leaves), Levels(h, NextLevel(h, leaves));
      LevelsAreBuilt(h, NextLevel(h, leaves));
      forall l: nat | l + 1 < |levels| ensures LinkedAt(h, levels, l) {
        assert l > 0 ==> LinkedAt(h, above, l - 1);
      }
    }
  }

  // ---------------------------------------------------------------- proofs

  /** The sibling of node `idx`, or nothing when it is a trailing odd node. */
  function Sibling(level: seq<Bytes32>, idx: nat): seq<Bytes32>
    requires idx < |level|
  {
    if idx % 2 == 1 then [level[idx - 1]]
    else if idx + 1 < |level| then [level[idx + 1]]
    else []
  }

  /** The siblings on the path from node `idx` of `level` to the root. */
  function PathSiblings(h: Hash, level: seq<Bytes32>, idx: nat): seq<Bytes32>
    requires idx < |level|
    decreases |level|
  {
    if |level| == 1 then []
    else Sibling(level, idx) + PathSiblings(h, NextLevel(h, level), idx / 2)
  }

  lemma PathStep(h: Hash, level: seq<Bytes32>, idx: nat, proof: seq<Bytes32>)
    requires |level| > 1 && idx < |level|
    ensures proof + PathSiblings(h, level, idx) ==
            (proof + Sibling(level, idx)) + PathSiblings(h, NextLevel(h, level), idx / 2)
  {
  }

  lemma PathEnd(h: Hash, level: seq<Bytes32>, idx: nat, proof: seq<Bytes32>)
    requires |level| == 1 && idx < |level|
    ensures proof + PathSiblings(h, level, idx) == proof
  {
  }

  /** The `match idx % 2` of the proof walk. */
  method PushSibling(level: seq<Bytes32>, idx: nat, proof: seq<Bytes32>)
      returns (extended: seq<Bytes32>)
    requires idx < |level|
    ensures extended == proof + Sibling(level, idx)
  {
    extended := proof;
    if idx % 2 == 0 {
      if idx + 1 < |level| {
        extended := extended + [level[idx + 1]];
      }
    } else {
      extended := extended + [level[idx - 1]];
    }
  }

  method Proof(h: Hash, tree: SnapshotMerkleTree, index: nat) returns (r: Option<seq<Bytes32>>)
    requires tree.Built(h)
    ensures r == if index < tree.LeafCount() then Some(PathSiblings(h, tree.levels[0], index)) else None
  {
    if index >= tree.LeafCount() {
      return None;
    }
    var proof := [];
    var idx: nat := index;
    var l := 0;
    while l < |tree.levels| - 1
      invariant l < |tree.levels| && idx < |tree.levels[l]|
      invariant PathSiblings(h, tree.levels[0], index) == proof + PathSiblings(h, tree.levels[l], idx)
    {
      assert LinkedAt(h, tree.levels, l);
      var level := tree.levels[l];
      PathStep(h, level, idx, proof);
      proof := PushSibling(level, idx, proof);
      idx := idx / 2;
      l := l + 1;
    }
    PathEnd(h, tree.levels[l], idx, proof);
    r := Some(proof);
  }

  /** What the verifier folds a proof to. */
  function Fold(h: Hash, leaf: Bytes32, proof: seq<Bytes32>): Bytes32 {
    if proof == [] then leaf
    else HashPair(h, Fold(h, leaf, proof[..|proof| - 1]), proof[|proof| - 1])
  }

  method VerifyProof(h: Hash, root: Bytes32, leaf: Bytes32, proof: seq<Bytes32>)
      returns (accepted: bool)
    ensures accepted <==> Fold(h, leaf, proof) == root
  {
    var current: Bytes32 := leaf;
    for i := 0 to |proof|
      invariant current == Fold(h, leaf, proof[..i])
    {
      var sibling := proof[i];
      var lo: Bytes32, hi: Bytes32 := current, sibling;
      if !(current <= sibling) {
        lo, hi := sibling, current;
      }
      assert proof[..i + 1][..i] == proof[..i];
      current := h.Of(Raw(lo) + Raw(hi));
    }
    assert proof[..|proof|] == proof;
    accepted := current == root;
  }
}
