/** Sums over lists of holdings, and the ascending enumeration of a set of owners that a
    `BTreeMap` iterates in. */
module SnapshotLedger {
  import opened Bytes
  import opened SnapshotModel

  function Total(hs: seq<HolderEntry>): nat {
    if hs == [] then 0 else Total(hs[..|hs| - 1]) + hs[|hs| - 1].lpBalance
  }

  function OwnerTotal(hs: seq<HolderEntry>, owner: Bytes32): nat {
    if hs == [] then 0
    else OwnerTotal(hs[..|hs| - 1], owner) +
         if hs[|hs| - 1].owner == owner then hs[|hs| - 1].lpBalance else 0
  }

  function Owners(hs: seq<HolderEntry>): set<Bytes32> {
    set i | 0 <= i < |hs| :: hs[i].owner
  }

  lemma TotalSnoc(hs: seq<HolderEntry>, e: HolderEntry)
    ensures Total(hs + [e]) == Total(hs) + e.lpBalance
  {
    assert (hs + [e])[..|hs|] == hs;
  }

  lemma OwnerTotalSnoc(hs: seq<HolderEntry>, e: HolderEntry, owner: Bytes32)
    ensures OwnerTotal(hs + [e], owner) ==
            OwnerTotal(hs, owner) + if e.owner == owner then e.lpBalance else 0
  {
    assert (hs + [e])[..|hs|] == hs;
  }

  lemma OwnersSnoc(hs: seq<HolderEntry>, e: HolderEntry)
    ensures Owners(hs + [e]) == Owners(hs) + {e.owner}
  {
    var longer := hs + [e];
    forall o | o in Owners(hs) + {e.owner} ensures o in Owners(longer) {
      if o == e.owner {
        assert longer[|hs|].owner == o;
      } else {
        var i :| 0 <= i < |hs| && hs[i].owner == o;
        assert longer[i].owner == o;
      }
    }
  }

  lemma {:induction false} TotalConcat(a: seq<HolderEntry>, b: seq<HolderEntry>)
    ensures Total(a + b) == Total(a) + Total(b)
  {
    if b == [] {
      assert a + b == a;
    } else {
      assert (a + b)[..|a + b| - 1] == a + b[..|b| - 1];
      TotalConcat(a, b[..|b| - 1]);
    }
  }

  lemma {:induction false} OwnerTotalConcat(a: seq<HolderEntry>, b: seq<HolderEntry>, owner: Bytes32)
    ensures OwnerTotal(a + b, owner) == OwnerTotal(a, owner) + OwnerTotal(b, owner)
  {
    if b == [] {
      assert a + b == a;
    } else {
      assert (a + b)[..|a + b| - 1] == a + b[..|b| - 1];
      OwnerTotalConcat(a, b[..|b| - 1], owner);
    }
  }

  lemma {:induction false} OwnerTotalAtMostTotal(hs: seq<HolderEntry>, owner: Bytes32)
    ensures OwnerTotal(hs, owner) <= Total(hs)
  {
    if hs != [] {
      OwnerTotalAtMostTotal(hs[..|hs| - 1], owner);
    }
  }

  lemma {:induction false} TwoOwnersAtMostTotal(hs: seq<HolderEntry>, a: Bytes32, b: Bytes32)
    requires a != b
    ensures OwnerTotal(hs, a) + OwnerTotal(hs, b) <= Total(hs)
  {
    if hs != [] {
      TwoOwnersAtMostTotal(hs[..|hs| - 1], a, b);
    }
  }

  lemma {:induction false} StrangerHasNothing(hs: seq<HolderEntry>, owner: Bytes32)
    requires owner !in Owners(hs)
    ensures OwnerTotal(hs, owner) == 0
  {
    if hs != [] {
      var init, last := hs[..|hs| - 1], hs[|hs| - 1];
      assert hs == init + [last];
      OwnersSnoc(init, last);
      StrangerHasNothing(init, owner);
    }
  }

  lemma {:induction false} MemberAtMostOwnerTotal(hs: seq<HolderEntry>, i: nat)
    requires i < |hs|
    ensures hs[i].lpBalance <= OwnerTotal(hs, hs[i].owner)
  {
    if i < |hs| - 1 {
      MemberAtMostOwnerTotal(hs[..|hs| - 1], i);
    }
  }

  lemma {:induction false} NothingHeldIff(hs: seq<HolderEntry>, owner: Bytes32)
    ensures OwnerTotal(hs, owner) == 0 <==>
            forall j :: 0 <= j < |hs| && hs[j].owner == owner ==> hs[j].lpBalance == 0
  {
    if hs != [] {
      NothingHeldIff(hs[..|hs| - 1], owner);
      assert hs == hs[..|hs| - 1] + [hs[|hs| - 1]];
    }
  }

  /** An owner's total is one of its holdings exactly when all its other holdings are empty. */
  lemma {:induction false} LoneHoldingIff(hs: seq<HolderEntry>, k: nat)
    requires k < |hs|
    ensures OwnerTotal(hs, hs[k].owner) == hs[k].lpBalance <==> LoneHolding(hs, k)
  {
    var init, last := hs[..|hs| - 1], |hs| - 1;
    assert hs == init + [hs[last]];
    if k == last {
      NothingHeldIff(init, hs[k].owner);
    } else {
      LoneHoldingIff(init, k);
      MemberAtMostOwnerTotal(init, k);
    }
  }

  ghost predicate LoneHolding(hs: seq<HolderEntry>, k: nat)
    requires k < |hs|
  {
    forall j :: 0 <= j < |hs| && j != k && hs[j].owner == hs[k].owner ==> hs[j].lpBalance == 0
  }

  ghost predicate Ledger(hs: seq<HolderEntry>) {
    && (forall i, j :: 0 <= i < j < |hs| ==> hs[i].owner < hs[j].owner)
    && (forall i :: 0 <= i < |hs| ==> hs[i].lpBalance > 0)
  }

  lemma LastHolding(hs: seq<HolderEntry>, owner: Bytes32)
    requires hs != [] && Ledger(hs) && owner >= hs[|hs| - 1].owner
    ensures OwnerTotal(hs, owner) == if owner == hs[|hs| - 1].owner then hs[|hs| - 1].lpBalance else 0
  {
    LoneHoldingIff(hs, |hs| - 1);
    NothingHeldIff(hs, owner);
  }

  lemma LastIsCovered(a: seq<HolderEntry>, b: seq<HolderEntry>)
    requires Ledger(a) && Ledger(b) && SameOwnerTotals(a, b) && a != []
    ensures b != [] && a[|a| - 1].owner <= b[|b| - 1].owner
  {
    var last := a[|a| - 1].owner;
    LastHolding(a, last);
    assert OwnerTotal(b, last) == OwnerTotal(a, last) > 0;
    if b != [] && b[|b| - 1].owner < last {
      LastHolding(b, last);
    }
  }

  /** Ascending lists of positive balances that give every owner the same are the same list. */
  lemma {:induction false} LedgersAreTheirTotals(a: seq<HolderEntry>, b: seq<HolderEntry>)
    requires Ledger(a) && Ledger(b) && SameOwnerTotals(a, b)
    ensures a == b
  {
    if a != [] {
      LastIsCovered(a, b);
      LastIsCovered(b, a);
      var last, initA, initB := a[|a| - 1].owner, a[..|a| - 1], b[..|b| - 1];
      LastHolding(a, last);
      LastHolding(b, last);
      assert OwnerTotal(a, last) == OwnerTotal(b, last);
      forall o: Bytes32 ensures OwnerTotal(initA, o) == OwnerTotal(initB, o) {
        assert OwnerTotal(a, o) == OwnerTotal(b, o);
      }
      LedgersAreTheirTotals(initA, initB);
      assert a == initA + [a[|a| - 1]] && b == initB + [b[|b| - 1]];
    } else if b != [] {
      LastIsCovered(b, a);
    }
  }

  /** The list without the holdings of one owner. */
  function Without(hs: seq<HolderEntry>, owner: Bytes32): seq<HolderEntry> {
    if hs == [] then []
    else Without(hs[..|hs| - 1], owner) +
         if hs[|hs| - 1].owner == owner then [] else [hs[|hs| - 1]]
  }

  lemma {:induction false} WithoutTotals(hs: seq<HolderEntry>, owner: Bytes32)
    ensures Total(hs) == OwnerTotal(hs, owner) + Total(Without(hs, owner))
    ensures |Without(hs, owner)| <= |hs|
    ensures owner in Owners(hs) ==> |Without(hs, owner)| < |hs|
  {
    if hs != [] {
      var init, last := hs[..|hs| - 1], hs[|hs| - 1];
      assert hs == init + [last];
      OwnersSnoc(init, last);
      WithoutTotals(init, owner);
      if last.owner == owner {
        assert Without(hs, owner) == Without(init, owner);
      } else {
        TotalSnoc(Without(init, owner), last);
      }
    }
  }

  lemma {:induction false} WithoutOwnerTotal(hs: seq<HolderEntry>, owner: Bytes32, other: Bytes32)
    ensures OwnerTotal(Without(hs, owner), other) == if other == owner then 0 else OwnerTotal(hs, other)
  {
    if hs != [] {
      var init, last := hs[..|hs| - 1], hs[|hs| - 1];
      WithoutOwnerTotal(init, owner, other);
      if last.owner == owner {
        assert Without(hs, owner) == Without(init, owner);
      } else {
        OwnerTotalSnoc(Without(init, owner), last, other);
      }
    }
  }

  ghost predicate SameOwnerTotals(a: seq<HolderEntry>, b: seq<HolderEntry>) {
    forall o: Bytes32 :: OwnerTotal(a, o) == OwnerTotal(b, o)
  }

  /** Lists that give every owner the same sum have the same grand total. */
  lemma {:induction false} OwnerTotalsFixTheTotal(a: seq<HolderEntry>, b: seq<HolderEntry>)
    requires SameOwnerTotals(a, b)
    ensures Total(a) == Total(b)
    decreases |a| + |b|
  {
    if a == [] && b == [] {
    } else {
      var owner := if a != [] then a[0].owner else b[0].owner;
      WithoutTotals(a, owner);
      WithoutTotals(b, owner);
      forall o: Bytes32 ensures OwnerTotal(Without(a, owner), o) == OwnerTotal(Without(b, owner), o) {
        WithoutOwnerTotal(a, owner, o);
        WithoutOwnerTotal(b, owner, o);
      }
      assert a != [] ==> owner in Owners(a);
      OwnerTotalsFixTheTotal(Without(a, owner), Without(b, owner));
    }
  }

  // ---------------------------------------------------------------- ascending enumeration

  ghost predicate StrictlyAscending(keys: seq<Bytes32>) {
    forall i, j :: 0 <= i < j < |keys| ==> keys[i] < keys[j]
  }

  ghost predicate Enumerates(keys: seq<Bytes32>, s: set<Bytes32>) {
    StrictlyAscending(keys) && (forall k :: k in keys <==> k in s)
  }

  predicate IsLeast(m: Bytes32, s: set<Bytes32>) {
    m in s && forall k :: k in s ==> m <= k
  }

  lemma {:induction false} Least(s: set<Bytes32>) returns (m: Bytes32)
    requires s != {}
    ensures IsLeast(m, s)
    decreases |s|
  {
    var x :| x in s;
    m := x;
    if s != {x} {
      var rest := s - {x};
      assert s == rest + {x};
      var r := Least(rest);
      m := if x < r then x else r;
    }
  }

  lemma LeastExists(s: set<Bytes32>)
    requires s != {}
    ensures exists m :: IsLeast(m, s)
  {
    var m := Least(s);
  }

  function SortedKeys(s: set<Bytes32>): (keys: seq<Bytes32>)
    ensures Enumerates(keys, s)
  {
    if s == {} then []
    else
      LeastExists(s);
      var m :| IsLeast(m, s);
      [m] + SortedKeys(s - {m})
  }

  lemma {:induction false} EnumerationIsUnique(a: seq<Bytes32>, b: seq<Bytes32>, s: set<Bytes32>)
    requires Enumerates(a, s) && Enumerates(b, s)
    ensures a == b
    decreases |a|
  {
    assert a != [] ==> a[0] in b;
    assert b != [] ==> b[0] in a;
    if a != [] && b != [] {
      assert a[0] == b[0];
      TailEnumerates(a, s);
      TailEnumerates(b, s);
      EnumerationIsUnique(a[1..], b[1..], s - {a[0]});
      assert a == [a[0]] + a[1..] && b == [b[0]] + b[1..];
    }
  }

  lemma TailEnumerates(a: seq<Bytes32>, s: set<Bytes32>)
    requires a != [] && Enumerates(a, s)
    ensures Enumerates(a[1..], s - {a[0]})
  {
    assert a == [a[0]] + a[1..];
  }
}
