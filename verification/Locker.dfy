/** Criterion 5's evidence scan (programs/grave-scanner/src/adapters/locker.rs) and the off-chain
    parser of the same records (snapshotter/src/locked.rs). Program-derived addresses are
    uninterpreted: two functions of the seeds. */
module Locker {
  import opened Wrappers
  import opened Bytes
  import opened ScannerErrors
  import opened SnapshotModel
  import opened SnapshotLedger
  import opened SnapshotSpec
  import opened Permutations
  import opened Attestation

  const PROGRAM_ID: Bytes32 := 0xebcad5b5a3869c094b749546e7981be86f0801540a861e7a1c930f69ccb19b6e
  const TOKEN_LOCK_DISC: seq<Byte> := [0x49, 0xe4, 0x90, 0xf1, 0x9a, 0x2c, 0x5d, 0xee]
  const MARKER_DISC: seq<Byte> := [0xc2, 0xd5, 0x88, 0xe2, 0x4a, 0x7e, 0x7b, 0xb2]
  const TOKEN_LOCK_SIZE := 146
  const MARKER_SIZE := 9
  const AMM_ID := 9
  const LP_MINT := 41
  const LOCK_GLOBAL_ID := 73
  const CURRENT_LOCKED_AMOUNT := 106
  const LOCK_OWNER := 114

  datatype Pda = Pda(tokenLock: U64 -> Bytes32, marker: Bytes32 -> Bytes32)

  datatype AccountInfo = AccountInfo(
    key: Bytes32, owner: Bytes32, lamports: U64, data: seq<Byte>, borrowable: bool)

  /** What one supplied account contributes. */
  datatype Verdict =
    | Silent
    | AbsentMarker
    | PresentMarker
    | Lock(amount: U64)
    | Refused(error: ScanError)

  function Classify(pda: Pda, mint: Bytes32, pool: Bytes32, a: AccountInfo): Verdict {
    if |a.data| == 0 && a.lamports == 0 then
      if a.key == pda.marker(pool) then AbsentMarker else Silent
    else if a.owner != PROGRAM_ID then Silent
    else if !a.borrowable then Refused(InvalidLockerAccount)
    else if a.key == pda.marker(pool) then
      if |a.data| == MARKER_SIZE && a.data[..8] == MARKER_DISC then PresentMarker
      else Refused(InvalidLockerAccount)
    else if |a.data| != TOKEN_LOCK_SIZE || a.data[..8] != TOKEN_LOCK_DISC ||
            a.key != pda.tokenLock(FieldU64(a.data, LOCK_GLOBAL_ID)) then Refused(InvalidLockerAccount)
    else if Parse32(a.data[AMM_ID..AMM_ID + 32]) != pool ||
            Parse32(a.data[LP_MINT..LP_MINT + 32]) != mint then Refused(LockerAccountMismatch)
    else Lock(FieldU64(a.data, CURRENT_LOCKED_AMOUNT))
  }

  function Verdicts(pda: Pda, mint: Bytes32, pool: Bytes32, accounts: seq<AccountInfo>): (vs: seq<Verdict>)
    ensures |vs| == |accounts|
    ensures forall i :: 0 <= i < |vs| ==> vs[i] == Classify(pda, mint, pool, accounts[i])
  {
    seq(|accounts|, i requires 0 <= i < |accounts| => Classify(pda, mint, pool, accounts[i]))
  }

  /** The sum of the live amounts, each supplied lock counted as often as it is supplied. */
  function LockedSum(vs: seq<Verdict>): nat {
    if vs == [] then 0
    else LockedSum(vs[..|vs| - 1]) + match vs[|vs| - 1] { case Lock(n) => n case _ => 0 }
  }

  function LockCount(vs: seq<Verdict>): nat {
    if vs == [] then 0 else LockCount(vs[..|vs| - 1]) + if vs[|vs| - 1].Lock? then 1 else 0
  }

  /** The first refusal or overflow the scan meets. */
  function FirstError(vs: seq<Verdict>): Option<ScanError> {
    if vs == [] then None
    else if FirstError(vs[..|vs| - 1]).Some? then FirstError(vs[..|vs| - 1])
    else match vs[|vs| - 1] {
      case Refused(e) => Some(e)
      case _ => if LockedSum(vs) > U64_MAX || LockCount(vs) > U32_MAX then Some(MathOverflow) else None
    }
  }

  function Conclude(vs: seq<Verdict>): Result<U64, ScanError> {
    if FirstError(vs).Some? then Err(FirstError(vs).value)
    else if AbsentMarker !in vs && PresentMarker !in vs then Err(LockerMarkerAccountRequired)
    else if PresentMarker in vs && LockCount(vs) == 0 then Err(LockerLockEvidenceRequired)
    else if PresentMarker !in vs && LockCount(vs) > 0 then Err(InvalidLockerAccount)
    else
      SumBounded(vs);
      Ok(LockedSum(vs))
  }

  lemma SumBounded(vs: seq<Verdict>)
    requires FirstError(vs).None?
    ensures LockedSum(vs) <= U64_MAX && LockCount(vs) <= U32_MAX
  {
  }

  function LockedLp(pda: Pda, mint: Bytes32, pool: Bytes32, accounts: seq<AccountInfo>): Result<U64, ScanError> {
    Conclude(Verdicts(pda, mint, pool, accounts))
  }

  method LockedLpAmount(pda: Pda, mint: Bytes32, pool: Bytes32, accounts: seq<AccountInfo>)
      returns (r: Result<U64, ScanError>)
    ensures r == LockedLp(pda, mint, pool, accounts)
  {
    ghost var vs := Verdicts(pda, mint, pool, accounts);
    var expectedMarker := pda.marker(pool);
    var markerPresentOnChain, markerSupplied := false, false;
    var locksSeen: nat, totalLocked: nat := 0, 0;
    for i := 0 to |accounts|
      invariant FirstError(vs[..i]).None?
      invariant totalLocked == LockedSum(vs[..i]) && locksSeen == LockCount(vs[..i])
      invariant markerPresentOnChain <==> PresentMarker in vs[..i]
      invariant markerSupplied <==> AbsentMarker in vs[..i] || PresentMarker in vs[..i]
    {
      SumBounded(vs[..i]);
      assert vs[..i + 1][..i] == vs[..i] && vs[..i + 1] == vs[..i] + [vs[i]];
      var account := accounts[i];
      if |account.data| == 0 && account.lamports == 0 {
        if account.key == expectedMarker {
          markerSupplied := true;
        }
        continue;
      }
      if account.owner != PROGRAM_ID {
        continue;
      }
      if !account.borrowable {
        StopsAt(vs, i);
        return Err(InvalidLockerAccount);
      }
      if account.key == expectedMarker {
        if |account.data| != MARKER_SIZE || account.data[..8] != MARKER_DISC {
          StopsAt(vs, i);
          return Err(InvalidLockerAccount);
        }
        markerSupplied := true;
        markerPresentOnChain := true;
        continue;
      }
      var lock := ValidateLock(pda, mint, pool, account);
      if lock.Err? {
        StopsAt(vs, i);
        return Err(lock.error);
      }
      totalLocked := totalLocked + lock.value;
      locksSeen := locksSeen + 1;
      if totalLocked > U64_MAX || locksSeen > U32_MAX {
        StopsAt(vs, i);
        return Err(MathOverflow);
      }
    }
    assert vs[..|accounts|] == vs;
    SumBounded(vs);
    if !markerSupplied {
      return Err(LockerMarkerAccountRequired);
    }
    if markerPresentOnChain {
      if locksSeen == 0 {
        return Err(LockerLockEvidenceRequired);
      }
    } else if locksSeen != 0 {
      return Err(InvalidLockerAccount);
    }
    r := Ok(totalLocked);
  }

  /** The checks of one TokenLock, in the source's order. */
  method ValidateLock(pda: Pda, mint: Bytes32, pool: Bytes32, a: AccountInfo)
      returns (r: Result<U64, ScanError>)
    requires !(|a.data| == 0 && a.lamports == 0) && a.owner == PROGRAM_ID && a.borrowable
    requires a.key != pda.marker(pool)
    ensures Classify(pda, mint, pool, a) == match r { case Ok(n) => Lock(n) case Err(e) => Refused(e) }
  {
    if |a.data| != TOKEN_LOCK_SIZE {
      return Err(InvalidLockerAccount);
    }
    if a.data[..8] != TOKEN_LOCK_DISC {
      return Err(InvalidLockerAccount);
    }
    if a.key != pda.tokenLock(FieldU64(a.data, LOCK_GLOBAL_ID)) {
      return Err(InvalidLockerAccount);
    }
    if Parse32(a.data[AMM_ID..AMM_ID + 32]) != pool {
      return Err(LockerAccountMismatch);
    }
    if Parse32(a.data[LP_MINT..LP_MINT + 32]) != mint {
      return Err(LockerAccountMismatch);
    }
    r := Ok(FieldU64(a.data, CURRENT_LOCKED_AMOUNT));
  }

  lemma {:induction false} StopsAt(vs: seq<Verdict>, i: nat)
    requires i < |vs| && FirstError(vs[..i + 1]).Some?
    ensures FirstError(vs) == FirstError(vs[..i + 1])
    decreases |vs|
  {
    if i + 1 == |vs| {
      assert vs[..i + 1] == vs;
    } else {
      assert vs[..|vs| - 1][..i + 1] == vs[..i + 1];
      StopsAt(vs[..|vs| - 1], i);
    }
  }

  // ---------------------------------------------------------------- what the scan decides

  ghost predicate NoneRefused(vs: seq<Verdict>) {
    forall v :: v in vs ==> !v.Refused?
  }

  lemma {:induction false} PrefixSums(vs: seq<Verdict>)
    requires vs != []
    ensures LockedSum(vs[..|vs| - 1]) <= LockedSum(vs) && LockCount(vs[..|vs| - 1]) <= LockCount(vs)
  {
  }

  lemma {:induction false} ScansIff(vs: seq<Verdict>)
    ensures FirstError(vs).None? <==>
            NoneRefused(vs) && LockedSum(vs) <= U64_MAX && LockCount(vs) <= U32_MAX
  {
    if vs != [] {
      var init, last := vs[..|vs| - 1], vs[|vs| - 1];
      assert vs == init + [last];
      ScansIff(init);
      PrefixSums(vs);
    }
  }

  /** Success and total in terms of which verdicts there are, not of where they stand. */
  lemma AcceptsIff(vs: seq<Verdict>)
    ensures Conclude(vs).Ok? <==>
            && NoneRefused(vs) && LockedSum(vs) <= U64_MAX && LockCount(vs) <= U32_MAX
            && (AbsentMarker in vs || PresentMarker in vs)
            && (PresentMarker in vs <==> LockCount(vs) > 0)
    ensures Conclude(vs).Ok? ==> Conclude(vs).value == LockedSum(vs)
  {
    ScansIff(vs);
  }

  predicate LockerCode(e: ScanError) {
    e == InvalidLockerAccount || e == LockerAccountMismatch || e == MathOverflow ||
    e == LockerMarkerAccountRequired || e == LockerLockEvidenceRequired
  }

  lemma {:induction false} FirstErrorCode(vs: seq<Verdict>)
    requires forall i :: 0 <= i < |vs| && vs[i].Refused? ==> LockerCode(vs[i].error)
    ensures FirstError(vs).Some? ==> LockerCode(FirstError(vs).value)
  {
    if vs != [] {
      FirstErrorCode(vs[..|vs| - 1]);
    }
  }

  /** The scan fails with locker codes and overflow only. */
  lemma ScanFailsWithLockerCodes(pda: Pda, mint: Bytes32, pool: Bytes32, accounts: seq<AccountInfo>)
    ensures LockedLp(pda, mint, pool, accounts).Err? ==> LockerCode(LockedLp(pda, mint, pool, accounts).error)
  {
    FirstErrorCode(Verdicts(pda, mint, pool, accounts));
  }

  lemma {:induction false} SumConcat(a: seq<Verdict>, b: seq<Verdict>)
    ensures LockedSum(a + b) == LockedSum(a) + LockedSum(b)
    ensures LockCount(a + b) == LockCount(a) + LockCount(b)
  {
    if b == [] {
      assert a + b == a;
    } else {
      assert (a + b)[..|a + b| - 1] == a + b[..|b| - 1];
      SumConcat(a, b[..|b| - 1]);
    }
  }

  lemma {:induction false} PermutedSums(a: seq<Verdict>, b: seq<Verdict>)
    requires multiset(a) == multiset(b)
    ensures LockedSum(a) == LockedSum(b) && LockCount(a) == LockCount(b)
    decreases |a|
  {
    if a == [] {
      assert |multiset(b)| == 0;
    } else {
      var j := SamePlace(a, b);
      PermutedSums(a[..|a| - 1], b[..j] + b[j + 1..]);
      assert b == (b[..j] + [b[j]]) + b[j + 1..];
      SumConcat(b[..j] + [b[j]], b[j + 1..]);
      SumConcat(b[..j], [b[j]]);
      SumConcat(b[..j], b[j + 1..]);
      LastSum(a);
      LastSum([b[j]]);
    }
  }

  lemma LastSum(vs: seq<Verdict>)
    requires vs != []
    ensures LockedSum(vs) == LockedSum(vs[..|vs| - 1]) + match vs[|vs| - 1] { case Lock(n) => n case _ => 0 }
    ensures LockCount(vs) == LockCount(vs[..|vs| - 1]) + if vs[|vs| - 1].Lock? then 1 else 0
    ensures |vs| == 1 ==> LockedSum(vs[..|vs| - 1]) == 0 && LockCount(vs[..|vs| - 1]) == 0
  {
  }

  lemma PermutedVerdicts(pda: Pda, mint: Bytes32, pool: Bytes32, a: seq<AccountInfo>, b: seq<AccountInfo>)
    requires multiset(a) == multiset(b)
    ensures multiset(Verdicts(pda, mint, pool, a)) == multiset(Verdicts(pda, mint, pool, b))
  {
    ImagesPermute((info: AccountInfo) => Classify(pda, mint, pool, info), a, b,
                  Verdicts(pda, mint, pool, a), Verdicts(pda, mint, pool, b));
  }

  /** The order in which accounts are supplied changes neither success nor the total (it may
      change which error comes first). */
  lemma ScanIsOrderIndependent(pda: Pda, mint: Bytes32, pool: Bytes32,
                               a: seq<AccountInfo>, b: seq<AccountInfo>)
    requires multiset(a) == multiset(b)
    ensures LockedLp(pda, mint, pool, a).Ok? <==> LockedLp(pda, mint, pool, b).Ok?
    ensures LockedLp(pda, mint, pool, a).Ok? ==>
            LockedLp(pda, mint, pool, a).value == LockedLp(pda, mint, pool, b).value
  {
    var va, vb := Verdicts(pda, mint, pool, a), Verdicts(pda, mint, pool, b);
    PermutedVerdicts(pda, mint, pool, a, b);
    PermutedSums(va, vb);
    SameMembers(va, vb);
    AcceptsIff(va);
    AcceptsIff(vb);
  }

  lemma SameMembers(a: seq<Verdict>, b: seq<Verdict>)
    requires multiset(a) == multiset(b)
    ensures forall v: Verdict :: v in a <==> v in b
  {
    forall v: Verdict ensures v in a <==> v in b {
      assert v in a <==> v in multiset(a);
      assert v in b <==> v in multiset(b);
    }
  }

  lemma {:induction false} MemberAtMostSum(vs: seq<Verdict>, n: U64)
    requires Lock(n) in vs
    ensures n <= LockedSum(vs)
  {
    assert vs == vs[..|vs| - 1] + [vs[|vs| - 1]];
    if vs[|vs| - 1] != Lock(n) {
      MemberAtMostSum(vs[..|vs| - 1], n);
    }
  }

  /** Supplying an account of an accepted scan again fails only by overflow, and never changes
      whether the pool counts as unlocked. */
  lemma DuplicateLockKeepsZero(pda: Pda, mint: Bytes32, pool: Bytes32, accounts: seq<AccountInfo>, again: AccountInfo)
    requires again in accounts && LockedLp(pda, mint, pool, accounts).Ok?
    ensures var twice := Verdicts(pda, mint, pool, accounts + [again]);
            && (LockedLp(pda, mint, pool, accounts + [again]).Ok? <==>
                  LockedSum(twice) <= U64_MAX && LockCount(twice) <= U32_MAX)
            && (LockedLp(pda, mint, pool, accounts + [again]).Ok? ==>
                  (LockedLp(pda, mint, pool, accounts + [again]).value == 0 <==>
                   LockedLp(pda, mint, pool, accounts).value == 0))
  {
    var vs, v := Verdicts(pda, mint, pool, accounts), Classify(pda, mint, pool, again);
    assert Verdicts(pda, mint, pool, accounts + [again]) == vs + [v];
    var i :| 0 <= i < |accounts| && accounts[i] == again;
    assert vs[i] == v;
    RepeatedVerdict(vs, v);
  }

  lemma RepeatedVerdict(vs: seq<Verdict>, v: Verdict)
    requires v in vs && Conclude(vs).Ok?
    ensures Conclude(vs + [v]).Ok? <==> LockedSum(vs + [v]) <= U64_MAX && LockCount(vs + [v]) <= U32_MAX
    ensures Conclude(vs + [v]).Ok? ==> (Conclude(vs + [v]).value == 0 <==> Conclude(vs).value == 0)
  {
    AcceptsIff(vs);
    AcceptsIff(vs + [v]);
    SumConcat(vs, [v]);
    LastSum([v]);
    assert forall w :: w in vs + [v] <==> w in vs;
    if v.Lock? {
      MemberAtMostSum(vs, v.amount);
      LockIsCounted(vs, v.amount);
    }
  }

  lemma {:induction false} LockIsCounted(vs: seq<Verdict>, n: U64)
    requires Lock(n) in vs
    ensures LockCount(vs) > 0
  {
    assert vs == vs[..|vs| - 1] + [vs[|vs| - 1]];
    if vs[|vs| - 1] != Lock(n) {
      LockIsCounted(vs[..|vs| - 1], n);
    }
  }

  // ---------------------------------------------------------------- off-chain mirror

  /** `TokenLockRecord::parse`. */
  function ParseTokenLock(pda: Pda, address: Bytes32, data: seq<Byte>, ammId: Bytes32, lpMint: Bytes32)
      : Result<TokenLockRecord, SnapshotError>
  {
    if |data| != TOKEN_LOCK_SIZE then Err(LockRecordInvalid(address, "size"))
    else if data[..8] != TOKEN_LOCK_DISC then Err(LockRecordInvalid(address, "discriminator"))
    else if address != pda.tokenLock(FieldU64(data, LOCK_GLOBAL_ID)) then
      Err(LockRecordInvalid(address, "pda re-derivation"))
    else if Parse32(data[AMM_ID..AMM_ID + 32]) != ammId then Err(LockRecordInvalid(address, "amm_id binding"))
    else if Parse32(data[LP_MINT..LP_MINT + 32]) != lpMint then Err(LockRecordInvalid(address, "lp_mint binding"))
    else Ok(TokenLockRecord(address, FieldU64(data, LOCK_GLOBAL_ID), FieldU64(data, CURRENT_LOCKED_AMOUNT),
                            Parse32(data[LOCK_OWNER..LOCK_OWNER + 32])))
  }

  /** An account that exists on chain. */
  predicate Live(a: AccountInfo) {
    a.data != [] || a.lamports > 0
  }

  /** A live account of the locker program other than the pool's marker. */
  predicate Evidence(pda: Pda, pool: Bytes32, a: AccountInfo) {
    Live(a) && a.owner == PROGRAM_ID && a.key != pda.marker(pool)
  }

  /** The two implementations accept the same records and read the same amount. */
  lemma ParsersAgree(pda: Pda, mint: Bytes32, pool: Bytes32, a: AccountInfo)
    requires Evidence(pda, pool, a) && a.borrowable
    ensures var parsed := ParseTokenLock(pda, a.key, a.data, pool, mint);
            && (Classify(pda, mint, pool, a).Lock? <==> parsed.Ok?)
            && (parsed.Ok? ==> Classify(pda, mint, pool, a) == Lock(parsed.value.currentLockedAmount))
  {
  }

  /** The records the off-chain parser makes of the supplied evidence. */
  function ParsedRecords(pda: Pda, mint: Bytes32, pool: Bytes32, accounts: seq<AccountInfo>): seq<TokenLockRecord> {
    if accounts == [] then []
    else
      var last := accounts[|accounts| - 1];
      var parsed := ParseTokenLock(pda, last.key, last.data, pool, mint);
      ParsedRecords(pda, mint, pool, accounts[..|accounts| - 1]) +
      if Evidence(pda, pool, last) && parsed.Ok? then [parsed.value] else []
  }

  lemma {:induction false} SumsOfParsed(pda: Pda, mint: Bytes32, pool: Bytes32, accounts: seq<AccountInfo>)
    requires NoneRefused(Verdicts(pda, mint, pool, accounts))
    ensures LockedSum(Verdicts(pda, mint, pool, accounts)) ==
            Total(LockHoldings(ParsedRecords(pda, mint, pool, accounts)))
    ensures LockCount(Verdicts(pda, mint, pool, accounts)) == |ParsedRecords(pda, mint, pool, accounts)|
  {
    if accounts != [] {
      var init, last := accounts[..|accounts| - 1], accounts[|accounts| - 1];
      var vs := Verdicts(pda, mint, pool, accounts);
      assert vs[..|vs| - 1] == Verdicts(pda, mint, pool, init);
      assert forall v :: v in vs[..|vs| - 1] ==> v in vs;
      assert vs[|vs| - 1] in vs;
      SumsOfParsed(pda, mint, pool, init);
      var before, parsed := ParsedRecords(pda, mint, pool, init), ParseTokenLock(pda, last.key, last.data, pool, mint);
      if Evidence(pda, pool, last) {
        ParsersAgree(pda, mint, pool, last);
        var r := parsed.value;
        assert LockHoldings(before + [r]) ==
               LockHoldings(before) + [HolderEntry(r.lockOwner, r.currentLockedAmount)];
        TotalSnoc(LockHoldings(before), HolderEntry(r.lockOwner, r.currentLockedAmount));
      } else {
        assert ParsedRecords(pda, mint, pool, accounts) == before;
      }
    }
  }

  /** The on-chain total is the locked total the snapshot builder would attribute from the same
      evidence, record for record. */
  lemma ScanTotalIsOffChainTotal(pda: Pda, mint: Bytes32, pool: Bytes32, accounts: seq<AccountInfo>)
    requires LockedLp(pda, mint, pool, accounts).Ok?
    ensures LockedLp(pda, mint, pool, accounts).value ==
            Total(LockHoldings(ParsedRecords(pda, mint, pool, accounts)))
    ensures PresentMarker in Verdicts(pda, mint, pool, accounts) <==>
            ParsedRecords(pda, mint, pool, accounts) != []
  {
    AcceptsIff(Verdicts(pda, mint, pool, accounts));
    SumsOfParsed(pda, mint, pool, accounts);
  }

  // ---------------------------------------------------------------- the accounts, byte by byte

  /** A TokenLock account as the locker program lays it out; the dates are eight bytes nobody reads. */
  datatype TokenLock = TokenLock(
    bump: Byte, ammId: Bytes32, lpMint: Bytes32, lockGlobalId: U64, lockDate: U64, unlockDate: U64,
    countryCode: Byte, initialLockAmount: U64, currentLockedAmount: U64, lockOwner: Bytes32)

  /** What says which lock it is. */
  function LockHead(l: TokenLock): (s: seq<Byte>)
    ensures |s| == 81
  {
    TOKEN_LOCK_DISC + [l.bump] + Raw(l.ammId) + Raw(l.lpMint) + Le64(l.lockGlobalId)
  }

  function LockTail(l: TokenLock): (s: seq<Byte>)
    ensures |s| == 65
  {
    Le64(l.lockDate) + Le64(l.unlockDate) + [l.countryCode] + Le64(l.initialLockAmount) +
    Le64(l.currentLockedAmount) + Raw(l.lockOwner)
  }

  function LockBytes(l: TokenLock): seq<Byte> {
    LockHead(l) + LockTail(l)
  }

  lemma HeadParts(disc: seq<Byte>, bump: Byte, amm: seq<Byte>, mint: seq<Byte>, id: seq<Byte>, tail: seq<Byte>)
    requires |disc| == |id| == 8 && |amm| == |mint| == 32
    ensures var d := disc + [bump] + amm + mint + id + tail;
            d[..8] == disc && d[8] == bump && d[9..41] == amm && d[41..73] == mint && d[73..81] == id && d[81..] == tail
  {
  }

  lemma TailParts(head: seq<Byte>, from: seq<Byte>, to: seq<Byte>, country: Byte, initial: seq<Byte>,
                  current: seq<Byte>, owner: seq<Byte>)
    requires |head| == 81 && |from| == |to| == |initial| == |current| == 8 && |owner| == 32
    ensures var d := head + (from + to + [country] + initial + current + owner);
            d[106..114] == current && d[114..146] == owner
  {
  }

  /** Where the fields that are read stand. */
  lemma LockFields(l: TokenLock)
    ensures var d := LockBytes(l);
            && |d| == 146 && d[..8] == TOKEN_LOCK_DISC
            && Parse32(d[9..41]) == l.ammId && Parse32(d[41..73]) == l.lpMint && FieldU64(d, 73) == l.lockGlobalId
            && FieldU64(d, 106) == l.currentLockedAmount && Parse32(d[114..146]) == l.lockOwner
  {
    var d := LockBytes(l);
    HeadParts(TOKEN_LOCK_DISC, l.bump, Raw(l.ammId), Raw(l.lpMint), Le64(l.lockGlobalId), LockTail(l));
    TailParts(LockHead(l), Le64(l.lockDate), Le64(l.unlockDate), l.countryCode, Le64(l.initialLockAmount),
              Le64(l.currentLockedAmount), Raw(l.lockOwner));
    Parse32Iff(d[9..41], l.ammId);
    Parse32Iff(d[41..73], l.lpMint);
    Parse32Iff(d[114..146], l.lockOwner);
    UnsignedField(d, 73, l.lockGlobalId);
    UnsignedField(d, 106, l.currentLockedAmount);
  }

  lemma HeadIsWhole(d: seq<Byte>)
    requires |d| == 81
    ensures d == d[..8] + [d[8]] + d[9..41] + d[41..73] + d[73..81]
  {
  }

  lemma TailIsWhole(d: seq<Byte>)
    requires |d| == 65
    ensures d == d[0..8] + d[8..16] + [d[16]] + d[17..25] + d[25..33] + d[33..65]
  {
  }

  /** Any 146 bytes that begin with the discriminator are a lock's. */
  lemma EveryLockIsBuilt(d: seq<Byte>) returns (l: TokenLock)
    requires |d| == 146 && d[..8] == TOKEN_LOCK_DISC
    ensures LockBytes(l) == d
  {
    var h, t := d[..81], d[81..];
    l := TokenLock(h[8], Parse32(h[9..41]), Parse32(h[41..73]), FieldU64(h, 73), FieldU64(t, 0), FieldU64(t, 8),
                   t[16], FieldU64(t, 17), FieldU64(t, 25), Parse32(t[33..65]));
    HeadIsBuilt(h, l);
    TailIsBuilt(t, l);
    assert d == h + t;
  }

  lemma HeadIsBuilt(h: seq<Byte>, l: TokenLock)
    requires |h| == 81 && h[..8] == TOKEN_LOCK_DISC && l.bump == h[8] && l.ammId == Parse32(h[9..41])
    requires l.lpMint == Parse32(h[41..73]) && l.lockGlobalId == FieldU64(h, 73)
    ensures LockHead(l) == h
  {
    HeadIsWhole(h);
    Bytes32RoundTrip(0, h[9..41]);
    Bytes32RoundTrip(0, h[41..73]);
    FieldBytes(h, 73);
  }

  lemma TailIsBuilt(t: seq<Byte>, l: TokenLock)
    requires |t| == 65 && l.lockDate == FieldU64(t, 0) && l.unlockDate == FieldU64(t, 8) && l.countryCode == t[16]
    requires l.initialLockAmount == FieldU64(t, 17) && l.currentLockedAmount == FieldU64(t, 25)
    requires l.lockOwner == Parse32(t[33..65])
    ensures LockTail(l) == t
  {
    TailIsWhole(t);
    assert Le64(l.lockDate) == t[0..8] by { FieldBytes(t, 0); }
    assert Le64(l.unlockDate) == t[8..16] by { FieldBytes(t, 8); }
    assert Le64(l.initialLockAmount) == t[17..25] by { FieldBytes(t, 17); }
    assert Le64(l.currentLockedAmount) == t[25..33] by { FieldBytes(t, 25); }
    assert Raw(l.lockOwner) == t[33..65] by { Bytes32RoundTrip(0, t[33..65]); }
  }

  /** The lock stands at the address of its own id and is about this pool and mint. */
  predicate Bound(pda: Pda, address: Bytes32, l: TokenLock, ammId: Bytes32, lpMint: Bytes32) {
    address == pda.tokenLock(l.lockGlobalId) && l.ammId == ammId && l.lpMint == lpMint
  }

  /** A lock's account parses exactly when it is bound, to its id, live amount and owner. */
  lemma LockRoundTrip(pda: Pda, address: Bytes32, l: TokenLock, ammId: Bytes32, lpMint: Bytes32)
    ensures var r := ParseTokenLock(pda, address, LockBytes(l), ammId, lpMint);
            && (r.Ok? <==> Bound(pda, address, l, ammId, lpMint))
            && (r.Ok? ==> r.value == TokenLockRecord(address, l.lockGlobalId, l.currentLockedAmount, l.lockOwner))
  {
    LockFields(l);
  }

  /** And nothing else parses: accepted bytes are a bound lock's, and the record is that lock's. */
  lemma ParsesIff(pda: Pda, address: Bytes32, data: seq<Byte>, ammId: Bytes32, lpMint: Bytes32)
    ensures var r := ParseTokenLock(pda, address, data, ammId, lpMint);
            && (r.Ok? <==> exists l: TokenLock :: LockBytes(l) == data && Bound(pda, address, l, ammId, lpMint))
            && (forall l: TokenLock :: LockBytes(l) == data && r.Ok? ==>
                  r.value == TokenLockRecord(address, l.lockGlobalId, l.currentLockedAmount, l.lockOwner))
  {
    forall l: TokenLock | LockBytes(l) == data
      ensures var r := ParseTokenLock(pda, address, data, ammId, lpMint);
              && (r.Ok? <==> Bound(pda, address, l, ammId, lpMint))
              && (r.Ok? ==> r.value == TokenLockRecord(address, l.lockGlobalId, l.currentLockedAmount, l.lockOwner))
    {
      LockRoundTrip(pda, address, l, ammId, lpMint);
    }
    if ParseTokenLock(pda, address, data, ammId, lpMint).Ok? {
      var l := EveryLockIsBuilt(data);
    }
  }

  // ---------------------------------------------------------------- complete evidence

  predicate IsMarker(data: seq<Byte>) {
    |data| == 9 && data[..8] == MARKER_DISC
  }

  /** An account of the locker program is readable and either the marker or a lock's; others do not
      matter. */
  predicate Admissible(pda: Pda, mint: Bytes32, pool: Bytes32, a: AccountInfo) {
    Live(a) && a.owner == PROGRAM_ID ==>
      a.borrowable &&
      if a.key == pda.marker(pool) then IsMarker(a.data) else ParseTokenLock(pda, a.key, a.data, pool, mint).Ok?
  }

  predicate ShowsMarkerAbsent(pda: Pda, pool: Bytes32, a: AccountInfo) {
    !Live(a) && a.key == pda.marker(pool)
  }

  predicate ShowsMarkerPresent(pda: Pda, pool: Bytes32, a: AccountInfo) {
    Live(a) && a.owner == PROGRAM_ID && a.borrowable && a.key == pda.marker(pool) && IsMarker(a.data)
  }

  lemma ClassifyIff(pda: Pda, mint: Bytes32, pool: Bytes32, a: AccountInfo)
    ensures Classify(pda, mint, pool, a).Refused? <==> !Admissible(pda, mint, pool, a)
    ensures Classify(pda, mint, pool, a) == AbsentMarker <==> ShowsMarkerAbsent(pda, pool, a)
    ensures Classify(pda, mint, pool, a) == PresentMarker <==> ShowsMarkerPresent(pda, pool, a)
  {
    if Evidence(pda, pool, a) && a.borrowable {
      ParsersAgree(pda, mint, pool, a);
    }
  }

  /** The live amounts of the supplied locks, each counted as often as it is supplied. */
  function SuppliedTotal(pda: Pda, mint: Bytes32, pool: Bytes32, accounts: seq<AccountInfo>): nat {
    Total(LockHoldings(ParsedRecords(pda, mint, pool, accounts)))
  }

  ghost predicate MarkerAbsent(pda: Pda, pool: Bytes32, accounts: seq<AccountInfo>) {
    exists a :: a in accounts && ShowsMarkerAbsent(pda, pool, a)
  }

  ghost predicate MarkerPresent(pda: Pda, pool: Bytes32, accounts: seq<AccountInfo>) {
    exists a :: a in accounts && ShowsMarkerPresent(pda, pool, a)
  }

  /** Every account is admissible, and locks and sum fit their counters. */
  ghost predicate Countable(pda: Pda, mint: Bytes32, pool: Bytes32, accounts: seq<AccountInfo>) {
    && (forall a :: a in accounts ==> Admissible(pda, mint, pool, a))
    && SuppliedTotal(pda, mint, pool, accounts) <= U64_MAX && |ParsedRecords(pda, mint, pool, accounts)| <= U32_MAX
  }

  /** The marker is supplied, and shown present exactly when locks are. */
  ghost predicate LocksShown(pda: Pda, mint: Bytes32, pool: Bytes32, accounts: seq<AccountInfo>) {
    && Countable(pda, mint, pool, accounts)
    && (MarkerAbsent(pda, pool, accounts) || MarkerPresent(pda, pool, accounts))
    && (MarkerPresent(pda, pool, accounts) <==> ParsedRecords(pda, mint, pool, accounts) != [])
  }

  lemma MarkersIff(pda: Pda, mint: Bytes32, pool: Bytes32, accounts: seq<AccountInfo>)
    ensures var vs := Verdicts(pda, mint, pool, accounts);
            && (NoneRefused(vs) <==> forall a :: a in accounts ==> Admissible(pda, mint, pool, a))
            && (AbsentMarker in vs <==> MarkerAbsent(pda, pool, accounts))
            && (PresentMarker in vs <==> MarkerPresent(pda, pool, accounts))
  {
    var vs := Verdicts(pda, mint, pool, accounts);
    forall i | 0 <= i < |accounts|
      ensures vs[i] in vs && accounts[i] in accounts
      ensures vs[i].Refused? <==> !Admissible(pda, mint, pool, accounts[i])
      ensures vs[i] == AbsentMarker <==> ShowsMarkerAbsent(pda, pool, accounts[i])
      ensures vs[i] == PresentMarker <==> ShowsMarkerPresent(pda, pool, accounts[i])
    {
      ClassifyIff(pda, mint, pool, accounts[i]);
    }
  }

  /** The scan in terms of the accounts: it succeeds exactly on complete evidence, with the sum of
      the supplied locks. */
  lemma LockedLpIff(pda: Pda, mint: Bytes32, pool: Bytes32, accounts: seq<AccountInfo>)
    ensures LockedLp(pda, mint, pool, accounts).Ok? <==> LocksShown(pda, mint, pool, accounts)
    ensures LockedLp(pda, mint, pool, accounts).Ok? ==>
              LockedLp(pda, mint, pool, accounts).value == SuppliedTotal(pda, mint, pool, accounts)
  {
    var vs := Verdicts(pda, mint, pool, accounts);
    AcceptsIff(vs);
    MarkersIff(pda, mint, pool, accounts);
    if NoneRefused(vs) {
      SumsOfParsed(pda, mint, pool, accounts);
    }
  }

  /** With accounts that can all be counted, the marker decides: it must be supplied, and a present
      marker and locks need each other. */
  lemma MarkerRules(pda: Pda, mint: Bytes32, pool: Bytes32, accounts: seq<AccountInfo>)
    requires Countable(pda, mint, pool, accounts)
    ensures var r := LockedLp(pda, mint, pool, accounts);
            var absent, present := MarkerAbsent(pda, pool, accounts), MarkerPresent(pda, pool, accounts);
            var locks := ParsedRecords(pda, mint, pool, accounts) != [];
            && (r == Err(LockerMarkerAccountRequired) <==> !absent && !present)
            && (r == Err(LockerLockEvidenceRequired) <==> present && !locks)
            && (r == Err(InvalidLockerAccount) <==> absent && !present && locks)
  {
    var vs := Verdicts(pda, mint, pool, accounts);
    ScansIff(vs);
    MarkersIff(pda, mint, pool, accounts);
    SumsOfParsed(pda, mint, pool, accounts);
  }
}
