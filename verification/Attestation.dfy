/** Oracle attestations: the on-chain checks (programs/grave-scanner/src/attestation.rs) and the
    SDK code that builds what they check (sdk/src/lastSwapAttestation.ts,
    sdk/src/launchPriceAttestation.ts). */
module Attestation {
  import opened Wrappers
  import opened Bytes
  import opened ScannerErrors

  const ED25519_PROGRAM_ID: Bytes32 := 0x037d46d67c93fbbe12f9428f838d40ff0570744927f48a64fcca704480000000

  const ATTESTATION_MSG_LEN := 112
  const LAUNCH_PRICE_MSG_LEN := 168
  const ED25519_SIG_LEN := 64
  const ED25519_PK_LEN := 32
  const PRECOMPILE_PK_OFFSET := 16
  const PRECOMPILE_SIG_OFFSET := 48
  const PRECOMPILE_MIN_LEN := 112
  const CUR_INSTRUCTION_INDEX := 0xFFFF
  const IX_DATA_MSG_OFFSET := 72
  const IX_DATA_MIN_LEN := 184
  const LAUNCH_PRICE_MSG_OFFSET := 152
  const LAUNCH_PRICE_IX_MIN_LEN := 320

  datatype Instruction = Instruction(programId: Bytes32, data: seq<Byte>)

  /** A little-endian unsigned field of `n` bytes at `at`. */
  function Field(d: seq<Byte>, at: nat, n: nat): nat
    requires at + n <= |d|
  {
    FromLe(d[at..at + n])
  }

  function FieldU64(d: seq<Byte>, at: nat): U64
    requires at + 8 <= |d|
  {
    ToLeOfFromLe(d[at..at + 8]);
    Pow256Widths();
    Field(d, at, 8)
  }

  function FieldU128(d: seq<Byte>, at: nat): U128
    requires at + 16 <= |d|
  {
    ToLeOfFromLe(d[at..at + 16]);
    Pow256Widths();
    Field(d, at, 16)
  }

  /** Two's complement. */
  function FieldI64(d: seq<Byte>, at: nat): I64
    requires at + 8 <= |d|
  {
    var u := FieldU64(d, at);
    if u > I64_MAX then u - (U64_MAX + 1) else u
  }

  // ---------------------------------------------------------------- the precompile instruction

  predicate SignaturePinned(d: seq<Byte>)
    requires |d| >= PRECOMPILE_MIN_LEN
  {
    && Field(d, 4, 2) == CUR_INSTRUCTION_INDEX
    && Field(d, 2, 2) == PRECOMPILE_SIG_OFFSET
    && Field(d, 2, 2) + ED25519_SIG_LEN <= |d|
  }

  predicate KeyPinned(d: seq<Byte>)
    requires |d| >= PRECOMPILE_MIN_LEN
  {
    && Field(d, 8, 2) == CUR_INSTRUCTION_INDEX
    && Field(d, 6, 2) == PRECOMPILE_PK_OFFSET
    && Field(d, 6, 2) + ED25519_PK_LEN <= |d|
  }

  function VerifyEd25519OffsetsAt(ix: Instruction, scannerIndex: U16, scannerData: seq<Byte>,
                                  oracle: Bytes32, msgOffset: nat, msgLen: nat, minLen: nat)
      : Result<(), ScanError>
  {
    var d := ix.data;
    if ix.programId != ED25519_PROGRAM_ID then Err(AttestationMissing)
    else if |d| < PRECOMPILE_MIN_LEN then Err(InvalidAttestationOffsets)
    else if d[0] != 1 || !SignaturePinned(d) || !KeyPinned(d) then Err(InvalidAttestationOffsets)
    else if Parse32(d[PRECOMPILE_PK_OFFSET..PRECOMPILE_PK_OFFSET + ED25519_PK_LEN]) != oracle then
      Err(AttestationOracleMismatch)
    else if Field(d, 14, 2) != scannerIndex then Err(InvalidAttestationOffsets)
    else if Field(d, 10, 2) != msgOffset || Field(d, 12, 2) != msgLen then Err(InvalidAttestationOffsets)
    else if |scannerData| < minLen then Err(InvalidAttestationOffsets)
    else Ok(())
  }

  /** The SDK's builder. The span must be one of the two canonical ones. */
  predicate CanonicalSpan(msgOffset: int, msgLen: nat) {
    (msgOffset == IX_DATA_MSG_OFFSET && msgLen == ATTESTATION_MSG_LEN) ||
    (msgOffset == LAUNCH_PRICE_MSG_OFFSET && msgLen == LAUNCH_PRICE_MSG_LEN)
  }

  /** The header the builder lays out: count, padding, seven offsets. */
  function Offsets(msgOffset: nat, msgLen: nat, scannerIndex: nat): (s: seq<Byte>)
    ensures |s| == 16
  {
    [1, 0] + ToLe(PRECOMPILE_SIG_OFFSET, 2) + ToLe(CUR_INSTRUCTION_INDEX, 2) +
    ToLe(PRECOMPILE_PK_OFFSET, 2) + ToLe(CUR_INSTRUCTION_INDEX, 2) +
    ToLe(msgOffset, 2) + ToLe(msgLen, 2) + ToLe(scannerIndex, 2)
  }

  /** The whole instruction: header, key, signature. */
  function Precompile(signature: seq<Byte>, oracle: Bytes32, msgOffset: nat, msgLen: nat, scannerIndex: nat)
      : seq<Byte>
  {
    Offsets(msgOffset, msgLen, scannerIndex) + Raw(oracle) + signature
  }

  method WriteAt(buf: array<Byte>, at: nat, bytes: seq<Byte>)
    requires at + |bytes| <= buf.Length
    modifies buf
    ensures buf[..] == old(buf[..at]) + bytes + old(buf[at + |bytes|..])
  {
    for i := 0 to |bytes|
      invariant buf[..] == old(buf[..at]) + bytes[..i] + old(buf[at + i..])
    {
      buf[at + i] := bytes[i];
    }
  }

  method BuildEd25519VerifyInstruction(signature: seq<Byte>, oracle: Bytes32, msgLen: nat,
                                       scannerIndex: int, msgOffset: int)
      returns (r: Option<Instruction>)
    ensures r.Some? <==>
            |signature| == 64 && 0 <= scannerIndex <= 0xFFFE && CanonicalSpan(msgOffset, msgLen)
    ensures r.Some? ==>
            r.value == Instruction(ED25519_PROGRAM_ID,
                                   Precompile(signature, oracle, msgOffset, msgLen, scannerIndex))
  {
    if |signature| != 64 || scannerIndex < 0 || scannerIndex > 0xFFFE || msgOffset < 0 ||
       msgOffset > 0xFFFF || !CanonicalSpan(msgOffset, msgLen) {
      return None;
    }
    var data := new Byte[PRECOMPILE_MIN_LEN](_ => 0);
    WriteOffsets(data, msgOffset, msgLen, scannerIndex);
    WriteAt(data, PRECOMPILE_PK_OFFSET, Raw(oracle));
    WriteAt(data, PRECOMPILE_SIG_OFFSET, signature);
    r := Some(Instruction(ED25519_PROGRAM_ID, data[..]));
  }

  method WriteOffsets(data: array<Byte>, msgOffset: nat, msgLen: nat, scannerIndex: nat)
    requires data.Length >= 16
    modifies data
    ensures data[..] == Offsets(msgOffset, msgLen, scannerIndex) + old(data[16..])
  {
    ghost var was, o := data[..], Offsets(msgOffset, msgLen, scannerIndex);
    OffsetsFields(msgOffset, msgLen, scannerIndex);
    WriteAt(data, 0, [1, 0]);
    assert data[..] == o[..2] + was[2..];
    WriteNext(data, 2, PRECOMPILE_SIG_OFFSET, o, was);
    WriteNext(data, 4, CUR_INSTRUCTION_INDEX, o, was);
    WriteNext(data, 6, PRECOMPILE_PK_OFFSET, o, was);
    WriteNext(data, 8, CUR_INSTRUCTION_INDEX, o, was);
    WriteNext(data, 10, msgOffset, o, was);
    WriteNext(data, 12, msgLen, o, was);
    WriteNext(data, 14, scannerIndex, o, was);
  }

  /** One `writeUInt16LE` of a header written front to back. */
  method WriteNext(data: array<Byte>, at: nat, value: nat, ghost header: seq<Byte>, ghost was: seq<Byte>)
    requires at + 2 <= |header| <= |was| && header[at..at + 2] == ToLe(value, 2)
    requires data[..] == header[..at] + was[at..]
    modifies data
    ensures data[..] == header[..at + 2] + was[at + 2..]
  {
    WriteAt(data, at, ToLe(value, 2));
    assert header[..at + 2] == header[..at] + header[at..at + 2];
  }

  // ---------------------------------------------------------------- builder against checker

  lemma FieldIff(d: seq<Byte>, at: nat, n: nat, v: nat)
    requires at + n <= |d| && v < Pow256(n)
    ensures Field(d, at, n) == v <==> d[at..at + n] == ToLe(v, n)
  {
    FromLeOfToLe(v, n);
    ToLeOfFromLe(d[at..at + n]);
  }

  lemma Parse32Iff(s: seq<Byte>, b: Bytes32)
    requires |s| == 32
    ensures Parse32(s) == b <==> s == Raw(b)
  {
    Bytes32RoundTrip(b, s);
  }

  /** Agreement with what the builder writes, on the bytes the runtime and the checker read: not
      the padding byte, not the signature, not anything after it. */
  ghost predicate AgreesWithBuilder(d: seq<Byte>, oracle: Bytes32, msgOffset: nat, msgLen: nat,
                                    scannerIndex: nat)
  {
    && |d| >= PRECOMPILE_MIN_LEN
    && d[0] == 1
    && d[2..16] == Offsets(msgOffset, msgLen, scannerIndex)[2..]
    && d[16..48] == Raw(oracle)
  }

  lemma HeaderIff(d: seq<Byte>, msgOffset: nat, msgLen: nat, scannerIndex: nat)
    requires |d| >= PRECOMPILE_MIN_LEN
    requires msgOffset <= U16_MAX && msgLen <= U16_MAX && scannerIndex <= U16_MAX
    ensures d[2..16] == Offsets(msgOffset, msgLen, scannerIndex)[2..] <==>
            SignaturePinned(d) && KeyPinned(d) && Field(d, 14, 2) == scannerIndex &&
            Field(d, 10, 2) == msgOffset && Field(d, 12, 2) == msgLen
  {
    Pow256Widths();
    var o := Offsets(msgOffset, msgLen, scannerIndex);
    HeaderByFields(d[..16], o);
    FieldIff(d, 2, 2, PRECOMPILE_SIG_OFFSET);
    FieldIff(d, 4, 2, CUR_INSTRUCTION_INDEX);
    FieldIff(d, 6, 2, PRECOMPILE_PK_OFFSET);
    FieldIff(d, 8, 2, CUR_INSTRUCTION_INDEX);
    FieldIff(d, 10, 2, msgOffset);
    FieldIff(d, 12, 2, msgLen);
    FieldIff(d, 14, 2, scannerIndex);
    OffsetsFields(msgOffset, msgLen, scannerIndex);
    assert d[..16][2..] == d[2..16];
    assert d[..16][2..4] == d[2..4] && d[..16][4..6] == d[4..6] && d[..16][6..8] == d[6..8];
    assert d[..16][8..10] == d[8..10] && d[..16][10..12] == d[10..12];
    assert d[..16][12..14] == d[12..14] && d[..16][14..16] == d[14..16];
  }

  lemma HeaderByFields(a: seq<Byte>, b: seq<Byte>)
    requires |a| == |b| == 16
    ensures a[2..] == b[2..] <==>
            a[2..4] == b[2..4] && a[4..6] == b[4..6] && a[6..8] == b[6..8] && a[8..10] == b[8..10] &&
            a[10..12] == b[10..12] && a[12..14] == b[12..14] && a[14..16] == b[14..16]
  {
    if a[2..] == b[2..] {
      forall k | 2 <= k < 16 ensures a[k] == b[k] {
        assert a[2..][k - 2] == b[2..][k - 2];
      }
    }
    assert a[2..] == a[2..4] + a[4..6] + a[6..8] + a[8..10] + a[10..12] + a[12..14] + a[14..16];
    assert b[2..] == b[2..4] + b[4..6] + b[6..8] + b[8..10] + b[10..12] + b[12..14] + b[14..16];
  }

  lemma OffsetsFields(msgOffset: nat, msgLen: nat, scannerIndex: nat)
    ensures var o := Offsets(msgOffset, msgLen, scannerIndex);
      && o[2..4] == ToLe(PRECOMPILE_SIG_OFFSET, 2) && o[4..6] == ToLe(CUR_INSTRUCTION_INDEX, 2)
      && o[6..8] == ToLe(PRECOMPILE_PK_OFFSET, 2) && o[8..10] == ToLe(CUR_INSTRUCTION_INDEX, 2)
      && o[10..12] == ToLe(msgOffset, 2) && o[12..14] == ToLe(msgLen, 2)
      && o[14..16] == ToLe(scannerIndex, 2)
  {
  }

  /** The checker accepts exactly the precompile data that agrees with the SDK builder's. */
  lemma CheckerAcceptsIffBuilderAgrees(ix: Instruction, scannerIndex: U16, scannerData: seq<Byte>,
                                       oracle: Bytes32, msgOffset: U16, msgLen: U16, minLen: nat)
    ensures VerifyEd25519OffsetsAt(ix, scannerIndex, scannerData, oracle, msgOffset, msgLen, minLen).Ok? <==>
            && ix.programId == ED25519_PROGRAM_ID && |scannerData| >= minLen
            && AgreesWithBuilder(ix.data, oracle, msgOffset, msgLen, scannerIndex)
  {
    var d := ix.data;
    if |d| >= PRECOMPILE_MIN_LEN {
      HeaderIff(d, msgOffset, msgLen, scannerIndex);
      Parse32Iff(d[16..48], oracle);
    }
  }

  /** What the SDK builds for an attestation passes the checker, whatever the signature bytes. */
  lemma BuiltPrecompileIsAccepted(signature: seq<Byte>, oracle: Bytes32, scannerIndex: U16,
                                  scannerData: seq<Byte>, msgOffset: U16, msgLen: U16, minLen: nat)
    requires |signature| == ED25519_SIG_LEN && |scannerData| >= minLen
    ensures VerifyEd25519OffsetsAt(
              Instruction(ED25519_PROGRAM_ID, Precompile(signature, oracle, msgOffset, msgLen, scannerIndex)),
              scannerIndex, scannerData, oracle, msgOffset, msgLen, minLen) == Ok(())
  {
    var d := Precompile(signature, oracle, msgOffset, msgLen, scannerIndex);
    var o := Offsets(msgOffset, msgLen, scannerIndex);
    assert d == o + Raw(oracle) + signature;
    assert d[16..48] == Raw(oracle);
    assert d[2..16] == o[2..];
    CheckerAcceptsIffBuilderAgrees(Instruction(ED25519_PROGRAM_ID, d), scannerIndex, scannerData,
                                   oracle, msgOffset, msgLen, minLen);
  }

  /** The layout in the runtime's own numbers: one signature, seven little-endian offsets from byte 2,
      the key at 16, the signature at 48. */
  lemma PrecompileLayout(signature: seq<Byte>, oracle: Bytes32, msgOffset: U16, msgLen: U16, scannerIndex: U16)
    requires |signature| == 64
    ensures var d := Precompile(signature, oracle, msgOffset, msgLen, scannerIndex);
            && |d| == 112 && d[0] == 1 && d[1] == 0
            && Field(d, 2, 2) == 48 && Field(d, 4, 2) == 0xFFFF
            && Field(d, 6, 2) == 16 && Field(d, 8, 2) == 0xFFFF
            && Field(d, 10, 2) == msgOffset && Field(d, 12, 2) == msgLen && Field(d, 14, 2) == scannerIndex
            && d[16..48] == Raw(oracle) && d[48..112] == signature
  {
    var o := Offsets(msgOffset, msgLen, scannerIndex);
    OffsetFields(msgOffset, msgLen, scannerIndex);
    HeaderThenRest(o, Raw(oracle), signature);
    assert o[0] == 1 && o[1] == 0;
  }

  lemma OffsetFields(msgOffset: U16, msgLen: U16, scannerIndex: U16)
    ensures var o := Offsets(msgOffset, msgLen, scannerIndex);
            && Field(o, 2, 2) == 48 && Field(o, 4, 2) == 0xFFFF && Field(o, 6, 2) == 16 && Field(o, 8, 2) == 0xFFFF
            && Field(o, 10, 2) == msgOffset && Field(o, 12, 2) == msgLen && Field(o, 14, 2) == scannerIndex
  {
    Pow256Widths();
    OffsetsFields(msgOffset, msgLen, scannerIndex);
    FromLeOfToLe(48, 2);
    FromLeOfToLe(0xFFFF, 2);
    FromLeOfToLe(16, 2);
    FromLeOfToLe(msgOffset, 2);
    FromLeOfToLe(msgLen, 2);
    FromLeOfToLe(scannerIndex, 2);
  }

  lemma HeaderThenRest(header: seq<Byte>, key: seq<Byte>, signature: seq<Byte>)
    requires |header| == 16 && |key| == 32
    ensures var d := header + key + signature;
            && d[16..48] == key && d[48..] == signature && d[0] == header[0] && d[1] == header[1]
            && d[2..4] == header[2..4] && d[4..6] == header[4..6] && d[6..8] == header[6..8]
            && d[8..10] == header[8..10] && d[10..12] == header[10..12] && d[12..14] == header[12..14]
            && d[14..16] == header[14..16]
  {
  }

  // ---------------------------------------------------------------- SlotHashes

  function Claimed(data: seq<Byte>): U64
    requires |data| >= 8
  {
    FieldU64(data, 0)
  }

  /** The scan from entry `i` on. */
  function LookupFrom(data: seq<Byte>, target: U64, i: nat, count: nat): Option<Bytes32>
    decreases if i < count then count - i else 0
  {
    if i >= count || 8 + 40 * i + 40 > |data| then None
    else if FieldU64(data, 8 + 40 * i) == target then
      Some(Parse32(data[8 + 40 * i + 8..8 + 40 * i + 40]))
    else LookupFrom(data, target, i + 1, count)
  }

  function SlotHashLookup(data: seq<Byte>, target: U64): Option<Bytes32> {
    if |data| < 8 then None else LookupFrom(data, target, 0, Claimed(data))
  }

  /** The indexed loop with its early exits. However many entries the data claims to hold, it
      takes at most one step per entry that fits, and one more. */
  method ScanSlotHashes(data: seq<Byte>, target: U64) returns (r: Option<Bytes32>, ghost steps: nat)
    ensures r == SlotHashLookup(data, target)
    ensures steps <= |data| / 40 + 1
  {
    steps := 0;
    if |data| < 8 {
      return None, 0;
    }
    var count := Claimed(data);
    for i := 0 to count
      invariant steps == i && 40 * i <= |data|
      invariant SlotHashLookup(data, target) == LookupFrom(data, target, i, count)
    {
      steps := steps + 1;
      var base := 8 + i * 40;
      if base + 40 > |data| {
        return None, steps;
      }
      if FieldU64(data, base) == target {
        return Some(Parse32(data[base + 8..base + 40])), steps;
      }
    }
    r := None;
  }

  /** Entry `i` is claimed and lies within the data. */
  predicate Readable(data: seq<Byte>, i: nat) {
    |data| >= 8 && i < Claimed(data) && 8 + 40 * i + 40 <= |data|
  }

  /** It is the first entry for the slot. */
  ghost predicate FirstEntry(data: seq<Byte>, target: U64, i: nat) {
    && Readable(data, i) && FieldU64(data, 8 + 40 * i) == target
    && forall j: nat :: j < i ==> Readable(data, j) && FieldU64(data, 8 + 40 * j) != target
  }

  lemma LookupFromIff(data: seq<Byte>, target: U64, from: nat)
    requires |data| >= 8 && from <= Claimed(data)
    requires forall j: nat :: j < from ==> Readable(data, j) && FieldU64(data, 8 + 40 * j) != target
    ensures var r := LookupFrom(data, target, from, Claimed(data));
            && (r.None? <==> forall i: nat :: !FirstEntry(data, target, i))
            && forall i: nat :: FirstEntry(data, target, i) ==>
                 r == Some(Parse32(data[8 + 40 * i + 8..8 + 40 * i + 40]))
    decreases Claimed(data) - from
  {
    if Readable(data, from) && FieldU64(data, 8 + 40 * from) == target {
      assert FirstEntry(data, target, from);
      forall i: nat | FirstEntry(data, target, i) ensures i == from {
      }
    } else if Readable(data, from) {
      LookupFromIff(data, target, from + 1);
    } else {
      forall i: nat ensures !FirstEntry(data, target, i) {
        assert i < from ==> FieldU64(data, 8 + 40 * i) != target;
      }
    }
  }

  /** Whatever the bytes: the hash of the first readable entry for the slot, or nothing exactly when
      no readable entry is for it. */
  lemma LookupIff(data: seq<Byte>, target: U64)
    ensures var r := SlotHashLookup(data, target);
            && (r.None? <==> forall i: nat :: !FirstEntry(data, target, i))
            && forall i: nat :: FirstEntry(data, target, i) ==>
                 r == Some(Parse32(data[8 + 40 * i + 8..8 + 40 * i + 40]))
  {
    if |data| >= 8 {
      LookupFromIff(data, target, 0);
    }
  }

  datatype SlotEntry = SlotEntry(slot: U64, hash: Bytes32)

  /** The sysvar's encoding: a count, then slot and hash per entry. */
  function EncodeEntries(entries: seq<SlotEntry>): (s: seq<Byte>)
    ensures |s| == 40 * |entries|
  {
    if entries == [] then []
    else EncodeEntries(entries[..|entries| - 1]) +
         (Le64(entries[|entries| - 1].slot) + Raw(entries[|entries| - 1].hash))
  }

  function EncodeSlotHashes(entries: seq<SlotEntry>): seq<Byte>
    requires |entries| <= U64_MAX
  {
    Le64(|entries|) + EncodeEntries(entries)
  }

  lemma {:induction false} EntryBytes(entries: seq<SlotEntry>, i: nat)
    requires i < |entries|
    ensures EncodeEntries(entries)[40 * i..40 * i + 40] == Le64(entries[i].slot) + Raw(entries[i].hash)
  {
    var init := entries[..|entries| - 1];
    if i < |init| {
      EntryBytes(init, i);
      assert EncodeEntries(entries)[40 * i..40 * i + 40] == EncodeEntries(init)[40 * i..40 * i + 40];
    }
  }

  lemma EntryFields(entries: seq<SlotEntry>, i: nat)
    requires i < |entries| <= U64_MAX
    ensures var data := EncodeSlotHashes(entries);
            && 8 + 40 * i + 40 <= |data| && Claimed(data) == |entries|
            && FieldU64(data, 8 + 40 * i) == entries[i].slot
            && Parse32(data[8 + 40 * i + 8..8 + 40 * i + 40]) == entries[i].hash
  {
    var data, body := EncodeSlotHashes(entries), EncodeEntries(entries);
    var at := 8 + 40 * i;
    EntryBytes(entries, i);
    var entry := body[40 * i..40 * i + 40];
    assert data[at..at + 40] == entry;
    assert data[at..at + 8] == entry[..8] == Le64(entries[i].slot);
    assert data[at + 8..at + 40] == entry[8..] == Raw(entries[i].hash);
    assert data[0..8] == Le64(|entries|);
    Pow256Widths();
    FromLeOfToLe(entries[i].slot, 8);
    FromLeOfToLe(|entries|, 8);
    Parse32Iff(data[at + 8..at + 40], entries[i].hash);
  }

  lemma {:induction false} LookupFromFindsFirst(entries: seq<SlotEntry>, target: U64, i: nat)
    requires i <= |entries| <= U64_MAX
    ensures var r := LookupFrom(EncodeSlotHashes(entries), target, i, |entries|);
            (r.None? ==> forall j :: i <= j < |entries| ==> entries[j].slot != target) &&
            (r.Some? ==> exists j :: i <= j < |entries| && FirstMatch(entries, target, i, j) &&
                                     r.value == entries[j].hash)
    decreases |entries| - i
  {
    if i < |entries| {
      EntryFields(entries, i);
      if entries[i].slot == target {
        assert FirstMatch(entries, target, i, i);
      } else {
        LookupFromFindsFirst(entries, target, i + 1);
        var r := LookupFrom(EncodeSlotHashes(entries), target, i + 1, |entries|);
        if r.Some? {
          var j :| i + 1 <= j < |entries| && FirstMatch(entries, target, i + 1, j) && r.value == entries[j].hash;
          assert FirstMatch(entries, target, i, j);
        }
      }
    }
  }

  predicate FirstMatch(entries: seq<SlotEntry>, target: U64, from: nat, j: nat)
    requires j < |entries|
  {
    entries[j].slot == target && forall k :: from <= k < j ==> entries[k].slot != target
  }

  /** On a well-formed sysvar the lookup returns the first entry with the slot, and nothing only
      when there is none. */
  lemma LookupFindsFirst(entries: seq<SlotEntry>, target: U64)
    requires |entries| <= U64_MAX
    ensures var r := SlotHashLookup(EncodeSlotHashes(entries), target);
            (r.None? <==> forall j :: 0 <= j < |entries| ==> entries[j].slot != target) &&
            (r.Some? ==> exists j :: 0 <= j < |entries| && FirstMatch(entries, target, 0, j) &&
                                     r.value == entries[j].hash)
  {
    var data := EncodeSlotHashes(entries);
    assert data[0..8] == Le64(|entries|);
    Pow256Widths();
    FromLeOfToLe(|entries|, 8);
    LookupFromFindsFirst(entries, target, 0);
  }

  // ---------------------------------------------------------------- the last-swap message

  type Message112 = m: seq<Byte> | |m| == 112 witness seq(112, _ => 0)
  type Message168 = m: seq<Byte> | |m| == 168 witness seq(168, _ => 0)

  function VerifyAttestationMessage(msg: Message112, ammProgramId: Bytes32, poolAddress: Bytes32,
                                    now: I64, nowSlot: U64, slotHashes: seq<Byte>): Result<I64, ScanError>
  {
    var ts, slot := FieldI64(msg, 64), FieldU64(msg, 72);
    if Parse32(msg[0..32]) != ammProgramId || Parse32(msg[32..64]) != poolAddress then
      Err(AttestationBindingMismatch)
    else if !(0 < ts <= now) then Err(AttestationTimestampInvalid)
    else if !(0 < slot <= nowSlot) then Err(AttestationSlotInvalid)
    else
      var hash := SlotHashLookup(slotHashes, slot);
      if hash.None? then Err(AttestationStale)
      else if hash != Some(Parse32(msg[80..112])) then Err(AttestationSlotHashMismatch)
      else Ok(ts)
  }

  /** The evidence check of both phases: the instruction before this one must be the precompile's,
      over exactly `msg`. The instruction index and data come from the instructions sysvar. */
  function VerifyLastSwapAttestation(before: Option<Instruction>, scannerIndex: U16, scannerData: seq<Byte>,
                                     msg: Message112, ammProgramId: Bytes32, poolAddress: Bytes32,
                                     oracle: Bytes32, now: I64, nowSlot: U64, slotHashes: seq<Byte>)
      : Result<I64, ScanError>
  {
    if before.None? then Err(AttestationMissing)
    else
      var offsets := VerifyEd25519OffsetsAt(before.value, scannerIndex, scannerData, oracle,
                       IX_DATA_MSG_OFFSET, ATTESTATION_MSG_LEN, IX_DATA_MIN_LEN);
      if offsets.Err? then Err(offsets.error)
      else VerifyAttestationMessage(msg, ammProgramId, poolAddress, now, nowSlot, slotHashes)
  }

  datatype LastSwapAttestation = LastSwapAttestation(
    ammProgramId: Bytes32, poolAddress: Bytes32, lastSwapUnixTs: I64, issuedSlot: U64, slotHash: Bytes32)

  lemma SignedField(d: seq<Byte>, at: nat, v: I64)
    requires at + 8 <= |d| && d[at..at + 8] == ToLe(v, 8)
    ensures FieldI64(d, at) == v
  {
    Pow256Widths();
    var m := if v < 0 then 1 else 0;
    ToLeOfResidue(v, 8, m);
    FromLeOfToLe(v + m * Pow256(8), 8);
  }

  lemma UnsignedField(d: seq<Byte>, at: nat, v: U64)
    requires at + 8 <= |d| && d[at..at + 8] == Le64(v)
    ensures FieldU64(d, at) == v
  {
    Pow256Widths();
    FromLeOfToLe(v, 8);
  }

  function BuildAttestationMessage(att: LastSwapAttestation): Message112 {
    Raw(att.ammProgramId) + Raw(att.poolAddress) + ToLe(att.lastSwapUnixTs, 8) +
    Le64(att.issuedSlot) + Raw(att.slotHash)
  }

  function ParseAttestationMessage(msg: seq<Byte>): Option<LastSwapAttestation> {
    if |msg| != ATTESTATION_MSG_LEN then None
    else Some(LastSwapAttestation(Parse32(msg[0..32]), Parse32(msg[32..64]), FieldI64(msg, 64),
                                  FieldU64(msg, 72), Parse32(msg[80..112])))
  }

  lemma AttestationParts(amm: seq<Byte>, pool: seq<Byte>, ts: seq<Byte>, slot: seq<Byte>, hash: seq<Byte>)
    requires |amm| == |pool| == |hash| == 32 && |ts| == |slot| == 8
    ensures var m := amm + pool + ts + slot + hash;
            && m[0..32] == amm && m[32..64] == pool && m[64..72] == ts && m[72..80] == slot && m[80..112] == hash
  {
  }

  /** The documented layout of the message. */
  lemma AttestationLayout(att: LastSwapAttestation)
    ensures var m := BuildAttestationMessage(att);
            && m[0..32] == Raw(att.ammProgramId) && m[32..64] == Raw(att.poolAddress)
            && m[64..72] == ToLe(att.lastSwapUnixTs, 8) && m[72..80] == Le64(att.issuedSlot)
            && m[80..112] == Raw(att.slotHash)
  {
    AttestationParts(Raw(att.ammProgramId), Raw(att.poolAddress), ToLe(att.lastSwapUnixTs, 8),
                     Le64(att.issuedSlot), Raw(att.slotHash));
  }

  lemma FieldBytes(d: seq<Byte>, at: nat)
    requires at + 8 <= |d|
    ensures ToLe(FieldI64(d, at), 8) == d[at..at + 8] == Le64(FieldU64(d, at))
  {
    Pow256Widths();
    ToLeOfFromLe(d[at..at + 8]);
    ToLeOfResidue(FieldI64(d, at), 8, if FieldI64(d, at) < 0 then 1 else 0);
  }

  lemma MessageIsWhole(m: Message112)
    ensures m == m[0..32] + m[32..64] + m[64..72] + m[72..80] + m[80..112]
  {
  }

  /** Every 112 bytes are the message of what they parse to. */
  lemma EveryMessageIsBuilt(msg: Message112)
    ensures ParseAttestationMessage(msg).Some?
    ensures BuildAttestationMessage(ParseAttestationMessage(msg).value) == msg
  {
    assert Raw(Parse32(msg[0..32])) == msg[0..32] by { Bytes32RoundTrip(0, msg[0..32]); }
    assert Raw(Parse32(msg[32..64])) == msg[32..64] by { Bytes32RoundTrip(0, msg[32..64]); }
    assert Raw(Parse32(msg[80..112])) == msg[80..112] by { Bytes32RoundTrip(0, msg[80..112]); }
    assert ToLe(FieldI64(msg, 64), 8) == msg[64..72] by { FieldBytes(msg, 64); }
    assert Le64(FieldU64(msg, 72)) == msg[72..80] by { FieldBytes(msg, 72); }
    MessageIsWhole(msg);
  }

  lemma AttestationRoundTrip(att: LastSwapAttestation)
    ensures ParseAttestationMessage(BuildAttestationMessage(att)) == Some(att)
  {
    var m := BuildAttestationMessage(att);
    AttestationLayout(att);
    Parse32Iff(m[0..32], att.ammProgramId);
    Parse32Iff(m[32..64], att.poolAddress);
    Parse32Iff(m[80..112], att.slotHash);
    SignedField(m, 64, att.lastSwapUnixTs);
    UnsignedField(m, 72, att.issuedSlot);
  }

  /** The chain accepts what the SDK serialized exactly when the attestation is about this pool,
      its times are sane, and the first SlotHashes entry of its slot carries its hash. */
  lemma ChainAcceptsBuiltAttestation(att: LastSwapAttestation, amm: Bytes32, pool: Bytes32, now: I64,
                                     nowSlot: U64, entries: seq<SlotEntry>)
    requires |entries| <= U64_MAX
    ensures VerifyAttestationMessage(BuildAttestationMessage(att), amm, pool, now, nowSlot,
                                     EncodeSlotHashes(entries)) == Ok(att.lastSwapUnixTs) <==>
            && att.ammProgramId == amm && att.poolAddress == pool
            && 0 < att.lastSwapUnixTs <= now && 0 < att.issuedSlot <= nowSlot
            && exists j :: 0 <= j < |entries| && FirstMatch(entries, att.issuedSlot, 0, j) &&
                           entries[j].hash == att.slotHash
  {
    AttestationRoundTrip(att);
    LookupFindsFirst(entries, att.issuedSlot);
  }

  /** The instruction before this one is the precompile's, over the given span of this transaction's
      instruction and with the oracle's key, on every byte the runtime and the checker read. */
  ghost predicate SpokenBy(before: Option<Instruction>, scannerIndex: U16, scannerData: seq<Byte>, oracle: Bytes32,
                           msgOffset: nat, msgLen: nat)
  {
    && before.Some? && before.value.programId == ED25519_PROGRAM_ID && |scannerData| >= msgOffset + msgLen
    && AgreesWithBuilder(before.value.data, oracle, msgOffset, msgLen, scannerIndex)
  }

  /** The attestation is about this pool, its times are sane, and the first SlotHashes entry of its slot
      carries its hash. */
  ghost predicate Testifies(att: LastSwapAttestation, amm: Bytes32, pool: Bytes32, now: I64, nowSlot: U64,
                            slotHashes: seq<Byte>)
  {
    && att.ammProgramId == amm && att.poolAddress == pool
    && 0 < att.lastSwapUnixTs <= now && 0 < att.issuedSlot <= nowSlot
    && exists i: nat :: FirstEntry(slotHashes, att.issuedSlot, i) &&
                        Parse32(slotHashes[8 + 40 * i + 8..8 + 40 * i + 40]) == att.slotHash
  }

  /** The last-swap evidence checks out exactly when the configured oracle's precompile speaks for the
      112 bytes at 72 and the message, whatever its bytes, testifies; it yields the message's time. */
  lemma LastSwapIff(before: Option<Instruction>, scannerIndex: U16, scannerData: seq<Byte>, msg: Message112,
                    amm: Bytes32, pool: Bytes32, oracle: Bytes32, now: I64, nowSlot: U64, slotHashes: seq<Byte>)
    ensures ParseAttestationMessage(msg).Some?
    ensures var r := VerifyLastSwapAttestation(before, scannerIndex, scannerData, msg, amm, pool, oracle, now,
                                               nowSlot, slotHashes);
            var att := ParseAttestationMessage(msg).value;
            && (r.Ok? <==> SpokenBy(before, scannerIndex, scannerData, oracle, 72, 112) &&
                           Testifies(att, amm, pool, now, nowSlot, slotHashes))
            && (r.Ok? ==> r.value == att.lastSwapUnixTs)
  {
    LookupIff(slotHashes, ParseAttestationMessage(msg).value.issuedSlot);
    if before.Some? {
      CheckerAcceptsIffBuilderAgrees(before.value, scannerIndex, scannerData, oracle, IX_DATA_MSG_OFFSET,
                                     ATTESTATION_MSG_LEN, IX_DATA_MIN_LEN);
    }
  }

  /** A message about this pool with sane times is stale exactly when SlotHashes has no entry for its slot,
      and of another fork exactly when the first entry has another hash. */
  lemma StaleIff(msg: Message112, amm: Bytes32, pool: Bytes32, now: I64, nowSlot: U64, slotHashes: seq<Byte>)
    ensures ParseAttestationMessage(msg).Some?
    ensures var r := VerifyAttestationMessage(msg, amm, pool, now, nowSlot, slotHashes);
            var att := ParseAttestationMessage(msg).value;
            var sane := att.ammProgramId == amm && att.poolAddress == pool &&
                        0 < att.lastSwapUnixTs <= now && 0 < att.issuedSlot <= nowSlot;
            && (r == Err(AttestationStale) <==>
                  sane && forall i: nat :: !FirstEntry(slotHashes, att.issuedSlot, i))
            && (r == Err(AttestationSlotHashMismatch) <==>
                  sane && exists i: nat :: FirstEntry(slotHashes, att.issuedSlot, i) &&
                                           Parse32(slotHashes[8 + 40 * i + 8..8 + 40 * i + 40]) != att.slotHash)
  {
    LookupIff(slotHashes, ParseAttestationMessage(msg).value.issuedSlot);
  }

  // ---------------------------------------------------------------- the launch-price message

  function VerifyLaunchPriceMessage(msg: Message168, ammProgramId: Bytes32, poolAddress: Bytes32,
                                    baseMint: Bytes32, quoteMint: Bytes32, launchPrice: U128,
                                    now: I64, nowSlot: U64): Result<(U128, U64, I64), ScanError>
  {
    var price, ts := FieldU128(msg, 144), FieldI64(msg, 136);
    var swapSlot, issued := FieldU64(msg, 128), FieldU64(msg, 160);
    if Parse32(msg[0..32]) != ammProgramId || Parse32(msg[32..64]) != poolAddress ||
       Parse32(msg[64..96]) != baseMint || Parse32(msg[96..128]) != quoteMint || price != launchPrice then
      Err(AttestationBindingMismatch)
    else if price == 0 then Err(InvalidLaunchPrice)
    else if !(0 < ts <= now) then Err(AttestationTimestampInvalid)
    else if !(0 < swapSlot <= nowSlot) then Err(AttestationSlotInvalid)
    else if !(0 < issued <= nowSlot) then Err(AttestationSlotInvalid)
    else Ok((price, swapSlot, ts))
  }

  function VerifyLaunchPriceAttestation(before: Option<Instruction>, scannerIndex: U16,
                                        scannerData: seq<Byte>, msg: Message168, ammProgramId: Bytes32,
                                        poolAddress: Bytes32, baseMint: Bytes32, quoteMint: Bytes32,
                                        launchPrice: U128, oracle: Bytes32, now: I64, nowSlot: U64)
      : Result<(U128, U64, I64), ScanError>
  {
    if before.None? then Err(AttestationMissing)
    else
      var offsets := VerifyEd25519OffsetsAt(before.value, scannerIndex, scannerData, oracle,
                       LAUNCH_PRICE_MSG_OFFSET, LAUNCH_PRICE_MSG_LEN, LAUNCH_PRICE_IX_MIN_LEN);
      if offsets.Err? then Err(offsets.error)
      else VerifyLaunchPriceMessage(msg, ammProgramId, poolAddress, baseMint, quoteMint, launchPrice, now, nowSlot)
  }

  datatype LaunchPriceAttestation = LaunchPriceAttestation(
    ammProgramId: Bytes32, poolAddress: Bytes32, baseMint: Bytes32, quoteMint: Bytes32,
    firstSwapSlot: U64, firstSwapUnixTs: I64, launchPrice: U128, issuedSlot: U64)

  function BuildLaunchPriceMessage(att: LaunchPriceAttestation): Message168 {
    Raw(att.ammProgramId) + Raw(att.poolAddress) + Raw(att.baseMint) + Raw(att.quoteMint) +
    Le64(att.firstSwapSlot) + ToLe(att.firstSwapUnixTs, 8) + ToLe(att.launchPrice, 16) +
    Le64(att.issuedSlot)
  }

  function ParseLaunchPriceMessage(msg: seq<Byte>): Option<LaunchPriceAttestation> {
    if |msg| != LAUNCH_PRICE_MSG_LEN then None
    else Some(LaunchPriceAttestation(Parse32(msg[0..32]), Parse32(msg[32..64]), Parse32(msg[64..96]),
                Parse32(msg[96..128]), FieldU64(msg, 128), FieldI64(msg, 136), FieldU128(msg, 144),
                FieldU64(msg, 160)))
  }

  lemma LaunchPriceParts(amm: seq<Byte>, pool: seq<Byte>, base: seq<Byte>, quote: seq<Byte>, slot: seq<Byte>,
                         ts: seq<Byte>, price: seq<Byte>, issued: seq<Byte>)
    requires |amm| == |pool| == |base| == |quote| == 32
    requires |slot| == |ts| == |issued| == 8 && |price| == 16
    ensures var m := amm + pool + base + quote + slot + ts + price + issued;
            && m[0..32] == amm && m[32..64] == pool && m[64..96] == base && m[96..128] == quote
            && m[128..136] == slot && m[136..144] == ts && m[144..160] == price && m[160..168] == issued
  {
  }

  lemma LaunchPriceLayout(att: LaunchPriceAttestation)
    ensures var m := BuildLaunchPriceMessage(att);
            && m[0..32] == Raw(att.ammProgramId) && m[32..64] == Raw(att.poolAddress)
            && m[64..96] == Raw(att.baseMint) && m[96..128] == Raw(att.quoteMint)
            && m[128..136] == Le64(att.firstSwapSlot) && m[136..144] == ToLe(att.firstSwapUnixTs, 8)
            && m[144..160] == ToLe(att.launchPrice, 16) && m[160..168] == Le64(att.issuedSlot)
  {
    LaunchPriceParts(Raw(att.ammProgramId), Raw(att.poolAddress), Raw(att.baseMint), Raw(att.quoteMint),
                     Le64(att.firstSwapSlot), ToLe(att.firstSwapUnixTs, 8), ToLe(att.launchPrice, 16),
                     Le64(att.issuedSlot));
  }

  lemma LaunchPriceRoundTrip(att: LaunchPriceAttestation)
    ensures ParseLaunchPriceMessage(BuildLaunchPriceMessage(att)) == Some(att)
  {
    var m := BuildLaunchPriceMessage(att);
    LaunchPriceLayout(att);
    Parse32Iff(m[0..32], att.ammProgramId);
    Parse32Iff(m[32..64], att.poolAddress);
    Parse32Iff(m[64..96], att.baseMint);
    Parse32Iff(m[96..128], att.quoteMint);
    UnsignedField(m, 128, att.firstSwapSlot);
    SignedField(m, 136, att.firstSwapUnixTs);
    Pow256Widths();
    FromLeOfToLe(att.launchPrice, 16);
    UnsignedField(m, 160, att.issuedSlot);
  }

  /** The chain records a serialized baseline exactly when it is about these params, positive, and
      sane in time. */
  lemma ChainAcceptsBuiltLaunchPrice(att: LaunchPriceAttestation, amm: Bytes32, pool: Bytes32,
                                     baseMint: Bytes32, quoteMint: Bytes32, price: U128, now: I64, nowSlot: U64)
    ensures VerifyLaunchPriceMessage(BuildLaunchPriceMessage(att), amm, pool, baseMint, quoteMint,
                                     price, now, nowSlot) ==
            Ok((att.launchPrice, att.firstSwapSlot, att.firstSwapUnixTs)) <==>
            && att.ammProgramId == amm && att.poolAddress == pool
            && att.baseMint == baseMint && att.quoteMint == quoteMint && att.launchPrice == price > 0
            && 0 < att.firstSwapUnixTs <= now
            && 0 < att.firstSwapSlot <= nowSlot && 0 < att.issuedSlot <= nowSlot
  {
    LaunchPriceRoundTrip(att);
  }

  /** The baseline evidence checks out exactly when the launch-price oracle's precompile speaks for the
      168 bytes at 152 and the message, whatever its bytes, states these mints and this positive price,
      with times and slots that are positive and not ahead. */
  lemma LaunchPriceIff(before: Option<Instruction>, scannerIndex: U16, scannerData: seq<Byte>, msg: Message168,
                       amm: Bytes32, pool: Bytes32, baseMint: Bytes32, quoteMint: Bytes32, price: U128,
                       oracle: Bytes32, now: I64, nowSlot: U64)
    ensures ParseLaunchPriceMessage(msg).Some?
    ensures var r := VerifyLaunchPriceAttestation(before, scannerIndex, scannerData, msg, amm, pool, baseMint,
                                                  quoteMint, price, oracle, now, nowSlot);
            var att := ParseLaunchPriceMessage(msg).value;
            && (r.Ok? <==> SpokenBy(before, scannerIndex, scannerData, oracle, 152, 168) &&
                           States(att, amm, pool, baseMint, quoteMint, price, now, nowSlot))
            && (r.Ok? ==> r.value == (att.launchPrice, att.firstSwapSlot, att.firstSwapUnixTs))
  {
    if before.Some? {
      CheckerAcceptsIffBuilderAgrees(before.value, scannerIndex, scannerData, oracle, LAUNCH_PRICE_MSG_OFFSET,
                                     LAUNCH_PRICE_MSG_LEN, LAUNCH_PRICE_IX_MIN_LEN);
    }
  }

  predicate States(att: LaunchPriceAttestation, amm: Bytes32, pool: Bytes32, baseMint: Bytes32, quoteMint: Bytes32,
                   price: U128, now: I64, nowSlot: U64)
  {
    && att.ammProgramId == amm && att.poolAddress == pool
    && att.baseMint == baseMint && att.quoteMint == quoteMint && att.launchPrice == price > 0
    && 0 < att.firstSwapUnixTs <= now
    && 0 < att.firstSwapSlot <= nowSlot && 0 < att.issuedSlot <= nowSlot
  }
}
