/** Machine integers, little-endian encodings and the byte-lexicographic order that Rust's
    `[u8; 32]` comparison and the SDK's `compareBytes` both use. */
module Bytes {

  const U16_MAX := 0xFFFF
  const U32_MAX := 0xFFFF_FFFF
  const U64_MAX := 0xFFFF_FFFF_FFFF_FFFF
  const U128_MAX := 0xFFFF_FFFF_FFFF_FFFF_FFFF_FFFF_FFFF_FFFF
  const I64_MAX := 0x7FFF_FFFF_FFFF_FFFF
  const I64_MIN := -0x8000_0000_0000_0000

  type Byte = b: int | 0 <= b < 256
  type U16 = n: int | 0 <= n <= U16_MAX
  type U32 = n: int | 0 <= n <= U32_MAX
  type U64 = n: int | 0 <= n <= U64_MAX
  type U128 = n: int | 0 <= n <= U128_MAX
  type I64 = n: int | I64_MIN <= n <= I64_MAX

  const TWO_256 := 0x1_0000_0000_0000_0000_0000_0000_0000_0000_0000_0000_0000_0000_0000_0000_0000_0000

  /** A public key or a digest: 32 bytes, held as the number they spell most significant byte
      first. `Bytes32OrderIsLexicographic` shows that numeric order is then exactly the
      byte-lexicographic order of the arrays, and `Bytes32RoundTrip` that nothing is lost. */
  type Bytes32 = n: int | 0 <= n < TWO_256

  // ---------------------------------------------------------------- little-endian integers

  function Pow256(n: nat): (r: nat)
    ensures r > 0
  {
    if n == 0 then 1 else 256 * Pow256(n - 1)
  }

  lemma Pow256Widths()
    ensures Pow256(1) == 0x100 && Pow256(2) == U16_MAX + 1 && Pow256(4) == U32_MAX + 1
    ensures Pow256(8) == U64_MAX + 1 && Pow256(16) == U128_MAX + 1
  {
    assert Pow256(4) == 256 * (256 * Pow256(2));
    assert Pow256(6) == 256 * (256 * Pow256(4));
    assert Pow256(8) == 256 * (256 * Pow256(6));
    assert Pow256(10) == 256 * (256 * Pow256(8));
    assert Pow256(12) == 256 * (256 * Pow256(10));
    assert Pow256(14) == 256 * (256 * Pow256(12));
    assert Pow256(16) == 256 * (256 * Pow256(14));
  }

  /** The low `n` bytes of `v`, least significant first (`to_le_bytes`); for a negative `v`, those of
      its two's complement. */
  function ToLe(v: int, n: nat): (s: seq<Byte>)
    ensures |s| == n
    decreases n, v
  {
    if n == 0 then [] else [v % 256] + ToLe(v / 256, n - 1)
  }

  /** `from_le_bytes`. */
  function FromLe(s: seq<Byte>): nat {
    if s == [] then 0 else s[0] + 256 * FromLe(s[1..])
  }

  lemma {:induction false} FromLeOfToLe(v: nat, n: nat)
    requires v < Pow256(n)
    ensures FromLe(ToLe(v, n)) == v
  {
    if n > 0 {
      FromLeOfToLe(v / 256, n - 1);
      assert ToLe(v, n)[1..] == ToLe(v / 256, n - 1);
    }
  }

  /** Only the residue modulo `256^n` counts. */
  lemma {:induction false} ToLeOfResidue(v: int, n: nat, m: int)
    ensures ToLe(v, n) == ToLe(v + m * Pow256(n), n)
    decreases n
  {
    if n > 0 {
      assert v + m * Pow256(n) == v + 256 * (m * Pow256(n - 1));
      ShiftByMultiple(v, m * Pow256(n - 1));
      ToLeOfResidue(v / 256, n - 1, m);
    }
  }

  lemma ShiftByMultiple(v: int, k: int)
    ensures (v + 256 * k) % 256 == v % 256
    ensures (v + 256 * k) / 256 == v / 256 + k
  {
  }

  lemma {:induction false} ToLeOfFromLe(s: seq<Byte>)
    ensures FromLe(s) < Pow256(|s|)
    ensures ToLe(FromLe(s), |s|) == s
  {
    if s != [] {
      ToLeOfFromLe(s[1..]);
      assert FromLe(s) / 256 == FromLe(s[1..]) && FromLe(s) % 256 == s[0];
    }
  }

  /** The last byte weighs most. */
  lemma {:induction false} LastByteWeighs(s: seq<Byte>, top: Byte)
    ensures FromLe(s + [top]) == FromLe(s) + top * Pow256(|s|)
  {
    if s != [] {
      LastByteWeighs(s[1..], top);
      assert (s + [top])[1..] == s[1..] + [top];
      assert 256 * (top * Pow256(|s| - 1)) == top * Pow256(|s|);
    }
  }

  lemma ToLeInjective(v: nat, w: nat, n: nat)
    requires v < Pow256(n) && w < Pow256(n)
    requires ToLe(v, n) == ToLe(w, n)
    ensures v == w
  {
    FromLeOfToLe(v, n);
    FromLeOfToLe(w, n);
  }

  function Le64(v: U64): (s: seq<Byte>)
    ensures |s| == 8
  {
    ToLe(v, 8)
  }

  // ---------------------------------------------------------------- 32-byte values

  /** The low `n` bytes of `v`, most significant first. */
  function ToBe(v: nat, n: nat): (s: seq<Byte>)
    ensures |s| == n
  {
    if n == 0 then [] else ToBe(v / 256, n - 1) + [v % 256]
  }

  function FromBe(s: seq<Byte>): nat {
    if s == [] then 0 else 256 * FromBe(s[..|s| - 1]) + s[|s| - 1]
  }

  lemma {:induction false} FromBeOfToBe(v: nat, n: nat)
    requires v < Pow256(n)
    ensures FromBe(ToBe(v, n)) == v
  {
    if n > 0 {
      FromBeOfToBe(v / 256, n - 1);
      assert ToBe(v, n)[..n - 1] == ToBe(v / 256, n - 1);
    }
  }

  lemma {:induction false} ToBeOfFromBe(s: seq<Byte>)
    ensures FromBe(s) < Pow256(|s|)
    ensures ToBe(FromBe(s), |s|) == s
  {
    if s != [] {
      ToBeOfFromBe(s[..|s| - 1]);
      assert FromBe(s) / 256 == FromBe(s[..|s| - 1]) && FromBe(s) % 256 == s[|s| - 1];
    }
  }

  lemma Pow256Of32()
    ensures Pow256(32) == TWO_256
  {
    Pow256Widths();
    assert Pow256(18) == 256 * (256 * Pow256(16));
    assert Pow256(20) == 256 * (256 * Pow256(18));
    assert Pow256(22) == 256 * (256 * Pow256(20));
    assert Pow256(24) == 256 * (256 * Pow256(22));
    assert Pow256(26) == 256 * (256 * Pow256(24));
    assert Pow256(28) == 256 * (256 * Pow256(26));
    assert Pow256(30) == 256 * (256 * Pow256(28));
    assert Pow256(32) == 256 * (256 * Pow256(30));
  }

  /** The 32 bytes of a key or digest. */
  function Raw(b: Bytes32): (s: seq<Byte>)
    ensures |s| == 32
  {
    ToBe(b, 32)
  }

  /** The key or digest spelled by 32 bytes. */
  function Parse32(s: seq<Byte>): Bytes32
    requires |s| == 32
  {
    ToBeOfFromBe(s);
    Pow256Of32();
    FromBe(s)
  }

  lemma Bytes32RoundTrip(b: Bytes32, s: seq<Byte>)
    requires |s| == 32
    ensures Parse32(Raw(b)) == b
    ensures Raw(Parse32(s)) == s
  {
    Pow256Of32();
    FromBeOfToBe(b, 32);
    ToBeOfFromBe(s);
  }

  lemma RawInjective(a: Bytes32, b: Bytes32)
    requires Raw(a) == Raw(b)
    ensures a == b
  {
    Bytes32RoundTrip(a, Raw(a));
    Bytes32RoundTrip(b, Raw(b));
  }

  // ---------------------------------------------------------------- lexicographic order

  predicate LexLe(a: seq<Byte>, b: seq<Byte>) {
    a == [] || (b != [] && (a[0] < b[0] || (a[0] == b[0] && LexLe(a[1..], b[1..]))))
  }

  /** Between arrays of one length, the last byte decides only when everything before is equal. */
  lemma {:induction false} LexLeAtLast(a: seq<Byte>, b: seq<Byte>, x: Byte, y: Byte)
    requires |a| == |b|
    ensures LexLe(a + [x], b + [y]) <==> (LexLe(a, b) && a != b) || (a == b && x <= y)
  {
    var ax, bx := a + [x], b + [y];
    if a == [] {
      assert ax[1..] == [] && bx[1..] == [];
    } else {
      LexLeAtLast(a[1..], b[1..], x, y);
      assert ax[1..] == a[1..] + [x] && bx[1..] == b[1..] + [y];
      assert a == [a[0]] + a[1..] && b == [b[0]] + b[1..];
    }
  }

  lemma {:induction false} BigEndianOrder(v: nat, w: nat, n: nat)
    requires v < Pow256(n) && w < Pow256(n)
    ensures LexLe(ToBe(v, n), ToBe(w, n)) <==> v <= w
    decreases n
  {
    if n > 0 {
      BigEndianOrder(v / 256, w / 256, n - 1);
      FromBeOfToBe(v / 256, n - 1);
      FromBeOfToBe(w / 256, n - 1);
      LexLeAtLast(ToBe(v / 256, n - 1), ToBe(w / 256, n - 1), v % 256, w % 256);
    }
  }

  lemma Bytes32OrderIsLexicographic(a: Bytes32, b: Bytes32)
    ensures LexLe(Raw(a), Raw(b)) <==> a <= b
  {
    Pow256Of32();
    BigEndianOrder(a, b, 32);
  }
}
