/** The SDK's Borsh writer and reader. The writer fills a buffer of fixed size and `done()` insists
    that it is full; the reader walks a buffer. What is written, in range and to the last byte, is
    what is read back, unless a vector is longer than the reader believes. */
module Borsh {
  import opened Wrappers
  import opened Bytes

  const I128_MAX := 0x7FFF_FFFF_FFFF_FFFF_FFFF_FFFF_FFFF_FFFF
  const I128_MIN := -0x8000_0000_0000_0000_0000_0000_0000_0000
  const VEC_LIMIT := 0x100_0000

  datatype Scalar = AsU8 | AsU16 | AsU32 | AsU64 | AsI64 | AsU128 | AsI128

  /** A typed write, and what a typed read returns. */
  datatype Value =
    | Number(kind: Scalar, number: int)
    | Bool(flag: bool)
    | Blob(bytes: seq<Byte>)
    | Absent
    | Present(inner: Value)
    | Vec(items: seq<Value>)

  /** The sequence of reader calls that fetches one value; an option is a tag and, if set, a value. */
  datatype Schema =
    | NumberOf(kind: Scalar)
    | BoolOf
    | BlobOf(length: nat)
    | OptionOf(inner: Schema)
    | VecOf(item: Schema)

  datatype WriteError = OutOfRange | Overflow | WrongLength
  datatype ReadError = Underflow | Implausible

  function Width(k: Scalar): nat {
    match k
    case AsU8 => 1
    case AsU16 => 2
    case AsU32 => 4
    case AsU64 => 8
    case AsI64 => 8
    case AsU128 => 16
    case AsI128 => 16
  }

  predicate InRange(k: Scalar, v: int) {
    match k
    case AsU8 => 0 <= v <= 0xFF
    case AsU16 => 0 <= v <= U16_MAX
    case AsU32 => 0 <= v <= U32_MAX
    case AsU64 => 0 <= v <= U64_MAX
    case AsI64 => I64_MIN <= v <= I64_MAX
    case AsU128 => 0 <= v <= U128_MAX
    case AsI128 => I128_MIN <= v <= I128_MAX
  }

  // ---------------------------------------------------------------- two's complement

  /** What the reader makes of the number its bytes spell: less `2^n` when the type is signed and
      the top bit, shifted down, is set. */
  function Interpreted(u: nat, k: Scalar): int {
    match k
    case AsI64 => if u / (I64_MAX + 1) == 0 then u else u - (U64_MAX + 1)
    case AsI128 => if u / (I128_MAX + 1) == 0 then u else u - (U128_MAX + 1)
    case _ => u
  }

  lemma RangeIsWidth(k: Scalar, v: int)
    requires InRange(k, v)
    ensures var u := if v < 0 then v + Pow256(Width(k)) else v;
            0 <= u < Pow256(Width(k)) && Interpreted(u, k) == v
  {
    Pow256Widths();
  }

  lemma NumberRoundTrip(k: Scalar, v: int)
    requires InRange(k, v)
    ensures Interpreted(FromLe(ToLe(v, Width(k))), k) == v
  {
    RangeIsWidth(k, v);
    var n := Width(k);
    var m := if v < 0 then 1 else 0;
    ToLeOfResidue(v, n, m);
    FromLeOfToLe(v + m * Pow256(n), n);
  }

  // ---------------------------------------------------------------- the wire format

  function Encode(v: Value): seq<Byte> {
    match v
    case Number(k, n) => ToLe(n, Width(k))
    case Bool(b) => ToLe(if b then 1 else 0, 1)
    case Blob(bytes) => bytes
    case Absent => ToLe(0, 1)
    case Present(inner) => ToLe(1, 1) + Encode(inner)
    case Vec(items) => ToLe(|items|, 4) + EncodeAll(items)
  }

  function EncodeAll(vs: seq<Value>): seq<Byte> {
    if vs == [] then [] else EncodeAll(vs[..|vs| - 1]) + Encode(vs[|vs| - 1])
  }

  /** Every number in it is in range for its type, every vector's length for `u32`. */
  predicate Ranged(v: Value) {
    match v
    case Number(k, n) => InRange(k, n)
    case Bool(_) => true
    case Blob(_) => true
    case Absent => true
    case Present(inner) => Ranged(inner)
    case Vec(items) => |items| <= U32_MAX && AllRanged(items)
  }

  predicate AllRanged(vs: seq<Value>) {
    vs == [] || (AllRanged(vs[..|vs| - 1]) && Ranged(vs[|vs| - 1]))
  }

  // ---------------------------------------------------------------- what a write does

  /** The bytes a write leaves behind, and the error it throws, if any. */
  datatype Outcome = Outcome(written: seq<Byte>, error: Option<WriteError>)

  /** `assertRemaining`, then the bytes. */
  function Take(bytes: seq<Byte>, room: nat): Outcome {
    if |bytes| > room then Outcome([], Some(Overflow)) else Outcome(bytes, None)
  }

  /** A write into `room` bytes: range before overflow, and in the order in which the parts are
      written, each part whole or not at all. */
  function Attempt(v: Value, room: nat): (o: Outcome)
    ensures |o.written| <= room && o.error != Some(WrongLength)
  {
    match v
    case Number(k, n) => if InRange(k, n) then Take(ToLe(n, Width(k)), room) else Outcome([], Some(OutOfRange))
    case Bool(b) => Take(ToLe(if b then 1 else 0, 1), room)
    case Blob(bytes) => Take(bytes, room)
    case Absent => Take(ToLe(0, 1), room)
    case Present(inner) =>
      if room < 1 then Outcome([], Some(Overflow))
      else
        var rest := Attempt(inner, room - 1);
        Outcome(ToLe(1, 1) + rest.written, rest.error)
    case Vec(items) =>
      if |items| > U32_MAX then Outcome([], Some(OutOfRange))
      else if room < 4 then Outcome([], Some(Overflow))
      else
        var rest := AttemptAll(items, room - 4);
        Outcome(ToLe(|items|, 4) + rest.written, rest.error)
  }

  function AttemptAll(vs: seq<Value>, room: nat): (o: Outcome)
    ensures |o.written| <= room && o.error != Some(WrongLength)
  {
    if vs == [] then Outcome([], None)
    else
      var init := AttemptAll(vs[..|vs| - 1], room);
      if init.error.Some? then init
      else
        var last := Attempt(vs[|vs| - 1], room - |init.written|);
        Outcome(init.written + last.written, last.error)
  }

  /** A write succeeds exactly when everything in it is in range and its encoding fits, and then it
      leaves that encoding; otherwise it leaves a prefix of it. */
  lemma {:induction false} AttemptIff(v: Value, room: nat)
    ensures Attempt(v, room).error.None? <==> Ranged(v) && |Encode(v)| <= room
    ensures Attempt(v, room).error.None? ==> Attempt(v, room).written == Encode(v)
    ensures Attempt(v, room).written <= Encode(v)
  {
    match v
    case Number(_, _) =>
    case Bool(_) =>
    case Blob(_) =>
    case Absent =>
    case Present(inner) =>
      if room >= 1 {
        AttemptIff(inner, room - 1);
      }
    case Vec(items) =>
      if room >= 4 {
        AttemptAllIff(items, room - 4);
      }
  }

  lemma {:induction false} AttemptAllIff(vs: seq<Value>, room: nat)
    ensures AttemptAll(vs, room).error.None? <==> AllRanged(vs) && |EncodeAll(vs)| <= room
    ensures AttemptAll(vs, room).error.None? ==> AttemptAll(vs, room).written == EncodeAll(vs)
    ensures AttemptAll(vs, room).written <= EncodeAll(vs)
  {
    if vs != [] {
      AttemptAllIff(vs[..|vs| - 1], room);
      var init := AttemptAll(vs[..|vs| - 1], room);
      if init.error.None? {
        AttemptIff(vs[|vs| - 1], room - |init.written|);
      }
    }
  }

  /** Why a write fails: for want of room only when its encoding is too long, for a number out of range
      only when there is one. */
  lemma {:induction false} AttemptErrors(v: Value, room: nat)
    ensures Attempt(v, room).error == Some(Overflow) ==> |Encode(v)| > room
    ensures Attempt(v, room).error == Some(OutOfRange) ==> !Ranged(v)
  {
    match v
    case Number(_, _) =>
    case Bool(_) =>
    case Blob(_) =>
    case Absent =>
    case Present(inner) =>
      if room >= 1 {
        AttemptErrors(inner, room - 1);
      }
    case Vec(items) =>
      if room >= 4 {
        AttemptAllErrors(items, room - 4);
      }
  }

  lemma {:induction false} AttemptAllErrors(vs: seq<Value>, room: nat)
    ensures AttemptAll(vs, room).error == Some(Overflow) ==> |EncodeAll(vs)| > room
    ensures AttemptAll(vs, room).error == Some(OutOfRange) ==> !AllRanged(vs)
  {
    if vs != [] {
      AttemptAllErrors(vs[..|vs| - 1], room);
      AttemptAllIff(vs[..|vs| - 1], room);
      var init := AttemptAll(vs[..|vs| - 1], room);
      if init.error.None? {
        AttemptErrors(vs[|vs| - 1], room - |init.written|);
      }
    }
  }

  lemma {:induction false} PrefixAttempts(vs: seq<Value>, i: nat, room: nat)
    requires i <= |vs| && AttemptAll(vs[..i], room).error.Some?
    ensures AttemptAll(vs, room) == AttemptAll(vs[..i], room)
  {
    if i < |vs| {
      assert vs[..|vs| - 1][..i] == vs[..i];
      PrefixAttempts(vs[..|vs| - 1], i, room);
    } else {
      assert vs[..i] == vs;
    }
  }

  lemma AttemptNext(vs: seq<Value>, i: nat, room: nat)
    requires i < |vs| && AttemptAll(vs[..i], room).error.None?
    ensures var init := AttemptAll(vs[..i], room);
            var last := Attempt(vs[i], room - |init.written|);
            AttemptAll(vs[..i + 1], room) == Outcome(init.written + last.written, last.error)
  {
    assert vs[..i + 1][..i] == vs[..i];
  }

  /** `bytes` were moved from the unwritten part of a buffer to the written one, overwriting what was
      there. */
  ghost predicate Extends(was: seq<Byte>, rest: seq<Byte>, bytes: seq<Byte>, now: seq<Byte>, nowRest: seq<Byte>) {
    now == was + bytes && |bytes| <= |rest| && nowRest == rest[|bytes|..]
  }

  lemma ExtendsTwice(a: seq<Byte>, aRest: seq<Byte>, first: seq<Byte>, b: seq<Byte>, bRest: seq<Byte>,
                     second: seq<Byte>, c: seq<Byte>, cRest: seq<Byte>)
    requires Extends(a, aRest, first, b, bRest) && Extends(b, bRest, second, c, cRest)
    ensures Extends(a, aRest, first + second, c, cRest) && |bRest| == |aRest| - |first|
  {
  }

  lemma AttemptPresent(inner: Value, room: nat)
    requires room >= 1
    ensures var rest := Attempt(inner, room - 1);
            Attempt(Present(inner), room) == Outcome(ToLe(1, 1) + rest.written, rest.error)
  {
  }

  class BorshWriter {
    const buf: array<Byte>
    var at: nat

    ghost predicate Valid()
      reads this
    {
      at <= buf.Length
    }

    function Room(): nat
      requires Valid()
      reads this
    {
      buf.Length - at
    }

    /** What has been written so far. */
    ghost function Written(): seq<Byte>
      requires Valid()
      reads this, buf
    {
      buf[..at]
    }

    /** What lies beyond. */
    ghost function Rest(): seq<Byte>
      requires Valid()
      reads this, buf
    {
      buf[at..]
    }

    /** The whole new state: `o.written` follows what was there, the rest of the buffer is as it was,
        and `r` is the error. */
    ghost predicate Did(o: Outcome, was: seq<Byte>, rest: seq<Byte>, r: Result<(), WriteError>)
      requires Valid()
      reads this, buf
    {
      && Extends(was, rest, o.written, Written(), Rest())
      && o.error == if r.Ok? then None else Some(r.error)
    }

    constructor (size: nat)
      ensures Valid() && fresh(buf) && buf.Length == size && at == 0
    {
      buf := new Byte[size];
      at := 0;
    }

    /** The raw bytes of a number: masked off and shifted out one at a time. */
    method Put(v: int, n: nat)
      requires Valid() && n <= Room()
      modifies this`at, buf
      ensures Valid() && at == old(at) + n
      ensures Written() == old(Written()) + ToLe(v, n) && Rest() == old(Rest())[n..]
    {
      var cur, i := v, 0;
      while i < n
        invariant 0 <= i <= n && at == old(at)
        invariant buf[..at] == old(buf[..at])
        invariant buf[at..at + i] + ToLe(cur, n - i) == ToLe(v, n)
        invariant buf[at + n..] == old(buf[at + n..])
      {
        buf[at + i] := cur % 256;
        cur := cur / 256;
        i := i + 1;
        assert buf[at..at + i] == buf[at..at + i - 1] + [buf[at + i - 1]];
      }
      at := at + n;
      assert buf[..at] == buf[..at - n] + buf[at - n..at];
    }

    method PutBlob(b: seq<Byte>)
      requires Valid() && |b| <= Room()
      modifies this`at, buf
      ensures Valid() && at == old(at) + |b|
      ensures Written() == old(Written()) + b && Rest() == old(Rest())[|b|..]
    {
      forall i | 0 <= i < |b| {
        buf[at + i] := b[i];
      }
      at := at + |b|;
    }

    /** The seven integer writers. */
    method WriteNumber(k: Scalar, v: int) returns (r: Result<(), WriteError>)
      requires Valid()
      modifies this`at, buf
      ensures Valid() && Did(Attempt(Number(k, v), old(Room())), old(Written()), old(Rest()), r)
    {
      if !InRange(k, v) {
        return Err(OutOfRange);
      }
      if Width(k) > Room() {
        return Err(Overflow);
      }
      Put(v, Width(k));
      return Ok(());
    }

    method WriteBlob(b: seq<Byte>) returns (r: Result<(), WriteError>)
      requires Valid()
      modifies this`at, buf
      ensures Valid() && Did(Take(b, old(Room())), old(Written()), old(Rest()), r)
    {
      if |b| > Room() {
        return Err(Overflow);
      }
      PutBlob(b);
      return Ok(());
    }

    /** `bytes`, `bool`, `option`, `vec` and, through them, anything nested. */
    method Write(v: Value) returns (r: Result<(), WriteError>)
      requires Valid()
      modifies this`at, buf
      ensures Valid() && Did(Attempt(v, old(Room())), old(Written()), old(Rest()), r)
      decreases v, 0
    {
      match v {
        case Number(k, n) =>
          r := WriteNumber(k, n);
        case Bool(b) =>
          r := WriteNumber(AsU8, if b then 1 else 0);
        case Blob(bytes) =>
          r := WriteBlob(bytes);
        case Absent =>
          r := WriteNumber(AsU8, 0);
        case Present(inner) =>
          r := WritePresent(inner);
        case Vec(items) =>
          r := WriteVec(items);
      }
    }

    method WritePresent(inner: Value) returns (r: Result<(), WriteError>)
      requires Valid()
      modifies this`at, buf
      ensures Valid() && Did(Attempt(Present(inner), old(Room())), old(Written()), old(Rest()), r)
      decreases inner, 2
    {
      r := WriteNumber(AsU8, 1);
      assert old(Room()) == |old(Rest())|;
      if r.Err? {
        return;
      }
      r := WriteInner(inner, old(Written()), old(Rest()));
    }

    /** What follows the tag, `was` and `rest` being the state before it. */
    method WriteInner(inner: Value, ghost was: seq<Byte>, ghost rest: seq<Byte>)
        returns (r: Result<(), WriteError>)
      requires Valid() && Extends(was, rest, ToLe(1, 1), Written(), Rest())
      modifies this`at, buf
      ensures Valid() && Did(Attempt(Present(inner), |rest|), was, rest, r)
      decreases inner, 1
    {
      ghost var written, beyond := Written(), Rest();
      r := Write(inner);
      AttemptPresent(inner, |rest|);
      ExtendsTwice(was, rest, ToLe(1, 1), written, beyond, Attempt(inner, |beyond|).written, Written(), Rest());
    }

    method WriteVec(items: seq<Value>) returns (r: Result<(), WriteError>)
      requires Valid()
      modifies this`at, buf
      ensures Valid() && Did(Attempt(Vec(items), old(Room())), old(Written()), old(Rest()), r)
      decreases items, 3
    {
      r := WriteNumber(AsU32, |items|);
      if r.Ok? {
        ghost var written, rest := Written(), Rest();
        r := WriteAll(items);
        ExtendsTwice(old(Written()), old(Rest()), ToLe(|items|, 4), written, rest, AttemptAll(items, |rest|).written,
                     Written(), Rest());
      }
    }

    /** One write after another, stopping at the first that throws. */
    method WriteAll(vs: seq<Value>) returns (r: Result<(), WriteError>)
      requires Valid()
      modifies this`at, buf
      ensures Valid() && Did(AttemptAll(vs, old(Room())), old(Written()), old(Rest()), r)
      decreases vs, 2
    {
      r := Ok(());
      for i := 0 to |vs|
        invariant Valid() && r.Ok?
        invariant Did(AttemptAll(vs[..i], old(Room())), old(Written()), old(Rest()), r)
      {
        r := WriteNext(vs, i, old(Written()), old(Rest()));
        if r.Err? {
          PrefixAttempts(vs, i + 1, old(Room()));
          return;
        }
      }
      assert vs[..|vs|] == vs;
    }

    /** The body of the loop, `was` and `rest` being the state before the first write. */
    method WriteNext(vs: seq<Value>, i: nat, ghost was: seq<Byte>, ghost rest: seq<Byte>)
        returns (r: Result<(), WriteError>)
      requires Valid() && i < |vs| && Did(AttemptAll(vs[..i], |rest|), was, rest, Ok(()))
      modifies this`at, buf
      ensures Valid() && Did(AttemptAll(vs[..i + 1], |rest|), was, rest, r)
      decreases vs, 1
    {
      ghost var written, beyond := Written(), Rest();
      AttemptNext(vs, i, |rest|);
      r := Write(vs[i]);
      ExtendsTwice(was, rest, AttemptAll(vs[..i], |rest|).written, written, beyond,
                   Attempt(vs[i], |beyond|).written, Written(), Rest());
    }

    /** `done()`: the whole buffer, or the error for a buffer not filled. */
    method Done() returns (r: Result<seq<Byte>, WriteError>)
      requires Valid()
      ensures r == if at == buf.Length then Ok(Written()) else Err(WrongLength)
    {
      if at != buf.Length {
        return Err(WrongLength);
      }
      assert buf[..] == Written();
      return Ok(buf[..]);
    }
  }

  /** How every instruction builder uses the writer: `writer(size)`, the writes, `done()`. It ends
      well exactly when every value is in range and the encodings add up to the declared size. */
  method Fill(size: nat, fields: seq<Value>) returns (r: Result<seq<Byte>, WriteError>)
    ensures r.Ok? <==> AllRanged(fields) && |EncodeAll(fields)| == size
    ensures r.Ok? ==> r.value == EncodeAll(fields)
    ensures r == Err(WrongLength) <==> AllRanged(fields) && |EncodeAll(fields)| < size
  {
    var w := new BorshWriter(size);
    var written := w.WriteAll(fields);
    AttemptAllIff(fields, size);
    if written.Err? {
      return Err(written.error);
    }
    r := w.Done();
  }

  // ---------------------------------------------------------------- reading

  /** What reading by a schema from offset `at` yields: the value and the offset after it. */
  function Decode(t: Schema, buf: seq<Byte>, at: nat): (r: Result<(Value, nat), ReadError>)
    requires at <= |buf|
    ensures r.Ok? ==> at <= r.value.1 <= |buf|
    decreases t, 0
  {
    match t
    case NumberOf(k) =>
      if at + Width(k) > |buf| then Err(Underflow)
      else Ok((Number(k, Interpreted(FromLe(buf[at..at + Width(k)]), k)), at + Width(k)))
    case BoolOf => if at + 1 > |buf| then Err(Underflow) else Ok((Bool(buf[at] != 0), at + 1))
    case BlobOf(n) => if at + n > |buf| then Err(Underflow) else Ok((Blob(buf[at..at + n]), at + n))
    case OptionOf(inner) =>
      if at + 1 > |buf| then Err(Underflow)
      else if buf[at] == 0 then Ok((Absent, at + 1))
      else (match Decode(inner, buf, at + 1) case Err(e) => Err(e) case Ok(p) => Ok((Present(p.0), p.1)))
    case VecOf(item) =>
      if at + 4 > |buf| then Err(Underflow)
      else
        var count := FromLe(buf[at..at + 4]);
        if count > VEC_LIMIT then Err(Implausible)
        else (match DecodeMany(item, count, buf, at + 4) case Err(e) => Err(e) case Ok(p) => Ok((Vec(p.0), p.1)))
  }

  function DecodeMany(t: Schema, count: nat, buf: seq<Byte>, at: nat): (r: Result<(seq<Value>, nat), ReadError>)
    requires at <= |buf|
    ensures r.Ok? ==> at <= r.value.1 <= |buf| && |r.value.0| == count
    decreases t, count + 1
  {
    if count == 0 then Ok(([], at))
    else
      match DecodeMany(t, count - 1, buf, at)
      case Err(e) => Err(e)
      case Ok(p) =>
        match Decode(t, buf, p.1)
        case Err(e) => Err(e)
        case Ok(q) => Ok((p.0 + [q.0], q.1))
  }

  function DecodeAll(ts: seq<Schema>, buf: seq<Byte>, at: nat): (r: Result<(seq<Value>, nat), ReadError>)
    requires at <= |buf|
    ensures r.Ok? ==> at <= r.value.1 <= |buf| && |r.value.0| == |ts|
  {
    if ts == [] then Ok(([], at))
    else
      match DecodeAll(ts[..|ts| - 1], buf, at)
      case Err(e) => Err(e)
      case Ok(p) =>
        match Decode(ts[|ts| - 1], buf, p.1)
        case Err(e) => Err(e)
        case Ok(q) => Ok((p.0 + [q.0], q.1))
  }

  lemma {:induction false} ManyStopsEarly(t: Schema, i: nat, count: nat, buf: seq<Byte>, at: nat)
    requires at <= |buf| && i <= count && DecodeMany(t, i, buf, at).Err?
    ensures DecodeMany(t, count, buf, at) == DecodeMany(t, i, buf, at)
  {
    if i < count {
      ManyStopsEarly(t, i, count - 1, buf, at);
    }
  }

  lemma {:induction false} AllStopsEarly(ts: seq<Schema>, i: nat, buf: seq<Byte>, at: nat)
    requires at <= |buf| && i <= |ts| && DecodeAll(ts[..i], buf, at).Err?
    ensures DecodeAll(ts, buf, at) == DecodeAll(ts[..i], buf, at)
  {
    if i < |ts| {
      assert ts[..|ts| - 1][..i] == ts[..i];
      AllStopsEarly(ts[..|ts| - 1], i, buf, at);
    } else {
      assert ts[..i] == ts;
    }
  }

  class BorshReader {
    const buf: seq<Byte>
    var at: nat

    ghost predicate Valid()
      reads this
    {
      at <= |buf|
    }

    constructor (data: seq<Byte>)
      ensures Valid() && buf == data && at == 0
    {
      buf := data;
      at := 0;
    }

    /** The number spelled by the next `n` bytes, folded from the top. */
    method Fold(n: nat) returns (v: nat)
      requires Valid() && at + n <= |buf|
      ensures v == FromLe(buf[at..at + n])
    {
      v := 0;
      var i := n;
      while i > 0
        invariant 0 <= i <= n
        invariant v == FromLe(buf[at + i..at + n])
      {
        i := i - 1;
        assert buf[at + i..at + n][1..] == buf[at + i + 1..at + n];
        v := v * 256 + buf[at + i];
      }
    }

    method ReadNumber(k: Scalar) returns (r: Result<int, ReadError>)
      requires Valid()
      modifies this`at
      ensures Valid()
      ensures Decode(NumberOf(k), buf, old(at)) == if r.Ok? then Ok((Number(k, r.value), at)) else Err(r.error)
    {
      if at + Width(k) > |buf| {
        return Err(Underflow);
      }
      var u := Fold(Width(k));
      at := at + Width(k);
      Pow256Widths();
      return Ok(Interpreted(u, k));
    }

    method Read(t: Schema) returns (r: Result<Value, ReadError>)
      requires Valid()
      modifies this`at
      ensures Valid()
      ensures Decode(t, buf, old(at)) == if r.Ok? then Ok((r.value, at)) else Err(r.error)
      decreases t, 0
    {
      match t {
        case NumberOf(k) =>
          var n := ReadNumber(k);
          r := if n.Ok? then Ok(Number(k, n.value)) else Err(n.error);
        case BoolOf =>
          if at + 1 > |buf| {
            return Err(Underflow);
          }
          at := at + 1;
          return Ok(Bool(buf[at - 1] != 0));
        case BlobOf(n) =>
          if at + n > |buf| {
            return Err(Underflow);
          }
          at := at + n;
          return Ok(Blob(buf[at - n..at]));
        case OptionOf(inner) =>
          if at + 1 > |buf| {
            return Err(Underflow);
          }
          at := at + 1;
          if buf[at - 1] == 0 {
            return Ok(Absent);
          }
          r := Read(inner);
          r := if r.Ok? then Ok(Present(r.value)) else r;
        case VecOf(item) =>
          r := ReadVec(item);
      }
    }

    method ReadVec(t: Schema) returns (r: Result<Value, ReadError>)
      requires Valid()
      modifies this`at
      ensures Valid()
      ensures Decode(VecOf(t), buf, old(at)) == if r.Ok? then Ok((r.value, at)) else Err(r.error)
      decreases t, 2
    {
      if at + 4 > |buf| {
        return Err(Underflow);
      }
      var count := Fold(4);
      at := at + 4;
      if count > VEC_LIMIT {
        return Err(Implausible);
      }
      var items := ReadItems(t, count);
      r := if items.Ok? then Ok(Vec(items.value)) else Err(items.error);
    }

    /** The loop of `vec`. */
    method ReadItems(t: Schema, count: nat) returns (r: Result<seq<Value>, ReadError>)
      requires Valid()
      modifies this`at
      ensures Valid()
      ensures DecodeMany(t, count, buf, old(at)) == if r.Ok? then Ok((r.value, at)) else Err(r.error)
      decreases t, 1
    {
      var out, i := [], 0;
      while i < count
        invariant 0 <= i <= count && Valid()
        invariant DecodeMany(t, i, buf, old(at)) == Ok((out, at))
      {
        var item := Read(t);
        if item.Err? {
          ManyStopsEarly(t, i + 1, count, buf, old(at));
          return Err(item.error);
        }
        out := out + [item.value];
        i := i + 1;
      }
      return Ok(out);
    }
  }

  /** A decoder: one read after another. */
  method Recover(ts: seq<Schema>, data: seq<Byte>) returns (r: Result<seq<Value>, ReadError>, end: nat)
    ensures DecodeAll(ts, data, 0) == if r.Ok? then Ok((r.value, end)) else Err(r.error)
  {
    var reader := new BorshReader(data);
    var out, i := [], 0;
    end := 0;
    while i < |ts|
      invariant 0 <= i <= |ts| && reader.Valid() && reader.buf == data
      invariant DecodeAll(ts[..i], data, 0) == Ok((out, reader.at))
    {
      assert ts[..i + 1][..i] == ts[..i];
      var item := reader.Read(ts[i]);
      if item.Err? {
        AllStopsEarly(ts, i + 1, data, 0);
        return Err(item.error), 0;
      }
      out := out + [item.value];
      i := i + 1;
    }
    assert ts[..i] == ts;
    return Ok(out), reader.at;
  }

  // ---------------------------------------------------------------- round trip

  /** The value is of the type the schema reads. */
  predicate Shaped(v: Value, t: Schema)
    decreases v
  {
    match (v, t)
    case (Number(k, _), NumberOf(l)) => k == l
    case (Bool(_), BoolOf) => true
    case (Blob(bytes), BlobOf(n)) => |bytes| == n
    case (Absent, OptionOf(_)) => true
    case (Present(inner), OptionOf(of)) => Shaped(inner, of)
    case (Vec(items), VecOf(item)) => AllShaped(items, item)
    case (_, _) => false
  }

  predicate AllShaped(vs: seq<Value>, t: Schema)
    decreases vs
  {
    vs == [] || (AllShaped(vs[..|vs| - 1], t) && Shaped(vs[|vs| - 1], t))
  }

  /** No vector in it is longer than the reader believes. */
  predicate Plausible(v: Value) {
    match v
    case Present(inner) => Plausible(inner)
    case Vec(items) => |items| <= VEC_LIMIT && AllPlausible(items)
    case _ => true
  }

  predicate AllPlausible(vs: seq<Value>) {
    vs == [] || (AllPlausible(vs[..|vs| - 1]) && Plausible(vs[|vs| - 1]))
  }

  ghost predicate Holds(buf: seq<Byte>, at: nat, s: seq<Byte>) {
    at + |s| <= |buf| && buf[at..at + |s|] == s
  }

  lemma HoldsParts(buf: seq<Byte>, at: nat, a: seq<Byte>, b: seq<Byte>)
    requires Holds(buf, at, a + b)
    ensures Holds(buf, at, a) && Holds(buf, at + |a|, b)
  {
    var both := buf[at..at + |a + b|];
    assert buf[at..at + |a|] == both[..|a|];
    assert buf[at + |a|..at + |a| + |b|] == both[|a|..];
  }

  lemma LengthRoundTrip(buf: seq<Byte>, at: nat, count: nat)
    requires count <= U32_MAX && Holds(buf, at, ToLe(count, 4))
    ensures FromLe(buf[at..at + 4]) == count
  {
    Pow256Widths();
    ToLeOfResidue(count, 4, 0);
    FromLeOfToLe(count, 4);
  }

  /** What `RoundTrip` says of a value that ends at `end`. */
  ghost predicate ReadsBack(v: Value, t: Schema, buf: seq<Byte>, at: nat, end: nat) {
    && at <= |buf|
    && Decode(t, buf, at) == if Plausible(v) then Ok((v, end)) else Err(Implausible)
  }

  ghost predicate AllReadBack(vs: seq<Value>, t: Schema, buf: seq<Byte>, at: nat, end: nat) {
    && at <= |buf|
    && DecodeMany(t, |vs|, buf, at) == if AllPlausible(vs) then Ok((vs, end)) else Err(Implausible)
  }

  lemma ScalarReadsBack(v: Value, t: Schema, buf: seq<Byte>, at: nat)
    requires v.Number? || v.Bool? || v.Blob? || v.Absent?
    requires Ranged(v) && Shaped(v, t) && Holds(buf, at, Encode(v))
    ensures ReadsBack(v, t, buf, at, at + |Encode(v)|)
  {
    if v.Number? {
      NumberRoundTrip(v.kind, v.number);
    } else if v.Bool? {
      TagReadsBack(if v.flag then 1 else 0, buf, at);
    } else if v.Absent? {
      TagReadsBack(0, buf, at);
    }
  }

  /** A byte written as `u8` is that byte. */
  lemma TagReadsBack(tag: Byte, buf: seq<Byte>, at: nat)
    requires Holds(buf, at, ToLe(tag, 1))
    ensures at < |buf| && buf[at] == tag
  {
    assert ToLe(tag, 1) == [tag % 256] + ToLe(tag / 256, 0);
    assert buf[at] == buf[at..at + 1][0];
  }

  lemma PresentReadsBack(v: Value, t: Schema, buf: seq<Byte>, at: nat, end: nat)
    requires Holds(buf, at, ToLe(1, 1)) && ReadsBack(v, t, buf, at + 1, end)
    ensures ReadsBack(Present(v), OptionOf(t), buf, at, end)
  {
    TagReadsBack(1, buf, at);
  }

  lemma VecReadsBack(items: seq<Value>, t: Schema, buf: seq<Byte>, at: nat, end: nat)
    requires at + 4 <= |buf| && FromLe(buf[at..at + 4]) == |items| && AllReadBack(items, t, buf, at + 4, end)
    ensures ReadsBack(Vec(items), VecOf(t), buf, at, end)
  {
  }

  lemma VecParts(items: seq<Value>, buf: seq<Byte>, at: nat)
    requires |items| <= U32_MAX && Holds(buf, at, Encode(Vec(items)))
    ensures |Encode(Vec(items))| == 4 + |EncodeAll(items)|
    ensures Holds(buf, at + 4, EncodeAll(items)) && FromLe(buf[at..at + 4]) == |items|
  {
    HoldsParts(buf, at, ToLe(|items|, 4), EncodeAll(items));
    LengthRoundTrip(buf, at, |items|);
  }

  lemma ManyParts(items: seq<Value>, buf: seq<Byte>, at: nat)
    requires items != [] && Holds(buf, at, EncodeAll(items))
    ensures var init, last := items[..|items| - 1], items[|items| - 1];
            && |EncodeAll(items)| == |EncodeAll(init)| + |Encode(last)|
            && Holds(buf, at, EncodeAll(init)) && Holds(buf, at + |EncodeAll(init)|, Encode(last))
  {
    HoldsParts(buf, at, EncodeAll(items[..|items| - 1]), Encode(items[|items| - 1]));
  }

  lemma OneMoreReadsBack(items: seq<Value>, t: Schema, buf: seq<Byte>, at: nat, mid: nat, end: nat)
    requires items != [] && AllReadBack(items[..|items| - 1], t, buf, at, mid)
    requires ReadsBack(items[|items| - 1], t, buf, mid, end)
    ensures AllReadBack(items, t, buf, at, end)
  {
    assert items == items[..|items| - 1] + [items[|items| - 1]];
  }

  /** Reading what was written, wherever it stands: the value and the offset after it; or, exactly
      when some vector in it is over the limit, the refusal. */
  lemma {:induction false} RoundTrip(v: Value, t: Schema, buf: seq<Byte>, at: nat)
    requires Ranged(v) && Shaped(v, t) && Holds(buf, at, Encode(v))
    ensures ReadsBack(v, t, buf, at, at + |Encode(v)|)
    decreases v, 1
  {
    if v.Present? {
      assert v == Present(v.inner) && t == OptionOf(t.inner);
      PresentRoundTrip(v.inner, t.inner, buf, at);
    } else if v.Vec? {
      assert v == Vec(v.items) && t == VecOf(t.item);
      VecParts(v.items, buf, at);
      VecRoundTrip(v.items, t.item, buf, at);
    } else {
      ScalarReadsBack(v, t, buf, at);
    }
  }

  lemma {:induction false} PresentRoundTrip(v: Value, t: Schema, buf: seq<Byte>, at: nat)
    requires Ranged(v) && Shaped(v, t) && Holds(buf, at, ToLe(1, 1) + Encode(v))
    ensures ReadsBack(Present(v), OptionOf(t), buf, at, at + 1 + |Encode(v)|)
    decreases v, 2
  {
    HoldsParts(buf, at, ToLe(1, 1), Encode(v));
    RoundTrip(v, t, buf, at + 1);
    PresentReadsBack(v, t, buf, at, at + 1 + |Encode(v)|);
  }

  lemma {:induction false} VecRoundTrip(items: seq<Value>, t: Schema, buf: seq<Byte>, at: nat)
    requires AllRanged(items) && AllShaped(items, t)
    requires Holds(buf, at + 4, EncodeAll(items)) && FromLe(buf[at..at + 4]) == |items|
    ensures ReadsBack(Vec(items), VecOf(t), buf, at, at + 4 + |EncodeAll(items)|)
    decreases items, 2
  {
    ManyRoundTrip(items, t, buf, at + 4);
    VecReadsBack(items, t, buf, at, at + 4 + |EncodeAll(items)|);
  }

  lemma {:induction false} ManyRoundTrip(items: seq<Value>, t: Schema, buf: seq<Byte>, at: nat)
    requires AllRanged(items) && AllShaped(items, t) && Holds(buf, at, EncodeAll(items))
    ensures AllReadBack(items, t, buf, at, at + |EncodeAll(items)|)
    decreases items, 1
  {
    if items != [] {
      var mid := at + |EncodeAll(items[..|items| - 1])|;
      InitRoundTrip(items, t, buf, at);
      LastRoundTrip(items, t, buf, at);
      OneMoreReadsBack(items, t, buf, at, mid, at + |EncodeAll(items)|);
    }
  }

  lemma {:induction false} InitRoundTrip(items: seq<Value>, t: Schema, buf: seq<Byte>, at: nat)
    requires items != [] && AllRanged(items) && AllShaped(items, t) && Holds(buf, at, EncodeAll(items))
    ensures AllReadBack(items[..|items| - 1], t, buf, at, at + |EncodeAll(items[..|items| - 1])|)
    decreases items, 0
  {
    ManyParts(items, buf, at);
    ManyRoundTrip(items[..|items| - 1], t, buf, at);
  }

  lemma {:induction false} LastRoundTrip(items: seq<Value>, t: Schema, buf: seq<Byte>, at: nat)
    requires items != [] && AllRanged(items) && AllShaped(items, t) && Holds(buf, at, EncodeAll(items))
    ensures ReadsBack(items[|items| - 1], t, buf, at + |EncodeAll(items[..|items| - 1])|, at + |EncodeAll(items)|)
    decreases items, 0
  {
    var last, mid := items[|items| - 1], at + |EncodeAll(items[..|items| - 1])|;
    assert Holds(buf, mid, Encode(last)) && mid + |Encode(last)| == at + |EncodeAll(items)| by {
      ManyParts(items, buf, at);
    }
    RoundTrip(last, t, buf, mid);
  }

  lemma OneMoreField(ts: seq<Schema>, buf: seq<Byte>, init: seq<Value>, mid: nat, initFine: bool,
                     last: Value, end: nat, lastFine: bool)
    requires ts != [] && mid <= |buf|
    requires DecodeAll(ts[..|ts| - 1], buf, 0) == if initFine then Ok((init, mid)) else Err(Implausible)
    requires Decode(ts[|ts| - 1], buf, mid) == if lastFine then Ok((last, end)) else Err(Implausible)
    ensures DecodeAll(ts, buf, 0) ==
            if initFine && lastFine then Ok((init + [last], end)) else Err(Implausible)
  {
  }

  /** A record written field by field into a buffer of its exact size reads back field by field, to
      the last byte; the reader refuses it exactly when some vector in it is over the limit. */
  lemma {:induction false} RecordRoundTrip(fields: seq<Value>, ts: seq<Schema>, buf: seq<Byte>)
    requires AllRanged(fields) && |fields| == |ts| && Holds(buf, 0, EncodeAll(fields))
    requires forall i :: 0 <= i < |fields| ==> Shaped(fields[i], ts[i])
    ensures DecodeAll(ts, buf, 0) ==
            if AllPlausible(fields) then Ok((fields, |EncodeAll(fields)|)) else Err(Implausible)
  {
    if fields != [] {
      var init, last := fields[..|fields| - 1], fields[|fields| - 1];
      HoldsParts(buf, 0, EncodeAll(init), Encode(last));
      RecordRoundTrip(init, ts[..|ts| - 1], buf);
      RoundTrip(last, ts[|ts| - 1], buf, |EncodeAll(init)|);
      OneMoreField(ts, buf, init, |EncodeAll(init)|, AllPlausible(init), last, |EncodeAll(fields)|, Plausible(last));
      assert fields == init + [last];
    }
  }

  // ---------------------------------------------------------------- any bytes

  /** What a read makes of a buffer, unless it ran out, is what it makes of any longer one. */
  lemma {:induction false} ExtensionKeeps(t: Schema, buf: seq<Byte>, more: seq<Byte>, at: nat)
    requires at <= |buf|
    ensures Decode(t, buf, at) != Err(Underflow) ==> Decode(t, buf + more, at) == Decode(t, buf, at)
    decreases t, 0
  {
    match t
    case NumberOf(k) =>
      PrefixSlice(buf, more, at, Width(k));
    case BoolOf =>
    case BlobOf(n) =>
      PrefixSlice(buf, more, at, n);
    case OptionOf(inner) =>
      if at + 1 <= |buf| {
        ExtensionKeeps(inner, buf, more, at + 1);
      }
    case VecOf(item) =>
      PrefixSlice(buf, more, at, 4);
      if at + 4 <= |buf| {
        ManyExtensionKeeps(item, FromLe(buf[at..at + 4]), buf, more, at + 4);
      }
  }

  lemma PrefixSlice(buf: seq<Byte>, more: seq<Byte>, at: nat, n: nat)
    ensures at + n <= |buf| ==> (buf + more)[at..at + n] == buf[at..at + n]
  {
  }

  lemma {:induction false} ManyExtensionKeeps(t: Schema, count: nat, buf: seq<Byte>, more: seq<Byte>, at: nat)
    requires at <= |buf|
    ensures DecodeMany(t, count, buf, at) != Err(Underflow) ==>
              DecodeMany(t, count, buf + more, at) == DecodeMany(t, count, buf, at)
    decreases t, count + 1
  {
    if count > 0 {
      ManyExtensionKeeps(t, count - 1, buf, more, at);
      var init := DecodeMany(t, count - 1, buf, at);
      if init.Ok? {
        ExtensionKeeps(t, buf, more, init.value.1);
      }
    }
  }

  /** A value cut off before its end is never read as anything: it is refused for want of bytes, unless
      some vector in it is over the limit. */
  lemma TruncatedIsRefused(v: Value, t: Schema, buf: seq<Byte>, more: seq<Byte>, at: nat)
    requires Ranged(v) && Shaped(v, t) && Holds(buf + more, at, Encode(v))
    requires at <= |buf| < at + |Encode(v)|
    ensures Decode(t, buf, at).Err?
    ensures Plausible(v) ==> Decode(t, buf, at) == Err(Underflow)
  {
    RoundTrip(v, t, buf + more, at);
    ExtensionKeeps(t, buf, more, at);
  }

  /** `a` is `b` with every non-zero byte that stands for a tag made one. */
  ghost predicate Normalizes(a: seq<Byte>, b: seq<Byte>) {
    |a| == |b| && forall i :: 0 <= i < |a| ==> a[i] == b[i] || (a[i] == 1 && b[i] != 0)
  }

  lemma NormalizesConcat(a: seq<Byte>, b: seq<Byte>, c: seq<Byte>, d: seq<Byte>)
    requires Normalizes(a, b) && Normalizes(c, d)
    ensures Normalizes(a + c, b + d)
  {
  }

  /** What a successful read says of the bytes it took. */
  ghost predicate Spelled(v: Value, t: Schema, bytes: seq<Byte>) {
    Ranged(v) && Shaped(v, t) && Plausible(v) && Normalizes(Encode(v), bytes)
  }

  ghost predicate AllSpelled(vs: seq<Value>, t: Schema, bytes: seq<Byte>) {
    AllRanged(vs) && AllShaped(vs, t) && AllPlausible(vs) && Normalizes(EncodeAll(vs), bytes)
  }

  lemma InterpretedInRange(k: Scalar, u: nat)
    requires u < Pow256(Width(k))
    ensures InRange(k, Interpreted(u, k))
    ensures Interpreted(u, k) == u || Interpreted(u, k) == u - Pow256(Width(k))
  {
    Pow256Widths();
  }

  lemma ResidueSpelled(v: int, u: nat, n: nat, bytes: seq<Byte>)
    requires ToLe(u, n) == bytes && (v == u || v == u - Pow256(n))
    ensures ToLe(v, n) == bytes
  {
    ToLeOfResidue(v, n, if v == u then 0 else 1);
  }

  lemma NumberSpelled(k: Scalar, u: nat, v: int, bytes: seq<Byte>)
    requires |bytes| == Width(k) && u == FromLe(bytes) && v == Interpreted(u, k)
    ensures Spelled(Number(k, v), NumberOf(k), bytes)
  {
    ToLeOfFromLe(bytes);
    InterpretedInRange(k, u);
    ResidueSpelled(v, u, Width(k), bytes);
  }

  lemma FlagSpelled(tag: Byte)
    ensures Spelled(Bool(tag != 0), BoolOf, [tag])
    ensures forall t: Schema :: tag == 0 ==> Spelled(Absent, OptionOf(t), [tag])
  {
    assert ToLe(1, 1) == [1 % 256] + ToLe(1 / 256, 0) && ToLe(0, 1) == [0 % 256] + ToLe(0 / 256, 0);
  }

  lemma PresentSpelled(v: Value, t: Schema, tag: Byte, bytes: seq<Byte>)
    requires Spelled(v, t, bytes) && tag != 0
    ensures Spelled(Present(v), OptionOf(t), [tag] + bytes)
  {
    assert ToLe(1, 1) == [1 % 256] + ToLe(1 / 256, 0);
    NormalizesConcat(ToLe(1, 1), [tag], Encode(v), bytes);
  }

  lemma VecSpelled(items: seq<Value>, t: Schema, length: seq<Byte>, bytes: seq<Byte>)
    requires AllSpelled(items, t, bytes) && |length| == 4 && FromLe(length) == |items| <= VEC_LIMIT
    ensures Spelled(Vec(items), VecOf(t), length + bytes)
  {
    ToLeOfFromLe(length);
    NormalizesConcat(ToLe(|items|, 4), length, EncodeAll(items), bytes);
  }

  lemma OneMoreSpelled(init: seq<Value>, last: Value, t: Schema, a: seq<Byte>, b: seq<Byte>)
    requires AllSpelled(init, t, a) && Spelled(last, t, b)
    ensures AllSpelled(init + [last], t, a + b)
  {
    assert (init + [last])[..|init|] == init;
    NormalizesConcat(EncodeAll(init), a, Encode(last), b);
  }

  /** Whatever the bytes: a value that is read is in range, of the schema's type and within the vector
      limit, and writing it gives the bytes that were read, with 1 for every tag that was set. */
  lemma {:induction false} ReadIsSpelled(t: Schema, buf: seq<Byte>, at: nat)
    requires at <= |buf| && Decode(t, buf, at).Ok?
    ensures var (v, end) := Decode(t, buf, at).value;
            Spelled(v, t, buf[at..end])
    decreases t, 0
  {
    var (v, end) := Decode(t, buf, at).value;
    match t
    case NumberOf(k) =>
      NumberSpelled(k, FromLe(buf[at..end]), v.number, buf[at..end]);
    case BoolOf =>
      FlagSpelled(buf[at]);
      assert buf[at..end] == [buf[at]];
    case BlobOf(n) =>
    case OptionOf(inner) =>
      OptionIsSpelled(inner, buf, at);
    case VecOf(item) =>
      VecIsSpelled(item, buf, at);
  }

  lemma {:induction false} OptionIsSpelled(t: Schema, buf: seq<Byte>, at: nat)
    requires at <= |buf| && Decode(OptionOf(t), buf, at).Ok?
    ensures var (v, end) := Decode(OptionOf(t), buf, at).value;
            Spelled(v, OptionOf(t), buf[at..end])
    decreases t, 1
  {
    var (v, end) := Decode(OptionOf(t), buf, at).value;
    if buf[at] == 0 {
      FlagSpelled(0);
      assert buf[at..end] == [0];
    } else {
      ReadIsSpelled(t, buf, at + 1);
      PresentSpelled(v.inner, t, buf[at], buf[at + 1..end]);
      assert buf[at..end] == [buf[at]] + buf[at + 1..end];
    }
  }

  lemma {:induction false} VecIsSpelled(t: Schema, buf: seq<Byte>, at: nat)
    requires at <= |buf| && Decode(VecOf(t), buf, at).Ok?
    ensures var (v, end) := Decode(VecOf(t), buf, at).value;
            Spelled(v, VecOf(t), buf[at..end])
    decreases t, FromLe(buf[at..at + 4]) + 2
  {
    var (v, end) := Decode(VecOf(t), buf, at).value;
    ManyAreSpelled(t, FromLe(buf[at..at + 4]), buf, at + 4);
    VecSpelled(v.items, t, buf[at..at + 4], buf[at + 4..end]);
    assert buf[at..end] == buf[at..at + 4] + buf[at + 4..end];
  }

  lemma {:induction false} ManyAreSpelled(t: Schema, count: nat, buf: seq<Byte>, at: nat)
    requires at <= |buf| && DecodeMany(t, count, buf, at).Ok?
    ensures var (vs, end) := DecodeMany(t, count, buf, at).value;
            AllSpelled(vs, t, buf[at..end])
    decreases t, count + 1
  {
    if count > 0 {
      var (init, mid) := DecodeMany(t, count - 1, buf, at).value;
      var (last, end) := Decode(t, buf, mid).value;
      ManyAreSpelled(t, count - 1, buf, at);
      ReadIsSpelled(t, buf, mid);
      OneMoreSpelled(init, last, t, buf[at..mid], buf[mid..end]);
      assert buf[at..end] == buf[at..mid] + buf[mid..end];
    }
  }
}
