/** The client's value type and its two encodings: the little-endian byte
    form used to build series keys, and the protobuf value (src/model/value.rs). */
module Values {
  import opened Ints
  import opened Common

  /** A value of a point or of a queried row. `Double` and `Float` hold their
      IEEE-754 bit patterns. `Null` does not exist in the value file; the
      query rows use it for missing cells. */
  datatype Value =
    | Timestamp(ts: i64)
    | Double(f64bits: u64)
    | Float(f32bits: u32)
    | Varbinary(bytes: seq<u8>)
    | String(str: string)
    | UInt64(u64v: u64)
    | UInt32(u32v: u32)
    | UInt16(u16v: u16)
    | UInt8(u8v: u8)
    | Int64(i64v: i64)
    | Int32(i32v: i32)
    | Int16(i16v: i16)
    | Int8(i8v: i8)
    | Boolean(b: bool)
    | Null

  /** The values a point can carry: every kind the value file declares. */
  type WriteValue = v: Value | !v.Null? witness Boolean(false)

  // ---------------------------------------------------------------------
  // Little-endian integers.
  // ---------------------------------------------------------------------

  function Pow256(n: nat): (p: int)
    ensures p >= 1
  {
    if n == 0 then 1 else 256 * Pow256(n - 1)
  }

  /** The `n` little-endian bytes of the unsigned number `x`. */
  function LeBytes(x: nat, n: nat): (bs: seq<u8>)
    decreases n
    requires x < Pow256(n)
    ensures |bs| == n
  {
    if n == 0 then [] else [x % 256] + LeBytes(x / 256, n - 1)
  }

  /** The unsigned number whose little-endian bytes are `bs`. */
  function FromLe(bs: seq<u8>): (x: nat)
    ensures x < Pow256(|bs|)
  {
    if bs == [] then 0 else bs[0] + 256 * FromLe(bs[1..])
  }

  lemma {:induction false} FromLeBytes(x: nat, n: nat)
    requires x < Pow256(n)
    ensures FromLe(LeBytes(x, n)) == x
  {
    if n > 0 {
      FromLeBytes(x / 256, n - 1);
      assert LeBytes(x, n)[1..] == LeBytes(x / 256, n - 1);
    }
  }

  /** Two's complement of a signed number on `n` bytes. */
  function TwosComplement(x: int, n: nat): (u: nat)
    requires -Pow256(n) <= 2 * x < Pow256(n)
    ensures u < Pow256(n)
  {
    if x < 0 then x + Pow256(n) else x
  }

  /** The signed number whose two's-complement little-endian bytes are `bs`. */
  function FromLeSigned(bs: seq<u8>): int {
    var u := FromLe(bs);
    if u >= Pow256(|bs|) / 2 then u - Pow256(|bs|) else u
  }

  // ---------------------------------------------------------------------
  // UTF-8 (Rust's `str::as_bytes`).
  // ---------------------------------------------------------------------

  /** The UTF-8 encoding of one Unicode scalar value. */
  function Utf8Char(c: char): (bs: seq<u8>)
    ensures 1 <= |bs| <= 4
  {
    var n := c as int;
    if n < 0x80 then [n]
    else if n < 0x800 then [0xC0 + n / 0x40, 0x80 + n % 0x40]
    else if n < 0x1_0000 then [0xE0 + n / 0x1000, 0x80 + n / 0x40 % 0x40, 0x80 + n % 0x40]
    else [0xF0 + n / 0x4_0000, 0x80 + n / 0x1000 % 0x40, 0x80 + n / 0x40 % 0x40, 0x80 + n % 0x40]
  }

  function Utf8(s: string): seq<u8> {
    if s == [] then [] else Utf8Char(s[0]) + Utf8(s[1..])
  }

  /** The length of the sequence a UTF-8 lead byte starts, or 0 if it is not
      a lead byte. */
  function Utf8SeqLen(lead: u8): nat {
    if lead < 0x80 then 1
    else if 0xC0 <= lead < 0xE0 then 2
    else if 0xE0 <= lead < 0xF0 then 3
    else if 0xF0 <= lead < 0xF8 then 4
    else 0
  }

  predicate IsScalar(n: int) {
    0 <= n < 0xD800 || 0xE000 <= n < 0x11_0000
  }

  predicate IsContinuation(b: u8) {
    0x80 <= b < 0xC0
  }

  /** The scalar value carried by one complete encoded sequence. */
  function CodePoint(bs: seq<u8>): int
    requires 1 <= |bs| <= 4
  {
    var b0 := bs[0] as int;
    if |bs| == 1 then b0
    else
      var b1 := bs[1] as int - 0x80;
      if |bs| == 2 then (b0 - 0xC0) * 0x40 + b1
      else
        var b2 := bs[2] as int - 0x80;
        if |bs| == 3 then (b0 - 0xE0) * 0x1000 + b1 * 0x40 + b2
        else (b0 - 0xF0) * 0x4_0000 + b1 * 0x1000 + b2 * 0x40 + (bs[3] as int - 0x80)
  }

  /** Splitting a number into 6-bit groups. */
  lemma SixBitGroups(n: nat)
    ensures n == n / 0x40 * 0x40 + n % 0x40
    ensures n / 0x40 == n / 0x1000 * 0x40 + n / 0x40 % 0x40
    ensures n / 0x1000 == n / 0x4_0000 * 0x40 + n / 0x1000 % 0x40
  {
    var q := n / 0x40;
    var q2 := q / 0x40;
    var q3 := q2 / 0x40;
    assert n == q * 0x40 + n % 0x40;
    assert q == q2 * 0x40 + q % 0x40;
    assert q2 == q3 * 0x40 + q2 % 0x40;
    assert n == q2 * 0x1000 + (q % 0x40) * 0x40 + n % 0x40;
    assert n / 0x1000 == q2;
    assert n == q3 * 0x4_0000 + (q2 % 0x40) * 0x1000 + (q % 0x40) * 0x40 + n % 0x40;
    assert n / 0x4_0000 == q3;
  }

  lemma CodePointOfUtf8Char(c: char)
    ensures CodePoint(Utf8Char(c)) == c as int
  {
    SixBitGroups(c as int);
  }

  /** A decoder for the encoding above: reads one scalar value per lead byte. */
  function DecodeUtf8(bs: seq<u8>): Option<string>
    decreases |bs|
  {
    if bs == [] then Some([])
    else
      var len := Utf8SeqLen(bs[0]);
      if len == 0 || |bs| < len then None
      else if exists k :: 1 <= k < len && !IsContinuation(bs[k]) then None
      else
        var n := CodePoint(bs[..len]);
        if !IsScalar(n) then None
        else match DecodeUtf8(bs[len..])
          case None => None
          case Some(rest) => Some([n as char] + rest)
  }

  /** Decoding reads exactly one encoded character off the front. */
  lemma DecodeUtf8Cons(c: char, rest: seq<u8>)
    ensures DecodeUtf8(Utf8Char(c) + rest) ==
      match DecodeUtf8(rest)
      case None => None
      case Some(r) => Some([c] + r)
  {
    var e := Utf8Char(c);
    var bs := e + rest;
    assert Utf8SeqLen(bs[0]) == |e|;
    assert forall k :: 1 <= k < |e| ==> IsContinuation(bs[k]);
    assert bs[..|e|] == e && bs[|e|..] == rest;
    CodePointOfUtf8Char(c);
  }

  /** Decoding the UTF-8 bytes of a string gives the string back. */
  lemma {:induction false} DecodeUtf8OfUtf8(s: string)
    ensures DecodeUtf8(Utf8(s)) == Some(s)
    decreases |s|
  {
    if s != [] {
      DecodeUtf8Cons(s[0], Utf8(s[1..]));
      DecodeUtf8OfUtf8(s[1..]);
      assert [s[0]] + s[1..] == s;
    }
  }

  // ---------------------------------------------------------------------
  // `Value::as_bytes`.
  // ---------------------------------------------------------------------

  /** The little-endian byte form of a value. */
  function AsBytes(v: WriteValue): (bs: seq<u8>)
  {
    match v
    case Timestamp(x) => LeBytes(TwosComplement(x, 8), 8)
    case Double(bits) => LeBytes(bits, 8)
    case Float(bits) => LeBytes(bits, 4)
    case Varbinary(b) => b
    case String(s) => Utf8(s)
    case UInt64(x) => LeBytes(x, 8)
    case UInt32(x) => LeBytes(x, 4)
    case UInt16(x) => LeBytes(x, 2)
    case UInt8(x) => LeBytes(x, 1)
    case Int64(x) => LeBytes(TwosComplement(x, 8), 8)
    case Int32(x) => LeBytes(TwosComplement(x, 4), 4)
    case Int16(x) => LeBytes(TwosComplement(x, 2), 2)
    case Int8(x) => LeBytes(TwosComplement(x, 1), 1)
    case Boolean(b) => [if b then 1 else 0]
  }

  /** The width in bytes of each fixed-size kind. */
  lemma AsBytesLength(v: WriteValue)
    requires !v.Varbinary? && !v.String?
    ensures |AsBytes(v)| == (
      if v.Timestamp? || v.Double? || v.UInt64? || v.Int64? then 8
      else if v.Float? || v.UInt32? || v.Int32? then 4
      else if v.UInt16? || v.Int16? then 2
      else 1)
  {
  }

  /** Booleans encode to the single byte 0 or 1. */
  lemma AsBytesBoolean(b: bool)
    ensures AsBytes(Boolean(b)) == (if b then [1] else [0])
  {
  }

  /** Byte strings encode to themselves and strings to their UTF-8 bytes,
      which decode back to the string. */
  lemma AsBytesStrings(b: seq<u8>, s: string)
    ensures AsBytes(Varbinary(b)) == b
    ensures DecodeUtf8(AsBytes(String(s))) == Some(s)
  {
    DecodeUtf8OfUtf8(s);
  }

  /** Reading the bytes back as an unsigned number gives the value. */
  lemma AsBytesUnsignedRoundTrip(v: WriteValue)
    requires v.UInt64? || v.UInt32? || v.UInt16? || v.UInt8? || v.Double? || v.Float?
    ensures FromLe(AsBytes(v)) == (match v
      case UInt64(x) => x case UInt32(x) => x case UInt16(x) => x case UInt8(x) => x
      case Double(x) => x case Float(x) => x case _ => 0)
  {
    Pow256Widths();
    match v
    case UInt64(x) => FromLeBytes(x, 8);
    case UInt32(x) => FromLeBytes(x, 4);
    case UInt16(x) => FromLeBytes(x, 2);
    case UInt8(x) => FromLeBytes(x, 1);
    case Double(x) => FromLeBytes(x, 8);
    case Float(x) => FromLeBytes(x, 4);
  }

  lemma Pow256Widths()
    ensures Pow256(1) == 0x100 && Pow256(2) == 0x1_0000
    ensures Pow256(4) == 0x1_0000_0000 && Pow256(8) == 0x1_0000_0000_0000_0000
  {
    assert Pow256(2) == 0x1_0000;
    assert Pow256(4) == 0x1_0000_0000;
  }

  lemma SignedRoundTrip(x: int, n: nat)
    requires n > 0 && -Pow256(n) <= 2 * x < Pow256(n)
    ensures FromLeSigned(LeBytes(TwosComplement(x, n), n)) == x
  {
    var u := TwosComplement(x, n);
    FromLeBytes(u, n);
    var half := 128 * Pow256(n - 1);
    assert Pow256(n) == 2 * half;
    assert Pow256(n) / 2 == half;
    assert FromLe(LeBytes(u, n)) == u && |LeBytes(u, n)| == n;
  }

  /** Reading the bytes back as a two's-complement number gives the value. */
  lemma AsBytesSignedRoundTrip(v: WriteValue)
    requires v.Timestamp? || v.Int64? || v.Int32? || v.Int16? || v.Int8?
    ensures FromLeSigned(AsBytes(v)) == (match v
      case Timestamp(x) => x case Int64(x) => x case Int32(x) => x case Int16(x) => x
      case Int8(x) => x case _ => 0)
  {
    Pow256Widths();
    match v
    case Timestamp(x) => SignedRoundTrip(x, 8);
    case Int64(x) => SignedRoundTrip(x, 8);
    case Int32(x) => SignedRoundTrip(x, 4);
    case Int16(x) => SignedRoundTrip(x, 2);
    case Int8(x) => SignedRoundTrip(x, 1);
  }

  // ---------------------------------------------------------------------
  // `From<Value> for ValuePb`.
  // ---------------------------------------------------------------------

  /** The protobuf value: the 8- and 16-bit kinds travel in 32-bit fields. */
  datatype ValuePb =
    | TimestampValue(ts: i64)
    | Float64Value(f64bits: u64)
    | Float32Value(f32bits: u32)
    | VarbinaryValue(bytes: seq<u8>)
    | StringValue(str: string)
    | Uint64Value(u64v: u64)
    | Uint32Value(u32v: u32)
    | Uint16Value(u16v: u32)
    | Uint8Value(u8v: u32)
    | Int64Value(i64v: i64)
    | Int32Value(i32v: i32)
    | Int16Value(i16v: i32)
    | Int8Value(i8v: i32)
    | BoolValue(b: bool)

  function ToPb(v: WriteValue): ValuePb
  {
    match v
    case Timestamp(x) => TimestampValue(x)
    case Double(x) => Float64Value(x)
    case Float(x) => Float32Value(x)
    case Varbinary(x) => VarbinaryValue(x)
    case String(x) => StringValue(x)
    case UInt64(x) => Uint64Value(x)
    case UInt32(x) => Uint32Value(x)
    case UInt16(x) => Uint16Value(x)
    case UInt8(x) => Uint8Value(x)
    case Int64(x) => Int64Value(x)
    case Int32(x) => Int32Value(x)
    case Int16(x) => Int16Value(x)
    case Int8(x) => Int8Value(x)
    case Boolean(x) => BoolValue(x)
  }

  /** The server's reading of a protobuf value: narrow fields must hold a
      value of their declared width. */
  function FromPb(pb: ValuePb): Option<WriteValue>
  {
    match pb
    case TimestampValue(x) => Some(Timestamp(x))
    case Float64Value(x) => Some(Double(x))
    case Float32Value(x) => Some(Float(x))
    case VarbinaryValue(x) => Some(Varbinary(x))
    case StringValue(x) => Some(String(x))
    case Uint64Value(x) => Some(UInt64(x))
    case Uint32Value(x) => Some(UInt32(x))
    case Uint16Value(x) => if x < 0x1_0000 then Some(UInt16(x)) else None
    case Uint8Value(x) => if x < 0x100 then Some(UInt8(x)) else None
    case Int64Value(x) => Some(Int64(x))
    case Int32Value(x) => Some(Int32(x))
    case Int16Value(x) => if -0x8000 <= x < 0x8000 then Some(Int16(x)) else None
    case Int8Value(x) => if -0x80 <= x < 0x80 then Some(Int8(x)) else None
    case BoolValue(x) => Some(Boolean(x))
  }

  /** The conversion loses nothing: widening keeps the numeric value. */
  lemma FromPbToPb(v: WriteValue)
    ensures FromPb(ToPb(v)) == Some(v)
  {
  }

  /** Widening is the identity on numbers. */
  lemma ToPbWidens(v: WriteValue)
    requires v.UInt16? || v.UInt8? || v.Int16? || v.Int8?
    ensures match (v, ToPb(v))
      case (UInt16(x), Uint16Value(y)) => x == y
      case (UInt8(x), Uint8Value(y)) => x == y
      case (Int16(x), Int16Value(y)) => x == y
      case (Int8(x), Int8Value(y)) => x == y
      case _ => false
  {
  }
}
