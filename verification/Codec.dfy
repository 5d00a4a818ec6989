/** The bridge's wire format: each type writes its parts one after the other, lists and texts after
    their length, options after a flag and variants as their number. */
module Codec {
  import opened Wrappers
  import opened Sequences

  // ----- integers -----

  function Power(k: nat): (p: nat)
    ensures p > 0
  {
    if k == 0 then 1 else 256 * Power(k - 1)
  }

  /** The number's lowest `k` bytes, lowest first. */
  function LowBytes(n: nat, k: nat): (s: seq<Byte>)
    ensures |s| == k
  {
    if k == 0 then [] else [n % 256] + LowBytes(n / 256, k - 1)
  }

  function Number(s: seq<Byte>): nat {
    if s == [] then 0 else s[0] + 256 * Number(s[1..])
  }

  lemma {:induction false} NumberOfBytes(n: nat, k: nat)
    requires n < Power(k)
    ensures Number(LowBytes(n, k)) == n
  {
    if k > 0 {
      NumberOfBytes(n / 256, k - 1);
      assert LowBytes(n, k)[1..] == LowBytes(n / 256, k - 1);
    }
  }

  lemma {:induction false} NumberIsSmall(s: seq<Byte>)
    ensures Number(s) < Power(|s|)
    decreases |s|
  {
    if s != [] {
      NumberIsSmall(s[1..]);
    }
  }

  /** The platform's byte order, which both sides share. */
  datatype Endian = Little | Big

  function Ordered(e: Endian, s: seq<Byte>): (r: seq<Byte>)
    ensures |r| == |s|
  {
    if e.Little? then s else Reversed(s)
  }

  /** A two's complement number of `k` bytes. */
  predicate InRange(n: int, k: nat) {
    0 <= 2 * n + Power(k) && 2 * n < Power(k)
  }

  function Wrapped(n: int, p: nat): nat
    requires n + p >= 0
  {
    if n < 0 then n + p else n
  }

  function WriteInt(e: Endian, n: int, k: nat): (s: seq<Byte>)
    requires InRange(n, k)
    ensures |s| == k
  {
    Ordered(e, LowBytes(Wrapped(n, Power(k)), k))
  }

  function ReadInt(e: Endian, s: seq<Byte>): int {
    var n := Number(Ordered(e, s));
    if 2 * n >= Power(|s|) then n - Power(|s|) else n
  }

  lemma OrderedTwice(e: Endian, s: seq<Byte>)
    ensures Ordered(e, Ordered(e, s)) == s
  {
  }

  lemma IntRoundTrip(e: Endian, n: int, k: nat)
    requires InRange(n, k)
    ensures ReadInt(e, WriteInt(e, n, k)) == n
  {
    var p := Power(k);
    NumberWritten(e, Wrapped(n, p), k);
  }

  lemma NumberWritten(e: Endian, m: nat, k: nat)
    requires m < Power(k)
    ensures Number(Ordered(e, Ordered(e, LowBytes(m, k)))) == m
  {
    OrderedTwice(e, LowBytes(m, k));
    NumberOfBytes(m, k);
  }

  lemma ReadInRange(e: Endian, s: seq<Byte>)
    ensures InRange(ReadInt(e, s), |s|)
  {
    NumberIsSmall(Ordered(e, s));
  }

  /** The limits of an `i32`. */
  lemma PowerOf4()
    ensures Power(4) == 2 * I32_LIMIT
  {
    assert Power(2) == 0x1_0000;
    assert Power(3) == 0x100_0000;
  }

  // ----- texts -----

  predicate Continues(b: Byte) {
    0x80 <= b < 0xC0
  }

  /** How many bytes the character at the front takes, by section 4 of RFC 3629; 0 if there is none. */
  function CharacterLength(s: seq<Byte>): (n: nat)
    ensures n <= |s|
  {
    if |s| >= 1 && s[0] < 0x80 then 1
    else if |s| >= 2 && 0xC2 <= s[0] < 0xE0 && Continues(s[1]) then 2
    else if |s| >= 3 && 0xE0 <= s[0] < 0xF0 && Continues(s[1]) && Continues(s[2])
            && (s[0] == 0xE0 ==> s[1] >= 0xA0) && (s[0] == 0xED ==> s[1] < 0xA0) then 3
    else if |s| >= 4 && 0xF0 <= s[0] < 0xF5 && Continues(s[1]) && Continues(s[2]) && Continues(s[3])
            && (s[0] == 0xF0 ==> s[1] >= 0x90) && (s[0] == 0xF4 ==> s[1] < 0x90) then 4
    else 0
  }

  predicate ValidUtf8(s: seq<Byte>)
    decreases |s|
  {
    s == [] || (CharacterLength(s) > 0 && ValidUtf8(s[CharacterLength(s)..]))
  }

  // ----- types and their values -----

  datatype Format =
    | BoolFormat
    | I32Format
    | I64Format
    | F64Format
    | TextFormat
    | EnumFormat(variants: nat)
    | OptionFormat(item: Format)
    | ListFormat(element: Format)
    | StructFormat(fields: seq<Format>)

  /** A value; a floating-point number is its bits and a text its UTF-8 bytes. */
  datatype Value =
    | Bool(b: bool)
    | Int(n: int)
    | Bits(bits: nat)
    | Text(bytes: seq<Byte>)
    | Variant(index: nat)
    | Nothing
    | Just(value: Value)
    | List(items: seq<Value>)
    | Struct(parts: seq<Value>)

  const I32_LIMIT := 0x8000_0000

  /** The value is one of the type. */
  predicate Typed(f: Format, v: Value)
    decreases v, 0
  {
    match f
    case BoolFormat => v.Bool?
    case I32Format => v.Int? && InRange(v.n, 4)
    case I64Format => v.Int? && InRange(v.n, 8)
    case F64Format => v.Bits? && v.bits < Power(8)
    case TextFormat => v.Text? && ValidUtf8(v.bytes)
    case EnumFormat(variants) => v.Variant? && v.index < variants && InRange(v.index, 4)
    case OptionFormat(item) => v.Nothing? || (v.Just? && Typed(item, v.value))
    case ListFormat(element) => v.List? && TypedItems(element, v.items)
    case StructFormat(fields) => v.Struct? && TypedParts(fields, v.parts)
  }

  predicate TypedItems(element: Format, items: seq<Value>)
    decreases items, 1
  {
    forall i | 0 <= i < |items| :: Typed(element, items[i])
  }

  predicate TypedParts(fields: seq<Format>, parts: seq<Value>)
    decreases parts, 1
  {
    |parts| == |fields| && forall i | 0 <= i < |fields| :: Typed(fields[i], parts[i])
  }

  /** Every list and text in it is shorter than 2^31. */
  predicate Short(v: Value)
    decreases v, 0
  {
    match v
    case Text(bytes) => |bytes| < I32_LIMIT
    case Just(value) => Short(value)
    case List(items) => |items| < I32_LIMIT && AllShort(items)
    case Struct(parts) => AllShort(parts)
    case _ => true
  }

  predicate AllShort(values: seq<Value>)
    decreases values, 1
  {
    forall i | 0 <= i < |values| :: Short(values[i])
  }

  // ----- encoding -----

  /** A length is cut to its lowest 32 bits. */
  function Length(e: Endian, n: nat): (s: seq<Byte>)
    ensures |s| == 4
  {
    Ordered(e, LowBytes(n, 4))
  }

  function Encode(e: Endian, f: Format, v: Value): seq<Byte>
    requires Typed(f, v)
    decreases v, 0
  {
    match f
    case BoolFormat => [if v.b then 1 else 0]
    case I32Format => WriteInt(e, v.n, 4)
    case I64Format => WriteInt(e, v.n, 8)
    case F64Format => Ordered(e, LowBytes(v.bits, 8))
    case TextFormat => Length(e, |v.bytes|) + v.bytes
    case EnumFormat(_) => WriteInt(e, v.index, 4)
    case OptionFormat(item) => if v.Nothing? then [0] else [1] + Encode(e, item, v.value)
    case ListFormat(element) => Length(e, |v.items|) + EncodeItems(e, element, v.items, |v.items|)
    case StructFormat(fields) => EncodeParts(e, fields, v.parts, |fields|)
  }

  function EncodeItems(e: Endian, element: Format, items: seq<Value>, k: nat): seq<Byte>
    requires TypedItems(element, items) && k <= |items|
    decreases items, 1, k
  {
    if k == 0 then [] else EncodeItems(e, element, items, k - 1) + Encode(e, element, items[k - 1])
  }

  function EncodeParts(e: Endian, fields: seq<Format>, parts: seq<Value>, k: nat): seq<Byte>
    requires TypedParts(fields, parts) && k <= |fields|
    decreases parts, 1, k
  {
    if k == 0 then [] else EncodeParts(e, fields, parts, k - 1) + Encode(e, fields[k - 1], parts[k - 1])
  }

  // ----- decoding -----

  /** A value and the bytes after it, or nothing if the bytes are no value of the type. */
  function Decode(e: Endian, f: Format, s: seq<Byte>): Option<(Value, seq<Byte>)>
    decreases f, 0
  {
    match f
    case BoolFormat => if |s| < 1 then None else Some((Bool(s[0] != 0), s[1..]))
    case I32Format => if |s| < 4 then None else Some((Int(ReadInt(e, s[..4])), s[4..]))
    case I64Format => if |s| < 8 then None else Some((Int(ReadInt(e, s[..8])), s[8..]))
    case F64Format => if |s| < 8 then None else Some((Bits(Number(Ordered(e, s[..8]))), s[8..]))
    case TextFormat =>
      if |s| < 4 then None
      else
        var n := ReadInt(e, s[..4]);
        if n < 0 || |s| - 4 < n || !ValidUtf8(s[4..4 + n]) then None else Some((Text(s[4..4 + n]), s[4 + n..]))
    case EnumFormat(variants) =>
      if |s| < 4 then None
      else
        var n := ReadInt(e, s[..4]);
        if 0 <= n < variants then Some((Variant(n), s[4..])) else None
    case OptionFormat(item) =>
      if |s| < 1 then None
      else if s[0] == 0 then Some((Nothing, s[1..]))
      else
        var r := Decode(e, item, s[1..]);
        if r.None? then None else Some((Just(r.value.0), r.value.1))
    case ListFormat(element) =>
      if |s| < 4 then None
      else
        var n := ReadInt(e, s[..4]);
        if n < 0 then None
        else
          var r := DecodeItems(e, element, n, s[4..]);
          if r.None? then None else Some((List(r.value.0), r.value.1))
    case StructFormat(fields) =>
      var r := DecodeParts(e, fields, |fields|, s);
      if r.None? then None else Some((Struct(r.value.0), r.value.1))
  }

  function DecodeItems(e: Endian, element: Format, k: nat, s: seq<Byte>): Option<(seq<Value>, seq<Byte>)>
    decreases element, 1, k
  {
    if k == 0 then Some(([], s))
    else
      var before := DecodeItems(e, element, k - 1, s);
      if before.None? then None
      else
        var last := Decode(e, element, before.value.1);
        if last.None? then None else Some((before.value.0 + [last.value.0], last.value.1))
  }

  function DecodeParts(e: Endian, fields: seq<Format>, k: nat, s: seq<Byte>): Option<(seq<Value>, seq<Byte>)>
    requires k <= |fields|
    decreases fields, 1, k
  {
    if k == 0 then Some(([], s))
    else
      var before := DecodeParts(e, fields, k - 1, s);
      if before.None? then None
      else
        var last := Decode(e, fields[k - 1], before.value.1);
        if last.None? then None else Some((before.value.0 + [last.value.0], last.value.1))
  }

  // ----- round trips -----

  lemma LengthRoundTrip(e: Endian, n: nat)
    requires n < I32_LIMIT
    ensures ReadInt(e, Length(e, n)) == n
  {
    PowerOf4();
    assert Length(e, n) == WriteInt(e, n, 4);
    IntRoundTrip(e, n, 4);
  }

  lemma Front(s: seq<Byte>, t: seq<Byte>)
    ensures (s + t)[..|s|] == s && (s + t)[|s|..] == t
  {
  }

  lemma PrimitiveRoundTrip(e: Endian, f: Format, v: Value, suffix: seq<Byte>)
    requires Typed(f, v) && (f.BoolFormat? || f.I32Format? || f.I64Format? || f.F64Format? || f.EnumFormat?)
    ensures Decode(e, f, Encode(e, f, v) + suffix) == Some((v, suffix))
  {
    Front(Encode(e, f, v), suffix);
    match f {
      case BoolFormat =>
      case I32Format => IntRoundTrip(e, v.n, 4);
      case I64Format => IntRoundTrip(e, v.n, 8);
      case F64Format =>
        OrderedTwice(e, LowBytes(v.bits, 8));
        NumberOfBytes(v.bits, 8);
      case EnumFormat(_) => IntRoundTrip(e, v.index, 4);
    }
  }

  lemma TextRoundTrip(e: Endian, v: Value, suffix: seq<Byte>)
    requires Typed(TextFormat, v) && Short(v)
    ensures Decode(e, TextFormat, Encode(e, TextFormat, v) + suffix) == Some((v, suffix))
  {
    LengthRoundTrip(e, |v.bytes|);
    Middle(Length(e, |v.bytes|), v.bytes, suffix);
  }

  lemma Middle(s: seq<Byte>, t: seq<Byte>, u: seq<Byte>)
    ensures var all := s + t + u;
            all[..|s|] == s && all[|s|..|s| + |t|] == t && all[|s| + |t|..] == u
  {
  }

  /** An option comes back if what follows its flag does. */
  lemma AfterFlag(e: Endian, item: Format, v: Value, suffix: seq<Byte>)
    requires Typed(OptionFormat(item), v)
    requires v.Just? ==> Decode(e, item, Encode(e, item, v.value) + suffix) == Some((v.value, suffix))
    ensures Decode(e, OptionFormat(item), Encode(e, OptionFormat(item), v) + suffix) == Some((v, suffix))
  {
    if v.Just? {
      Joined([1], Encode(e, item, v.value), suffix);
      Front([1], Encode(e, item, v.value) + suffix);
    } else {
      Front([0], suffix);
    }
  }

  /** A list comes back if its items do. */
  lemma AfterLength(e: Endian, element: Format, v: Value, suffix: seq<Byte>)
    requires Typed(ListFormat(element), v) && |v.items| < I32_LIMIT
    requires DecodeItems(e, element, |v.items|, EncodeItems(e, element, v.items, |v.items|) + suffix) == Some((v.items, suffix))
    ensures Decode(e, ListFormat(element), Encode(e, ListFormat(element), v) + suffix) == Some((v, suffix))
  {
    var length, s := Length(e, |v.items|), EncodeItems(e, element, v.items, |v.items|);
    Joined(length, s, suffix);
    Front(length, s + suffix);
    LengthRoundTrip(e, |v.items|);
  }

  /** Decoding an encoding, followed by anything, gives the value and exactly what follows. */
  lemma {:induction false} RoundTrip(e: Endian, f: Format, v: Value, suffix: seq<Byte>)
    requires Typed(f, v) && Short(v)
    ensures Decode(e, f, Encode(e, f, v) + suffix) == Some((v, suffix))
    decreases v, 0
  {
    match f {
      case TextFormat => TextRoundTrip(e, v, suffix);
      case OptionFormat(item) =>
        if v.Just? {
          RoundTrip(e, item, v.value, suffix);
        }
        AfterFlag(e, item, v, suffix);
      case ListFormat(element) =>
        ItemsRoundTrip(e, element, v.items, |v.items|, suffix);
        assert v.items[..|v.items|] == v.items;
        AfterLength(e, element, v, suffix);
      case StructFormat(fields) =>
        PartsRoundTrip(e, fields, v.parts, |fields|, suffix);
        assert v.parts[..|fields|] == v.parts;
      case _ => PrimitiveRoundTrip(e, f, v, suffix);
    }
  }

  lemma Joined(s: seq<Byte>, t: seq<Byte>, u: seq<Byte>)
    ensures s + t + u == s + (t + u)
  {
  }

  lemma OneMore(values: seq<Value>, k: nat)
    requires 0 < k <= |values|
    ensures values[..k] == values[..k - 1] + [values[k - 1]]
  {
  }

  lemma DecodeItemsNext(e: Endian, element: Format, k: nat, s: seq<Byte>, rest: seq<Byte>, before: seq<Value>,
                       v: Value, suffix: seq<Byte>)
    requires k > 0 && DecodeItems(e, element, k - 1, s) == Some((before, rest)) && Decode(e, element, rest) == Some((v, suffix))
    ensures DecodeItems(e, element, k, s) == Some((before + [v], suffix))
  {
  }

  lemma {:induction false} ItemsRoundTrip(e: Endian, element: Format, items: seq<Value>, k: nat, suffix: seq<Byte>)
    requires TypedItems(element, items) && AllShort(items) && k <= |items|
    ensures DecodeItems(e, element, k, EncodeItems(e, element, items, k) + suffix) == Some((items[..k], suffix))
    decreases items, 1, k
  {
    if k == 0 {
      assert [] + suffix == suffix;
    } else {
      var s, last := EncodeItems(e, element, items, k - 1), Encode(e, element, items[k - 1]);
      assert DecodeItems(e, element, k, s + (last + suffix)) == Some((items[..k - 1] + [items[k - 1]], suffix)) by {
        ItemsRoundTrip(e, element, items, k - 1, last + suffix);
        RoundTrip(e, element, items[k - 1], suffix);
        DecodeItemsNext(e, element, k, s + (last + suffix), last + suffix, items[..k - 1], items[k - 1], suffix);
      }
      Joined(s, last, suffix);
      OneMore(items, k);
    }
  }

  lemma DecodePartsNext(e: Endian, fields: seq<Format>, k: nat, s: seq<Byte>, rest: seq<Byte>, before: seq<Value>,
                       v: Value, suffix: seq<Byte>)
    requires 0 < k <= |fields| && DecodeParts(e, fields, k - 1, s) == Some((before, rest)) && Decode(e, fields[k - 1], rest) == Some((v, suffix))
    ensures DecodeParts(e, fields, k, s) == Some((before + [v], suffix))
  {
  }

  lemma {:induction false} PartsRoundTrip(e: Endian, fields: seq<Format>, parts: seq<Value>, k: nat, suffix: seq<Byte>)
    requires TypedParts(fields, parts) && AllShort(parts) && k <= |fields|
    ensures DecodeParts(e, fields, k, EncodeParts(e, fields, parts, k) + suffix) == Some((parts[..k], suffix))
    decreases parts, 1, k
  {
    if k == 0 {
      assert [] + suffix == suffix;
    } else {
      var s, last := EncodeParts(e, fields, parts, k - 1), Encode(e, fields[k - 1], parts[k - 1]);
      assert DecodeParts(e, fields, k, s + (last + suffix)) == Some((parts[..k - 1] + [parts[k - 1]], suffix)) by {
        PartsRoundTrip(e, fields, parts, k - 1, last + suffix);
        RoundTrip(e, fields[k - 1], parts[k - 1], suffix);
        DecodePartsNext(e, fields, k, s + (last + suffix), last + suffix, parts[..k - 1], parts[k - 1], suffix);
      }
      Joined(s, last, suffix);
      OneMore(parts, k);
    }
  }

  // ----- what comes out of decoding -----

  /** Whatever is decoded is a value of the type, and short. */
  lemma {:induction false} DecodedIsShort(e: Endian, f: Format, s: seq<Byte>)
    requires Decode(e, f, s).Some?
    ensures Typed(f, Decode(e, f, s).value.0) && Short(Decode(e, f, s).value.0)
    decreases f, 0
  {
    match f {
      case BoolFormat =>
      case I32Format => ReadInRange(e, s[..4]);
      case I64Format => ReadInRange(e, s[..8]);
      case F64Format => NumberIsSmall(Ordered(e, s[..8]));
      case TextFormat =>
        ReadInRange(e, s[..4]);
        PowerOf4();
      case EnumFormat(_) => ReadInRange(e, s[..4]);
      case OptionFormat(item) =>
        if s[0] != 0 {
          DecodedIsShort(e, item, s[1..]);
        }
      case ListFormat(element) =>
        ReadInRange(e, s[..4]);
        PowerOf4();
        DecodedItemsAreShort(e, element, ReadInt(e, s[..4]), s[4..]);
      case StructFormat(fields) =>
        DecodedPartsAreShort(e, fields, |fields|, s);
        assert fields[..|fields|] == fields;
    }
  }

  lemma {:induction false} DecodedItemsAreShort(e: Endian, element: Format, k: nat, s: seq<Byte>)
    requires DecodeItems(e, element, k, s).Some?
    ensures var items := DecodeItems(e, element, k, s).value.0;
            |items| == k && TypedItems(element, items) && AllShort(items)
    decreases element, 1, k
  {
    if k > 0 {
      DecodedItemsAreShort(e, element, k - 1, s);
      DecodedIsShort(e, element, DecodeItems(e, element, k - 1, s).value.1);
    }
  }

  lemma OnePartMore(fields: seq<Format>, k: nat, before: seq<Value>, v: Value)
    requires 0 < k <= |fields| && TypedParts(fields[..k - 1], before) && AllShort(before)
    requires Typed(fields[k - 1], v) && Short(v)
    ensures TypedParts(fields[..k], before + [v]) && AllShort(before + [v])
  {
    var parts := before + [v];
    forall i | 0 <= i < k ensures Typed(fields[..k][i], parts[i]) && Short(parts[i]) {
      if i < k - 1 {
        assert fields[..k][i] == fields[..k - 1][i] && parts[i] == before[i];
        assert Typed(fields[..k - 1][i], before[i]);
      }
    }
  }

  lemma {:induction false} DecodedPartsAreShort(e: Endian, fields: seq<Format>, k: nat, s: seq<Byte>)
    requires k <= |fields| && DecodeParts(e, fields, k, s).Some?
    ensures var parts := DecodeParts(e, fields, k, s).value.0;
            TypedParts(fields[..k], parts) && AllShort(parts)
    decreases fields, 1, k
  {
    if k > 0 {
      DecodedPartsAreShort(e, fields, k - 1, s);
      var (before, rest) := DecodeParts(e, fields, k - 1, s).value;
      DecodedIsShort(e, fields[k - 1], rest);
      OnePartMore(fields, k, before, Decode(e, fields[k - 1], rest).value.0);
    }
  }

  /** A value comes back exactly if all its lists and texts are shorter than 2^31: a longer one's
      length does not survive. */
  lemma RoundTripsExactly(e: Endian, f: Format, v: Value, suffix: seq<Byte>)
    requires Typed(f, v)
    ensures Decode(e, f, Encode(e, f, v) + suffix) == Some((v, suffix)) <==> Short(v)
  {
    var s := Encode(e, f, v) + suffix;
    if Short(v) {
      RoundTrip(e, f, v, suffix);
    } else if Decode(e, f, s).Some? {
      DecodedIsShort(e, f, s);
    }
  }

  /** A list of 2^31 texts does not come back. */
  lemma LongListIsLost(e: Endian, suffix: seq<Byte>)
    ensures var v := List(seq(I32_LIMIT, _ => Text([])));
            Typed(ListFormat(TextFormat), v)
            && Decode(e, ListFormat(TextFormat), Encode(e, ListFormat(TextFormat), v) + suffix) != Some((v, suffix))
  {
    var v := List(seq(I32_LIMIT, _ => Text([])));
    assert TypedItems(TextFormat, v.items);
    assert !Short(v);
    RoundTripsExactly(e, ListFormat(TextFormat), v, suffix);
  }

  function Letters(n: nat): (s: seq<Byte>)
    ensures |s| == n && ValidUtf8(s)
  {
    if n == 0 then []
    else
      var s := [0x61] + Letters(n - 1);
      assert s[1..] == Letters(n - 1);
      s
  }

  /** Neither does a text of 2^31 bytes, or any longer one. */
  lemma LongTextIsLost(e: Endian, n: nat, suffix: seq<Byte>)
    requires n >= I32_LIMIT
    ensures var v := Text(Letters(n));
            Typed(TextFormat, v) && Decode(e, TextFormat, Encode(e, TextFormat, v) + suffix) != Some((v, suffix))
  {
    var v := Text(Letters(n));
    assert Typed(TextFormat, v) && !Short(v);
    RoundTripsExactly(e, TextFormat, v, suffix);
  }

  // ----- the cursors -----

  class Serializer {
    const endian: Endian
    var bytes: seq<Byte>

    constructor (endian: Endian)
      ensures this.endian == endian && bytes == []
    {
      this.endian, bytes := endian, [];
    }

    method Write(f: Format, v: Value)
      requires Typed(f, v)
      modifies this
      ensures bytes == old(bytes) + Encode(endian, f, v)
      decreases v, 0
    {
      match f {
        case OptionFormat(item) =>
          bytes := bytes + [if v.Just? then 1 else 0];
          if v.Just? {
            Joined(old(bytes), [1], Encode(endian, item, v.value));
            Write(item, v.value);
          }
        case ListFormat(element) =>
          Joined(bytes, Length(endian, |v.items|), EncodeItems(endian, element, v.items, |v.items|));
          bytes := bytes + Length(endian, |v.items|);
          WriteItems(element, v.items);
        case StructFormat(fields) => WriteParts(fields, v.parts);
        case _ => WritePrimitive(f, v);
      }
    }

    method WritePrimitive(f: Format, v: Value)
      requires Typed(f, v) && !f.ListFormat? && !f.StructFormat? && !f.OptionFormat?
      modifies this
      ensures bytes == old(bytes) + Encode(endian, f, v)
    {
      match f {
        case BoolFormat => bytes := bytes + [if v.b then 1 else 0];
        case I32Format => bytes := bytes + WriteInt(endian, v.n, 4);
        case I64Format => bytes := bytes + WriteInt(endian, v.n, 8);
        case F64Format => bytes := bytes + Ordered(endian, LowBytes(v.bits, 8));
        case EnumFormat(_) => bytes := bytes + WriteInt(endian, v.index, 4);
        case TextFormat =>
          Joined(bytes, Length(endian, |v.bytes|), v.bytes);
          bytes := bytes + Length(endian, |v.bytes|) + v.bytes;
      }
    }

    method WriteItems(element: Format, items: seq<Value>)
      requires TypedItems(element, items)
      modifies this
      ensures bytes == old(bytes) + EncodeItems(endian, element, items, |items|)
      decreases items, 1
    {
      for i := 0 to |items|
        invariant bytes == old(bytes) + EncodeItems(endian, element, items, i)
      {
        Joined(old(bytes), EncodeItems(endian, element, items, i), Encode(endian, element, items[i]));
        Write(element, items[i]);
      }
    }

    method WriteParts(fields: seq<Format>, parts: seq<Value>)
      requires TypedParts(fields, parts)
      modifies this
      ensures bytes == old(bytes) + EncodeParts(endian, fields, parts, |fields|)
      decreases parts, 1
    {
      for i := 0 to |fields|
        invariant bytes == old(bytes) + EncodeParts(endian, fields, parts, i)
      {
        Joined(old(bytes), EncodeParts(endian, fields, parts, i), Encode(endian, fields[i], parts[i]));
        Write(fields[i], parts[i]);
      }
    }
  }

  class Deserializer {
    const endian: Endian
    var bytes: seq<Byte>

    constructor (endian: Endian, bytes: seq<Byte>)
      ensures this.endian == endian && this.bytes == bytes
    {
      this.endian, this.bytes := endian, bytes;
    }

    method ReadBytes(k: nat) returns (r: Option<seq<Byte>>)
      modifies this
      ensures r.Some? <==> k <= |old(bytes)|
      ensures r.Some? ==> r.value == old(bytes)[..k] && bytes == old(bytes)[k..]
    {
      if |bytes| < k {
        return None;
      }
      r, bytes := Some(bytes[..k]), bytes[k..];
    }

    method Read(f: Format) returns (r: Option<Value>)
      modifies this
      ensures r.Some? <==> Decode(endian, f, old(bytes)).Some?
      ensures r.Some? ==> (r.value, bytes) == Decode(endian, f, old(bytes)).value
      decreases f, 0
    {
      match f {
        case ListFormat(element) => r := ReadList(element);
        case StructFormat(fields) => r := ReadStruct(fields);
        case OptionFormat(item) =>
          var flag := ReadBytes(1);
          if flag.None? {
            return None;
          }
          if flag.value[0] == 0 {
            return Some(Nothing);
          }
          var value := Read(item);
          r := if value.None? then None else Some(Just(value.value));
        case _ => r := ReadPrimitive(f);
      }
    }

    method ReadPrimitive(f: Format) returns (r: Option<Value>)
      requires !f.ListFormat? && !f.StructFormat? && !f.OptionFormat?
      modifies this
      ensures r.Some? <==> Decode(endian, f, old(bytes)).Some?
      ensures r.Some? ==> (r.value, bytes) == Decode(endian, f, old(bytes)).value
    {
      var read := ReadBytes(if f.BoolFormat? then 1 else if f.I64Format? || f.F64Format? then 8 else 4);
      if read.None? {
        return None;
      }
      var s := read.value;
      match f {
        case BoolFormat => r := Some(Bool(s[0] != 0));
        case I32Format => r := Some(Int(ReadInt(endian, s)));
        case I64Format => r := Some(Int(ReadInt(endian, s)));
        case F64Format => r := Some(Bits(Number(Ordered(endian, s))));
        case EnumFormat(variants) =>
          var n := ReadInt(endian, s);
          r := if 0 <= n < variants then Some(Variant(n)) else None;
        case TextFormat =>
          var n := ReadInt(endian, s);
          if n < 0 {
            return None;
          }
          var text := ReadBytes(n);
          assert text.Some? ==> text.value == old(bytes)[4..4 + n] && bytes == old(bytes)[4 + n..];
          r := if text.Some? && ValidUtf8(text.value) then Some(Text(text.value)) else None;
      }
    }

    method ReadList(element: Format) returns (r: Option<Value>)
      modifies this
      ensures r.Some? <==> Decode(endian, ListFormat(element), old(bytes)).Some?
      ensures r.Some? ==> (r.value, bytes) == Decode(endian, ListFormat(element), old(bytes)).value
      decreases element, 2
    {
      var length := ReadBytes(4);
      if length.None? {
        return None;
      }
      var n := ReadInt(endian, length.value);
      if n < 0 {
        return None;
      }
      var items := ReadItems(element, n);
      r := if items.None? then None else Some(List(items.value));
    }

    method ReadItems(element: Format, n: nat) returns (r: Option<seq<Value>>)
      modifies this
      ensures r.Some? <==> DecodeItems(endian, element, n, old(bytes)).Some?
      ensures r.Some? ==> (r.value, bytes) == DecodeItems(endian, element, n, old(bytes)).value
      decreases element, 1
    {
      var items: seq<Value> := [];
      for i := 0 to n
        invariant DecodeItems(endian, element, i, old(bytes)) == Some((items, bytes))
      {
        ghost var rest := bytes;
        var item := Read(element);
        if item.None? {
          ItemsStop(endian, element, i + 1, n, old(bytes));
          return None;
        }
        DecodeItemsNext(endian, element, i + 1, old(bytes), rest, items, item.value, bytes);
        items := items + [item.value];
      }
      r := Some(items);
    }

    method ReadStruct(fields: seq<Format>) returns (r: Option<Value>)
      modifies this
      ensures r.Some? <==> Decode(endian, StructFormat(fields), old(bytes)).Some?
      ensures r.Some? ==> (r.value, bytes) == Decode(endian, StructFormat(fields), old(bytes)).value
      decreases fields, 1
    {
      var parts: seq<Value> := [];
      for i := 0 to |fields|
        invariant DecodeParts(endian, fields, i, old(bytes)) == Some((parts, bytes))
      {
        var part := Read(fields[i]);
        if part.None? {
          PartsStop(endian, fields, i + 1, |fields|, old(bytes));
          return None;
        }
        parts := parts + [part.value];
      }
      r := Some(Struct(parts));
    }
  }

  /** Once an item cannot be read, the list cannot. */
  lemma {:induction false} ItemsStop(e: Endian, element: Format, k: nat, n: nat, s: seq<Byte>)
    requires k <= n && DecodeItems(e, element, k, s).None?
    ensures DecodeItems(e, element, n, s).None?
    decreases n
  {
    if k < n {
      ItemsStop(e, element, k, n - 1, s);
    }
  }

  lemma {:induction false} PartsStop(e: Endian, fields: seq<Format>, k: nat, n: nat, s: seq<Byte>)
    requires k <= n <= |fields| && DecodeParts(e, fields, k, s).None?
    ensures DecodeParts(e, fields, n, s).None?
    decreases n
  {
    if k < n {
      PartsStop(e, fields, k, n - 1, s);
    }
  }
}
