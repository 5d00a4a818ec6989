/** UTF-8 as section 3 of RFC 3629 has it, and what the wire format reads as text. */
module Utf8 {
  import opened Sequences
  import opened Codec

  /** How many bytes a character takes. */
  function CharBytes(c: char): (n: nat)
    ensures 1 <= n <= 4
  {
    if c as int < 0x80 then 1 else if c as int < 0x800 then 2 else if c as int < 0x1_0000 then 3 else 4
  }

  /** A character's bytes: its bits, six in each byte but the first. */
  function OfChar(c: char): (s: seq<Byte>)
    ensures |s| == CharBytes(c)
  {
    var n := c as int;
    if n < 0x80 then [n]
    else if n < 0x800 then [0xC0 + n / 64, 0x80 + n % 64]
    else if n < 0x1_0000 then [0xE0 + n / 4096, 0x80 + n / 64 % 64, 0x80 + n % 64]
    else [0xF0 + n / 0x4_0000, 0x80 + n / 4096 % 64, 0x80 + n / 64 % 64, 0x80 + n % 64]
  }

  function OfText(text: string): seq<Byte> {
    if text == [] then [] else OfChar(text[0]) + OfText(text[1..])
  }

  // ----- bits in sixes -----

  lemma TwoBytes(n: int)
    requires 0x80 <= n < 0x800
    ensures 2 <= n / 64 < 32
  {
  }

  /** Not below what two bytes hold, and not among the surrogates. */
  lemma ThreeBytes(n: int)
    requires 0x800 <= n < 0xD800 || 0xE000 <= n < 0x1_0000
    ensures 0 <= n / 4096 < 16 && (n / 4096 == 0 ==> n / 64 % 64 >= 32) && (n / 4096 == 13 ==> n / 64 % 64 < 32)
  {
    var q := n / 64;
    assert n / 4096 == q / 64;
    assert q == q / 64 * 64 + q % 64;
  }

  lemma FourBytes(n: int)
    requires 0x1_0000 <= n < 0x11_0000
    ensures 0 <= n / 0x4_0000 < 5 && (n / 0x4_0000 == 0 ==> n / 4096 % 64 >= 16) && (n / 0x4_0000 == 4 ==> n / 4096 % 64 < 16)
  {
    var q := n / 4096;
    assert n / 0x4_0000 == q / 64;
    assert q == q / 64 * 64 + q % 64;
  }

  lemma FromTwo(a: int, b: int)
    requires 0 <= a && 0 <= b < 64
    ensures var n := a * 64 + b; n / 64 == a && n % 64 == b
  {
  }

  lemma FromThree(a: int, b: int, c: int)
    requires 0 <= a && 0 <= b < 64 && 0 <= c < 64
    ensures var n := a * 4096 + b * 64 + c; n / 4096 == a && n / 64 % 64 == b && n % 64 == c
  {
    var n := a * 4096 + b * 64 + c;
    FromTwo(a * 64 + b, c);
    FromTwo(a, b);
    assert n / 4096 == n / 64 / 64;
  }

  lemma FromFour(a: int, b: int, c: int, d: int)
    requires 0 <= a && 0 <= b < 64 && 0 <= c < 64 && 0 <= d < 64
    ensures var n := a * 0x4_0000 + b * 4096 + c * 64 + d;
            n / 0x4_0000 == a && n / 4096 % 64 == b && n / 64 % 64 == c && n % 64 == d
  {
    var n := a * 0x4_0000 + b * 4096 + c * 64 + d;
    FromThree(a * 64 + b, c, d);
    FromTwo(a, b);
    assert n / 0x4_0000 == n / 4096 / 64;
  }

  // ----- texts -----

  lemma OneCharacter(c: char, rest: seq<Byte>)
    ensures CharacterLength(OfChar(c) + rest) == CharBytes(c)
  {
    var n, s := c as int, OfChar(c) + rest;
    assert forall i | 0 <= i < |OfChar(c)| :: s[i] == OfChar(c)[i];
    if 0x80 <= n < 0x800 {
      TwoBytes(n);
    } else if 0x800 <= n < 0x1_0000 {
      ThreeBytes(n);
    } else if 0x1_0000 <= n {
      FourBytes(n);
    }
  }

  lemma {:induction false} TextIsValid(text: string)
    ensures ValidUtf8(OfText(text))
  {
    if text != [] {
      var rest := OfText(text[1..]);
      TextIsValid(text[1..]);
      OneCharacter(text[0], rest);
      assert (OfChar(text[0]) + rest)[|OfChar(text[0])|..] == rest;
    }
  }

  /** The low six bits of a byte that continues a character. */
  function Six(b: Byte): int {
    b as int - 0x80
  }

  /** The number of the character whose bytes stand at the front. */
  function NumberAt(s: seq<Byte>): int
    requires CharacterLength(s) > 0
  {
    match CharacterLength(s)
    case 1 => s[0] as int
    case 2 => (s[0] as int - 0xC0) * 64 + Six(s[1])
    case 3 => (s[0] as int - 0xE0) * 4096 + Six(s[1]) * 64 + Six(s[2])
    case _ => (s[0] as int - 0xF0) * 0x4_0000 + Six(s[1]) * 4096 + Six(s[2]) * 64 + Six(s[3])
  }

  lemma NumberIsChar(s: seq<Byte>)
    requires CharacterLength(s) > 0
    ensures var n := NumberAt(s); 0 <= n < 0xD800 || 0xE000 <= n < 0x11_0000
  {
  }

  lemma CharAtFront(s: seq<Byte>) returns (c: char)
    requires CharacterLength(s) > 0
    ensures OfChar(c) == s[..CharacterLength(s)]
  {
    NumberIsChar(s);
    c := NumberAt(s) as char;
    match CharacterLength(s) {
      case 1 =>
      case 2 => FromTwo(s[0] as int - 0xC0, Six(s[1]));
      case 3 => FromThree(s[0] as int - 0xE0, Six(s[1]), Six(s[2]));
      case _ => FromFour(s[0] as int - 0xF0, Six(s[1]), Six(s[2]), Six(s[3]));
    }
  }

  lemma {:induction false} ValidIsText(s: seq<Byte>) returns (text: string)
    requires ValidUtf8(s)
    ensures OfText(text) == s
    decreases |s|
  {
    if s == [] {
      text := [];
    } else {
      var n := CharacterLength(s);
      var rest := ValidIsText(s[n..]);
      var c := CharAtFront(s);
      text := [c] + rest;
      assert text[1..] == rest && s == s[..n] + s[n..];
    }
  }

  /** Exactly the bytes of texts are read as text. */
  lemma ValidExactly(s: seq<Byte>)
    ensures ValidUtf8(s) <==> exists text :: OfText(text) == s
  {
    if ValidUtf8(s) {
      var text := ValidIsText(s);
    }
    if text :| OfText(text) == s {
      TextIsValid(text);
    }
  }
}
