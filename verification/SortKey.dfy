/** Fractional sort keys: a head that tells how many digits the whole part has, the digits, and a
    fraction in base 62, which may be empty and does not end in `0`. */
module SortKey {
  import opened Wrappers
  import opened Order

  function Repeat(c: char, n: nat): (s: string)
    ensures |s| == n && forall i | 0 <= i < n :: s[i] == c
  {
    seq(n, _ => c)
  }

  /** `A` and twenty-six zeros. */
  const SMALLEST: string := ['A'] + Repeat('0', 26)

  predicate IsDigit(c: char) {
    '0' <= c <= '9' || 'A' <= c <= 'Z' || 'a' <= c <= 'z'
  }

  function Value(c: char): (v: nat)
    ensures v < 62
  {
    if '0' <= c <= '9' then c as int - 48
    else if 'A' <= c <= 'Z' then c as int - 55
    else if 'a' <= c <= 'z' then c as int - 61
    else 0
  }

  function Digit(v: nat): (c: char)
    requires v < 62
    ensures IsDigit(c) && Value(c) == v
  {
    if v < 10 then (48 + v) as char else if v < 36 then (55 + v) as char else (61 + v) as char
  }

  /** Text order on digits is their numeric order. */
  lemma DigitOrder(c: char, d: char)
    requires IsDigit(c) && IsDigit(d)
    ensures c < d <==> Value(c) < Value(d)
    ensures c == Digit(Value(c))
  {
  }

  predicate Digits(s: string) {
    forall i | 0 <= i < |s| :: IsDigit(s[i])
  }

  /** A fraction: digits that do not end in `0`. */
  predicate IsFraction(s: string) {
    Digits(s) && (s != [] ==> s[|s| - 1] != '0')
  }

  predicate IsHead(c: char) {
    'a' <= c <= 'z' || 'A' <= c <= 'Z'
  }

  function IntegerLength(head: char): (n: nat)
    requires IsHead(head)
  {
    if 'a' <= head <= 'z' then head as int - 'a' as int + 2 else 'Z' as int - head as int + 2
  }

  /** An integer part on its own. */
  predicate IsInteger(s: string) {
    s != [] && IsHead(s[0]) && |s| == IntegerLength(s[0]) && Digits(s[1..])
  }

  /** The integer part of a valid key. */
  function Integer(key: string): (r: Option<string>)
    ensures r.Some? ==> IsInteger(r.value) && r.value <= key && IsFraction(key[|r.value|..])
    ensures r.Some? ==> Less(SMALLEST, key)
  {
    if key == [] || !IsHead(key[0]) || |key| < IntegerLength(key[0]) then None
    else
      var length := IntegerLength(key[0]);
      var fraction := key[length..];
      if key != SMALLEST && Digits(key[1..]) && (fraction == [] || fraction[|fraction| - 1] != '0') then
        assert forall i | 0 <= i < |fraction| :: fraction[i] == key[1..][length - 1 + i];
        SmallestIsLeast(key);
        Some(key[..length])
      else None
  }

  predicate Valid(key: string) {
    Integer(key).Some?
  }

  lemma SmallestIsLeast(key: string)
    requires key != [] && IsHead(key[0]) && |key| >= IntegerLength(key[0]) && Digits(key[1..])
    requires key != SMALLEST
    ensures Less(SMALLEST, key)
  {
    if key[0] == 'A' {
      ZerosAreLeast(key[1..], 26);
      assert SMALLEST[1..] == Repeat('0', 26);
    }
  }

  lemma {:induction false} ZerosAreLeast(s: string, n: nat)
    requires Digits(s) && |s| >= n && s != Repeat('0', n)
    ensures Less(Repeat('0', n), s)
  {
    var zeros := Repeat('0', n);
    if n > 0 && s[0] == '0' {
      var fewer := Repeat('0', n - 1);
      assert zeros[1..] == fewer;
      assert s == ['0'] + s[1..] && zeros == ['0'] + fewer;
      ZerosAreLeast(s[1..], n - 1);
    }
  }

  // ----- whole numbers -----

  datatype Carried = Carried(digits: string, carry: bool)

  /** Adds one in base 62; `carry` if every digit was the largest. */
  function AddOne(digits: string): (r: Carried) {
    if digits == [] then Carried([], true)
    else
      var last := |digits| - 1;
      if digits[last] == 'z' then
        var rest := AddOne(digits[..last]);
        Carried(rest.digits + ['0'], rest.carry)
      else Carried(digits[..last] + [Digit((Value(digits[last]) + 1) % 62)], false)
  }

  /** Takes one away in base 62; `carry` if every digit was `0`. */
  function TakeOne(digits: string): (r: Carried) {
    if digits == [] then Carried([], true)
    else
      var last := |digits| - 1;
      if digits[last] == '0' then
        var rest := TakeOne(digits[..last]);
        Carried(rest.digits + ['z'], rest.carry)
      else Carried(digits[..last] + [Digit((Value(digits[last]) + 61) % 62)], false)
  }

  /** The next integer part, or none after the largest. */
  function Increment(whole: string): Option<string>
    requires IsInteger(whole)
  {
    var head, next := whole[0], AddOne(whole[1..]);
    if !next.carry then Some([head] + next.digits)
    else if head == 'Z' then Some("a0")
    else if head == 'z' then None
    else if head >= 'a' then Some([head + 1 as char] + (next.digits + ['0']))
    else if next.digits == [] then None
    else Some([head + 1 as char] + next.digits[..|next.digits| - 1])
  }

  /** The integer part before, or none before the smallest. */
  function Decrement(whole: string): Option<string>
    requires IsInteger(whole)
  {
    var head, next := whole[0], TakeOne(whole[1..]);
    if !next.carry then Some([head] + next.digits)
    else if head == 'a' then Some("Zz")
    else if head == 'A' then None
    else if head <= 'Z' then Some([head - 1 as char] + (next.digits + ['z']))
    else if next.digits == [] then None
    else Some([head - 1 as char] + next.digits[..|next.digits| - 1])
  }

  /** A last digit that is not `z` goes up by one. */
  lemma AddToLast(init: string, c: char)
    requires Digits(init + [c]) && IsDigit(c) && c != 'z'
    ensures var r := AddOne(init + [c]);
            |r.digits| == |init| + 1 && Digits(r.digits) && !r.carry && Less(init + [c], r.digits)
  {
    assert (init + [c])[..|init|] == init;
    DigitOrder(c, 'z');
    var next := Digit((Value(c) + 1) % 62);
    DigitOrder(c, next);
    LessAfterPrefix(init, [c], [next]);
  }

  /** A last digit `z` carries to the others. */
  lemma AddToOthers(init: string)
    requires Digits(init) && var r := AddOne(init); |r.digits| == |init| && Digits(r.digits)
    requires !AddOne(init).carry ==> Less(init, AddOne(init).digits)
    ensures var r := AddOne(init + ['z']);
            |r.digits| == |init| + 1 && Digits(r.digits) && r.carry == AddOne(init).carry &&
            r.digits == AddOne(init).digits + ['0'] && (!r.carry ==> Less(init + ['z'], r.digits))
  {
    var digits := AddOne(init).digits;
    assert AddOne(init + ['z']) == Carried(digits + ['0'], AddOne(init).carry) by {
      assert (init + ['z'])[..|init|] == init;
    }
    if !AddOne(init).carry {
      SuffixKeepsOrder(init, digits, ['z'], ['0']);
    }
  }

  lemma {:induction false} AddOneGrows(digits: string)
    requires Digits(digits)
    ensures var r := AddOne(digits);
            |r.digits| == |digits| && Digits(r.digits) &&
            (r.carry ==> digits == Repeat('z', |digits|) && r.digits == Repeat('0', |digits|)) &&
            (!r.carry ==> Less(digits, r.digits))
  {
    if digits != [] {
      var init, c := digits[..|digits| - 1], digits[|digits| - 1];
      assert digits == init + [c];
      if c == 'z' {
        AddOneGrows(init);
        AddToOthers(init);
        if AddOne(init).carry {
          MoreOfSame(init, 'z');
          MoreOfSame(AddOne(init).digits, '0');
        }
      } else {
        AddToLast(init, c);
      }
    }
  }

  /** A last digit that is not `0` goes down by one. */
  lemma TakeFromLast(init: string, c: char)
    requires Digits(init + [c]) && IsDigit(c) && c != '0'
    ensures var r := TakeOne(init + [c]);
            |r.digits| == |init| + 1 && Digits(r.digits) && !r.carry && Less(r.digits, init + [c])
  {
    assert (init + [c])[..|init|] == init;
    DigitOrder('0', c);
    var next := Digit((Value(c) + 61) % 62);
    DigitOrder(next, c);
    LessAfterPrefix(init, [next], [c]);
  }

  /** A last digit `0` borrows from the others. */
  lemma TakeFromOthers(init: string)
    requires Digits(init) && var r := TakeOne(init); |r.digits| == |init| && Digits(r.digits)
    requires !TakeOne(init).carry ==> Less(TakeOne(init).digits, init)
    ensures var r := TakeOne(init + ['0']);
            |r.digits| == |init| + 1 && Digits(r.digits) && r.carry == TakeOne(init).carry &&
            (!r.carry ==> Less(r.digits, init + ['0']))
  {
    var digits := TakeOne(init).digits;
    assert TakeOne(init + ['0']) == Carried(digits + ['z'], TakeOne(init).carry) by {
      assert (init + ['0'])[..|init|] == init;
    }
    if !TakeOne(init).carry {
      SuffixKeepsOrder(digits, init, ['z'], ['0']);
    }
  }

  lemma MoreOfSame(s: string, c: char)
    requires s == Repeat(c, |s|)
    ensures s + [c] == Repeat(c, |s| + 1)
  {
  }

  lemma {:induction false} TakeOneShrinks(digits: string)
    requires Digits(digits)
    ensures var r := TakeOne(digits);
            |r.digits| == |digits| && Digits(r.digits) &&
            (r.carry ==> digits == Repeat('0', |digits|)) &&
            (!r.carry ==> Less(r.digits, digits))
  {
    if digits != [] {
      var init, c := digits[..|digits| - 1], digits[|digits| - 1];
      assert digits == init + [c];
      if c == '0' {
        TakeOneShrinks(init);
        TakeFromOthers(init);
        if TakeOne(init).carry { MoreOfSame(init, '0'); }
      } else {
        TakeFromLast(init, c);
      }
    }
  }

  /** An integer part other than the smallest is a key by itself. */
  lemma IntegerAlone(whole: string)
    requires IsInteger(whole) && whole != SMALLEST
    ensures Integer(whole) == Some(whole)
  {
    assert whole[..|whole|] == whole && whole[|whole|..] == [];
  }

  /** Of two equally long digit strings after one head, the first difference decides. */
  lemma SameHeadOrder(head: char, a: string, b: string, fraction: string)
    requires Digits(a) && |a| == |b| && Less(a, b)
    ensures ([head] + b)[1..] == b && ([head] + a)[1..] == a
    ensures Less([head] + a + fraction, [head] + b)
    ensures b != Repeat('0', |b|)
  {
    SuffixKeepsOrder(a, b, fraction, []);
    assert b + [] == b;
    LessAfterPrefix([head], a + fraction, b);
    assert [head] + a + fraction == [head] + (a + fraction);
    if a != Repeat('0', |a|) {
      ZerosAreLeast(a, |a|);
    }
    LessTotal(a, b);
  }

  /** The next integer is after every key with this integer part. */
  lemma IncrementIsAfter(whole: string, fraction: string)
    requires IsInteger(whole)
    ensures Increment(whole).Some? ==>
              var n := Increment(whole).value; IsInteger(n) && Valid(n) && Less(whole + fraction, n)
  {
    var head, next := whole[0], AddOne(whole[1..]);
    AddOneGrows(whole[1..]);
    if !next.carry {
      SameHeadOrder(head, whole[1..], next.digits, fraction);
      assert whole == [head] + whole[1..];
      assert SMALLEST[1..] == Repeat('0', 26);
      IntegerAlone([head] + next.digits);
    } else if head == 'Z' {
      FirstKeyIsValid();
    } else if head != 'z' {
      HeadGrows(whole, next.digits);
    }
  }

  lemma FirstKeyIsValid()
    ensures IsInteger("a0") && Integer("a0") == Some("a0")
  {
    assert "a0"[1..] == ['0'];
    IntegerAlone("a0");
  }

  lemma HeadGrows(whole: string, digits: string)
    requires IsInteger(whole) && whole[0] != 'Z' && whole[0] != 'z'
    requires |digits| == |whole| - 1 && Digits(digits)
    ensures digits != []
    ensures var n := [whole[0] + 1 as char] + (if whole[0] >= 'a' then digits + ['0'] else digits[..|digits| - 1]);
            IsInteger(n) && Valid(n)
  {
    var rest := if whole[0] >= 'a' then digits + ['0'] else digits[..|digits| - 1];
    var n := [whole[0] + 1 as char] + rest;
    assert n[1..] == rest;
    IntegerAlone(n);
  }

  lemma DecrementStays(whole: string, fraction: string)
    requires IsInteger(whole) && !TakeOne(whole[1..]).carry
    ensures Decrement(whole).Some?
    ensures var n := Decrement(whole).value; IsInteger(n) && Less(n + fraction, whole)
  {
    var digits := TakeOne(whole[1..]).digits;
    TakeOneShrinks(whole[1..]);
    assert whole == [whole[0]] + whole[1..];
    SameHeadOrder(whole[0], digits, whole[1..], fraction);
  }

  lemma DecrementGoesOn(whole: string, fraction: string)
    requires IsInteger(whole) && TakeOne(whole[1..]).carry && whole[0] != 'A' && whole[0] != 'a'
    ensures Decrement(whole).Some?
    ensures var n := Decrement(whole).value; IsInteger(n) && Less(n + fraction, whole)
  {
    assert var digits := TakeOne(whole[1..]).digits; |digits| == |whole| - 1 && Digits(digits) by {
      TakeOneShrinks(whole[1..]);
    }
    HeadShrinks(whole, TakeOne(whole[1..]).digits);
    HeadsDecide(Decrement(whole).value + fraction, whole);
  }

  lemma HeadsDecide(s: string, t: string)
    requires s != [] && t != [] && s[0] < t[0]
    ensures Less(s, t)
  {
  }

  /** The integer before is, with any fraction, before this integer. */
  lemma DecrementIsBefore(whole: string, fraction: string)
    requires IsInteger(whole)
    ensures Decrement(whole).Some? ==>
              var n := Decrement(whole).value; IsInteger(n) && Less(n + fraction, whole)
    ensures Decrement(whole).None? ==> whole == SMALLEST
  {
    if !TakeOne(whole[1..]).carry {
      DecrementStays(whole, fraction);
    } else if whole[0] == 'A' {
      TakeOneShrinks(whole[1..]);
      assert whole == [whole[0]] + whole[1..];
    } else if whole[0] == 'a' {
      assert "Zz"[1..] == ['z'];
      HeadsDecide("Zz" + fraction, whole);
    } else {
      DecrementGoesOn(whole, fraction);
    }
  }

  lemma HeadShrinks(whole: string, digits: string)
    requires IsInteger(whole) && whole[0] != 'A' && whole[0] != 'a'
    requires |digits| == |whole| - 1 && Digits(digits)
    ensures digits != []
    ensures IsInteger([whole[0] - 1 as char] + (if whole[0] <= 'Z' then digits + ['z'] else digits[..|digits| - 1]))
  {
    var rest := if whole[0] <= 'Z' then digits + ['z'] else digits[..|digits| - 1];
    assert ([whole[0] - 1 as char] + rest)[1..] == rest;
  }

  /** The loop that adds one digit by digit from the right. */
  method AddOneLoop(start: string) returns (digits: string, carry: bool)
    requires Digits(start)
    ensures Carried(digits, carry) == AddOne(start)
  {
    digits, carry := start, true;
    var i := |digits|;
    assert start[..i] == start;
    while i > 0
      invariant Adding(start, digits, i)
    {
      AddingNext(start, digits, i);
      i := i - 1;
      if digits[i] == 'z' {
        digits := digits[i := '0'];
      } else {
        digits := digits[i := Digit(Value(digits[i]) + 1)];
        return digits, false;
      }
    }
  }

  /** The digits from `i` on were all `z` and are `0` now; the first `i` still have one to gain. */
  ghost predicate Adding(start: string, digits: string, i: nat) {
    && i <= |start| && digits == start[..i] + Repeat('0', |start| - i)
    && AddOne(start) == Carried(AddOne(start[..i]).digits + Repeat('0', |start| - i), AddOne(start[..i]).carry)
  }

  lemma AddingNext(start: string, digits: string, i: nat)
    requires Digits(start) && 0 < i && Adding(start, digits, i)
    ensures digits[i - 1] == 'z' ==> Adding(start, digits[i - 1 := '0'], i - 1)
    ensures digits[i - 1] != 'z' ==>
              Value(digits[i - 1]) < 61 &&
              AddOne(start) == Carried(digits[i - 1 := Digit(Value(digits[i - 1]) + 1)], false)
  {
    AddOneLast(start, i);
    var zeros := Repeat('0', |start| - i);
    if digits[i - 1] == 'z' {
      var rest := AddOne(start[..i - 1]).digits;
      assert rest + ['0'] + zeros == rest + (['0'] + zeros);
      assert digits[i - 1 := '0'] == start[..i - 1] + (['0'] + zeros);
    } else {
      var next := Digit(Value(digits[i - 1]) + 1);
      assert digits[i - 1 := next] == start[..i - 1] + [next] + zeros;
    }
  }

  lemma AddOneLast(start: string, i: nat)
    requires Digits(start) && 0 < i <= |start|
    ensures Repeat('0', |start| - i + 1) == ['0'] + Repeat('0', |start| - i)
    ensures start[i - 1] == 'z' ==>
              AddOne(start[..i]) == Carried(AddOne(start[..i - 1]).digits + ['0'], AddOne(start[..i - 1]).carry)
    ensures start[i - 1] != 'z' ==>
              Value(start[i - 1]) < 61 &&
              AddOne(start[..i]) == Carried(start[..i - 1] + [Digit(Value(start[i - 1]) + 1)], false)
  {
    assert start[..i][..i - 1] == start[..i - 1];
    DigitOrder(start[i - 1], 'z');
  }

  // ----- appending keeps keys short -----

  /** Digits read as a number in base 62. */
  function Number(digits: string): nat {
    if digits == [] then 0
    else Number(digits[..|digits| - 1]) * 62 + Value(digits[|digits| - 1])
  }

  function Power(n: nat): (p: nat)
    ensures p > 0
  {
    if n == 0 then 1 else 62 * Power(n - 1)
  }

  /** How many integer parts from `a0` on are shorter than one with `n` digits. */
  function Shorter(n: nat): nat
    requires n > 0
  {
    if n == 1 then 0 else Shorter(n - 1) + Power(n - 1)
  }

  /** The place of an integer part, counted from `a0`. */
  function Rank(whole: string): nat
    requires |whole| >= 2
  {
    Shorter(|whole| - 1) + Number(whole[1..])
  }

  lemma NumberLast(digits: string, c: char)
    ensures Number(digits + [c]) == Number(digits) * 62 + Value(c)
  {
    assert (digits + [c])[..|digits|] == digits;
  }

  lemma {:induction false} AddOneCounts(digits: string)
    requires Digits(digits)
    ensures var r := AddOne(digits);
            if r.carry then Number(digits) + 1 == Power(|digits|) && Number(r.digits) == 0
            else Number(r.digits) == Number(digits) + 1
  {
    if digits != [] {
      var init, c := digits[..|digits| - 1], digits[|digits| - 1];
      if c == 'z' {
        AddOneCounts(init);
        NumberLast(AddOne(init).digits, '0');
      } else {
        NextDigit(c);
        NumberLast(init, Digit((Value(c) + 1) % 62));
      }
    }
  }

  lemma NextDigit(c: char)
    requires IsDigit(c)
    ensures c != 'z' ==> Value(Digit((Value(c) + 1) % 62)) == Value(c) + 1
    ensures c != '0' ==> Value(Digit((Value(c) + 61) % 62)) == Value(c) - 1
  {
    DigitOrder(c, 'z');
    DigitOrder('0', c);
  }

  /** Going on within one length. */
  lemma RankInside(whole: string, n: string)
    requires |whole| >= 2 && |n| == |whole| && Number(n[1..]) == Number(whole[1..]) + 1
    ensures Rank(n) == Rank(whole) + 1
  {
  }

  /** Going on from the last of one length to the first of the next. */
  lemma RankBeyond(whole: string, n: string, digits: string)
    requires |whole| >= 2 && |n| == |whole| + 1 && n[1..] == digits + ['0']
    requires Number(digits) == 0 && Number(whole[1..]) + 1 == Power(|whole| - 1)
    ensures Rank(n) == Rank(whole) + 1
  {
    NumberLast(digits, '0');
    ShorterNext(|whole|);
  }

  lemma IncrementStays(whole: string)
    requires IsInteger(whole) && whole[0] >= 'a' && !AddOne(whole[1..]).carry
    ensures Increment(whole).Some? && Increment(whole).value[1..] == AddOne(whole[1..]).digits
    ensures Increment(whole).value[0] >= 'a'
  {
  }

  lemma IncrementGoesOn(whole: string)
    requires IsInteger(whole) && whole[0] >= 'a' && AddOne(whole[1..]).carry && Increment(whole).Some?
    ensures Increment(whole).value[1..] == AddOne(whole[1..]).digits + ['0'] && Increment(whole).value[0] >= 'a'
  {
  }

  lemma IncrementCounts(whole: string)
    requires IsInteger(whole) && whole[0] >= 'a' && Increment(whole).Some?
    ensures var n := Increment(whole).value; IsInteger(n) && n[0] >= 'a' && Rank(n) == Rank(whole) + 1
  {
    var n, digits := Increment(whole).value, AddOne(whole[1..]).digits;
    assert IsInteger(n) by {
      IncrementIsAfter(whole, []);
    }
    assert |digits| == |whole| - 1 by {
      AddOneGrows(whole[1..]);
    }
    AddOneCounts(whole[1..]);
    if AddOne(whole[1..]).carry {
      IncrementGoesOn(whole);
      RankBeyond(whole, n, digits);
    } else {
      IncrementStays(whole);
      RankInside(whole, n);
    }
  }

  /** Only the last integer part has no successor. */
  lemma LargestCounts(whole: string)
    requires IsInteger(whole) && whole[0] >= 'a'
    ensures Increment(whole).None? ==> |whole| == IntegerLength('z') && Rank(whole) + 1 == Shorter(|whole|)
  {
    AddOneGrows(whole[1..]);
    AddOneCounts(whole[1..]);
  }

  lemma {:induction false} NumberBounded(digits: string)
    ensures Number(digits) < Power(|digits|)
  {
    if digits != [] {
      NumberBounded(digits[..|digits| - 1]);
    }
  }

  lemma ShorterNext(n: nat)
    requires n >= 2
    ensures Shorter(n) == Shorter(n - 1) + Power(n - 1)
  {
  }

  lemma RankBounds(whole: string)
    requires |whole| >= 2
    ensures Shorter(|whole| - 1) <= Rank(whole) < Shorter(|whole|)
  {
    ShorterNext(|whole|);
    NumberBounded(whole[1..]);
  }

  /** `k` is the integer part at place `n`, with as many digits as `n` needs. */
  predicate ShortKey(k: string, n: nat) {
    IsInteger(k) && k[0] >= 'a' && Rank(k) == n && Shorter(|k| - 1) <= n < Shorter(|k|)
  }

  lemma AppendStep(previous: string, n: nat)
    requires ShortKey(previous, n) && Increment(previous).Some?
    ensures ShortKey(Between(Some(previous), None), n + 1)
  {
    IntegerAlone(previous);
    IncrementCounts(previous);
    RankBounds(Increment(previous).value);
  }

  lemma FirstIsShort()
    ensures ShortKey(Between(None, None), 0)
  {
    FirstKeyIsValid();
    assert "a0"[1..] == ['0'] && ['0'][..0] == [];
    RankBounds("a0");
  }

  /** Appending counts through the integer parts, so a key has as many digits as its count needs. */
  lemma {:induction false} AppendedKeysStayShort(keys: seq<string>, i: nat)
    requires i < |keys| <= Shorter(IntegerLength('z'))
    requires keys[0] == Between(None, None)
    requires forall j | 0 < j < |keys| :: keys[j] == Between(Some(keys[j - 1]), None)
    ensures ShortKey(keys[i], i)
  {
    if i == 0 {
      FirstIsShort();
    } else {
      AppendedKeysStayShort(keys, i - 1);
      LargestCounts(keys[i - 1]);
      AppendStep(keys[i - 1], i - 1);
    }
  }

  // ----- prepending keeps keys short -----

  lemma {:induction false} TakeOneCounts(digits: string)
    requires Digits(digits)
    ensures var r := TakeOne(digits);
            if r.carry then Number(digits) == 0 && Number(r.digits) + 1 == Power(|digits|)
            else Number(r.digits) + 1 == Number(digits)
  {
    if digits != [] {
      var init, c := digits[..|digits| - 1], digits[|digits| - 1];
      if c == '0' {
        TakeOneCounts(init);
        NumberLast(TakeOne(init).digits, 'z');
      } else {
        NextDigit(c);
        NumberLast(init, Digit((Value(c) + 61) % 62));
      }
    }
  }

  /** The place of an integer part before `a0`, counted back from it. */
  function Depth(whole: string): int
    requires |whole| >= 2
  {
    Shorter(|whole|) - Number(whole[1..])
  }

  /** `k` is the integer part `n` places before `a0`, with as many digits as `n` needs. */
  predicate ShortBefore(k: string, n: nat) {
    IsInteger(k) && k[0] <= 'Z' && Depth(k) == n && Shorter(|k| - 1) < n <= Shorter(|k|)
  }

  lemma DepthBounds(whole: string)
    requires |whole| >= 2
    ensures Shorter(|whole| - 1) < Depth(whole) <= Shorter(|whole|)
  {
    NumberBounded(whole[1..]);
  }

  /** Going back within one length. */
  lemma DepthInside(whole: string, n: string)
    requires |whole| >= 2 && |n| == |whole| && Number(n[1..]) + 1 == Number(whole[1..])
    ensures Depth(n) == Depth(whole) + 1
  {
  }

  /** Going back from the last of one length to the first of the next. */
  lemma DepthBeyond(whole: string, n: string, digits: string)
    requires |whole| >= 2 && |n| == |whole| + 1 && n[1..] == digits + ['z']
    requires Number(whole[1..]) == 0 && Number(digits) + 1 == Power(|whole| - 1)
    ensures Depth(n) == Depth(whole) + 1
  {
    NumberLast(digits, 'z');
    ShorterNext(|n|);
    assert Power(|whole|) == 62 * Power(|whole| - 1);
  }

  lemma DecrementCounts(whole: string)
    requires IsInteger(whole) && whole[0] <= 'Z' && Decrement(whole).Some?
    ensures var n := Decrement(whole).value; IsInteger(n) && n[0] <= 'Z' && Depth(n) == Depth(whole) + 1
  {
    var n, digits := Decrement(whole).value, TakeOne(whole[1..]).digits;
    assert IsInteger(n) by {
      DecrementIsBefore(whole, []);
    }
    assert |digits| == |whole| - 1 by {
      TakeOneShrinks(whole[1..]);
    }
    TakeOneCounts(whole[1..]);
    if TakeOne(whole[1..]).carry {
      DepthBeyond(whole, n, digits);
    } else {
      assert n[1..] == digits;
      DepthInside(whole, n);
    }
  }

  lemma PrependedIsDecrement(next: string)
    requires IsInteger(next) && next != SMALLEST
    requires Decrement(next).Some? && Decrement(next).value != SMALLEST
    ensures Between(None, Some(next)) == Decrement(next).value
  {
    IntegerAlone(next);
    assert next[|next|..] == [];
  }

  lemma PrependStep(next: string, n: nat, limit: nat)
    requires limit == Depth(SMALLEST) && ShortBefore(next, n) && n + 1 < limit
    ensures ShortBefore(Between(None, Some(next)), n + 1)
  {
    assert next != SMALLEST;
    DecrementIsBefore(next, []);
    DecrementCounts(next);
    PrependedIsDecrement(next);
    DepthBounds(Decrement(next).value);
  }

  lemma BeforeFirst()
    ensures Between(None, Some("a0")) == "Zz"
  {
    FirstKeyIsValid();
    assert "a0"[2..] == [];
    assert TakeOne(['0']) == Carried(['z'], true) by {
      assert ['0'][..0] == [] && [] + ['z'] == ['z'];
    }
  }

  lemma BeforeFirstIsShort()
    ensures ShortBefore(Between(None, Some("a0")), 1)
  {
    BeforeFirst();
    assert Number("Zz"[1..]) == 61 by {
      assert "Zz"[1..] == [] + ['z'];
      NumberLast([], 'z');
    }
    ShorterNext(2);
    assert Power(1) == 62 && Shorter(1) == 0;
  }

  /** Prepending counts back through the integer parts, so here, too, a key has as many digits as its
      count needs. */
  lemma {:induction false} PrependedKeysStayShort(keys: seq<string>, i: nat)
    requires 0 < i < |keys| <= Depth(SMALLEST)
    requires keys[0] == Between(None, None)
    requires forall j | 0 < j < |keys| :: keys[j] == Between(None, Some(keys[j - 1]))
    ensures ShortBefore(keys[i], i)
  {
    if i == 1 {
      BeforeFirstIsShort();
    } else {
      PrependedKeysStayShort(keys, i - 1);
      PrependStep(keys[i - 1], i - 1, Depth(SMALLEST));
    }
  }

  // ----- fractions -----

  /** A digit of a fraction, `0` past its end. */
  function DigitAt(s: string, i: nat): char {
    if i < |s| then s[i] else '0'
  }

  /** How many leading digits of `after` are those of `before`, from `i` on. */
  function Shared(before: string, after: string, i: nat): (n: nat)
    requires i <= |after|
    ensures i <= n <= |after|
    ensures forall k | i <= k < n :: DigitAt(before, k) == after[k]
    ensures n < |after| ==> DigitAt(before, n) != after[n]
    decreases |after| - i
  {
    if i < |after| && DigitAt(before, i) == after[i] then Shared(before, after, i + 1) else i
  }

  function Drop(s: string, n: nat): string {
    if n <= |s| then s[n..] else []
  }

  predicate Midpointable(before: string, after: Option<string>) {
    Digits(before) && (after.Some? ==> IsFraction(after.value) && Less(before, after.value))
  }

  /** If all digits of `after` are shared, it is a prefix of `before`, or ends in `0`. */
  lemma AllShared(before: string, after: string)
    requires IsFraction(after) && after != [] && Shared(before, after, 0) == |after|
    ensures after <= before
  {
    assert DigitAt(before, |after| - 1) == after[|after| - 1];
    assert forall k | 0 <= k < |after| :: DigitAt(before, k) == after[k];
  }

  lemma SharedStops(before: string, after: string)
    requires Midpointable(before, Some(after))
    ensures Shared(before, after, 0) < |after|
  {
    if Shared(before, after, 0) == |after| {
      AllShared(before, after);
      NotLessThanPrefix(after, before);
    }
  }

  lemma RestInOrder(before: string, after: string, n: nat)
    requires Midpointable(before, Some(after)) && n < |after|
    requires forall k | 0 <= k < n :: DigitAt(before, k) == after[k]
    ensures Midpointable(Drop(before, n), Some(after[n..]))
  {
    var a, b := after[n..], Drop(before, n);
    assert IsFraction(a) && Digits(b) by {
      assert forall k | 0 <= k < |a| :: a[k] == after[n + k];
      assert forall k | 0 <= k < |b| :: b[k] == before[n + k];
    }
    if n < |before| {
      var p := after[..n];
      assert before == p + b && after == p + a;
      LessAfterPrefix(p, b, a);
    }
  }

  lemma FirstDigitLess(before: string, after: string)
    requires Midpointable(before, Some(after)) && after != [] && DigitAt(before, 0) != after[0]
    ensures Value(DigitAt(before, 0)) < Value(after[0])
  {
    DigitOrder(DigitAt(before, 0), after[0]);
  }

  /** The shared digits stop short of `after`, and what is left is still in order. */
  lemma SharedLeavesRoom(before: string, after: string)
    requires Midpointable(before, Some(after))
    ensures var n := Shared(before, after, 0);
            n < |after| && Midpointable(Drop(before, n), Some(after[n..])) &&
            Value(DigitAt(before, n)) < Value(after[n])
  {
    var n := Shared(before, after, 0);
    SharedStops(before, after);
    RestInOrder(before, after, n);
    assert DigitAt(Drop(before, n), 0) == DigitAt(before, n) && after[n..][0] == after[n];
    FirstDigitLess(Drop(before, n), after[n..]);
  }

  lemma NotLessThanPrefix(p: string, s: string)
    requires p <= s
    ensures !Less(s, p)
  {
    assert s == p + s[|p|..];
    LessAfterPrefix(p, s[|p|..], []);
    assert p + [] == p;
  }

  /** Shared digits first, then a digit half-way, or one more digit where there is none. */
  function Midpoint(before: string, after: Option<string>): (r: string)
    requires Midpointable(before, after)
    decreases if after.Some? then |after.value| + 1 else 0, |before|
  {
    var shared := if after.Some? then Shared(before, after.value, 0) else 0;
    if shared > 0 then
      SharedLeavesRoom(before, after.value);
      after.value[..shared] + Midpoint(Drop(before, shared), Some(after.value[shared..]))
    else
      var low := Value(DigitAt(before, 0));
      var high := if after.Some? then (SharedLeavesRoom(before, after.value); Value(after.value[0])) else 62;
      if high - low > 1 then [Digit((low + high + 1) / 2)]
      else if after.Some? && |after.value| > 1 then [after.value[0]]
      else
        assert before == [] ==> low == 0;
        [Digit(low)] + Midpoint(Drop(before, 1), None)
  }

  lemma BeforeShared(before: string, p: string, m: string)
    requires m != [] && Less(Drop(before, |p|), m)
    requires forall k | 0 <= k < |p| :: DigitAt(before, k) == p[k]
    ensures Less(before, p + m)
  {
    if |p| <= |before| {
      assert before == p + before[|p|..];
      LessAfterPrefix(p, before[|p|..], m);
    } else {
      var rest := p[|before|..] + m;
      assert before == p[..|before|];
      assert p + m == before + rest;
      LessExtension(before, rest);
    }
  }

  lemma FractionAfter(p: string, m: string)
    requires Digits(p) && m != [] && IsFraction(m)
    ensures IsFraction(p + m)
  {
  }

  /** Putting the shared digits in front keeps a fraction between. */
  lemma AfterShared(before: string, after: string, m: string)
    requires IsFraction(after) && m != [] && IsFraction(m)
    requires var n := Shared(before, after, 0); Less(Drop(before, n), m) && Less(m, after[n..])
    ensures var r := after[..Shared(before, after, 0)] + m;
            IsFraction(r) && Less(before, r) && Less(r, after)
  {
    var n := Shared(before, after, 0);
    var p := after[..n];
    FractionAfter(p, m);
    BeforeShared(before, p, m);
    assert Less(p + m, after) by {
      assert after == p + after[n..];
      LessAfterPrefix(p, m, after[n..]);
    }
  }

  lemma {:induction false} MidpointIsBetween(before: string, after: Option<string>)
    requires Midpointable(before, after)
    ensures IsBetween(before, Midpoint(before, after), after)
    decreases if after.Some? then |after.value| + 1 else 0, |before|
  {
    var r := Midpoint(before, after);
    var shared := if after.Some? then Shared(before, after.value, 0) else 0;
    if after.Some? {
      SharedLeavesRoom(before, after.value);
    }
    if shared > 0 {
      MidpointIsBetween(Drop(before, shared), Some(after.value[shared..]));
      AfterShared(before, after.value, Midpoint(Drop(before, shared), Some(after.value[shared..])));
    } else {
      MidpointDigit(before, after);
    }
  }

  /** What a fraction between two others is. */
  predicate IsBetween(before: string, r: string, after: Option<string>) {
    r != [] && IsFraction(r) && Less(before, r) && (after.Some? ==> Less(r, after.value))
  }

  /** Half-way between two digits. */
  lemma HalfwayDigit(before: string, after: Option<string>, low: nat, high: nat)
    requires Midpointable(before, after) && low == Value(DigitAt(before, 0)) && low + 1 < high <= 62
    requires after.Some? ==> after.value != [] && high == Value(after.value[0])
    ensures IsBetween(before, [Digit((low + high + 1) / 2)], after)
  {
    var d := Digit((low + high + 1) / 2);
    assert low < (low + high + 1) / 2 < high;
    DigitOrder(DigitAt(before, 0), d);
    if after.Some? {
      DigitOrder(d, after.value[0]);
    }
  }

  /** The first digit of a longer fraction alone. */
  lemma FirstDigitAlone(before: string, after: string)
    requires Midpointable(before, Some(after)) && |after| > 1
    requires Value(DigitAt(before, 0)) < Value(after[0])
    ensures IsBetween(before, [after[0]], Some(after))
  {
    DigitOrder(DigitAt(before, 0), after[0]);
    assert after == [after[0]] + after[1..];
    LessExtension([after[0]], after[1..]);
    assert after[0] != '0';
  }

  /** One more digit after the first. */
  lemma OneDigitMore(before: string, after: Option<string>, low: nat, m: string)
    requires Midpointable(before, after) && low == Value(DigitAt(before, 0))
    requires after.Some? ==> after.value != [] && low < Value(after.value[0])
    requires IsBetween(Drop(before, 1), m, None)
    ensures IsBetween(before, [Digit(low)] + m, after)
  {
    var d, r := Digit(low), [Digit(low)] + m;
    DigitOrder(DigitAt(before, 0), d);
    DigitOrder(d, DigitAt(before, 0));
    assert r[1..] == m;
    assert before != [] ==> before == [before[0]] + Drop(before, 1);
    if after.Some? {
      DigitOrder(d, after.value[0]);
    }
  }

  /** Which of the three it is. */
  lemma MidpointIs(before: string, after: Option<string>, low: nat, high: nat)
    requires Midpointable(before, after) && low == Value(DigitAt(before, 0)) < high
    requires if after.Some? then after.value != [] && DigitAt(before, 0) != after.value[0] && high == Value(after.value[0])
             else high == 62
    ensures high - low > 1 ==> Midpoint(before, after) == [Digit((low + high + 1) / 2)]
    ensures high - low == 1 && after.Some? && |after.value| > 1 ==> Midpoint(before, after) == [after.value[0]]
    ensures high - low == 1 && (after.Some? ==> |after.value| == 1) ==>
              Midpoint(before, after) == [Digit(low)] + Midpoint(Drop(before, 1), None)
  {
    assert after.Some? ==> Shared(before, after.value, 0) == 0;
  }

  /** The case in which the first digits already differ. */
  lemma MidpointDigit(before: string, after: Option<string>)
    requires Midpointable(before, after)
    requires after.Some? ==> after.value != [] && DigitAt(before, 0) != after.value[0]
    ensures IsBetween(before, Midpoint(before, after), after)
    decreases if after.Some? then |after.value| + 1 else 0, |before|, 0
  {
    var low, high := Value(DigitAt(before, 0)), if after.Some? then Value(after.value[0]) else 62;
    assert low < high by {
      if after.Some? { FirstDigitLess(before, after.value); }
    }
    MidpointIs(before, after, low, high);
    if high - low > 1 {
      HalfwayDigit(before, after, low, high);
    } else if after.Some? && |after.value| > 1 {
      FirstDigitAlone(before, after.value);
    } else {
      MidpointIsBetween(Drop(before, 1), None);
      OneDigitMore(before, after, low, Midpoint(Drop(before, 1), None));
    }
  }

  // ----- keys -----

  /** A key before `after`. */
  function KeyBefore(after: string): string
    requires Valid(after)
  {
    var whole := Integer(after).value;
    var fraction := after[|whole|..];
    if whole == SMALLEST then (EmptyIsLeast(whole, fraction, after); whole + Midpoint([], Some(fraction)))
    else if fraction != [] then whole
    else (
      DecrementIsBefore(whole, []);
      var smaller := Decrement(whole).value;
      if smaller == SMALLEST then SMALLEST + Midpoint([], None) else smaller)
  }

  lemma EmptyIsLeast(whole: string, fraction: string, after: string)
    requires Integer(after) == Some(whole) && whole == SMALLEST && fraction == after[|whole|..]
    ensures Midpointable([], Some(fraction)) && after == whole + fraction
  {
    assert after == whole + fraction;
    assert fraction == [] ==> after == whole;
  }

  /** A key after `before`. */
  function KeyAfter(before: string): string
    requires Valid(before)
  {
    var whole := Integer(before).value;
    if Increment(whole).Some? then Increment(whole).value else whole + Midpoint(before[|whole|..], None)
  }

  /** A key between two in order. */
  function KeyInside(before: string, after: string): string
    requires Valid(before) && Valid(after) && Less(before, after)
  {
    var low, high := Integer(before).value, Integer(after).value;
    if low == high then (
      FractionsInOrder(low, before, after);
      low + Midpoint(before[|low|..], Some(after[|low|..])))
    else if Increment(low).Some? && Less(Increment(low).value, after) then Increment(low).value
    else low + Midpoint(before[|low|..], None)
  }

  lemma FractionsInOrder(whole: string, before: string, after: string)
    requires Integer(before) == Integer(after) == Some(whole) && Less(before, after)
    ensures Midpointable(before[|whole|..], Some(after[|whole|..]))
    ensures before == whole + before[|whole|..] && after == whole + after[|whole|..]
  {
    assert before == whole + before[|whole|..] && after == whole + after[|whole|..];
    LessAfterPrefix(whole, before[|whole|..], after[|whole|..]);
  }

  /** The key for two valid neighbours, either of which may be missing. */
  function KeyBetween(before: Option<string>, after: Option<string>): string
    requires before.Some? ==> Valid(before.value)
    requires after.Some? ==> Valid(after.value)
    requires before.Some? && after.Some? ==> Less(before.value, after.value)
  {
    match (before, after)
    case (None, None) => "a0"
    case (None, Some(after)) => KeyBefore(after)
    case (Some(before), None) => KeyAfter(before)
    case (Some(before), Some(after)) => KeyInside(before, after)
  }

  /** The key for any two neighbours: an invalid one is taken as missing, as is an `after` that is not
      above `before`. */
  function Between(before: Option<string>, after: Option<string>): string {
    var b := if before.Some? && Valid(before.value) then before else None;
    var a := if after.Some? && Valid(after.value) && (b.Some? ==> Less(b.value, after.value)) then after else None;
    KeyBetween(b, a)
  }

  /** An integer part with a proper fraction is a key with that integer part. */
  lemma IntegerOfParts(whole: string, fraction: string)
    requires IsInteger(whole) && IsFraction(fraction) && whole + fraction != SMALLEST
    ensures Integer(whole + fraction) == Some(whole)
  {
    var key := whole + fraction;
    assert key[1..] == whole[1..] + fraction;
    assert key[|whole|..] == fraction && key[..|whole|] == whole;
  }

  /** Keys that agree past the integer part of one have the same integer part. */
  lemma SameInteger(before: string, after: string, i: nat)
    requires Valid(before) && Valid(after) && i <= |before| && i <= |after| && before[..i] == after[..i]
    requires |Integer(before).value| <= i
    ensures Integer(before) == Integer(after)
  {
    var low, high := Integer(before).value, Integer(after).value;
    assert forall k | 0 <= k < i :: before[k] == before[..i][k] == after[..i][k] == after[k];
    assert before[0] == after[0] == high[0];
    assert low == before[..|low|] == after[..|low|] == high;
  }

  lemma IntegersInOrder(before: string, after: string, fraction: string)
    requires Valid(before) && Valid(after) && Less(before, after)
    requires Integer(before) != Integer(after)
    ensures Less(Integer(before).value + fraction, after)
  {
    var low := Integer(before).value;
    var i := LessWitness(before, after);
    if |low| <= i {
      SameInteger(before, after, i);
      assert false;
    }
    assert (low + fraction)[..i] == low[..i] == before[..i];
    LessAt(low + fraction, after, i);
  }

  lemma SameIntegerKey(whole: string, fraction: string, upper: string)
    requires IsInteger(whole) && Midpointable(fraction, Some(upper))
    ensures var k := whole + Midpoint(fraction, Some(upper));
            Valid(k) && Less(whole + fraction, k) && Less(k, whole + upper)
  {
    var m := Midpoint(fraction, Some(upper));
    MidpointIsBetween(fraction, Some(upper));
    LessAfterPrefix(whole, fraction, m);
    LessAfterPrefix(whole, m, upper);
    IntegerOfParts(whole, m);
  }

  lemma OpenFractionKey(whole: string, fraction: string)
    requires IsInteger(whole) && Digits(fraction)
    ensures var k := whole + Midpoint(fraction, None); Valid(k) && Less(whole + fraction, k)
  {
    var m := Midpoint(fraction, None);
    MidpointIsBetween(fraction, None);
    LessAfterPrefix(whole, fraction, m);
    IntegerOfParts(whole, m);
  }

  lemma KeyBeforeFits(after: string)
    requires Valid(after)
    ensures Valid(KeyBefore(after)) && Less(KeyBefore(after), after)
  {
    var whole := Integer(after).value;
    var fraction := after[|whole|..];
    if whole == SMALLEST {
      EmptyIsLeast(whole, fraction, after);
      SameIntegerKey(whole, [], fraction);
    } else if fraction != [] {
      assert after == whole + fraction;
      LessExtension(whole, fraction);
      IntegerAlone(whole);
    } else {
      assert after == whole;
      IntegerBefore(whole);
    }
  }

  lemma IntegerBefore(whole: string)
    requires IsInteger(whole) && whole != SMALLEST
    ensures Decrement(whole).Some?
    ensures var smaller := Decrement(whole).value;
            var k := if smaller == SMALLEST then SMALLEST + Midpoint([], None) else smaller;
            Valid(k) && Less(k, whole)
  {
    DecrementIsBefore(whole, []);
    var smaller := Decrement(whole).value;
    assert smaller + [] == smaller;
    if smaller == SMALLEST {
      DecrementIsBefore(whole, Midpoint([], None));
      OpenFractionKey(SMALLEST, []);
    } else {
      IntegerAlone(smaller);
    }
  }

  lemma KeyAfterFits(before: string)
    requires Valid(before)
    ensures Valid(KeyAfter(before)) && Less(before, KeyAfter(before))
  {
    var whole := Integer(before).value;
    var fraction := before[|whole|..];
    assert before == whole + fraction;
    IncrementIsAfter(whole, fraction);
    OpenFractionKey(whole, fraction);
  }

  lemma KeyInsideFits(before: string, after: string)
    requires Valid(before) && Valid(after) && Less(before, after)
    ensures var k := KeyInside(before, after); Valid(k) && Less(before, k) && Less(k, after)
  {
    var low, high := Integer(before).value, Integer(after).value;
    var fraction := before[|low|..];
    if low == high {
      FractionsInOrder(low, before, after);
      SameIntegerKey(low, fraction, after[|low|..]);
    } else {
      assert before == low + fraction;
      IncrementIsAfter(low, fraction);
      OpenFractionKey(low, fraction);
      IntegersInOrder(before, after, Midpoint(fraction, None));
    }
  }

  /** A valid key after a valid `before`, and before a valid `after` exactly if the two
      neighbours are in order. */
  predicate Suits(before: Option<string>, after: Option<string>, key: string) {
    && Valid(key)
    && (before.Some? && Valid(before.value) ==> Less(before.value, key))
    && (after.Some? && Valid(after.value) ==>
          (Less(key, after.value) <==>
           (before.Some? && Valid(before.value) ==> Less(before.value, after.value))))
  }

  lemma BetweenFits(before: Option<string>, after: Option<string>)
    ensures Suits(before, after, Between(before, after))
  {
    var b := if before.Some? && Valid(before.value) then before else None;
    var a := if after.Some? && Valid(after.value) && (b.Some? ==> Less(b.value, after.value)) then after else None;
    match (b, a) {
      case (None, None) => FirstKeyIsValid();
      case (None, Some(after)) => KeyBeforeFits(after);
      case (Some(before), None) => KeyAfterFits(before);
      case (Some(before), Some(after)) => KeyInsideFits(before, after);
    }
    if b.Some? && after.Some? && Valid(after.value) && a.None? {
      var k := Between(before, after);
      LessTotal(b.value, after.value);
      if Less(k, after.value) {
        LessTransitive(b.value, k, after.value);
        assert false;
      }
    }
  }

  lemma NextOfFirst()
    ensures KeyAfter("a0") == "a1"
  {
    FirstKeyIsValid();
    assert "a0"[1..] == ['0'] && ['0'][..0] == [];
    assert AddOne(['0']) == Carried(['1'], false);
  }

  /** With an invalid neighbour, the key depends on the other one alone. */
  lemma BetweenIgnoresInvalid(before: Option<string>, after: Option<string>)
    ensures before.Some? && Valid(before.value) && !(after.Some? && Valid(after.value)) ==>
              Between(before, after) == KeyAfter(before.value)
    ensures !(before.Some? && Valid(before.value)) && after.Some? && Valid(after.value) ==>
              Between(before, after) == KeyBefore(after.value)
    ensures !(before.Some? && Valid(before.value)) && !(after.Some? && Valid(after.value)) ==>
              Between(before, after) == "a0"
  {
  }
}
