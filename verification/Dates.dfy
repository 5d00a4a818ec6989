/** Dates as `YYYY-MM-DD` text, the `full-date` of section 5.6 of RFC 3339. */
module Dates {
  import opened Wrappers
  import opened Order

  predicate IsDigit(c: char) {
    '0' <= c <= '9'
  }

  predicate AllDigits(s: string) {
    forall i | 0 <= i < |s| :: IsDigit(s[i])
  }

  function Decimal(s: string): nat
    requires AllDigits(s)
  {
    if s == [] then 0 else Decimal(s[..|s| - 1]) * 10 + (s[|s| - 1] as int - '0' as int)
  }

  function Number(text: string, digits: nat): Option<nat> {
    if |text| == digits && AllDigits(text) then Some(Decimal(text)) else None
  }

  /** The parts between dashes. */
  function Split(s: string): (parts: seq<string>)
    ensures parts != []
  {
    if s == [] then [""]
    else
      var rest := Split(s[1..]);
      if s[0] == '-' then [""] + rest else [[s[0]] + rest[0]] + rest[1..]
  }

  predicate Leap(year: nat) {
    year % 4 == 0 && (year % 100 != 0 || year % 400 == 0)
  }

  /** The days of a month, none if there is no such month. */
  function Days(year: nat, month: nat): nat {
    if month in {1, 3, 5, 7, 8, 10, 12} then 31
    else if month in {4, 6, 9, 11} then 30
    else if month == 2 then (if Leap(year) then 29 else 28)
    else 0
  }

  predicate RealDay(year: nat, month: nat, day: nat) {
    1 <= day <= Days(year, month)
  }

  predicate ValidDate(date: string) {
    var parts := Split(date);
    |parts| == 3 &&
    match (Number(parts[0], 4), Number(parts[1], 2), Number(parts[2], 2))
    case (Some(year), Some(month), Some(day)) => RealDay(year, month, day)
    case _ => false
  }

  // ----- what a valid date is -----

  function Padded(n: nat, digits: nat): (s: string)
    ensures |s| == digits && AllDigits(s)
  {
    if digits == 0 then [] else Padded(n / 10, digits - 1) + [(n % 10 + '0' as int) as char]
  }

  function Power10(n: nat): (p: nat)
    ensures p > 0
  {
    if n == 0 then 1 else 10 * Power10(n - 1)
  }

  function Format(year: nat, month: nat, day: nat): string {
    Padded(year, 4) + "-" + (Padded(month, 2) + "-" + Padded(day, 2))
  }

  lemma DecimalLast(s: string, d: nat)
    requires AllDigits(s) && d < 10
    ensures AllDigits(s + [(d + '0' as int) as char])
    ensures Decimal(s + [(d + '0' as int) as char]) == Decimal(s) * 10 + d
  {
    assert (s + [(d + '0' as int) as char])[..|s|] == s;
  }

  lemma Tenth(n: nat, p: nat)
    requires n < 10 * p
    ensures n / 10 < p && n / 10 * 10 + n % 10 == n
  {
  }

  lemma {:induction false} PaddedIsDecimal(n: nat, digits: nat)
    requires n < Power10(digits)
    ensures Decimal(Padded(n, digits)) == n
  {
    if digits > 0 {
      var rest := Padded(n / 10, digits - 1);
      Tenth(n, Power10(digits - 1));
      PaddedIsDecimal(n / 10, digits - 1);
      DecimalLast(rest, n % 10);
      assert Padded(n, digits) == rest + [(n % 10 + '0' as int) as char];
    }
  }

  lemma {:induction false} DecimalIsPadded(s: string)
    requires AllDigits(s)
    ensures Decimal(s) < Power10(|s|) && Padded(Decimal(s), |s|) == s
  {
    if s != [] {
      var init := s[..|s| - 1];
      DecimalIsPadded(init);
      assert Decimal(s) / 10 == Decimal(init) && s == init + [s[|s| - 1]];
    }
  }

  lemma {:induction false} SplitOne(a: string)
    requires '-' !in a
    ensures Split(a) == [a]
  {
    if a != [] {
      SplitOne(a[1..]);
      assert a == [a[0]] + a[1..];
    }
  }

  lemma {:induction false} SplitAfter(a: string, rest: string)
    requires '-' !in a
    ensures Split(a + "-" + rest) == [a] + Split(rest)
  {
    var s := a + "-" + rest;
    if a == [] {
      assert s[1..] == rest;
    } else {
      assert s[1..] == a[1..] + "-" + rest && s[0] == a[0];
      SplitAfter(a[1..], rest);
      assert a == [a[0]] + a[1..];
    }
  }

  function Join(parts: seq<string>): string {
    if parts == [] then []
    else if |parts| == 1 then parts[0]
    else parts[0] + "-" + Join(parts[1..])
  }

  lemma {:induction false} JoinSplit(s: string)
    ensures Join(Split(s)) == s
  {
    if s != [] {
      JoinSplit(s[1..]);
      var rest := Split(s[1..]);
      if s[0] == '-' {
        assert ([""] + rest)[1..] == rest;
        assert s == "-" + s[1..] == "" + "-" + Join(rest);
      } else if |rest| > 1 {
        assert [s[0]] + rest[0] + "-" + Join(rest[1..]) == [s[0]] + (rest[0] + "-" + Join(rest[1..]));
        assert s == [s[0]] + s[1..];
      }
    }
  }

  lemma JoinThree(parts: seq<string>)
    requires |parts| == 3
    ensures Join(parts) == parts[0] + "-" + (parts[1] + "-" + parts[2])
  {
    var two := parts[1..];
    assert two == [parts[1], parts[2]] && two[1..] == [parts[2]];
    assert Join(two) == parts[1] + "-" + parts[2];
  }

  /** Exactly the calendar days of the years 0 to 9999, written out, are valid. */
  lemma ValidDatesAreDays(date: string)
    ensures ValidDate(date) <==>
            exists year, month, day ::
              year < 10000 && RealDay(year, month, day) && date == Format(year, month, day)
  {
    if ValidDate(date) {
      var parts := Split(date);
      JoinSplit(date);
      JoinThree(parts);
      DecimalIsPadded(parts[0]);
      DecimalIsPadded(parts[1]);
      DecimalIsPadded(parts[2]);
      assert Power10(4) == 10000;
      var year, month, day := Decimal(parts[0]), Decimal(parts[1]), Decimal(parts[2]);
      assert date == Format(year, month, day);
    }
    forall year, month, day | year < 10000 && RealDay(year, month, day) && date == Format(year, month, day)
      ensures ValidDate(date)
    {
      FormatIsValid(year, month, day);
    }
  }

  lemma SplitThree(a: string, b: string, c: string)
    requires AllDigits(a) && AllDigits(b) && AllDigits(c)
    ensures Split(a + "-" + (b + "-" + c)) == [a, b, c]
  {
    NoDash(a);
    NoDash(b);
    NoDash(c);
    SplitAfter(a, b + "-" + c);
    SplitAfter(b, c);
    SplitOne(c);
  }

  lemma FormatIsValid(year: nat, month: nat, day: nat)
    requires year < 10000 && RealDay(year, month, day)
    ensures ValidDate(Format(year, month, day))
  {
    var y, m, d := Padded(year, 4), Padded(month, 2), Padded(day, 2);
    SplitThree(y, m, d);
    assert Power10(4) == 10000 && Power10(2) == 100;
    PaddedIsDecimal(year, 4);
    PaddedIsDecimal(month, 2);
    PaddedIsDecimal(day, 2);
  }

  lemma NoDash(s: string)
    requires AllDigits(s)
    ensures '-' !in s
  {
  }

  // ----- days in time -----

  function DaysBeforeMonth(year: nat, month: nat): nat {
    if month <= 1 then 0 else DaysBeforeMonth(year, month - 1) + Days(year, month - 1)
  }

  function DaysBeforeYear(year: nat): nat {
    if year == 0 then 0 else DaysBeforeYear(year - 1) + DaysBeforeMonth(year - 1, 13)
  }

  /** The days from the first of January of year 0 on. */
  function DayNumber(year: nat, month: nat, day: nat): nat {
    DaysBeforeYear(year) + DaysBeforeMonth(year, month) + day
  }

  /** The last day of each month, by section 5.7 of RFC 3339. */
  const LAST_DAYS: seq<nat> := [31, 28, 31, 30, 31, 30, 31, 31, 30, 31, 30, 31]

  predicate HasLeapDay(year: nat) {
    (year % 4 == 0 && year % 100 != 0) || year % 400 == 0
  }

  /** A day is real exactly if its month is one of twelve and it is not after the month's last. */
  lemma RealDays(year: nat, month: nat, day: nat)
    ensures RealDay(year, month, day) <==>
            1 <= month <= 12 && 1 <= day <= LAST_DAYS[month - 1] + if month == 2 && HasLeapDay(year) then 1 else 0
  {
  }

  lemma Quotient(n: nat, k: nat, q: nat)
    requires k > 0 && q * k <= n < q * k + k
    ensures n / k == q
  {
    var d := n / k - q;
    assert d >= 1 ==> d * k >= k;
    assert d <= -1 ==> d * k <= 0 - k;
    assert n == (n / k) * k + n % k;
    assert d * k == (n / k) * k - q * k;
  }

  lemma NoRemainder(n: nat, k: nat, q: nat)
    requires k > 0 && n == q * k
    ensures n % k == 0
  {
    Quotient(n, k, q);
    assert n == (n / k) * k + n % k;
  }

  lemma Multiples(n: nat)
    ensures n % 100 == 0 ==> n % 4 == 0
    ensures n % 400 == 0 ==> n % 100 == 0 && n % 4 == 0
  {
    if n % 400 == 0 { NoRemainder(n, 100, 4 * (n / 400)); }
    if n % 100 == 0 { NoRemainder(n, 4, 25 * (n / 100)); }
  }

  lemma LeapYears(year: nat)
    ensures Leap(year) <==> HasLeapDay(year)
  {
    Multiples(year);
  }

  /** The days before each month of a year, and after the last, but for a leap day. */
  const DAYS_BEFORE: seq<nat> := [0, 31, 59, 90, 120, 151, 181, 212, 243, 273, 304, 334, 365]

  lemma {:induction false} MonthsBefore(year: nat, month: nat)
    requires 1 <= month <= 13
    ensures DaysBeforeMonth(year, month) == DAYS_BEFORE[month - 1] + if month > 2 && Leap(year) then 1 else 0
    decreases month
  {
    if month > 1 {
      MonthsBefore(year, month - 1);
    }
  }

  /** A year has 365 days, or 366 with a leap day. */
  lemma YearHasDays(year: nat)
    ensures DaysBeforeMonth(year, 13) == if HasLeapDay(year) then 366 else 365
  {
    LeapYears(year);
    MonthsBefore(year, 13);
  }

  /** How many numbers below `n` are multiples of `k`. */
  function MultiplesBelow(n: nat, k: nat): nat
    requires k > 0
  {
    (n + (k - 1)) / k
  }

  lemma MultiplesNext(n: nat, k: nat)
    requires k > 0
    ensures MultiplesBelow(n + 1, k) == MultiplesBelow(n, k) + if n % k == 0 then 1 else 0
  {
    var q, r := n / k, n % k;
    assert n == q * k + r;
    assert (q + 1) * k == q * k + k;
    if r == 0 {
      Quotient(n + (k - 1), k, q);
    } else {
      Quotient(n + (k - 1), k, q + 1);
    }
    Quotient(n + 1 + (k - 1), k, q + 1);
  }

  lemma MultiplesLater(n: nat, k: nat, m: nat)
    requires k > 0
    ensures MultiplesBelow(n + m * k, k) == MultiplesBelow(n, k) + m
  {
    var top := n + (k - 1);
    assert top == (top / k) * k + top % k;
    assert (top / k + m) * k == (top / k) * k + m * k;
    Quotient(top + m * k, k, top / k + m);
  }

  /** How many years before this one have a leap day. */
  function LeapDaysBefore(year: nat): nat {
    if year == 0 then 0 else LeapDaysBefore(year - 1) + if HasLeapDay(year - 1) then 1 else 0
  }

  lemma LeapDaysNext(year: nat, fours: int, hundreds: int, fourHundreds: int)
    requires fours == MultiplesBelow(year, 4)
    requires hundreds == MultiplesBelow(year, 100)
    requires fourHundreds == MultiplesBelow(year, 400)
    ensures MultiplesBelow(year + 1, 4) - MultiplesBelow(year + 1, 100) + MultiplesBelow(year + 1, 400)
            == fours - hundreds + fourHundreds + if HasLeapDay(year) then 1 else 0
  {
    MultiplesNext(year, 4);
    MultiplesNext(year, 100);
    MultiplesNext(year, 400);
    Multiples(year);
  }

  lemma {:induction false} LeapDaysCount(year: nat)
    ensures LeapDaysBefore(year) == MultiplesBelow(year, 4) - MultiplesBelow(year, 100) + MultiplesBelow(year, 400)
  {
    if year > 0 {
      LeapDaysCount(year - 1);
      LeapDaysNext(year - 1, MultiplesBelow(year - 1, 4), MultiplesBelow(year - 1, 100), MultiplesBelow(year - 1, 400));
    }
  }

  lemma LeapDaysLater(year: nat)
    ensures LeapDaysBefore(year + 400) == LeapDaysBefore(year) + 97
  {
    LeapDaysCount(year);
    LeapDaysCount(year + 400);
    MultiplesLater(year, 4, 100);
    MultiplesLater(year, 100, 4);
    MultiplesLater(year, 400, 1);
  }

  lemma DaysOfYear(year: nat)
    ensures DaysBeforeYear(year + 1) == DaysBeforeYear(year) + if HasLeapDay(year) then 366 else 365
  {
    YearHasDays(year);
  }

  lemma {:induction false} DaysOfYears(year: nat)
    ensures DaysBeforeYear(year) == 365 * year + LeapDaysBefore(year)
  {
    if year > 0 {
      DaysOfYears(year - 1);
      DaysOfYear(year - 1);
    }
  }

  /** The calendar repeats every 400 years, which have 146097 days. */
  lemma CalendarRepeats(year: nat, month: nat, day: nat)
    ensures RealDay(year + 400, month, day) <==> RealDay(year, month, day)
    ensures DayNumber(year + 400, month, day) == DayNumber(year, month, day) + 146097
  {
    DaysOfYears(year);
    DaysOfYears(year + 400);
    LeapDaysLater(year);
    MonthsRepeat(year, month);
  }

  lemma LeapRepeats(year: nat)
    ensures Leap(year + 400) <==> Leap(year)
  {
    assert (year + 400) % 4 == year % 4;
    assert (year + 400) % 100 == year % 100;
    assert (year + 400) % 400 == year % 400;
  }

  lemma {:induction false} MonthsRepeat(year: nat, month: nat)
    ensures Days(year + 400, month) == Days(year, month)
    ensures DaysBeforeMonth(year + 400, month) == DaysBeforeMonth(year, month)
    decreases month
  {
    LeapRepeats(year);
    if month > 1 {
      MonthsRepeat(year, month - 1);
    }
  }

  /** Each real day is followed by the next number. */
  lemma DaysFollow(year: nat, month: nat, day: nat)
    requires RealDay(year, month, day)
    ensures RealDay(year, month, day + 1) ==> DayNumber(year, month, day + 1) == DayNumber(year, month, day) + 1
    ensures !RealDay(year, month, day + 1) && month < 12 ==> DayNumber(year, month + 1, 1) == DayNumber(year, month, day) + 1
    ensures !RealDay(year, month, day + 1) && month == 12 ==> DayNumber(year + 1, 1, 1) == DayNumber(year, month, day) + 1
  {
  }

  lemma {:induction false} MonthsInOrder(year: nat, month: nat, later: nat)
    requires 1 <= month < later
    ensures DaysBeforeMonth(year, month) + Days(year, month) <= DaysBeforeMonth(year, later)
  {
    if month + 1 < later {
      MonthsInOrder(year, month, later - 1);
    }
  }

  lemma {:induction false} YearsInOrder(year: nat, later: nat)
    requires year < later
    ensures DaysBeforeYear(year) + DaysBeforeMonth(year, 13) <= DaysBeforeYear(later)
  {
    if year + 1 < later {
      YearsInOrder(year, later - 1);
    }
  }

  lemma DayNumberOrder(y: nat, m: nat, d: nat, y': nat, m': nat, d': nat)
    requires RealDay(y, m, d) && RealDay(y', m', d')
    requires TripleLess(y, m, d, y', m', d')
    ensures DayNumber(y, m, d) < DayNumber(y', m', d')
  {
    if y < y' {
      MonthsInOrder(y, m, 13);
      YearsInOrder(y, y');
    } else if m < m' {
      MonthsInOrder(y, m, m');
    }
  }

  /** Equally long decimals compare as text as they do in number. */
  lemma {:induction false} DecimalOrder(a: string, b: string)
    requires AllDigits(a) && AllDigits(b) && |a| == |b|
    ensures Less(a, b) <==> Decimal(a) < Decimal(b)
    ensures a == b <==> Decimal(a) == Decimal(b)
  {
    DecimalIsPadded(a);
    DecimalIsPadded(b);
    if a != [] {
      var n := |a| - 1;
      var p, q := a[..n], b[..n];
      assert a == p + [a[n]] && b == q + [b[n]];
      DecimalOrder(p, q);
      if p == q {
        LessAfterPrefix(p, [a[n]], [b[n]]);
      } else {
        LessTotal(p, q);
        if Less(p, q) {
          SuffixKeepsOrder(p, q, [a[n]], [b[n]]);
        } else {
          SuffixKeepsOrder(q, p, [b[n]], [a[n]]);
        }
        LessTotal(a, b);
      }
    }
  }

  predicate TripleLess(y: nat, m: nat, d: nat, y': nat, m': nat, d': nat) {
    y < y' || (y == y' && (m < m' || (m == m' && d < d')))
  }

  lemma AfterEqual(p: string, s: string, t: string)
    ensures Less(p + "-" + s, p + "-" + t) <==> Less(s, t)
  {
    LessAfterPrefix(p + "-", s, t);
  }

  lemma AfterLess(p: string, q: string, s: string, t: string)
    requires |p| == |q| && Less(p, q)
    ensures Less(p + "-" + s, q + "-" + t) && !Less(q + "-" + t, p + "-" + s)
  {
    SuffixKeepsOrder(p, q, "-" + s, "-" + t);
    assert p + "-" + s == p + ("-" + s) && q + "-" + t == q + ("-" + t);
    LessTotal(p + "-" + s, q + "-" + t);
  }

  lemma JoinedOrder(a: string, b: string, p: string, q: string, s: string, t: string)
    requires AllDigits(p) && AllDigits(q) && |p| == |q| && a == p + "-" + s && b == q + "-" + t
    ensures Less(a, b) <==> Decimal(p) < Decimal(q) || (Decimal(p) == Decimal(q) && Less(s, t))
  {
    DecimalOrder(p, q);
    DecimalOrder(q, p);
    if p == q {
      AfterEqual(p, s, t);
    } else if Less(p, q) {
      AfterLess(p, q, s, t);
    } else {
      AfterLess(q, p, t, s);
    }
  }

  /** Text order on three fixed-width decimals is the order of the triples. */
  lemma TripleOrder(a: string, b: string, p: seq<string>, q: seq<string>)
    requires |p| == 3 && |q| == 3 && a == Join(p) && b == Join(q)
    requires forall i | 0 <= i < 3 :: AllDigits(p[i]) && AllDigits(q[i]) && |p[i]| == |q[i]|
    ensures Less(a, b) <==>
            TripleLess(Decimal(p[0]), Decimal(p[1]), Decimal(p[2]), Decimal(q[0]), Decimal(q[1]), Decimal(q[2]))
  {
    JoinThree(p);
    JoinThree(q);
    var s, t := p[1] + "-" + p[2], q[1] + "-" + q[2];
    JoinedOrder(a, b, p[0], q[0], s, t);
    JoinedOrder(s, t, p[1], q[1], p[2], q[2]);
    DecimalOrder(p[2], q[2]);
  }

  /** The day a valid date names. */
  function DayOf(date: string): nat
    requires ValidDate(date)
  {
    var parts := Split(date);
    DayNumber(Decimal(parts[0]), Decimal(parts[1]), Decimal(parts[2]))
  }

  /** Comparing valid dates as text compares the days in time. */
  lemma DatesCompareAsDays(a: string, b: string)
    requires ValidDate(a) && ValidDate(b)
    ensures Less(a, b) <==> DayOf(a) < DayOf(b)
    ensures a == b <==> DayOf(a) == DayOf(b)
  {
    var p, q := Split(a), Split(b);
    JoinSplit(a);
    JoinSplit(b);
    TripleOrder(a, b, p, q);
    var y, m, d := Decimal(p[0]), Decimal(p[1]), Decimal(p[2]);
    var y', m', d' := Decimal(q[0]), Decimal(q[1]), Decimal(q[2]);
    LessTotal(a, b);
    if Less(a, b) {
      DayNumberOrder(y, m, d, y', m', d');
    } else if a != b {
      TripleOrder(b, a, q, p);
      DayNumberOrder(y', m', d', y, m, d);
    }
  }
}
