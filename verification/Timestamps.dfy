/**
 * Instants as the king stores them: RFC 3339 text in UTC, with as many of 0, 3, 6 or 9 fractional
 * digits as the nanoseconds need. The database compares the text; section 5.1 of RFC 3339 promises
 * that this is time order only when every stamp has the same number of digits. Here it is proved
 * for the mixed digit counts that are stored.
 */
module Timestamps {
  import opened Basics
  import opened RunMachine

  /** A UTC date and time. Month and day count from 1. */
  datatype Instant = Instant(year: nat, month: nat, day: nat, hour: nat, minute: nat, second: nat, nanos: nat)

  // ── Calendar ───────────────────────────────────────────────────────────────────────────────

  predicate Leap(year: nat) {
    year % 4 == 0 && (year % 100 != 0 || year % 400 == 0)
  }

  function DaysIn(year: nat, month: nat): nat {
    if month == 2 then if Leap(year) then 29 else 28
    else if month in {4, 6, 9, 11} then 30
    else 31
  }

  predicate Real(t: Instant) {
    && t.year <= 9999 && 1 <= t.month <= 12 && 1 <= t.day <= DaysIn(t.year, t.month)
    && t.hour < 24 && t.minute < 60 && t.second < 60 && t.nanos < 1_000_000_000
  }

  function DaysBeforeMonth(year: nat, month: nat): nat {
    if month <= 1 then 0 else DaysBeforeMonth(year, month - 1) + DaysIn(year, month - 1)
  }

  function DaysBeforeYear(year: nat): nat {
    if year == 0 then 0 else DaysBeforeYear(year - 1) + DaysBeforeMonth(year - 1, 13)
  }

  function DayNumber(t: Instant): nat
    requires Real(t)
  {
    DaysBeforeYear(t.year) + DaysBeforeMonth(t.year, t.month) + t.day - 1
  }

  /** Nanoseconds since the start of year 0. */
  function Time(t: Instant): nat
    requires Real(t)
  {
    (((DayNumber(t) * 24 + t.hour) * 60 + t.minute) * 60 + t.second) * 1_000_000_000 + t.nanos
  }

  /** The next calendar day, at the same time of day. */
  function Tomorrow(t: Instant): Instant
    requires Real(t)
  {
    if t.day < DaysIn(t.year, t.month) then t.(day := t.day + 1)
    else if t.month < 12 then t.(month := t.month + 1, day := 1)
    else t.(year := t.year + 1, month := 1, day := 1)
  }

  /** Time counts real time: a calendar day, over month ends, leap days and new years, is 24 hours. */
  lemma DayByDay(t: Instant)
    requires Real(t) && Real(Tomorrow(t))
    ensures Time(Tomorrow(t)) == Time(t) + 24 * 3_600 * 1_000_000_000
  {
    var u := Tomorrow(t);
    assert DaysBeforeMonth(t.year, t.month + 1) == DaysBeforeMonth(t.year, t.month) + DaysIn(t.year, t.month);
    assert DayNumber(u) == DayNumber(t) + 1;
    hide DayNumber, DaysIn, DaysBeforeMonth;
  }

  lemma YearLength(y: nat)
    ensures DaysBeforeMonth(y, 13) == 365 + if y % 4 == 0 && (y % 100 != 0 || y % 400 == 0) then 1 else 0
  {
    MonthFormula(y, 13);
    hide DaysBeforeMonth;
  }

  function LeapsBefore(year: nat): int {
    (year + 3) / 4 - (year + 99) / 100 + (year + 399) / 400
  }

  /** 365 days for every year before, and one more for every leap year. */
  lemma {:induction false} YearFormula(y: nat)
    ensures DaysBeforeYear(y) == 365 * y + LeapsBefore(y)
  {
    assert LeapsBefore(0) == 0;
    hide DaysBeforeMonth, LeapsBefore, Leap, DaysIn;
    if y > 0 {
      YearFormula(y - 1);
      YearLength(y - 1);
      LeapCount(y - 1);
    }
  }

  /** One more leap day after a leap year, and only then. */
  lemma LeapCount(y: nat)
    ensures LeapsBefore(y + 1) ==
            LeapsBefore(y) + if y % 4 == 0 && (y % 100 != 0 || y % 400 == 0) then 1 else 0
  {
    NextMultiple(y, 4);
    NextMultiple(y, 100);
    NextMultiple(y, 400);
    Multiples(y);
    LeapSum((y + 4) / 4, (y + 3) / 4, (y + 100) / 100, (y + 99) / 100, (y + 400) / 400, (y + 399) / 400,
            y % 4 == 0, y % 100 == 0, y % 400 == 0);
    assert y + 1 + 3 == y + 4 && y + 1 + 99 == y + 100 && y + 1 + 399 == y + 400;
  }

  lemma LeapSum(a: int, a0: int, b: int, b0: int, c: int, c0: int, four: bool, hundred: bool, fourHundred: bool)
    requires a == a0 + (if four then 1 else 0) && b == b0 + (if hundred then 1 else 0)
    requires c == c0 + (if fourHundred then 1 else 0) && (fourHundred ==> hundred) && (hundred ==> four)
    ensures a - b + c == a0 - b0 + c0 + if four && (!hundred || fourHundred) then 1 else 0
  {
  }

  lemma Multiples(y: nat)
    ensures y % 400 == 0 ==> y % 100 == 0
    ensures y % 100 == 0 ==> y % 4 == 0
  {
    if y % 400 == 0 { assert y == 100 * (4 * (y / 400)); }
    if y % 100 == 0 { assert y == 4 * (25 * (y / 100)); }
  }

  lemma NextMultiple(y: nat, k: nat)
    requires k > 0
    ensures (y + k) / k == (y + (k - 1)) / k + if y % k == 0 then 1 else 0
  {
    var q, r := y / k, y % k;
    assert y == k * q + r;
    Quotient(y + k, k, q + 1, r);
    if r == 0 { Quotient(y + (k - 1), k, q, k - 1); } else { Quotient(y + (k - 1), k, q + 1, r - 1); }
  }

  lemma Quotient(n: nat, k: nat, q: nat, r: nat)
    requires k > 0 && r < k && n == k * q + r
    ensures n / k == q
  {
    var x := n / k - q;
    assert n == k * (n / k) + n % k && k * x == r - n % k;
    assert x >= 1 ==> k * x >= k;
    assert x <= -1 ==> k * x + k <= 0;
  }

  /** The days before each month of a common year; after February a leap year has one more. */
  lemma MonthFormula(y: nat, m: nat)
    requires 1 <= m <= 13
    ensures DaysBeforeMonth(y, m) ==
            [0, 31, 59, 90, 120, 151, 181, 212, 243, 273, 304, 334, 365][m - 1] +
            if m > 2 && y % 4 == 0 && (y % 100 != 0 || y % 400 == 0) then 1 else 0
  {
    if m > 1 { MonthFormula(y, m - 1); }
  }

  /** The number of a day, by a closed formula for the Gregorian calendar. */
  lemma DayFormula(t: Instant)
    requires Real(t)
    ensures DayNumber(t) ==
            365 * t.year + (t.year + 3) / 4 - (t.year + 99) / 100 + (t.year + 399) / 400 +
            [0, 31, 59, 90, 120, 151, 181, 212, 243, 273, 304, 334][t.month - 1] + t.day - 1 +
            if t.month > 2 && t.year % 4 == 0 && (t.year % 100 != 0 || t.year % 400 == 0) then 1 else 0
  {
    YearFormula(t.year);
    MonthFormula(t.year, t.month);
    hide DaysBeforeYear, DaysBeforeMonth;
  }

  // ── Text ───────────────────────────────────────────────────────────────────────────────────

  function Digit(d: nat): char
    requires d < 10
  {
    '0' + d as char
  }

  function Pow10(w: nat): nat {
    if w == 0 then 1 else 10 * Pow10(w - 1)
  }

  /** n in exactly w digits. */
  function Digits(n: nat, w: nat): (s: string)
    ensures |s| == w
  {
    if w == 0 then "" else Digits(n / 10, w - 1) + [Digit(n % 10)]
  }

  /** The shortest of 0, 3, 6 and 9 digits that loses nothing. */
  function Fraction(nanos: nat): string {
    if nanos == 0 then ""
    else if nanos % 1_000_000 == 0 then "." + Digits(nanos / 1_000_000, 3)
    else if nanos % 1_000 == 0 then "." + Digits(nanos / 1_000, 6)
    else "." + Digits(nanos, 9)
  }

  /** The time of day up to the second, and what follows it. */
  function Clock(t: Instant, tail: string): string {
    Digits(t.hour, 2) + (":" + (Digits(t.minute, 2) + (":" + (Digits(t.second, 2) + tail))))
  }

  function Stamp(t: Instant, tail: string): string {
    Digits(t.year, 4) + ("-" + (Digits(t.month, 2) + ("-" + (Digits(t.day, 2) + ("T" + Clock(t, tail))))))
  }

  /** DateTime<Utc>::to_rfc3339 */
  function Print(t: Instant): string {
    Stamp(t, Fraction(t.nanos) + "+00:00")
  }

  /** The same instant with the other spelling of UTC, as a caller may write it. */
  function PrintZulu(t: Instant): string {
    Stamp(t, Fraction(t.nanos) + "Z")
  }

  /** The number a run of digits denotes. */
  function Value(s: string): int {
    if s == "" then 0 else 10 * Value(Front(s)) + (Last(s) as int - '0' as int)
  }

  lemma {:induction false} DigitsDenote(n: nat, w: nat)
    requires n < Pow10(w)
    ensures Value(Digits(n, w)) == n
  {
    if w > 0 {
      DigitsDenote(n / 10, w - 1);
      assert Front(Digits(n, w)) == Digits(n / 10, w - 1);
    }
  }

  /** Date and time can be read back from fixed positions: YYYY-MM-DDTHH:MM:SS, then the fraction and
      the offset. */
  lemma ReadBack(t: Instant)
    requires Real(t)
    ensures var s := Print(t);
            && |s| >= 25 && Value(s[..4]) == t.year && s[4] == '-' && Value(s[5..7]) == t.month && s[7] == '-'
            && Value(s[8..10]) == t.day && s[10] == 'T' && Value(s[11..13]) == t.hour && s[13] == ':'
            && Value(s[14..16]) == t.minute && s[16] == ':' && Value(s[17..19]) == t.second
            && s[19..] == Fraction(t.nanos) + "+00:00"
  {
    Widths();
    DigitsDenote(t.year, 4);
    DigitsDenote(t.month, 2);
    DigitsDenote(t.day, 2);
    DigitsDenote(t.hour, 2);
    DigitsDenote(t.minute, 2);
    DigitsDenote(t.second, 2);
    hide Value, Digits, Fraction, Pow10;
    ClockLayout(Digits(t.hour, 2), Digits(t.minute, 2), Digits(t.second, 2), Fraction(t.nanos) + "+00:00");
    var c := Clock(t, Fraction(t.nanos) + "+00:00");
    DateLayout(Digits(t.year, 4), Digits(t.month, 2), Digits(t.day, 2), c);
    LaterSlices(Print(t), c);
  }

  lemma ClockLayout(h: string, m: string, s: string, rest: string)
    requires |h| == |m| == |s| == 2
    ensures var c := h + (":" + (m + (":" + (s + rest))));
            c[..2] == h && c[2] == ':' && c[3..5] == m && c[5] == ':' && c[6..8] == s && c[8..] == rest
  {
  }

  lemma DateLayout(y: string, m: string, d: string, rest: string)
    requires |y| == 4 && |m| == |d| == 2
    ensures var s := y + ("-" + (m + ("-" + (d + ("T" + rest)))));
            && s[..4] == y && s[4] == '-' && s[5..7] == m && s[7] == '-'
            && s[8..10] == d && s[10] == 'T' && s[11..] == rest
  {
  }

  lemma LaterSlices(s: string, c: string)
    requires |c| >= 14 && |s| == 11 + |c| && s[11..] == c
    ensures s[11..13] == c[..2] && s[14..16] == c[3..5] && s[17..19] == c[6..8] && s[19..] == c[8..]
    ensures s[13] == c[2] && s[16] == c[5]
  {
  }

  /** The database's text comparison. */
  predicate Less(s: string, t: string) {
    if t == "" then false
    else if s == "" then true
    else if s[0] != t[0] then s[0] < t[0]
    else Less(s[1..], t[1..])
  }

  // ── Comparing text field by field ──────────────────────────────────────────────────────────

  lemma {:induction false} LessPrefix(p: string, s: string, t: string)
    ensures Less(p + s, p + t) <==> Less(s, t)
  {
    if p == "" {
      assert p + s == s && p + t == t;
    } else {
      assert (p + s)[1..] == p[1..] + s && (p + t)[1..] == p[1..] + t;
      LessPrefix(p[1..], s, t);
    }
  }

  /** Fixed-width numbers compare as numbers, and what follows decides only between equals. */
  lemma {:induction false} LessDigits(n: nat, m: nat, w: nat, s: string, t: string)
    requires n < Pow10(w) && m < Pow10(w)
    ensures Less(Digits(n, w) + s, Digits(m, w) + t) <==> n < m || (n == m && Less(s, t))
  {
    if w == 0 {
      assert Digits(n, 0) + s == s && Digits(m, 0) + t == t;
    } else {
      var c, d := [Digit(n % 10)], [Digit(m % 10)];
      LessDigits(n / 10, m / 10, w - 1, c + s, d + t);
      assert Digits(n, w) + s == Digits(n / 10, w - 1) + (c + s);
      assert Digits(m, w) + t == Digits(m / 10, w - 1) + (d + t);
      assert (c + s)[1..] == s && (d + t)[1..] == t;
    }
  }

  /** A field of w digits and a separator. */
  lemma LessField(n: nat, m: nat, w: nat, sep: string, s: string, t: string)
    requires n < Pow10(w) && m < Pow10(w)
    ensures Less(Digits(n, w) + (sep + s), Digits(m, w) + (sep + t)) <==> n < m || (n == m && Less(s, t))
  {
    LessDigits(n, m, w, sep + s, sep + t);
    LessPrefix(sep, s, t);
  }

  // ── Fractions ──────────────────────────────────────────────────────────────────────────────

  predicate AllZero(gs: seq<nat>) {
    gs == [] || (gs[0] == 0 && AllZero(gs[1..]))
  }

  /** Groups of three digits, without the zero groups at the end. */
  function Groups(gs: seq<nat>): string {
    if AllZero(gs) then "" else Digits(gs[0], 3) + Groups(gs[1..])
  }

  /** Lexicographic order. */
  predicate Before(g: seq<nat>, h: seq<nat>)
    requires |g| == |h|
  {
    g != [] && (g[0] < h[0] || (g[0] == h[0] && Before(g[1..], h[1..])))
  }

  predicate Groupable(gs: seq<nat>) {
    forall i :: 0 <= i < |gs| ==> gs[i] < 1000
  }

  /** Groups order like the numbers they stand for, because the '+' that ends the shorter text sorts
      before every digit. */
  lemma {:induction false} LessGroups(g: seq<nat>, h: seq<nat>)
    requires |g| == |h| && Groupable(g) && Groupable(h)
    ensures Less(Groups(g) + "+00:00", Groups(h) + "+00:00") <==> Before(g, h)
  {
    if AllZero(g) || AllZero(h) {
      ZeroFirst(g, h);
      PlusSortsFirst(g);
      PlusSortsFirst(h);
      LessIrreflexive("+00:00");
    } else {
      LessGroups(g[1..], h[1..]);
      GroupStep(g);
      GroupStep(h);
      ThreeDigits();
      hide Groups, Digits, Less, Pow10;
      LessDigits(g[0], h[0], 3, Groups(g[1..]) + "+00:00", Groups(h[1..]) + "+00:00");
    }
  }

  lemma GroupStep(g: seq<nat>)
    requires !AllZero(g)
    ensures Groups(g) + "+00:00" == Digits(g[0], 3) + (Groups(g[1..]) + "+00:00")
  {
    hide Digits;
  }

  lemma ThreeDigits()
    ensures Pow10(3) == 1000
  {
    assert Pow10(2) == 100;
  }

  lemma {:induction false} ZeroFirst(g: seq<nat>, h: seq<nat>)
    requires |g| == |h| && (AllZero(g) || AllZero(h))
    ensures Before(g, h) <==> !AllZero(h)
  {
    if g != [] {
      if AllZero(g[1..]) || AllZero(h[1..]) { ZeroFirst(g[1..], h[1..]); }
    }
  }

  lemma PlusSortsFirst(g: seq<nat>)
    ensures if AllZero(g) then Groups(g) + "+00:00" == "+00:00"
            else Less("+00:00", Groups(g) + "+00:00") && !Less(Groups(g) + "+00:00", "+00:00")
  {
    if !AllZero(g) {
      FirstDigit(g[0], 3);
      assert Groups(g)[0] == Digits(g[0], 3)[0];
    }
  }

  lemma {:induction false} FirstDigit(n: nat, w: nat)
    requires w > 0
    ensures '0' <= Digits(n, w)[0] <= '9'
  {
    if w > 1 { FirstDigit(n / 10, w - 1); }
  }

  lemma {:induction false} LessIrreflexive(s: string)
    ensures !Less(s, s)
  {
    if s != "" { LessIrreflexive(s[1..]); }
  }

  /** Milliseconds, then microseconds, then nanoseconds. */
  function Thousands(nanos: nat): seq<nat> {
    [nanos / 1_000_000, nanos / 1_000 % 1_000, nanos % 1_000]
  }

  lemma MoreDigits(n: nat, w: nat)
    ensures Digits(n, w + 1) == Digits(n / 10, w) + [Digit(n % 10)]
  {
  }

  /** The last three digits of a number. */
  lemma LastDigits(n: nat)
    ensures n / 10 / 10 / 10 == n / 1_000
    ensures var m := n % 1_000;
            m % 10 == n % 10 && m / 10 % 10 == n / 10 % 10 && m / 10 / 10 % 10 == n / 10 / 10 % 10
  {
    var m, k := n % 1_000, n / 1_000;
    assert n == 1_000 * k + m;
    assert n / 10 == 100 * k + m / 10;
    assert n / 10 / 10 == 10 * k + m / 10 / 10;
  }

  lemma SplitThree(n: nat, v: nat)
    ensures Digits(n, v + 3) == Digits(n / 1_000, v) + Digits(n % 1_000, 3)
  {
    var m := n % 1_000;
    assert Digits(m / 10 / 10 / 10, 0) == "";
    hide Digits;
    LastDigits(n);
    MoreDigits(n, v + 2);
    MoreDigits(n / 10, v + 1);
    MoreDigits(n / 10 / 10, v);
    MoreDigits(m, 2);
    MoreDigits(m / 10, 1);
    MoreDigits(m / 10 / 10, 0);
  }

  /** The stored fraction is a point and the groups, or nothing. */
  lemma FractionIsGroups(nanos: nat)
    requires nanos < 1_000_000_000
    ensures Fraction(nanos) == if nanos == 0 then "" else "." + Groups(Thousands(nanos))
    ensures AllZero(Thousands(nanos)) <==> nanos == 0
  {
    GroupsOfThree(nanos / 1_000_000, nanos / 1_000 % 1_000, nanos % 1_000);
    SplitThree(nanos, 6);
    SplitThree(nanos / 1_000, 3);
    Decompose(nanos);
    hide Groups, AllZero, Digits;
    assert nanos / 1_000 / 1_000 == nanos / 1_000_000;
  }

  lemma GroupsOfThree(a: nat, b: nat, c: nat)
    ensures AllZero([a, b, c]) <==> a == b == c == 0
    ensures Groups([a, b, c]) ==
            if a == b == c == 0 then ""
            else if b == c == 0 then Digits(a, 3)
            else if c == 0 then Digits(a, 3) + Digits(b, 3)
            else Digits(a, 3) + Digits(b, 3) + Digits(c, 3)
  {
    hide Digits;
    assert [a, b, c][1..] == [b, c] && [b, c][1..] == [c] && [c][1..] == [];
    assert AllZero([c]) <==> c == 0;
    assert AllZero([b, c]) <==> b == c == 0;
    assert Groups([]) == "" && Groups([c]) == if c == 0 then "" else Digits(c, 3);
    assert Groups([b, c]) == if b == c == 0 then "" else Digits(b, 3) + Groups([c]);
  }

  lemma Decompose(n: nat)
    ensures n == 1_000_000 * (n / 1_000_000) + 1_000 * (n / 1_000 % 1_000) + n % 1_000
  {
    assert n / 1_000_000 == n / 1_000 / 1_000;
  }

  lemma BeforeThree(a: nat, b: nat, c: nat, x: nat, y: nat, z: nat)
    ensures Before([a, b, c], [x, y, z]) <==> a < x || (a == x && (b < y || (b == y && c < z)))
  {
    assert [a, b, c][1..] == [b, c] && [x, y, z][1..] == [y, z];
    assert [b, c][1..] == [c] && [y, z][1..] == [z];
    assert Before([c], [z]) <==> c < z;
    assert Before([b, c], [y, z]) <==> b < y || (b == y && Before([c], [z]));
  }

  lemma ThousandsInOrder(n: nat, m: nat)
    requires n < 1_000_000_000 && m < 1_000_000_000
    ensures Groupable(Thousands(n)) && Groupable(Thousands(m))
    ensures Before(Thousands(n), Thousands(m)) <==> n < m
  {
    Decompose(n);
    Decompose(m);
    BeforeThree(n / 1_000_000, n / 1_000 % 1_000, n % 1_000, m / 1_000_000, m / 1_000 % 1_000, m % 1_000);
    hide Before;
  }

  lemma LessFraction(n: nat, m: nat)
    requires n < 1_000_000_000 && m < 1_000_000_000
    ensures Less(Fraction(n) + "+00:00", Fraction(m) + "+00:00") <==> n < m
  {
    if n != 0 && m != 0 {
      LessPoint(n, m);
    } else {
      PlusBeforePoint(n);
      PlusBeforePoint(m);
      LessIrreflexive("+00:00");
      hide Fraction, Less;
    }
  }

  lemma LessPoint(n: nat, m: nat)
    requires 0 < n < 1_000_000_000 && 0 < m < 1_000_000_000
    ensures Less(Fraction(n) + "+00:00", Fraction(m) + "+00:00") <==> n < m
  {
    FractionIsGroups(n);
    FractionIsGroups(m);
    ThousandsInOrder(n, m);
    LessGroups(Thousands(n), Thousands(m));
    hide Fraction, Groups, AllZero, Before, Thousands, Less;
    var g, h := Groups(Thousands(n)), Groups(Thousands(m));
    LessPrefix(".", g + "+00:00", h + "+00:00");
    assert "." + (g + "+00:00") == ("." + g) + "+00:00" && "." + (h + "+00:00") == ("." + h) + "+00:00";
  }

  lemma PlusBeforePoint(n: nat)
    requires n < 1_000_000_000
    ensures n == 0 ==> Fraction(n) + "+00:00" == "+00:00"
    ensures n != 0 ==> Less("+00:00", Fraction(n) + "+00:00") && !Less(Fraction(n) + "+00:00", "+00:00")
  {
    FractionIsGroups(n);
    if n != 0 { assert (Fraction(n) + "+00:00")[0] == '.'; }
  }

  // ── Text order is time order ───────────────────────────────────────────────────────────────

  predicate EarlierClock(a: Instant, b: Instant) {
    || a.hour < b.hour
    || (a.hour == b.hour && (a.minute < b.minute || (a.minute == b.minute && a.second < b.second)))
  }

  predicate EarlierDate(a: Instant, b: Instant) {
    a.year < b.year || (a.year == b.year && (a.month < b.month || (a.month == b.month && a.day < b.day)))
  }

  predicate SameDate(a: Instant, b: Instant) {
    a.year == b.year && a.month == b.month && a.day == b.day
  }

  predicate SameSecond(a: Instant, b: Instant) {
    SameDate(a, b) && a.hour == b.hour && a.minute == b.minute && a.second == b.second
  }

  predicate EarlierSecond(a: Instant, b: Instant) {
    EarlierDate(a, b) || (SameDate(a, b) && EarlierClock(a, b))
  }

  predicate Earlier(a: Instant, b: Instant) {
    EarlierSecond(a, b) || (SameSecond(a, b) && a.nanos < b.nanos)
  }

  lemma Widths()
    ensures Pow10(2) == 100 && Pow10(4) == 10_000
  {
    assert Pow10(3) == 10 * Pow10(2);
  }

  lemma LessClock(a: Instant, b: Instant, f: string, g: string)
    requires Real(a) && Real(b)
    ensures Less(Clock(a, f), Clock(b, g)) <==>
            EarlierClock(a, b) || (a.hour == b.hour && a.minute == b.minute && a.second == b.second && Less(f, g))
  {
    Widths();
    hide Digits, Less, Pow10;
    LessDigits(a.second, b.second, 2, f, g);
    LessField(a.minute, b.minute, 2, ":", Digits(a.second, 2) + f, Digits(b.second, 2) + g);
    LessField(a.hour, b.hour, 2, ":", Digits(a.minute, 2) + (":" + (Digits(a.second, 2) + f)),
              Digits(b.minute, 2) + (":" + (Digits(b.second, 2) + g)));
  }

  /** The tails decide only between stamps of the same second. */
  lemma LessStamp(a: Instant, b: Instant, f: string, g: string)
    requires Real(a) && Real(b)
    ensures Less(Stamp(a, f), Stamp(b, g)) <==> EarlierSecond(a, b) || (SameSecond(a, b) && Less(f, g))
  {
    Widths();
    LessClock(a, b, f, g);
    var c, d := Clock(a, f), Clock(b, g);
    hide Digits, Less, Pow10, Clock, EarlierClock;
    LessField(a.day, b.day, 2, "T", c, d);
    LessField(a.month, b.month, 2, "-", Digits(a.day, 2) + ("T" + c), Digits(b.day, 2) + ("T" + d));
    LessField(a.year, b.year, 4, "-", Digits(a.month, 2) + ("-" + (Digits(a.day, 2) + ("T" + c))),
              Digits(b.month, 2) + ("-" + (Digits(b.day, 2) + ("T" + d))));
  }

  lemma {:induction false} MonthEnds(year: nat, m: nat, n: nat)
    requires 1 <= m < n
    ensures DaysBeforeMonth(year, m) + DaysIn(year, m) <= DaysBeforeMonth(year, n)
  {
    if m + 1 < n { MonthEnds(year, m, n - 1); }
  }

  lemma {:induction false} YearEnds(y: nat, z: nat)
    requires y < z
    ensures DaysBeforeYear(y) + DaysBeforeMonth(y, 13) <= DaysBeforeYear(z)
  {
    if y + 1 < z { YearEnds(y, z - 1); }
  }

  lemma DayOrder(a: Instant, b: Instant)
    requires Real(a) && Real(b) && EarlierDate(a, b)
    ensures DayNumber(a) < DayNumber(b)
  {
    MonthEnds(a.year, a.month, 13);
    if a.year < b.year { YearEnds(a.year, b.year); }
    else if a.month < b.month { MonthEnds(a.year, a.month, b.month); }
  }

  lemma TimeOrder(a: Instant, b: Instant)
    requires Real(a) && Real(b) && Earlier(a, b)
    ensures Time(a) < Time(b)
  {
    if EarlierDate(a, b) { DayOrder(a, b); } else { assert DayNumber(a) == DayNumber(b); }
    hide DayNumber, DaysIn;
  }

  /** Time order, by calendar and clock. */
  lemma EarlierIff(a: Instant, b: Instant)
    requires Real(a) && Real(b)
    ensures Time(a) < Time(b) <==> Earlier(a, b)
    ensures Time(a) == Time(b) <==> a == b
  {
    if Earlier(a, b) { TimeOrder(a, b); }
    else if Earlier(b, a) { TimeOrder(b, a); }
    else { assert a == b; }
  }

  /** For any two UTC instants of the years 0 to 9999, whatever fractional digits each is stored with,
      the database's text order is time order, and equal text means equal time. */
  lemma TextOrderIsTimeOrder(a: Instant, b: Instant)
    requires Real(a) && Real(b)
    ensures Less(Print(a), Print(b)) <==> Time(a) < Time(b)
    ensures Print(a) == Print(b) <==> Time(a) == Time(b)
  {
    LessStamp(a, b, Fraction(a.nanos) + "+00:00", Fraction(b.nanos) + "+00:00");
    LessStamp(b, a, Fraction(b.nanos) + "+00:00", Fraction(a.nanos) + "+00:00");
    LessFraction(a.nanos, b.nanos);
    LessFraction(b.nanos, a.nanos);
    LessIrreflexive(Print(a));
    EarlierIff(a, b);
    EarlierIff(b, a);
    hide Less, Stamp, Fraction, Time, EarlierSecond;
  }

  /** The monitor's text condition `updated_at < cutoff`, with the cutoff printed 300 s before now,
      selects exactly the stale rows. */
  lemma CutoffSelectsStale(row: Row, updated: Instant, cutoff: Instant, now: nat)
    requires Real(updated) && Real(cutoff) && row.updatedAt == Time(updated) && Time(cutoff) + STAGE_TIMEOUT == now
    ensures row.status == Running && Less(Print(updated), Print(cutoff)) <==> Stale(row, now)
  {
    TextOrderIsTimeOrder(updated, cutoff);
  }

  // ── Purges ─────────────────────────────────────────────────────────────────────────────────

  /** DELETE ... WHERE created_at < before: the stamps that stay. */
  function Purged(stamps: seq<string>, before: string): seq<string> {
    if stamps == [] then []
    else if Less(stamps[0], before) then Purged(stamps[1..], before)
    else [stamps[0]] + Purged(stamps[1..], before)
  }

  function Printed(times: seq<Instant>): seq<string> {
    if times == [] then [] else [Print(times[0])] + Printed(times[1..])
  }

  function NotEarlier(times: seq<Instant>, before: Instant): seq<Instant>
    requires Real(before) && forall t :: t in times ==> Real(t)
  {
    if times == [] then []
    else if Time(times[0]) < Time(before) then NotEarlier(times[1..], before)
    else [times[0]] + NotEarlier(times[1..], before)
  }

  /** A purge keeps exactly the entries that are not older than the instant it names. */
  lemma {:induction false} PurgeSelectsByTime(times: seq<Instant>, before: Instant)
    requires Real(before) && forall t :: t in times ==> Real(t)
    ensures Purged(Printed(times), Print(before)) == Printed(NotEarlier(times, before))
  {
    if times != [] {
      TextOrderIsTimeOrder(times[0], before);
      PurgeSelectsByTime(times[1..], before);
      var rest, kept := Printed(times[1..]), NotEarlier(times[1..], before);
      assert Printed(times)[1..] == rest;
      assert ([times[0]] + kept)[1..] == kept;
      hide Print, Less, Time, Real;
    }
  }

  // ── ORDER BY ───────────────────────────────────────────────────────────────────────────────

  lemma {:induction false} PrintedAt(times: seq<Instant>, i: nat)
    requires i < |times|
    ensures |Printed(times)| == |times| && Printed(times)[i] == Print(times[i])
  {
    hide Print;
    if i > 0 { PrintedAt(times[1..], i - 1); }
    else if |times| > 1 { PrintedAt(times[1..], 0); }
  }

  ghost predicate TextSorted(stamps: seq<string>) {
    forall i, j :: 0 <= i < j < |stamps| ==> !Less(stamps[j], stamps[i])
  }

  ghost predicate TimeSorted(times: seq<Instant>)
    requires forall t :: t in times ==> Real(t)
  {
    forall i, j :: 0 <= i < j < |times| ==> Time(times[i]) <= Time(times[j])
  }

  /** ORDER BY created_at: a table is sorted by its stamps exactly when it is sorted by time. */
  lemma SortedTextIsSortedTime(times: seq<Instant>)
    requires forall t :: t in times ==> Real(t)
    ensures TextSorted(Printed(times)) <==> TimeSorted(times)
  {
    hide Less, Printed, Time, Real;
    PrintedLength(times);
    forall i, j | 0 <= i < j < |times|
      ensures Less(Printed(times)[j], Printed(times)[i]) <==> Time(times[j]) < Time(times[i])
    {
      PairOrder(times, j, i);
    }
  }

  lemma PrintedLength(times: seq<Instant>)
    ensures |Printed(times)| == |times|
  {
    if times != [] { PrintedAt(times, 0); }
  }

  lemma PairOrder(times: seq<Instant>, i: nat, j: nat)
    requires (forall t :: t in times ==> Real(t)) && i < |times| && j < |times|
    ensures |Printed(times)| == |times|
    ensures Less(Printed(times)[i], Printed(times)[j]) <==> Time(times[i]) < Time(times[j])
  {
    hide Less, Print, Printed, Time, Real;
    PrintedAt(times, i);
    PrintedAt(times, j);
    TextOrderIsTimeOrder(times[i], times[j]);
  }

  /** ORDER BY created_at DESC LIMIT 1: in a table in creation order the greatest stamp is that of the
      last entry and of no other. */
  lemma GreatestTextIsLast(times: seq<Instant>, k: nat)
    requires (forall t :: t in times ==> Real(t)) && k < |times|
    requires forall i, j :: 0 <= i < j < |times| ==> Time(times[i]) < Time(times[j])
    ensures |Printed(times)| == |times|
    ensures (forall i :: 0 <= i < |times| ==> !Less(Printed(times)[k], Printed(times)[i])) <==> k == |times| - 1
  {
    PrintedLength(times);
    forall i | 0 <= i < |times|
      ensures Less(Printed(times)[k], Printed(times)[i]) <==> Time(times[k]) < Time(times[i])
    {
      PairOrder(times, k, i);
    }
    hide Less, Printed, Time, Real;
    if k < |times| - 1 { assert Less(Printed(times)[k], Printed(times)[|times| - 1]); }
  }

  // ── A bound spelled with Z ─────────────────────────────────────────────────────────────────

  predicate NoPlus(s: string) {
    forall i :: 0 <= i < |s| ==> s[i] != '+'
  }

  /** Two texts that part before the second ends are ordered before it ends. */
  lemma {:induction false} PartBeforeEnd(p: string, q: string, x: string, y: string)
    requires !(q <= p) && NoPlus(q)
    ensures Less(p + "+00:00", q + x) <==> Less(p + "+00:00", q + y)
  {
    if p == "" {
      assert (p + "+00:00")[0] == '+' && (q + x)[0] == q[0] && (q + y)[0] == q[0];
    } else {
      assert (p + "+00:00")[1..] == p[1..] + "+00:00";
      assert (q + x)[1..] == q[1..] + x && (q + y)[1..] == q[1..] + y;
      if p[0] == q[0] {
        assert !(q[1..] <= p[1..]);
        PartBeforeEnd(p[1..], q[1..], x, y);
      }
    }
  }

  lemma {:induction false} DigitsPlain(n: nat, w: nat)
    ensures forall i :: 0 <= i < w ==> '0' <= Digits(n, w)[i] <= '9'
  {
    if w > 0 { DigitsPlain(n / 10, w - 1); }
  }

  lemma FractionPlain(nanos: nat)
    ensures forall i :: 0 <= i < |Fraction(nanos)| ==> Fraction(nanos)[i] == '.' || '0' <= Fraction(nanos)[i] <= '9'
  {
    DigitsPlain(nanos / 1_000_000, 3);
    DigitsPlain(nanos / 1_000, 6);
    DigitsPlain(nanos, 9);
    hide Digits;
  }

  lemma LessFractionZulu(n: nat, m: nat)
    requires n < 1_000_000_000 && m < 1_000_000_000
    ensures Less(Fraction(n) + "+00:00", Fraction(m) + "Z") <==> n < m || Fraction(m) <= Fraction(n)
    ensures Fraction(m) <= Fraction(n) ==> m <= n
    ensures Fraction(m) == Fraction(n) <==> m == n
  {
    var p, q := Fraction(n), Fraction(m);
    FractionPlain(n);
    FractionPlain(m);
    LessFraction(n, m);
    LessFraction(m, n);
    hide Fraction;
    if q <= p {
      PrefixSortsFirst(q, p[|q|..]);
      assert p + "+00:00" == q + (p[|q|..] + "+00:00");
    } else {
      PartBeforeEnd(p, q, "Z", "+00:00");
    }
  }

  lemma PrefixSortsFirst(q: string, rest: string)
    requires forall i :: 0 <= i < |rest| ==> rest[i] == '.' || '0' <= rest[i] <= '9'
    ensures Less(q + (rest + "+00:00"), q + "Z")
    ensures !Less(q + (rest + "+00:00"), q + "+00:00")
    ensures rest == "" ==> !Less(q + "+00:00", q + (rest + "+00:00"))
  {
    LessPrefix(q, rest + "+00:00", "Z");
    LessPrefix(q, rest + "+00:00", "+00:00");
    LessPrefix(q, "+00:00", rest + "+00:00");
    LessIrreflexive("+00:00");
    if rest == "" {
      assert rest + "+00:00" == "+00:00";
    } else {
      assert (rest + "+00:00")[0] == rest[0];
    }
  }

  /** A stamp sorts before a bound ending in Z exactly when it is earlier, or lies in the second of the
      bound and its fraction begins with that of the bound. */
  lemma ZuluIff(t: Instant, bound: Instant)
    requires Real(t) && Real(bound)
    ensures Less(Print(t), PrintZulu(bound)) <==>
            Time(t) < Time(bound) || (SameSecond(t, bound) && Fraction(bound.nanos) <= Fraction(t.nanos))
  {
    LessStamp(t, bound, Fraction(t.nanos) + "+00:00", Fraction(bound.nanos) + "Z");
    LessFractionZulu(t.nanos, bound.nanos);
    EarlierIff(t, bound);
    hide Less, Stamp, Fraction, Time, EarlierSecond;
  }

  lemma {:induction false} LessTotal(s: string, t: string)
    ensures s != t ==> (Less(s, t) <==> !Less(t, s))
  {
    if s != "" && t != "" {
      LessTotal(s[1..], t[1..]);
      assert s == [s[0]] + s[1..] && t == [t[0]] + t[1..];
    }
  }

  lemma SpellingsDiffer(a: Instant, b: Instant)
    ensures Print(a) != PrintZulu(b)
  {
    var s, t := Print(a), PrintZulu(b);
    assert s[|s| - 1] == '0' && t[|t| - 1] == 'Z' by { hide Digits, Fraction; }
  }

  /** When a window whose bounds end in Z selects by time: from a bound on, unless the stamp lies in its
      second with a fraction that begins like it; up to a bound, unless it does so and goes on. */
  lemma ZuluWindowIff(t: Instant, since: Instant, until: Instant)
    requires Real(t) && Real(since) && Real(until)
    ensures (!Less(Print(t), PrintZulu(since)) <==> Time(since) <= Time(t)) <==>
            !(SameSecond(t, since) && Fraction(since.nanos) <= Fraction(t.nanos))
    ensures (!Less(PrintZulu(until), Print(t)) <==> Time(t) <= Time(until)) <==>
            !(SameSecond(t, until) && Fraction(until.nanos) < Fraction(t.nanos))
  {
    ZuluIff(t, since);
    ZuluIff(t, until);
    LessFractionZulu(t.nanos, since.nanos);
    LessFractionZulu(t.nanos, until.nanos);
    SpellingsDiffer(t, until);
    LessTotal(Print(t), PrintZulu(until));
    EarlierIff(t, since);
    EarlierIff(t, until);
    EarlierIff(until, t);
    hide Less, Print, PrintZulu, Fraction, Time, EarlierSecond;
  }
}
