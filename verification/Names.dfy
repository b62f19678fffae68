/** Snapshot names: their byte order, the instant they denote, and why both orders agree. */
module Names {
  import opened Wrappers

  const NAME_LENGTH := 19

  predicate IsDigit(c: char) {
    '0' <= c <= '9'
  }

  predicate AllDigits(s: string) {
    forall i | 0 <= i < |s| :: IsDigit(s[i])
  }

  // The regular expression \d{8}T\d{6}\.\d{3}, matched against the whole of s.
  predicate IsSnapshotName(s: string) {
    && |s| == NAME_LENGTH
    && AllDigits(s[..8])
    && s[8] == 'T'
    && AllDigits(s[9..15])
    && s[15] == '.'
    && AllDigits(s[16..])
  }

  // strings.Compare
  function Compare(a: string, b: string): int {
    if a == [] && b == [] then 0
    else if a == [] then -1
    else if b == [] then 1
    else if a[0] != b[0] then (if a[0] < b[0] then -1 else 1)
    else Compare(a[1..], b[1..])
  }

  function Sign(x: int): int {
    if x < 0 then -1 else if x == 0 then 0 else 1
  }

  /* ---- Positional numbers ---- */

  function Power(base: nat, n: nat): (p: nat)
    requires base > 0
    ensures p >= 1
  {
    if n == 0 then 1 else base * Power(base, n - 1)
  }

  ghost predicate Spells(s: string, base: nat, zero: nat) {
    base > 0 && forall i | 0 <= i < |s| :: zero <= s[i] as int < zero + base
  }

  // The number s spells when the character zero stands for 0.
  function Value(s: string, base: nat, zero: nat): int
    requires Spells(s, base, zero)
  {
    if s == [] then 0
    else (s[0] as int - zero) * Power(base, |s| - 1) + Value(s[1..], base, zero)
  }

  lemma {:induction false} Scale(d: nat, e: nat, w: nat)
    requires d < e
    ensures d * w + w <= e * w
  {
    if d + 1 < e {
      Scale(d, e - 1, w);
      assert e * w == (e - 1) * w + w;
    } else {
      assert (d + 1) * w == d * w + w;
    }
  }

  lemma {:induction false} Positional(d: nat, e: nat, w: nat, x: nat, y: nat)
    requires x < w && y < w
    ensures Sign((d * w + x) - (e * w + y)) == if d != e then Sign(d - e) else Sign(x - y)
  {
    if d < e {
      Scale(d, e, w);
    } else if e < d {
      Scale(e, d, w);
    }
  }

  lemma {:induction false} Digit(d: nat, base: nat, w: nat, rest: nat)
    requires d < base && rest < w
    ensures 0 <= d * w + rest < base * w
  {
    Scale(d, base, w);
  }

  lemma {:induction false} ValueBound(s: string, base: nat, zero: nat)
    requires Spells(s, base, zero)
    ensures 0 <= Value(s, base, zero) < Power(base, |s|)
  {
    if s != [] {
      ValueBound(s[1..], base, zero);
      Digit(s[0] as int - zero, base, Power(base, |s| - 1), Value(s[1..], base, zero));
    }
  }

  // On strings of one length, byte order is the order of the numbers spelled.
  lemma {:induction false} CompareIsNumeric(a: string, b: string, base: nat, zero: nat)
    requires |a| == |b| && Spells(a, base, zero) && Spells(b, base, zero)
    ensures Compare(a, b) == Sign(Value(a, base, zero) - Value(b, base, zero))
  {
    if a != [] {
      CompareIsNumeric(a[1..], b[1..], base, zero);
      ValueBound(a[1..], base, zero);
      ValueBound(b[1..], base, zero);
      Positional(a[0] as int - zero, b[0] as int - zero, Power(base, |a| - 1),
                 Value(a[1..], base, zero), Value(b[1..], base, zero));
    }
  }

  function Num(s: string): nat
    requires AllDigits(s)
  {
    assert forall i | 0 <= i < |s| :: IsDigit(s[i]);
    ValueBound(s, 10, '0' as int);
    Value(s, 10, '0' as int)
  }

  // A number that orders names as their bytes do.
  function Rank(s: string): nat {
    ValueBound(s, 0x110000, 0);
    Value(s, 0x110000, 0)
  }

  lemma {:induction false} CompareIsRank(a: string, b: string)
    requires |a| == |b|
    ensures Compare(a, b) == Sign(Rank(a) - Rank(b))
  {
    CompareIsNumeric(a, b, 0x110000, 0);
  }

  /* ---- Comparing part by part ---- */

  // Comparison is decided by the first k characters unless they are equal.
  lemma {:induction false} CompareSplit(a: string, b: string, k: nat)
    requires k <= |a| && k <= |b|
    ensures Compare(a, b) ==
      if Compare(a[..k], b[..k]) != 0 then Compare(a[..k], b[..k]) else Compare(a[k..], b[k..])
  {
    if k > 0 {
      assert a[..k][1..] == a[1..][..k-1] && b[..k][1..] == b[1..][..k-1];
      assert a[1..][k-1..] == a[k..] && b[1..][k-1..] == b[k..];
      CompareSplit(a[1..], b[1..], k - 1);
    } else {
      assert a[..0] == [] && b[..0] == [] && a[0..] == a && b[0..] == b;
    }
  }

  lemma {:induction false} CompareZero(a: string, b: string)
    ensures Compare(a, b) == 0 <==> a == b
  {
    if a != [] && b != [] {
      assert a == [a[0]] + a[1..] && b == [b[0]] + b[1..];
      CompareZero(a[1..], b[1..]);
    }
  }

  // A field of digits decides, unless it is the same in both.
  lemma {:induction false} CompareField(a: string, b: string, i: nat, j: nat)
    requires i <= j <= |a| == |b| && AllDigits(a[i..j]) && AllDigits(b[i..j])
    ensures Compare(a[i..], b[i..]) ==
      if Num(a[i..j]) != Num(b[i..j]) then Sign(Num(a[i..j]) - Num(b[i..j])) else Compare(a[j..], b[j..])
  {
    CompareSplit(a[i..], b[i..], j - i);
    assert a[i..][..j - i] == a[i..j] && b[i..][..j - i] == b[i..j];
    assert a[i..][j - i..] == a[j..] && b[i..][j - i..] == b[j..];
    CompareIsNumeric(a[i..j], b[i..j], 10, '0' as int);
  }

  lemma {:induction false} CompareSeparator(a: string, b: string, i: nat)
    requires i < |a| == |b| && a[i] == b[i]
    ensures Compare(a[i..], b[i..]) == Compare(a[i + 1..], b[i + 1..])
  {
  }

  /* ---- Instants ---- */

  predicate IsLeap(y: nat) {
    y % 4 == 0 && (y % 100 != 0 || y % 400 == 0)
  }

  function DaysInMonth(y: nat, m: nat): (d: nat)
    requires 1 <= m <= 12
  {
    if m == 2 then (if IsLeap(y) then 29 else 28)
    else if m == 4 || m == 6 || m == 9 || m == 11 then 30
    else 31
  }

  function DaysBeforeMonth(y: nat, m: nat): nat
    requires 1 <= m <= 13
  {
    if m == 1 then 0 else DaysBeforeMonth(y, m - 1) + DaysInMonth(y, m - 1)
  }

  function DaysBeforeYear(y: nat): nat {
    if y == 0 then 0 else DaysBeforeYear(y - 1) + DaysBeforeMonth(y - 1, 13)
  }

  datatype Fields = Fields(year: nat, month: nat, day: nat, hour: nat, minute: nat, second: nat, milli: nat) {
    // What time.Parse accepts for the layout 20060102T150405.000.
    predicate Valid() {
      && 1 <= month <= 12
      && 1 <= day <= DaysInMonth(year, month)
      && hour < 24 && minute < 60 && second < 60 && milli < 1000
    }

    // Milliseconds since the start of year 0.
    function Millis(): nat
      requires Valid()
    {
      var days := DaysBeforeYear(year) + DaysBeforeMonth(year, month) + day - 1;
      (((days * 24 + hour) * 60 + minute) * 60 + second) * 1000 + milli
    }
  }

  lemma {:induction false} DigitFields(s: string)
    requires IsSnapshotName(s)
    ensures AllDigits(s[..4]) && AllDigits(s[4..6]) && AllDigits(s[6..8])
    ensures AllDigits(s[9..11]) && AllDigits(s[11..13]) && AllDigits(s[13..15])
  {
    forall i | 0 <= i < 8 ensures IsDigit(s[i]) { assert s[..8][i] == s[i]; }
    forall i | 9 <= i < 15 ensures IsDigit(s[i]) { assert s[9..15][i - 9] == s[i]; }
  }

  function FieldsOf(s: string): Fields
    requires IsSnapshotName(s)
  {
    DigitFields(s);
    Fields(Num(s[..4]), Num(s[4..6]), Num(s[6..8]),
           Num(s[9..11]), Num(s[11..13]), Num(s[13..15]), Num(s[16..]))
  }

  // Snapshot.Time: None where the program returns an error.
  function Time(s: string): (t: Option<int>) {
    if IsSnapshotName(s) && FieldsOf(s).Valid() then Some(FieldsOf(s).Millis()) else None
  }

  lemma {:induction false} MonthsInOrder(y: nat, m: nat, n: nat)
    requires 1 <= m < n <= 13
    ensures DaysBeforeMonth(y, m) + DaysInMonth(y, m) <= DaysBeforeMonth(y, n)
  {
    if m + 1 < n {
      MonthsInOrder(y, m, n - 1);
    }
  }

  lemma {:induction false} YearsInOrder(y: nat, z: nat)
    requires y < z
    ensures DaysBeforeYear(y) + DaysBeforeMonth(y, 13) <= DaysBeforeYear(z)
  {
    if y + 1 < z {
      YearsInOrder(y, z - 1);
    }
  }

  lemma {:induction false} YearLength(y: nat)
    ensures DaysBeforeMonth(y, 13) == if IsLeap(y) then 366 else 365
  {
    assert DaysBeforeMonth(y, 2) == 31;
    assert DaysBeforeMonth(y, 3) == 31 + DaysInMonth(y, 2);
    assert DaysBeforeMonth(y, 5) == DaysBeforeMonth(y, 3) + 61;
    assert DaysBeforeMonth(y, 7) == DaysBeforeMonth(y, 5) + 61;
    assert DaysBeforeMonth(y, 9) == DaysBeforeMonth(y, 7) + 62;
    assert DaysBeforeMonth(y, 11) == DaysBeforeMonth(y, 9) + 61;
    assert DaysBeforeMonth(y, 13) == DaysBeforeMonth(y, 11) + 61;
  }

  lemma {:induction false} MultipleCrossed(y: nat, k: nat)
    requires k > 0 && y > 0
    ensures (y + k - 1) / k == (y - 1 + k - 1) / k + (if (y - 1) % k == 0 then 1 else 0)
  {
    var q, r := (y - 1) / k, (y - 1) % k;
    assert y - 1 == q * k + r;
    assert (q + 1) * k == q * k + k;
    assert (y + k - 1) / k == q + 1 by { Quotient(y + k - 1, k, q + 1, r); }
    if r == 0 {
      Quotient(y - 1 + k - 1, k, q, k - 1);
    } else {
      Quotient(y - 1 + k - 1, k, q + 1, r - 1);
    }
  }

  lemma {:induction false} Quotient(x: nat, k: nat, q: nat, r: nat)
    requires x == q * k + r && r < k
    ensures x / k == q
  {
    var q', r' := x / k, x % k;
    Positional(q, q', k, r, r');
    assert x == q' * k + r';
  }

  lemma {:induction false} Factor(y: nat, k: nat, n: nat)
    requires k > 0 && n > 0 && y % (k * n) == 0
    ensures y % k == 0
  {
    var q := y / (k * n);
    assert y == (k * n) * q == (n * q) * k;
    Quotient(y, k, n * q, 0);
    assert y == k * (y / k) + y % k;
  }

  function Multiple(y: nat, k: nat): nat
    requires k > 0
  {
    if y % k == 0 then 1 else 0
  }

  lemma {:induction false} LeapCount(y: nat)
    ensures Multiple(y, 4) - Multiple(y, 100) + Multiple(y, 400) == if IsLeap(y) then 1 else 0
  {
    if y % 100 == 0 { Factor(y, 4, 25); }
    if y % 400 == 0 { Factor(y, 100, 4); }
  }

  function LeapYearsBefore(y: nat): int {
    (y + 3) / 4 - (y + 99) / 100 + (y + 399) / 400
  }

  lemma {:induction false} LeapDay(y: nat)
    requires y > 0
    ensures LeapYearsBefore(y) == LeapYearsBefore(y - 1) + (if IsLeap(y - 1) then 1 else 0)
  {
    hide IsLeap;
    assert (y + 3) / 4 == (y + 2) / 4 + Multiple(y - 1, 4) by { MultipleCrossed(y, 4); }
    assert (y + 99) / 100 == (y + 98) / 100 + Multiple(y - 1, 100) by { MultipleCrossed(y, 100); }
    assert (y + 399) / 400 == (y + 398) / 400 + Multiple(y - 1, 400) by { MultipleCrossed(y, 400); }
    hide Multiple;
    LeapCount(y - 1);
  }

  lemma {:induction false} NoLeapYearBefore()
    ensures LeapYearsBefore(0) == 0
  {
  }

  // The closed form of the Gregorian calendar, which the day count agrees with.
  lemma {:induction false} GregorianClosedForm(y: nat)
    ensures DaysBeforeYear(y) == 365 * y + LeapYearsBefore(y)
  {
    hide IsLeap, DaysBeforeMonth, LeapYearsBefore;
    if y == 0 {
      NoLeapYearBefore();
    } else {
      assert DaysBeforeYear(y) == DaysBeforeYear(y - 1) + DaysBeforeMonth(y - 1, 13);
      GregorianClosedForm(y - 1);
      YearLength(y - 1);
      LeapDay(y);
    }
  }

  // The day a month begins on, counted in years that begin in March, as calendars are usually computed.
  function MarchCount(y: nat, m: nat): int
    requires 1 <= m <= 12
  {
    var year, month := if m > 2 then y else y - 1, if m > 2 then m - 3 else m + 9;
    365 * year + year / 4 - year / 100 + year / 400 + (153 * month + 2) / 5 + 60
  }

  lemma {:induction false} MonthBegins(y: nat, m: nat)
    requires 1 <= m <= 12
    ensures DaysBeforeMonth(y, m) ==
      if m <= 2 then 31 * (m - 1) else (153 * (m - 3) + 2) / 5 + (if IsLeap(y) then 60 else 59)
  {
    hide IsLeap;
    if m > 1 {
      MonthBegins(y, m - 1);
    }
  }

  lemma {:induction false} LeapYearsUpTo(y: nat)
    ensures LeapYearsBefore(y + 1) == y / 4 - y / 100 + y / 400 + 1
  {
  }

  /** The day count of every month of every year is the one of the calendar that begins in March. */
  lemma {:induction false} MonthClosedForm(y: nat, m: nat)
    requires 1 <= m <= 12
    ensures DaysBeforeYear(y) + DaysBeforeMonth(y, m) == MarchCount(y, m)
  {
    GregorianClosedForm(y);
    MonthBegins(y, m);
    hide DaysBeforeYear, DaysBeforeMonth, IsLeap, LeapYearsBefore;
    if m > 2 {
      LeapDay(y + 1);
      LeapYearsUpTo(y);
    } else if y > 0 {
      LeapYearsUpTo(y - 1);
    } else {
      NoLeapYearBefore();
    }
  }

  /* ---- Every instant ---- */

  lemma {:induction false} ManyDays(y: nat)
    ensures DaysBeforeYear(y) >= 365 * y
  {
    hide IsLeap, DaysBeforeMonth;
    if y > 0 {
      ManyDays(y - 1);
      YearLength(y - 1);
    }
  }

  lemma {:induction false} YearOf(days: nat, bound: nat) returns (y: nat)
    requires days < DaysBeforeYear(bound)
    ensures DaysBeforeYear(y) <= days < DaysBeforeYear(y + 1)
  {
    if DaysBeforeYear(bound - 1) <= days {
      y := bound - 1;
    } else {
      y := YearOf(days, bound - 1);
    }
  }

  lemma {:induction false} MonthOf(y: nat, days: nat, bound: nat) returns (m: nat)
    requires 1 <= bound <= 13 && days < DaysBeforeMonth(y, bound)
    ensures 1 <= m <= 12 && DaysBeforeMonth(y, m) <= days < DaysBeforeMonth(y, m) + DaysInMonth(y, m)
  {
    hide DaysInMonth;
    if DaysBeforeMonth(y, bound - 1) <= days {
      m := bound - 1;
    } else {
      m := MonthOf(y, days, bound - 1);
    }
  }

  /** Every millisecond is the instant of some valid calendar fields. */
  lemma {:induction false} FieldsAt(millis: nat) returns (f: Fields)
    ensures f.Valid() && f.Millis() == millis
  {
    var seconds, minutes, hours := millis / 1000, millis / 1000 / 60, millis / 1000 / 60 / 60;
    var days := hours / 24;
    ManyDays(days + 1);
    var y := YearOf(days, days + 1);
    var m := MonthOf(y, days - DaysBeforeYear(y), 13);
    hide DaysInMonth;
    f := Fields(y, m, days - DaysBeforeYear(y) - DaysBeforeMonth(y, m) + 1,
                hours % 24, minutes % 60, seconds % 60, millis % 1000);
  }

  // A number in decimal, with leading zeros.
  function Digits(n: nat, width: nat): (s: string)
    ensures |s| == width && AllDigits(s)
  {
    if width == 0 then "" else Digits(n / 10, width - 1) + [('0' as int + n % 10) as char]
  }

  lemma {:induction false} Shifted(d: int, p: int, v: int, base: int, c: int)
    ensures d * (base * p) + (v * base + c) == (d * p + v) * base + c
  {
  }

  lemma {:induction false} SpellsParts(s: string, c: char, base: nat, zero: nat)
    requires Spells(s + [c], base, zero)
    ensures Spells(s, base, zero)
    ensures s != [] ==> Spells(s[1..] + [c], base, zero) && (s + [c])[1..] == s[1..] + [c]
  {
    assert forall i | 0 <= i < |s| :: (s + [c])[i] == s[i];
    assert (s + [c])[|s|] == c;
  }

  lemma {:induction false} ValueCons(s: string, base: nat, zero: nat)
    requires s != [] && Spells(s, base, zero)
    ensures Spells(s[1..], base, zero)
    ensures Value(s, base, zero) == (s[0] as int - zero) * Power(base, |s| - 1) + Value(s[1..], base, zero)
  {
  }

  lemma {:induction false} ValueAppend(s: string, c: char, base: nat, zero: nat)
    requires Spells(s + [c], base, zero)
    ensures Spells(s, base, zero) && Value(s + [c], base, zero) == Value(s, base, zero) * base + (c as int - zero)
  {
    SpellsParts(s, c, base, zero);
    ValueCons(s + [c], base, zero);
    if s == [] {
      assert (s + [c])[1..] == [];
    } else {
      ValueCons(s, base, zero);
      ValueAppend(s[1..], c, base, zero);
      PowerNext(base, |s|);
      hide Value, Power, Spells;
      Shifted(s[0] as int - zero, Power(base, |s| - 1), Value(s[1..], base, zero), base, c as int - zero);
    }
  }

  lemma {:induction false} PowerNext(base: nat, n: nat)
    requires base > 0 && n > 0
    ensures Power(base, n) == base * Power(base, n - 1)
  {
  }

  lemma {:induction false} NumOfDigits(n: nat, width: nat)
    requires n < Power(10, width)
    ensures Num(Digits(n, width)) == n
  {
    if width > 0 {
      assert n / 10 < Power(10, width - 1);
      NumOfDigits(n / 10, width - 1);
      var s, c := Digits(n / 10, width - 1), ('0' as int + n % 10) as char;
      assert Spells(s + [c], 10, '0' as int) by {
        assert Digits(n, width) == s + [c];
        assert forall i | 0 <= i < |s + [c]| :: IsDigit((s + [c])[i]);
      }
      ValueAppend(s, c, 10, '0' as int);
    }
  }

  // time.Format with the layout of snapshot names.
  function Format(f: Fields): string {
    Digits(f.year, 4) + Digits(f.month, 2) + Digits(f.day, 2) + "T"
    + Digits(f.hour, 2) + Digits(f.minute, 2) + Digits(f.second, 2) + "." + Digits(f.milli, 3)
  }

  lemma {:induction false} FormatFields(f: Fields)
    ensures var s := Format(f);
      && IsSnapshotName(s)
      && s[..4] == Digits(f.year, 4) && s[4..6] == Digits(f.month, 2) && s[6..8] == Digits(f.day, 2)
      && s[9..11] == Digits(f.hour, 2) && s[11..13] == Digits(f.minute, 2) && s[13..15] == Digits(f.second, 2)
      && s[16..] == Digits(f.milli, 3)
  {
    hide Digits;
    var s := Format(f);
    assert s[..8] == Digits(f.year, 4) + Digits(f.month, 2) + Digits(f.day, 2);
    assert s[9..15] == Digits(f.hour, 2) + Digits(f.minute, 2) + Digits(f.second, 2);
  }

  /** The name written for an instant of the first ten thousand years is a snapshot name and parses to it. */
  lemma {:induction false} FormatParses(f: Fields)
    requires f.Valid() && f.year < 10_000
    ensures IsSnapshotName(Format(f)) && Time(Format(f)) == Some(f.Millis())
  {
    FormatFields(f);
    PowersOfTen();
    NumOfDigits(f.year, 4);
    NumOfDigits(f.month, 2);
    NumOfDigits(f.day, 2);
    NumOfDigits(f.hour, 2);
    NumOfDigits(f.minute, 2);
    NumOfDigits(f.second, 2);
    NumOfDigits(f.milli, 3);
    hide Format, Digits, Num, IsSnapshotName, Power;
    assert FieldsOf(Format(f)) == f;
  }

  lemma {:induction false} LateYear(f: Fields, y: nat)
    requires f.Valid() && f.year >= y
    ensures f.Millis() >= DaysBeforeYear(y) * 86_400_000
  {
    if f.year > y {
      YearsInOrder(y, f.year);
    }
  }

  /** Every millisecond of the first ten thousand years has a name, which parses to it. */
  lemma {:induction false} NameAt(millis: nat) returns (name: string)
    requires millis < MarchCount(10_000, 1) * 86_400_000
    ensures IsSnapshotName(name) && Time(name) == Some(millis)
  {
    var f := FieldsAt(millis);
    MonthClosedForm(10_000, 1);
    if f.year >= 10_000 {
      LateYear(f, 10_000);
    }
    name := Format(f);
    FormatParses(f);
  }

  lemma {:induction false} PowersOfTen()
    ensures Power(10, 2) == 100 && Power(10, 3) == 1000 && Power(10, 4) == 10_000
  {
    assert Power(10, 1) == 10;
    assert Power(10, 2) == 10 * Power(10, 1);
    assert Power(10, 3) == 10 * Power(10, 2);
    assert Power(10, 4) == 10 * Power(10, 3);
  }

  // Lexicographic order on calendar fields.
  function CompareFields(a: Fields, b: Fields): int {
    if a.year != b.year then Sign(a.year - b.year)
    else if a.month != b.month then Sign(a.month - b.month)
    else if a.day != b.day then Sign(a.day - b.day)
    else if a.hour != b.hour then Sign(a.hour - b.hour)
    else if a.minute != b.minute then Sign(a.minute - b.minute)
    else if a.second != b.second then Sign(a.second - b.second)
    else Sign(a.milli - b.milli)
  }

  lemma {:induction false} EarlierDay(a: Fields, b: Fields)
    requires a.Valid() && b.Valid()
    requires a.year < b.year || (a.year == b.year && (a.month < b.month || (a.month == b.month && a.day < b.day)))
    ensures DaysBeforeYear(a.year) + DaysBeforeMonth(a.year, a.month) + a.day
          < DaysBeforeYear(b.year) + DaysBeforeMonth(b.year, b.month) + b.day
  {
    if a.year < b.year {
      YearsInOrder(a.year, b.year);
      MonthsInOrder(a.year, a.month, 13);
    } else if a.month < b.month {
      MonthsInOrder(a.year, a.month, b.month);
    }
  }

  lemma {:induction false} FieldOrderIsTimeOrder(a: Fields, b: Fields)
    requires a.Valid() && b.Valid()
    ensures CompareFields(a, b) == Sign(a.Millis() - b.Millis())
  {
    if (a.year, a.month, a.day) != (b.year, b.month, b.day) {
      if a.year < b.year || (a.year == b.year && (a.month < b.month || (a.month == b.month && a.day < b.day))) {
        EarlierDay(a, b);
      } else {
        EarlierDay(b, a);
      }
    }
  }

  lemma {:induction false} ClockOrder(a: string, b: string)
    requires IsSnapshotName(a) && IsSnapshotName(b)
    ensures var (f, g) := (FieldsOf(a), FieldsOf(b));
      Compare(a[8..], b[8..]) ==
        CompareFields(Fields(0, 0, 0, f.hour, f.minute, f.second, f.milli),
                      Fields(0, 0, 0, g.hour, g.minute, g.second, g.milli))
  {
    DigitFields(a);
    DigitFields(b);
    CompareSeparator(a, b, 8);
    CompareField(a, b, 9, 11);
    CompareField(a, b, 11, 13);
    CompareField(a, b, 13, 15);
    CompareSeparator(a, b, 15);
    assert a[16..19] == a[16..] && b[16..19] == b[16..];
    CompareField(a, b, 16, 19);
  }

  lemma {:induction false} NameOrderIsFieldOrder(a: string, b: string)
    requires IsSnapshotName(a) && IsSnapshotName(b)
    ensures Compare(a, b) == CompareFields(FieldsOf(a), FieldsOf(b))
  {
    DigitFields(a);
    DigitFields(b);
    assert a[0..] == a && b[0..] == b && a[0..4] == a[..4] && b[0..4] == b[..4];
    CompareField(a, b, 0, 4);
    CompareField(a, b, 4, 6);
    CompareField(a, b, 6, 8);
    ClockOrder(a, b);
  }

  /** Comparing two valid names as strings is comparing the instants they denote. */
  lemma {:induction false} NameOrderIsTimeOrder(a: string, b: string)
    requires Time(a).Some? && Time(b).Some?
    ensures Compare(a, b) == Sign(Time(a).value - Time(b).value)
    ensures Time(a) == Time(b) ==> a == b
  {
    NameOrderIsFieldOrder(a, b);
    FieldOrderIsTimeOrder(FieldsOf(a), FieldsOf(b));
    CompareZero(a, b);
  }
}
