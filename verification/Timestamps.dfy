/** Timestamps as the text that the queue table stores and compares: RFC 3339 in UTC with the
    fraction's trailing zeros dropped. A time is a count of nanoseconds since 1970-01-01. */
module Timestamps {
  import opened Text

  const NANOS := 1_000_000_000
  const DAY := 86_400

  // ---- fixed-width decimals -----------------------------------------------------------------------

  function Pow10(w: nat): (p: nat)
    ensures p >= 1
  {
    if w == 0 then 1 else 10 * Pow10(w - 1)
  }

  /** The w decimal digits of n. */
  function Digits(n: nat, w: nat): (s: string)
    requires n < Pow10(w)
    ensures |s| == w
  {
    if w == 0 then "" else
      assert n / 10 < Pow10(w - 1);
      Digits(n / 10, w - 1) + ['0' + (n % 10) as char]
  }

  lemma {:induction false} DigitsOrder(m: nat, n: nat, w: nat)
    requires m < Pow10(w) && n < Pow10(w)
    ensures TextLess(Digits(m, w), Digits(n, w)) <==> m < n
    ensures Digits(m, w) == Digits(n, w) <==> m == n
  {
    if w > 0 {
      var a, b := Digits(m / 10, w - 1), Digits(n / 10, w - 1);
      var x, y := ['0' + (m % 10) as char], ['0' + (n % 10) as char];
      DigitsOrder(m / 10, n / 10, w - 1);
      assert x[0] < y[0] <==> m % 10 < n % 10;
      assert TextLess(x, y) <==> x[0] < y[0] by { assert x[1..] == y[1..] == ""; }
      assert Digits(m, w)[..w - 1] == a && Digits(n, w)[..w - 1] == b;
      assert Digits(m, w)[w - 1..] == x && Digits(n, w)[w - 1..] == y;
      if a == b {
        TextSamePrefix(a, x, y);
      } else {
        TextDecided(a, b, x, y);
      }
    }
  }

  // ---- the calendar -------------------------------------------------------------------------------

  datatype Date = Date(year: nat, month: nat, day: nat)

  predicate Leap(year: nat) {
    year % 4 == 0 && (year % 100 != 0 || year % 400 == 0)
  }

  function DaysIn(year: nat, month: nat): nat {
    if month == 2 then (if Leap(year) then 29 else 28)
    else if month == 4 || month == 6 || month == 9 || month == 11 then 30
    else 31
  }

  function NextDay(d: Date): Date {
    if d.day < DaysIn(d.year, d.month) then d.(day := d.day + 1)
    else if d.month < 12 then Date(d.year, d.month + 1, 1)
    else Date(d.year + 1, 1, 1)
  }

  /** The date n days after the epoch. */
  function DateOf(n: nat): (d: Date)
    ensures 1 <= d.month <= 12 && 1 <= d.day <= DaysIn(d.year, d.month)
  {
    if n == 0 then Date(1970, 1, 1) else NextDay(DateOf(n - 1))
  }

  predicate DateLess(a: Date, b: Date) {
    a.year < b.year || (a.year == b.year && (a.month < b.month || (a.month == b.month && a.day < b.day)))
  }

  lemma {:induction false} DatesRise(m: nat, n: nat)
    requires m < n
    ensures DateLess(DateOf(m), DateOf(n))
    decreases n
  {
    if m < n - 1 {
      DatesRise(m, n - 1);
    }
  }

  /** The leap years from year 1 on up to this one. */
  function Leaps(year: nat): nat {
    year / 4 - year / 100 + year / 400
  }

  /** The days before a month of a common year. */
  const MONTH_STARTS: seq<nat> := [0, 31, 59, 90, 120, 151, 181, 212, 243, 273, 304, 334]

  /** The day of the year, from 0. */
  function YearDay(d: Date): int
    requires d.year >= 1 && 1 <= d.month <= 12
  {
    MONTH_STARTS[d.month - 1] + (if d.month > 2 then Leaps(d.year) - Leaps(d.year - 1) else 0) + d.day - 1
  }

  /** The days from the epoch to a date, in the Gregorian calendar. */
  function DayNumber(d: Date): int
    requires d.year >= 1 && 1 <= d.month <= 12
  {
    365 * (d.year - 1970) + Leaps(d.year - 1) - Leaps(1969) + YearDay(d)
  }

  lemma LeapYears(year: nat)
    requires year >= 1
    ensures Leaps(year) - Leaps(year - 1) == if Leap(year) then 1 else 0
  {
    EveryFourth(year);
    EveryHundredth(year);
    EveryFourHundredth(year);
  }

  lemma EveryFourth(y: nat)
    requires y >= 1
    ensures y / 4 - (y - 1) / 4 == if y % 4 == 0 then 1 else 0
  {
  }

  lemma EveryHundredth(y: nat)
    requires y >= 1
    ensures y / 100 - (y - 1) / 100 == if y % 100 == 0 then 1 else 0
    ensures y % 100 == 0 ==> y % 4 == 0
  {
  }

  lemma EveryFourHundredth(y: nat)
    requires y >= 1
    ensures y / 400 - (y - 1) / 400 == if y % 400 == 0 then 1 else 0
    ensures y % 400 == 0 ==> y % 100 == 0
  {
  }

  lemma NextYearDay(d: Date)
    requires d.year >= 1 && 1 <= d.month <= 12 && 1 <= d.day <= DaysIn(d.year, d.month)
    ensures NextDay(d).year == d.year ==> YearDay(NextDay(d)) == YearDay(d) + 1
    ensures NextDay(d).year != d.year ==>
              NextDay(d) == Date(d.year + 1, 1, 1) && YearDay(d) == 364 + Leaps(d.year) - Leaps(d.year - 1)
  {
    LeapYears(d.year);
  }

  lemma NextDayNumber(d: Date)
    requires d.year >= 1 && 1 <= d.month <= 12 && 1 <= d.day <= DaysIn(d.year, d.month)
    ensures DayNumber(NextDay(d)) == DayNumber(d) + 1
  {
    NextYearDay(d);
  }

  /** Counting days forward from the epoch keeps to the calendar. */
  lemma {:induction false} DateIsGregorian(n: nat)
    ensures DateOf(n).year >= 1970 && DayNumber(DateOf(n)) == n
  {
    if n > 0 {
      DateIsGregorian(n - 1);
      NextDayNumber(DateOf(n - 1));
    }
  }

  // ---- the format ---------------------------------------------------------------------------------

  /** The years that have four digits. */
  predicate InRange(t: nat) {
    DateOf(t / NANOS / DAY).year <= 9999
  }

  /** Three fixed-width numbers joined by a separator. */
  function Joined(a: string, sep: string, b: string, c: string): string {
    a + (sep + (b + (sep + c)))
  }

  function StampText(date: string, clock: string): string {
    date + ("T" + clock)
  }

  function DateText(d: Date): (s: string)
    requires d.year <= 9999 && d.month <= 12 && d.day <= 31
    ensures |s| == 10
  {
    assert Pow10(4) == 10_000 && Pow10(2) == 100;
    Joined(Digits(d.year, 4), "-", Digits(d.month, 2), Digits(d.day, 2))
  }

  function ClockText(second: nat): (s: string)
    requires second < DAY
    ensures |s| == 8
  {
    assert Pow10(2) == 100;
    Joined(Digits(second / 3600, 2), ":", Digits(second / 60 % 60, 2), Digits(second % 60, 2))
  }

  function SecondText(second: nat): (s: string)
    requires DateOf(second / DAY).year <= 9999
    ensures |s| == 19
  {
    StampText(DateText(DateOf(second / DAY)), ClockText(second % DAY))
  }

  function TrimZeros(s: string): (t: string)
    ensures |t| <= |s|
  {
    if s != "" && s[|s| - 1] == '0' then TrimZeros(s[..|s| - 1]) else s
  }

  /** The digits after the point, without trailing zeros. */
  function Fraction(nanos: nat): string
    requires nanos < NANOS
  {
    assert Pow10(9) == NANOS by { assert Pow10(3) == 1000; assert Pow10(6) == 1_000_000; }
    TrimZeros(Digits(nanos, 9))
  }

  function Suffix(fraction: string): string {
    (if fraction == "" then "" else "." + fraction) + "Z"
  }

  function Format(t: nat): string
    requires InRange(t)
  {
    SecondText(t / NANOS) + Suffix(Fraction(t % NANOS))
  }

  lemma FormatNotEmpty(t: nat)
    requires InRange(t)
    ensures Format(t) != ""
  {
  }

  // ---- reading the text back ----------------------------------------------------------------------

  lemma {:induction false} DigitsRead(n: nat, w: nat)
    requires n < Pow10(w)
    ensures ValueOf(Digits(n, w)) == n
  {
    if w > 0 {
      DigitsRead(n / 10, w - 1);
      assert Digits(n, w)[..w - 1] == Digits(n / 10, w - 1);
    }
  }

  lemma {:induction false} TrimRead(s: string)
    ensures ValueOf(s) == ValueOf(TrimZeros(s)) * Pow10(|s| - |TrimZeros(s)|)
  {
    if s != "" && s[|s| - 1] == '0' {
      var front, t := s[..|s| - 1], TrimZeros(s);
      TrimRead(front);
      TenTimes(ValueOf(t), Pow10(|front| - |t|));
    }
  }

  lemma TenTimes(a: nat, b: nat)
    ensures 10 * (a * b) == a * (10 * b)
  {
  }

  /** The text has the form of section 5.6 of RFC 3339 in UTC, and every part reads as what it stands for;
      without its trailing zeros the fraction reads as that many digits less. */
  lemma FormatReads(t: nat)
    requires InRange(t)
    ensures var s, d, f := Format(t), DateOf(t / NANOS / DAY), Fraction(t % NANOS);
            && |s| >= 20 && s[4] == s[7] == '-' && s[10] == 'T' && s[13] == s[16] == ':'
            && ValueOf(s[..4]) == d.year && ValueOf(s[5..7]) == d.month && ValueOf(s[8..10]) == d.day
            && 3600 * ValueOf(s[11..13]) + 60 * ValueOf(s[14..16]) + ValueOf(s[17..19]) == t / NANOS % DAY
            && s[19..] == (if f == "" then "Z" else "." + f + "Z")
            && |f| <= 9 && ValueOf(f) * Pow10(9 - |f|) == t % NANOS
  {
    var date, clock := DateText(DateOf(t / NANOS / DAY)), ClockText(t / NANOS % DAY);
    DateReads(DateOf(t / NANOS / DAY));
    ClockReads(t / NANOS % DAY);
    FractionReads(t % NANOS);
    var rest := Suffix(Fraction(t % NANOS));
    var s := Format(t);
    assert s == date + ("T" + clock) + rest;
    assert s[..4] == date[..4] && s[5..7] == date[5..7] && s[8..10] == date[8..10];
    assert s[11..13] == clock[..2] && s[14..16] == clock[3..5] && s[17..19] == clock[6..8];
    assert s[13] == clock[2] && s[16] == clock[5] && s[19..] == rest;
  }

  lemma DateReads(d: Date)
    requires d.year <= 9999 && d.month <= 12 && d.day <= 31
    ensures var s := DateText(d);
            && s[4] == s[7] == '-'
            && ValueOf(s[..4]) == d.year && ValueOf(s[5..7]) == d.month && ValueOf(s[8..10]) == d.day
  {
    assert Pow10(4) == 10_000 && Pow10(2) == 100;
    DigitsRead(d.year, 4);
    DigitsRead(d.month, 2);
    DigitsRead(d.day, 2);
    var s := DateText(d);
    assert s[..4] == Digits(d.year, 4) && s[5..7] == Digits(d.month, 2) && s[8..10] == Digits(d.day, 2);
  }

  lemma ClockReads(second: nat)
    requires second < DAY
    ensures var s := ClockText(second);
            && s[2] == s[5] == ':'
            && 3600 * ValueOf(s[..2]) + 60 * ValueOf(s[3..5]) + ValueOf(s[6..8]) == second
  {
    assert Pow10(2) == 100;
    DigitsRead(second / 3600, 2);
    DigitsRead(second / 60 % 60, 2);
    DigitsRead(second % 60, 2);
    ClockSum(second);
    var s := ClockText(second);
    assert s[..2] == Digits(second / 3600, 2) && s[3..5] == Digits(second / 60 % 60, 2);
    assert s[6..8] == Digits(second % 60, 2);
  }

  lemma FractionReads(nanos: nat)
    requires nanos < NANOS
    ensures |Fraction(nanos)| <= 9 && ValueOf(Fraction(nanos)) * Pow10(9 - |Fraction(nanos)|) == nanos
  {
    assert Pow10(9) == NANOS by { assert Pow10(3) == 1000; assert Pow10(6) == 1_000_000; }
    DigitsRead(nanos, 9);
    TrimRead(Digits(nanos, 9));
  }

  // ---- between seconds the text order is the time order -------------------------------------------

  lemma JoinedOrder(a: string, b: string, c: string, a': string, b': string, c': string, sep: string)
    requires |a| == |a'| && |b| == |b'|
    ensures TextLess(Joined(a, sep, b, c), Joined(a', sep, b', c')) <==>
            TextLess(a, a') || (a == a' && (TextLess(b, b') || (b == b' && TextLess(c, c'))))
    ensures Joined(a, sep, b, c) == Joined(a', sep, b', c') <==> a == a' && b == b' && c == c'
  {
    TextTotal(sep, sep);
    Lexicographic(sep, sep, c, c');
    Lexicographic(b, b', sep + c, sep + c');
    Lexicographic(sep, sep, b + (sep + c), b' + (sep + c'));
    Lexicographic(a, a', sep + (b + (sep + c)), sep + (b' + (sep + c')));
  }

  lemma DateTextOrder(d: Date, e: Date)
    requires d.year <= 9999 && d.month <= 12 && d.day <= 31
    requires e.year <= 9999 && e.month <= 12 && e.day <= 31
    ensures TextLess(DateText(d), DateText(e)) <==> DateLess(d, e)
    ensures DateText(d) == DateText(e) <==> d == e
  {
    assert Pow10(4) == 10_000 && Pow10(2) == 100;
    DigitsOrder(d.year, e.year, 4);
    DigitsOrder(d.month, e.month, 2);
    DigitsOrder(d.day, e.day, 2);
    JoinedOrder(Digits(d.year, 4), Digits(d.month, 2), Digits(d.day, 2),
                Digits(e.year, 4), Digits(e.month, 2), Digits(e.day, 2), "-");
  }

  lemma ClockSum(m: nat)
    ensures m == 3600 * (m / 3600) + 60 * (m / 60 % 60) + m % 60
  {
  }

  /** Hours, minutes and seconds compare like the second of the day. */
  lemma ClockParts(h: nat, i: nat, s: nat, h': nat, i': nat, s': nat)
    requires i < 60 && i' < 60 && s < 60 && s' < 60
    ensures 3600 * h + 60 * i + s < 3600 * h' + 60 * i' + s' <==> h < h' || (h == h' && (i < i' || (i == i' && s < s')))
    ensures 3600 * h + 60 * i + s == 3600 * h' + 60 * i' + s' <==> h == h' && i == i' && s == s'
  {
  }

  lemma ClockOrder(m: nat, n: nat)
    requires m < DAY && n < DAY
    ensures TextLess(ClockText(m), ClockText(n)) <==> m < n
    ensures ClockText(m) == ClockText(n) <==> m == n
  {
    assert Pow10(2) == 100;
    ClockSum(m);
    ClockSum(n);
    ClockParts(m / 3600, m / 60 % 60, m % 60, n / 3600, n / 60 % 60, n % 60);
    DigitsOrder(m / 3600, n / 3600, 2);
    DigitsOrder(m / 60 % 60, n / 60 % 60, 2);
    DigitsOrder(m % 60, n % 60, 2);
    JoinedOrder(Digits(m / 3600, 2), Digits(m / 60 % 60, 2), Digits(m % 60, 2),
                Digits(n / 3600, 2), Digits(n / 60 % 60, 2), Digits(n % 60, 2), ":");
  }

  lemma DayAndClock(s: nat, t: nat)
    ensures s < t <==> s / DAY < t / DAY || (s / DAY == t / DAY && s % DAY < t % DAY)
    ensures s == t <==> s / DAY == t / DAY && s % DAY == t % DAY
  {
  }

  lemma DayTextOrder(m: nat, n: nat)
    requires DateOf(m).year <= 9999 && DateOf(n).year <= 9999
    ensures TextLess(DateText(DateOf(m)), DateText(DateOf(n))) <==> m < n
    ensures DateText(DateOf(m)) == DateText(DateOf(n)) <==> m == n
  {
    if m < n {
      DatesRise(m, n);
    } else if n < m {
      DatesRise(n, m);
    }
    DateTextOrder(DateOf(m), DateOf(n));
  }

  lemma SecondOrder(s: nat, t: nat)
    requires DateOf(s / DAY).year <= 9999 && DateOf(t / DAY).year <= 9999
    ensures TextLess(SecondText(s), SecondText(t)) <==> s < t
    ensures SecondText(s) == SecondText(t) <==> s == t
  {
    var d, e := DateText(DateOf(s / DAY)), DateText(DateOf(t / DAY));
    var c, k := ClockText(s % DAY), ClockText(t % DAY);
    DayTextOrder(s / DAY, t / DAY);
    ClockOrder(s % DAY, t % DAY);
    DayAndClock(s, t);
    StampOrder(d, e, c, k);
  }

  lemma StampOrder(d: string, e: string, c: string, k: string)
    requires |d| == |e|
    ensures TextLess(StampText(d, c), StampText(e, k)) <==> TextLess(d, e) || (d == e && TextLess(c, k))
    ensures StampText(d, c) == StampText(e, k) <==> d == e && c == k
  {
    Lexicographic(d, e, "T" + c, "T" + k);
    Lexicographic("T", "T", c, k);
    TextTotal("T", "T");
  }

  // ---- within a second ----------------------------------------------------------------------------

  /** a comes before b, decided at a position that both have. */
  predicate Diverges(a: string, b: string) {
    a != "" && b != "" && (a[0] < b[0] || (a[0] == b[0] && Diverges(a[1..], b[1..])))
  }

  lemma {:induction false} DivergesDecides(a: string, b: string, x: string, y: string)
    requires Diverges(a, b)
    ensures TextLess(a + x, b + y) && !TextLess(b + y, a + x)
  {
    assert (a + x)[1..] == a[1..] + x && (b + y)[1..] == b[1..] + y;
    if a[0] == b[0] {
      DivergesDecides(a[1..], b[1..], x, y);
    }
  }

  lemma {:induction false} TrimFront(x: char, s: string)
    ensures TrimZeros([x] + s) == if TrimZeros(s) == "" && x == '0' then "" else [x] + TrimZeros(s)
  {
    if s == "" {
      assert [x] + s == [x];
      assert [x][..0] == "";
    } else {
      var n := |s| - 1;
      assert ([x] + s)[..n + 1] == [x] + s[..n] && ([x] + s)[n + 1] == s[n];
      if s[n] == '0' {
        TrimFront(x, s[..n]);
      }
    }
  }

  lemma {:induction false} DigitsAllDigits(n: nat, w: nat)
    requires n < Pow10(w)
    ensures AllDigits(Digits(n, w))
  {
    if w > 0 {
      DigitsAllDigits(n / 10, w - 1);
    }
  }

  lemma {:induction false} TrimDigits(s: string)
    requires AllDigits(s)
    ensures AllDigits(TrimZeros(s))
  {
    if s != "" {
      TrimDigits(s[..|s| - 1]);
    }
  }

  // Dropping trailing zeros turns "less" into "less at a common position, or a proper prefix".
  lemma {:induction false} TrimOrder(a: string, b: string)
    requires |a| == |b| && TextLess(a, b) && AllDigits(a) && AllDigits(b)
    ensures Diverges(TrimZeros(a), TrimZeros(b)) || TrimZeros(a) < TrimZeros(b)
  {
    var x, y, a', b' := a[0], b[0], a[1..], b[1..];
    assert a == [x] + a' && b == [y] + b';
    TrimFront(x, a');
    TrimFront(y, b');
    if x == y {
      TrimOrder(a', b');
      var p, q := TrimZeros(a'), TrimZeros(b');
      assert TrimZeros(b) == [x] + q;
      if TrimZeros(a) != "" {
        assert ([x] + p)[1..] == p && ([x] + q)[1..] == q;
        if p < q { assert [x] + p < [x] + q; }
      }
    }
  }

  // A proper prefix of a fraction comes after it as text: the next digit is below 'Z', and so is '.'.
  lemma PrefixComesAfter(f: string, g: string)
    requires f < g && AllDigits(g)
    ensures TextLess(Suffix(g), Suffix(f)) && !TextLess(Suffix(f), Suffix(g))
  {
    var rest := g[|f|..];
    assert g == f + rest;
    assert TextLess(rest + "Z", "Z") by { assert rest[0] == g[|f|]; }
    if f == "" {
      assert Suffix(f) == "Z";
      assert Suffix(g)[0] == '.';
    } else {
      TextSamePrefix("." + f, rest + "Z", "Z");
      assert Suffix(g) == ("." + f) + (rest + "Z");
      assert Suffix(f) == ("." + f) + "Z";
    }
    TextTotal(Suffix(f), Suffix(g));
  }

  lemma SuffixDiverges(f: string, g: string)
    requires Diverges(f, g)
    ensures TextLess(Suffix(f), Suffix(g)) && !TextLess(Suffix(g), Suffix(f))
  {
    DivergesDecides(f, g, "Z", "Z");
    TextSamePrefix(".", f + "Z", g + "Z");
    TextSamePrefix(".", g + "Z", f + "Z");
    assert Suffix(f) == "." + (f + "Z") && Suffix(g) == "." + (g + "Z");
  }

  /** One fraction is the other with more digits. */
  predicate Misordered(s: nat, t: nat) {
    var f, g := Fraction(s % NANOS), Fraction(t % NANOS);
    s / NANOS == t / NANOS && (f < g || g < f)
  }

  lemma FractionOrder(m: nat, n: nat)
    requires m < n < NANOS
    ensures var f, g := Fraction(m), Fraction(n);
            && (f < g || Diverges(f, g)) && AllDigits(g)
  {
    assert Pow10(9) == NANOS by { assert Pow10(3) == 1000; assert Pow10(6) == 1_000_000; }
    DigitsOrder(m, n, 9);
    DigitsAllDigits(m, 9);
    DigitsAllDigits(n, 9);
    TrimDigits(Digits(n, 9));
    TrimOrder(Digits(m, 9), Digits(n, 9));
  }

  lemma {:induction false} DivergesNotPrefix(f: string, g: string)
    requires Diverges(f, g)
    ensures !(f < g) && !(g < f)
  {
    if f < g || g < f {
      assert f[0] == g[0];
      assert f < g ==> f[1..] < g[1..];
      assert g < f ==> g[1..] < f[1..];
      DivergesNotPrefix(f[1..], g[1..]);
    }
  }

  /** Text order is time order, except exactly where the two times lie in the same second and one
      fraction extends the other: then it is reversed. */
  lemma FormatOrder(s: nat, t: nat)
    requires InRange(s) && InRange(t)
    ensures s < t && !Misordered(s, t) ==> TextLess(Format(s), Format(t)) && !TextLess(Format(t), Format(s))
    ensures s < t && Misordered(s, t) ==> TextLess(Format(t), Format(s)) && !TextLess(Format(s), Format(t))
    ensures s == t ==> Format(s) == Format(t)
  {
    if s < t {
      var f, g := Fraction(s % NANOS), Fraction(t % NANOS);
      SecondOrder(s / NANOS, t / NANOS);
      SecondOrder(t / NANOS, s / NANOS);
      Lexicographic(SecondText(s / NANOS), SecondText(t / NANOS), Suffix(f), Suffix(g));
      Lexicographic(SecondText(t / NANOS), SecondText(s / NANOS), Suffix(g), Suffix(f));
      if s / NANOS == t / NANOS {
        TextTotal(SecondText(s / NANOS), SecondText(t / NANOS));
        assert s % NANOS < t % NANOS;
        FractionOrder(s % NANOS, t % NANOS);
        if f < g {
          PrefixComesAfter(f, g);
        } else {
          DivergesNotPrefix(f, g);
          SuffixDiverges(f, g);
        }
      }
    }
  }

  /** So a due test by text never accepts a later second and never refuses an earlier one. */
  lemma DueWithinASecond(due: nat, now: nat)
    requires InRange(due) && InRange(now)
    ensures TextAtMost(Format(due), Format(now)) ==> due / NANOS <= now / NANOS
    ensures due / NANOS < now / NANOS ==> TextAtMost(Format(due), Format(now))
    ensures due / NANOS == now / NANOS ==>
              (TextAtMost(Format(due), Format(now)) <==> (due <= now) != Misordered(due, now))
  {
    FormatOrder(due, now);
    FormatOrder(now, due);
    TextTotal(Format(due), Format(now));
    if due == now {
      assert !Misordered(due, now);
    }
  }
}
