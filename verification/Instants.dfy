/** internal/temporal/temporal.go, Encode and Parse: instants as fixed-width text, so that text order is time order. */
module Instants {
  import opened Wrappers
  import opened Decimals
  import opened Strings

  /** A UTC civil time. */
  datatype Civil = Civil(year: int, month: int, day: int, hour: int, minute: int, second: int, nano: int)

  predicate Leap(y: int) { y % 4 == 0 && (y % 100 != 0 || y % 400 == 0) }

  function DaysIn(y: int, m: int): int {
    if m == 2 then (if Leap(y) then 29 else 28) else if m == 4 || m == 6 || m == 9 || m == 11 then 30 else 31
  }

  predicate Valid(c: Civil) {
    && 1 <= c.month <= 12 && 1 <= c.day <= DaysIn(c.year, c.month)
    && 0 <= c.hour < 24 && 0 <= c.minute < 60 && 0 <= c.second < 60 && 0 <= c.nano < 1_000_000_000
  }

  // ---- the time line ----

  function YearLen(y: int): int { if Leap(y) then 366 else 365 }

  /** Days from 0000-01-01 to the first of a year, and from that to the first of a month. */
  function YearStart(y: int): int
    decreases if y < 0 then -y else y
  {
    if y == 0 then 0 else if y > 0 then YearStart(y - 1) + YearLen(y - 1) else YearStart(y + 1) - YearLen(y)
  }

  function MonthStart(y: int, m: nat): int { if m <= 1 then 0 else MonthStart(y, m - 1) + DaysIn(y, m - 1) }

  const HOUR := 3_600_000_000_000
  const MINUTE := 60_000_000_000
  const SECOND := 1_000_000_000

  function DayNumber(c: Civil): int
    requires 1 <= c.month
  {
    YearStart(c.year) + MonthStart(c.year, c.month) + c.day - 1
  }

  function Clock(c: Civil): int { c.hour * HOUR + c.minute * MINUTE + c.second * SECOND + c.nano }

  /** Nanoseconds since the start of year 0. */
  function Nanos(c: Civil): int
    requires 1 <= c.month
  {
    DayNumber(c) * (24 * HOUR) + Clock(c)
  }

  // ---- fixed-width text ----

  /** A number to write, the least number of digits, and the character after it. */
  datatype Field = Field(value: int, width: nat, sep: char)

  function Number(f: Field): string {
    if f.value < 0 then "-" + Pad(-f.value, f.width) else Pad(f.value, f.width)
  }

  function Text(fs: seq<Field>): string {
    if fs == [] then "" else Number(fs[0]) + [fs[0].sep] + Text(fs[1..])
  }

  /** The layout 2006-01-02T15:04:05.000000000Z. */
  function FieldsOf(c: Civil): seq<Field> {
    [Field(c.year, 4, '-'), Field(c.month, 2, '-'), Field(c.day, 2, 'T'),
     Field(c.hour, 2, ':'), Field(c.minute, 2, ':'), Field(c.second, 2, '.'), Field(c.nano, 9, 'Z')]
  }

  function Encode(c: Civil): string { Text(FieldsOf(c)) }

  /** Each number is padded to its width, as in 2026-03-01T09:05:07.000000042Z. */
  lemma LayoutOf(c: Civil)
    requires 0 <= c.year && 0 <= c.month && 0 <= c.day && 0 <= c.hour && 0 <= c.minute && 0 <= c.second && 0 <= c.nano
    ensures var clock := Pad(c.hour, 2) + ([':'] + (Pad(c.minute, 2) + ([':'] + (Pad(c.second, 2) + (['.']
                         + (Pad(c.nano, 9) + ['Z']))))));
            Encode(c) == Pad(c.year, 4) + (['-'] + (Pad(c.month, 2) + (['-'] + (Pad(c.day, 2) + (['T'] + clock)))))
  {
    var fs := FieldsOf(c);
    ClockLayout(c, fs);
    TextStep(fs, 2);
    TextStep(fs, 1);
    TextStep(fs, 0);
    assert fs[0..] == fs;
  }

  lemma ClockLayout(c: Civil, fs: seq<Field>)
    requires fs == FieldsOf(c) && 0 <= c.hour && 0 <= c.minute && 0 <= c.second && 0 <= c.nano
    ensures Text(fs[3..]) == Pad(c.hour, 2) + ([':'] + (Pad(c.minute, 2) + ([':'] + (Pad(c.second, 2) + (['.']
                             + (Pad(c.nano, 9) + ['Z']))))))
  {
    TextStep(fs, 6);
    TextStep(fs, 5);
    TextStep(fs, 4);
    TextStep(fs, 3);
    assert fs[7..] == [] && ['Z'] + "" == ['Z'];
  }

  lemma TextStep(fs: seq<Field>, i: nat)
    requires i < |fs|
    ensures Text(fs[i..]) == Number(fs[i]) + ([fs[i].sep] + Text(fs[i + 1..]))
  {
    assert fs[i..][1..] == fs[i + 1..];
    assert Number(fs[i]) + [fs[i].sep] + Text(fs[i + 1..]) == Number(fs[i]) + ([fs[i].sep] + Text(fs[i + 1..]));
  }

  // ---- reading it back ----

  /** The values of fields written with exactly their widths, and nothing after the last. (time.Parse is laxer on text
      that Encode never writes.) */
  function Scan(s: string, shape: seq<Field>): Option<seq<int>> {
    if shape == [] then (if s == "" then Some([]) else None)
    else
      var w := shape[0].width;
      if |s| <= w || s[w] != shape[0].sep || !AllDigits(s[..w]) then None
      else
        var rest := Scan(s[w + 1..], shape[1..]);
        if rest.None? then None else Some([DigitsValue(s[..w])] + rest.value)
  }

  const LAYOUT := FieldsOf(Civil(0, 0, 0, 0, 0, 0, 0))

  function Parse(s: string): Option<Civil> {
    var v := Scan(s, LAYOUT);
    if v.None? || |v.value| != 7 then None else
      var c := Civil(v.value[0], v.value[1], v.value[2], v.value[3], v.value[4], v.value[5], v.value[6]);
      if Valid(c) then Some(c) else None
  }

  // ---- order ----

  lemma {:induction false} PadOrder(m: nat, n: nat, w: nat)
    requires 1 <= w && m < TenTo(w) && n < TenTo(w)
    ensures Less(Pad(m, w), Pad(n, w)) <==> m < n
    ensures Pad(m, w) == Pad(n, w) <==> m == n
  {
    if w == 1 {
      DigitOrder(m, n);
    } else {
      var p, q, x, y := Pad(m / 10, w - 1), Pad(n / 10, w - 1), [Digit(m % 10)], [Digit(n % 10)];
      PadOrder(m / 10, n / 10, w - 1);
      PadIsDigits(m / 10, w - 1);
      PadIsDigits(n / 10, w - 1);
      LessByParts(p, x, q, y);
      EqualByParts(p, x, q, y);
      DigitOrder(m % 10, n % 10);
      TensFirst(m, n);
    }
  }

  lemma DigitOrder(a: nat, b: nat)
    requires a < 10 && b < 10
    ensures Less([Digit(a)], [Digit(b)]) <==> a < b
    ensures [Digit(a)] == [Digit(b)] <==> a == b
  {
    assert [Digit(a)][0] == Digit(a) && [Digit(b)][0] == Digit(b);
  }

  lemma TensFirst(m: nat, n: nat)
    ensures m < n <==> m / 10 < n / 10 || (m / 10 == n / 10 && m % 10 < n % 10)
    ensures m == n <==> m / 10 == n / 10 && m % 10 == n % 10
  {
  }

  lemma EqualByParts(p: string, x: string, q: string, y: string)
    requires |p| == |q|
    ensures p + x == q + y <==> p == q && x == y
  {
    assert (p + x)[..|p|] == p && (q + y)[..|q|] == q;
    assert (p + x)[|p|..] == x && (q + y)[|q|..] == y;
  }

  /** Strings that start with parts of one length compare by those parts first. */
  lemma {:induction false} LessByParts(p: string, x: string, q: string, y: string)
    requires |p| == |q|
    ensures Less(p + x, q + y) <==> Less(p, q) || (p == q && Less(x, y))
  {
    if p == "" {
      assert p + x == x && q + y == y;
    } else {
      assert (p + x)[1..] == p[1..] + x && (q + y)[1..] == q[1..] + y;
      assert (p + x)[0] == p[0] && (q + y)[0] == q[0];
      LessByParts(p[1..], x, q[1..], y);
      assert p == [p[0]] + p[1..] && q == [q[0]] + q[1..];
      if p[0] == q[0] && Less(p[1..], q[1..]) { LessIsAsymmetric(p[1..], q[1..]); }
      if Less(p, q) { LessIsAsymmetric(p, q); }
    }
  }

  predicate Fits(f: Field) { 1 <= f.width && 0 <= f.value < TenTo(f.width) }

  ghost predicate SameShape(fs: seq<Field>, gs: seq<Field>) {
    |fs| == |gs| && forall i :: 0 <= i < |fs| ==> fs[i].width == gs[i].width && fs[i].sep == gs[i].sep
  }

  predicate Earlier(fs: seq<Field>, gs: seq<Field>)
    requires |fs| == |gs|
  {
    fs != [] && (fs[0].value < gs[0].value || (fs[0].value == gs[0].value && Earlier(fs[1..], gs[1..])))
  }

  lemma {:induction false} TextOrder(fs: seq<Field>, gs: seq<Field>)
    requires SameShape(fs, gs) && forall i :: 0 <= i < |fs| ==> Fits(fs[i]) && Fits(gs[i])
    ensures Less(Text(fs), Text(gs)) <==> Earlier(fs, gs)
  {
    if fs != [] {
      var f, g := fs[0], gs[0];
      TextOrder(fs[1..], gs[1..]);
      PadIsDigits(f.value, f.width);
      PadIsDigits(g.value, g.width);
      PadOrder(f.value, g.value, f.width);
      LessByParts(Number(f) + [f.sep], Text(fs[1..]), Number(g) + [g.sep], Text(gs[1..]));
      LessByParts(Number(f), [f.sep], Number(g), [g.sep]);
      assert Number(f) + [f.sep] == Number(g) + [g.sep] <==> Number(f) == Number(g) by {
        assert (Number(f) + [f.sep])[..f.width] == Number(f) && (Number(g) + [g.sep])[..g.width] == Number(g);
      }
    }
  }

  predicate Encodable(c: Civil) { Valid(c) && 0 <= c.year <= 9999 }

  lemma TenToValues()
    ensures TenTo(2) == 100 && TenTo(4) == 10_000 && TenTo(9) == 1_000_000_000
  {
    assert TenTo(1) == 10 && TenTo(3) == 1000 && TenTo(5) == 100_000 && TenTo(6) == 1_000_000 &&
          TenTo(7) == 10_000_000 && TenTo(8) == 100_000_000;
  }

  lemma FieldsFit(c: Civil)
    requires Encodable(c)
    ensures forall i :: 0 <= i < 7 ==> Fits(FieldsOf(c)[i])
  {
    TenToValues();
  }

  lemma YearStep(y: int)
    ensures YearStart(y + 1) == YearStart(y) + YearLen(y)
  {
  }

  lemma {:induction false} YearsAreApart(y: int, z: int)
    requires y < z
    ensures YearStart(y) + YearLen(y) <= YearStart(z)
    decreases z - y
  {
    YearStep(z - 1);
    if y < z - 1 {
      YearsAreApart(y, z - 1);
    }
  }

  lemma {:induction false} MonthsAreApart(y: int, m: nat, n: nat)
    requires 1 <= m < n
    ensures MonthStart(y, m) + DaysIn(y, m) <= MonthStart(y, n)
  {
    if m < n - 1 {
      MonthsAreApart(y, m, n - 1);
    }
  }

  lemma YearLength(y: int)
    ensures MonthStart(y, 13) == YearLen(y)
  {
    var m3, m6, m9 := MonthStart(y, 3), MonthStart(y, 6), MonthStart(y, 9);
    assert MonthStart(y, 2) == 31 && m3 == 31 + DaysIn(y, 2) && MonthStart(y, 4) == m3 + 31 &&
          MonthStart(y, 5) == m3 + 61;
    assert m6 == m3 + 92 && MonthStart(y, 7) == m6 + 30 && MonthStart(y, 8) == m6 + 61 && m9 == m6 + 92;
    assert MonthStart(y, 10) == m9 + 30 && MonthStart(y, 11) == m9 + 61 && MonthStart(y, 12) == m9 + 91;
  }

  lemma DaysFollowDates(a: Civil, b: Civil)
    requires Valid(a) && Valid(b)
    requires a.year < b.year || (a.year == b.year && (a.month < b.month || (a.month == b.month && a.day < b.day)))
    ensures DayNumber(a) < DayNumber(b)
  {
    YearLength(a.year);
    MonthsAreApart(a.year, a.month, 13);
    if a.year < b.year {
      YearsAreApart(a.year, b.year);
      if b.month > 1 { MonthsAreApart(b.year, 1, b.month); }
    } else if a.month < b.month {
      MonthsAreApart(a.year, a.month, b.month);
    }
  }

  lemma EarlierInFull(a: Civil, b: Civil)
    ensures Earlier(FieldsOf(a), FieldsOf(b)) <==>
            a.year < b.year || (a.year == b.year && (a.month < b.month || (a.month == b.month && (a.day < b.day
            || (a.day == b.day && (a.hour < b.hour || (a.hour == b.hour && (a.minute < b.minute
            || (a.minute == b.minute && (a.second < b.second || (a.second == b.second && a.nano < b.nano)))))))))))
  {
    var f, g := FieldsOf(a), FieldsOf(b);
    assert f[1..][1..] == f[2..] && f[2..][1..] == f[3..] && f[3..][1..] == f[4..] && f[4..][1..] == f[5..] &&
          f[5..][1..] == f[6..];
    assert g[1..][1..] == g[2..] && g[2..][1..] == g[3..] && g[3..][1..] == g[4..] && g[4..][1..] == g[5..] &&
          g[5..][1..] == g[6..];
    assert f[6..][1..] == [] && g[6..][1..] == [];
    assert Earlier(f[6..], g[6..]) <==> a.nano < b.nano;
    assert Earlier(f[5..], g[5..]) <==> a.second < b.second || (a.second == b.second && a.nano < b.nano);
    assert Earlier(f[4..], g[4..]) <==> a.minute < b.minute || (a.minute == b.minute && Earlier(f[5..], g[5..]));
    assert Earlier(f[3..], g[3..]) <==> a.hour < b.hour || (a.hour == b.hour && Earlier(f[4..], g[4..]));
    assert Earlier(f[2..], g[2..]) <==> a.day < b.day || (a.day == b.day && Earlier(f[3..], g[3..]));
    assert Earlier(f[1..], g[1..]) <==> a.month < b.month || (a.month == b.month && Earlier(f[2..], g[2..]));
  }

  lemma EarlierIsBefore(a: Civil, b: Civil)
    requires Valid(a) && Valid(b) && Earlier(FieldsOf(a), FieldsOf(b))
    ensures Nanos(a) < Nanos(b)
  {
    EarlierInFull(a, b);
    if a.year != b.year || a.month != b.month || a.day != b.day {
      DaysFollowDates(a, b);
      NanosFollowDays(a, b);
    } else {
      ClockFollowsTime(a, b);
    }
  }

  lemma NanosFollowDays(a: Civil, b: Civil)
    requires Valid(a) && Valid(b) && DayNumber(a) < DayNumber(b)
    ensures Nanos(a) < Nanos(b)
  {
    ClockIsWithinDay(a);
    ClockIsWithinDay(b);
    LaterDayIsLater(DayNumber(a), Clock(a), DayNumber(b), Clock(b));
  }

  lemma LaterDayIsLater(d: int, t: int, e: int, u: int)
    requires d < e && t < 24 * HOUR && 0 <= u
    ensures d * (24 * HOUR) + t < e * (24 * HOUR) + u
  {
  }

  lemma ClockIsWithinDay(c: Civil)
    requires Valid(c)
    ensures 0 <= Clock(c) < 24 * HOUR
  {
  }

  lemma ClockFollowsTime(a: Civil, b: Civil)
    requires Valid(a) && Valid(b)
    requires a.hour < b.hour || (a.hour == b.hour && (a.minute < b.minute || (a.minute == b.minute
             && (a.second < b.second || (a.second == b.second && a.nano < b.nano)))))
    ensures Clock(a) < Clock(b)
  {
  }

  lemma EarlierIsTotal(a: Civil, b: Civil)
    ensures a == b || Earlier(FieldsOf(a), FieldsOf(b)) || Earlier(FieldsOf(b), FieldsOf(a))
  {
    EarlierInFull(a, b);
    EarlierInFull(b, a);
  }

  /** For UTC years 0 to 9999 the order of encoded instants is the order of time. */
  lemma EncodingKeepsOrder(a: Civil, b: Civil)
    requires Encodable(a) && Encodable(b)
    ensures Less(Encode(a), Encode(b)) <==> Nanos(a) < Nanos(b)
  {
    FieldsFit(a);
    FieldsFit(b);
    TextOrder(FieldsOf(a), FieldsOf(b));
    EarlierIsTotal(a, b);
    if Earlier(FieldsOf(a), FieldsOf(b)) {
      EarlierIsBefore(a, b);
    } else if a != b {
      EarlierIsBefore(b, a);
    }
  }

  // ---- round trip ----

  lemma FieldParts(f: Field, rest: string)
    requires Fits(f)
    ensures var s, w := Number(f) + [f.sep] + rest, f.width;
            |s| > w && AllDigits(s[..w]) && DigitsValue(s[..w]) == f.value && s[w] == f.sep && s[w + 1..] == rest
  {
    PadIsDigits(f.value, f.width);
    assert (Number(f) + [f.sep] + rest)[..f.width] == Number(f);
  }

  lemma {:induction false} ScanReadsText(fs: seq<Field>, shape: seq<Field>)
    requires SameShape(fs, shape) && forall i :: 0 <= i < |fs| ==> Fits(fs[i])
    ensures Scan(Text(fs), shape).Some? && |Scan(Text(fs), shape).value| == |fs|
    ensures forall i :: 0 <= i < |fs| ==> Scan(Text(fs), shape).value[i] == fs[i].value
  {
    if fs != [] {
      var s, w := Text(fs), shape[0].width;
      FieldParts(fs[0], Text(fs[1..]));
      ScanReadsText(fs[1..], shape[1..]);
      assert s == Number(fs[0]) + [fs[0].sep] + Text(fs[1..]) && s[w + 1..] == Text(fs[1..]);
      assert Scan(s, shape) == Some([fs[0].value] + Scan(Text(fs[1..]), shape[1..]).value);
    }
  }

  /** Parse inverts Encode exactly for the years the layout has room for, and fails for the others. */
  lemma ParseInvertsEncodeIff(c: Civil)
    requires Valid(c)
    ensures Parse(Encode(c)) == if 0 <= c.year <= 9999 then Some(c) else None
  {
    var s, f := Encode(c), FieldsOf(c);
    TenToValues();
    if 0 <= c.year <= 9999 {
      FieldsFit(c);
      ScanReadsText(f, LAYOUT);
    } else if c.year < 0 {
      assert s[0] == '-';
      assert Scan(s, LAYOUT).None?;
    } else {
      PadLength(c.year, 4);
      TooBigIsLonger(c.year, 4);
      assert s[4] == Pad(c.year, 4)[4] && IsDigit(s[4]);
      assert Scan(s, LAYOUT).None?;
    }
  }

  // ---- from the time line to the calendar ----

  function YearUp(day: int, y: int): (r: int)
    requires YearStart(y) <= day
    ensures YearStart(r) <= day < YearStart(r + 1)
    decreases day - YearStart(y)
  {
    YearStep(y);
    if day < YearStart(y + 1) then y else YearUp(day, y + 1)
  }

  function YearDown(day: int, y: int): (r: int)
    requires day < YearStart(y)
    ensures YearStart(r) <= day < YearStart(r + 1)
    decreases YearStart(y) - day
  {
    YearStep(y - 1);
    if YearStart(y - 1) <= day then y - 1 else YearDown(day, y - 1)
  }

  function YearOf(day: int): (r: int)
    ensures YearStart(r) <= day < YearStart(r + 1)
  {
    if day < 0 then YearDown(day, 0) else YearUp(day, 0)
  }

  /** The month of a day of the year, from month m on. */
  function MonthOf(day: int, y: int, m: nat): (r: nat)
    requires 1 <= m <= 12 && MonthStart(y, m) <= day < MonthStart(y, 13)
    ensures 1 <= r <= 12 && MonthStart(y, r) <= day < MonthStart(y, r) + DaysIn(y, r)
    decreases 12 - m
  {
    if day < MonthStart(y, m) + DaysIn(y, m) then m else MonthOf(day, y, m + 1)
  }

  function CivilOf(t: int): Civil {
    var day, clock := t / (24 * HOUR), t % (24 * HOUR);
    var y := YearOf(day);
    YearStep(y);
    YearLength(y);
    var m := MonthOf(day - YearStart(y), y, 1);
    Civil(y, m, day - YearStart(y) - MonthStart(y, m) + 1,
          clock / HOUR, clock / MINUTE % 60, clock / SECOND % 60, clock % SECOND)
  }

  lemma ClockParts(clock: int)
    requires 0 <= clock < 24 * HOUR
    ensures 0 <= clock / HOUR < 24
    ensures clock / HOUR * HOUR + clock / MINUTE % 60 * MINUTE + clock / SECOND % 60 * SECOND + clock % SECOND == clock
  {
    var s := clock / SECOND;
    assert clock / MINUTE == s / 60 && clock / HOUR == s / 3600;
    assert s / 3600 == s / 60 / 60;
  }

  /** Every instant has a civil time, and Nanos leads back from it. */
  lemma NanosInvertsCivilOf(t: int)
    ensures Valid(CivilOf(t)) && Nanos(CivilOf(t)) == t
  {
    ClockParts(t % (24 * HOUR));
  }

  /** And it has no other. */
  lemma CivilOfInvertsNanos(c: Civil)
    requires Valid(c)
    ensures CivilOf(Nanos(c)) == c
  {
    var d := CivilOf(Nanos(c));
    NanosInvertsCivilOf(Nanos(c));
    EarlierIsTotal(c, d);
    if Earlier(FieldsOf(c), FieldsOf(d)) {
      EarlierIsBefore(c, d);
    } else if c != d {
      EarlierIsBefore(d, c);
    }
  }

  // ---- whole seconds ----

  /** The last whole second up to an instant. */
  function WholeSecond(t: int): int { t / SECOND * SECOND }

  lemma SameDay(t: int)
    ensures var day := 24 * HOUR;
            WholeSecond(t) / day == t / day && WholeSecond(t) % day == t % day / SECOND * SECOND
  {
    var d, c := t / (24 * HOUR), t % (24 * HOUR);
    SecondsOfDay(d, c);
    assert t == d * (24 * HOUR) + c;
  }

  lemma SecondsOfDay(d: int, c: int)
    requires 0 <= c < 24 * HOUR
    ensures (d * (24 * HOUR) + c) / SECOND * SECOND == d * (24 * HOUR) + c / SECOND * SECOND
    ensures 0 <= c / SECOND * SECOND < 24 * HOUR
  {
    Quotient(d * 86400 + c / SECOND, c % SECOND, d * (24 * HOUR) + c);
  }

  lemma Quotient(q: int, r: int, t: int)
    requires 0 <= r < 1_000_000_000 && t == q * 1_000_000_000 + r
    ensures t / 1_000_000_000 == q
  {
  }

  lemma SecondsOfClock(c: int)
    requires 0 <= c
    ensures var w := c / SECOND * SECOND;
            && w / HOUR == c / HOUR && w / MINUTE % 60 == c / MINUTE % 60 && w / SECOND % 60 == c / SECOND % 60
            && w % SECOND == 0
  {
    var s := c / SECOND;
    assert c / MINUTE == s / 60 && c / HOUR == s / 3600;
    assert s * SECOND / SECOND == s && s * SECOND / MINUTE == s / 60 && s * SECOND / HOUR == s / 3600;
  }

  /** Its civil time is that of the instant with the nanoseconds dropped, and it is less than a second before it. */
  lemma WholeSecondDropsNanos(t: int)
    ensures CivilOf(WholeSecond(t)) == CivilOf(t).(nano := 0)
    ensures WholeSecond(t) <= t < WholeSecond(t) + 1_000_000_000
  {
    SameDay(t);
    SecondsOfClock(t % (24 * HOUR));
  }

  // ---- stamps: the text the tables hold for an instant ----

  function Stamp(t: int): string { Encode(CivilOf(t)) }

  /** The first day of year 10000, counted from the first of year 0. */
  const DAYS_OF_YEARS := 3_652_425

  /** The instants of UTC years 0 to 9999. */
  predicate Stampable(t: int) { 0 <= t < DAYS_OF_YEARS * (24 * HOUR) }

  lemma {:induction false} YearStartAt(y: nat)
    ensures YearStart(y) == 365 * y + (y + 3) / 4 - (y + 99) / 100 + (y + 399) / 400
  {
    if y > 0 {
      YearStartAt(y - 1);
      LeapDaysStep(y - 1);
    }
  }

  lemma LeapDaysStep(y: nat)
    ensures (y + 4) / 4 - (y + 100) / 100 + (y + 400) / 400
         == (y + 3) / 4 - (y + 99) / 100 + (y + 399) / 400 + if Leap(y) then 1 else 0
  {
    CountUpBy4(y);
    CountUpBy100(y);
    CountUpBy400(y);
    MultiplesOf400(y);
  }

  /** How many multiples there are up to y. */
  lemma CountUpBy4(y: nat)
    ensures (y + 4) / 4 == (y + 3) / 4 + if y % 4 == 0 then 1 else 0
  {
    assert y == 4 * (y / 4) + y % 4;
  }

  lemma CountUpBy100(y: nat)
    ensures (y + 100) / 100 == (y + 99) / 100 + if y % 100 == 0 then 1 else 0
  {
    assert y == 100 * (y / 100) + y % 100;
  }

  lemma CountUpBy400(y: nat)
    ensures (y + 400) / 400 == (y + 399) / 400 + if y % 400 == 0 then 1 else 0
  {
    assert y == 400 * (y / 400) + y % 400;
  }

  lemma MultiplesOf400(y: nat)
    ensures (y % 400 == 0 ==> y % 100 == 0) && (y % 100 == 0 ==> y % 4 == 0)
  {
    assert y == 400 * (y / 400) + y % 400 && y == 100 * (y / 100) + y % 100;
    if y % 400 == 0 {
      assert y == 100 * (4 * (y / 400));
    }
    if y % 100 == 0 {
      assert y == 4 * (25 * (y / 100));
    }
  }

  lemma StampableYears(t: int)
    ensures Stampable(t) <==> 0 <= CivilOf(t).year <= 9999
  {
    YearOfCivil(t);
    DaysOfYears(t / (24 * HOUR));
    DaysOfNanos(t, DAYS_OF_YEARS);
  }

  lemma DaysOfNanos(t: int, days: int)
    ensures 0 <= t < days * (24 * HOUR) <==> 0 <= t / (24 * HOUR) < days
  {
  }

  lemma DaysOfYears(day: int)
    ensures 0 <= day < DAYS_OF_YEARS <==> 0 <= YearOf(day) <= 9999
  {
    var y := YearOf(day);
    YearStep(y);
    YearStartAt(10000);
    if y < 0 {
      if y < -1 { YearsAreApart(y + 1, 0); }
    } else if y > 9999 {
      if y > 10000 { YearsAreApart(10000, y); }
    } else {
      if y > 0 { YearsAreApart(0, y); }
      if y < 9999 { YearsAreApart(y + 1, 10000); }
    }
  }

  lemma YearOfCivil(t: int)
    ensures CivilOf(t).year == YearOf(t / (24 * HOUR))
  {
  }

  /** The text of an instant parses exactly if its UTC year is 0 to 9999, and then to that instant. */
  lemma StampableIff(t: int)
    ensures Parse(Stamp(t)) == if Stampable(t) then Some(CivilOf(t)) else None
  {
    StampableYears(t);
    NanosInvertsCivilOf(t);
    ParseInvertsEncodeIff(CivilOf(t));
  }

  /** Go's zero time, 0001-01-01T00:00:00Z, which stands for an unset one. */
  const ZERO := 366 * (24 * HOUR)

  lemma ZeroIsYearOne()
    ensures ZERO == Nanos(Civil(1, 1, 1, 0, 0, 0, 0)) && Stampable(ZERO)
  {
    YearStartAt(1);
  }

  /** What a function taking a possibly unset time makes of the instant it is given. */
  function Given(t: int): Option<int> { if t == ZERO then None else Some(t) }

  lemma StampsKeepOrder(a: int, b: int)
    requires Stampable(a) && Stampable(b)
    ensures Less(Stamp(a), Stamp(b)) <==> a < b
  {
    StampableYears(a);
    StampableYears(b);
    NanosInvertsCivilOf(a);
    NanosInvertsCivilOf(b);
    EncodingKeepsOrder(CivilOf(a), CivilOf(b));
  }

  /** A UTC time literal with an offset reaches from year -1 to year 10000. */
  predicate Literal(t: int) { -1 <= CivilOf(t).year <= 10000 }

  lemma LaterYearIsLater(a: int, b: int)
    requires CivilOf(a).year < CivilOf(b).year
    ensures a < b
  {
    NanosInvertsCivilOf(a);
    NanosInvertsCivilOf(b);
    EarlierInFull(CivilOf(a), CivilOf(b));
    EarlierIsBefore(CivilOf(a), CivilOf(b));
  }

  lemma StampStarts(t: int)
    requires 0 <= CivilOf(t).year <= 9999
    ensures var n := Pad(CivilOf(t).year, 4);
            |n| == 4 && AllDigits(n) && Stamp(t) == n + ("-" + Text(FieldsOf(CivilOf(t))[1..]))
  {
    TenToValues();
    PadIsDigits(CivilOf(t).year, 4);
    TextOfFirst(FieldsOf(CivilOf(t)));
  }

  lemma NegativeYearSortsFirst(a: int, c: int)
    requires Stampable(a) && CivilOf(c).year == -1
    ensures !Less(Stamp(a), Stamp(c)) && c <= a
  {
    StampableYears(a);
    StampStarts(a);
    LaterYearIsLater(c, a);
    assert Stamp(c)[0] == '-' && IsDigit(Pad(CivilOf(a).year, 4)[0]);
    assert Stamp(a)[0] == Pad(CivilOf(a).year, 4)[0];
  }

  lemma FiveDigits(w: nat)
    requires w == 4
    ensures Pad(1000, w) == "1000" && Pad(10000, w) == "10000"
  {
    assert Pad(1, 1) == "1" && Pad(1, 0) == "1" && Pad(10, 2) == "10" && Pad(10, 1) == "10";
    assert Pad(100, 3) == "100" && Pad(100, 2) == "100" && Pad(1000, 4) == "1000" && Pad(1000, 3) == "1000";
  }

  lemma SortsByFour(p: string, x: string, q: string, y: string)
    requires |p| == |q|
    ensures Less(p + ("-" + x), q + ("0-" + y)) <==> Less(p, q) || p == q
  {
    LessByParts(p, "-" + x, q, "0-" + y);
    assert ("-" + x)[0] == '-' && ("0-" + y)[0] == '0';
  }

  /** Against year 10000 only the years up to 1000 sort as earlier. */
  lemma FiveDigitYearSorts(a: int, c: int)
    requires Stampable(a) && CivilOf(c).year == 10000
    ensures a < c && (Less(Stamp(a), Stamp(c)) <==> CivilOf(a).year <= 1000)
  {
    StampableYears(a);
    StampStarts(a);
    LaterYearIsLater(a, c);
    LateStampStarts(c);
    YearAgainstThousand(CivilOf(a).year, 4);
    SortsByFour(Pad(CivilOf(a).year, 4), Text(FieldsOf(CivilOf(a))[1..]), "1000", Text(FieldsOf(CivilOf(c))[1..]));
  }

  lemma YearAgainstThousand(y: nat, w: nat)
    requires y <= 9999 && w == 4
    ensures |Pad(y, w)| == 4 && (Less(Pad(y, w), "1000") || Pad(y, w) == "1000" <==> y <= 1000)
  {
    TenToValues();
    FiveDigits(w);
    PadOrder(y, 1000, w);
    PadIsDigits(y, w);
  }

  lemma LateStampStarts(c: int)
    requires CivilOf(c).year == 10000
    ensures Stamp(c) == "1000" + ("0-" + Text(FieldsOf(CivilOf(c))[1..]))
  {
    LateTextStarts(CivilOf(c), CivilOf(c).year, 4);
  }

  lemma LateTextStarts(c: Civil, year: nat, w: nat)
    requires c.year == year == 10000 && w == 4
    ensures Encode(c) == "1000" + ("0-" + Text(FieldsOf(c)[1..]))
  {
    TextStarts(c, year, w);
    FiveDigits(w);
    LastOfFive(Pad(year, w), "1000", Text(FieldsOf(c)[1..]));
  }

  lemma LastOfFive(p: string, q: string, x: string)
    requires p == q + "0"
    ensures p + ("-" + x) == q + ("0-" + x)
  {
  }

  lemma TextStarts(c: Civil, year: nat, w: nat)
    requires c.year == year && w == 4
    ensures Encode(c) == Pad(year, w) + ("-" + Text(FieldsOf(c)[1..]))
  {
    TextOfFirst(FieldsOf(c));
    assert FieldsOf(c)[0] == Field(year, w, '-');
  }

  lemma TextOfFirst(fs: seq<Field>)
    requires fs != [] && fs[0].value >= 0
    ensures Text(fs) == Pad(fs[0].value, fs[0].width) + ([fs[0].sep] + Text(fs[1..]))
  {
  }

  /** Past year 9999 text order is the reverse of time order, from year 1001 on. */
  lemma LaterYearSortsEarlier(a: int, c: int)
    requires Stampable(a) && 1000 < CivilOf(a).year && CivilOf(c).year == 10000
    ensures a < c && Less(Stamp(c), Stamp(a))
  {
    StampableYears(a);
    FiveDigitYearSorts(a, c);
    StampStarts(a);
    FiveDigits(4);
    assert Stamp(a)[4] == '-' && Stamp(c)[4] == '0';
    LessIsTotal(Stamp(a), Stamp(c));
  }

  /** Text order agrees with time order on a stamp and a literal exactly when the literal's year has four digits or the
      stamp's is not past 1000. */
  lemma StampOrderIff(a: int, c: int)
    requires Stampable(a) && Literal(c)
    ensures (Less(Stamp(a), Stamp(c)) <==> a < c) <==> CivilOf(c).year <= 9999 || CivilOf(a).year <= 1000
  {
    if CivilOf(c).year == -1 {
      NegativeYearSortsFirst(a, c);
    } else if CivilOf(c).year == 10000 {
      FiveDigitYearSorts(a, c);
    } else {
      StampableYears(c);
      StampsKeepOrder(a, c);
    }
  }
}
