/**
 Rendering a time.Time as a SQL literal: the digit tables interpolateParams indexes, the
 layout formatting buildExecutionParams uses, and a decoder for both.
 */
module TimeLiteral {
  import opened Calendar
  import opened Decimal
  import opened Wrappers

  const DECADE: string := "0123456789"

  /** The two hundred-byte tables: the decade ten times, and ten times each of its digits. */
  const DIGITS01: string := Copies(10)
  const DIGITS10: string := Runs(DECADE)

  function Copies(n: nat): string {
    if n == 0 then [] else DECADE + Copies(n - 1)
  }

  function Run(c: char): (r: string)
    ensures |r| == 10 && forall k | 0 <= k < 10 :: r[k] == c
  {
    [c, c, c, c, c, c, c, c, c, c]
  }

  function Runs(cs: string): string {
    if cs == [] then [] else Run(cs[0]) + Runs(cs[1..])
  }

  const ZERO_LITERAL: string := "'0000-00-00'"

  /** The instant whose fields are written: half a microsecond later, to round. */
  function Rounded(t: int): int {
    t + 500
  }

  predicate YearInTables(t: int) {
    0 <= DateOf(DayOf(Rounded(t))).year <= 9999
  }

  /** Two digit tables: entry n of `tens` and of `units` are the digits of n. */
  datatype Tables = Tables(tens: string, units: string) {
    predicate Correct() {
      && |tens| == |units| == 100
      && forall n {:trigger tens[n]} {:trigger units[n]} | 0 <= n < 100 ::
           tens[n] == Digit(n / 10) && units[n] == Digit(n % 10)
    }

    /** Two table bytes; the requires is the bound check of the table index. */
    function Pair(n: int): (r: string)
      requires 0 <= n < 100 && |tens| == |units| == 100
      ensures |r| == 2
    {
      [tens[n], units[n]]
    }
  }

  /** The date part of what interpolateParams appends, from the opening quote on. */
  function TableDate(t: Tables, d: Date): (r: string)
    requires t.Correct() && IsDate(d) && 0 <= d.year <= 9999
    ensures |r| == 11
  {
    var year100, year1 := d.year / 100, d.year % 100;
    ['\'', t.tens[year100], t.units[year100], t.tens[year1], t.units[year1],
     '-', t.tens[d.month], t.units[d.month], '-', t.tens[d.day], t.units[d.day]]
  }

  function TableClock(t: Tables, c: Clock): (r: string)
    requires t.Correct() && IsClock(c)
    ensures |r| == 9
  {
    [' ', t.tens[c.hour], t.units[c.hour], ':', t.tens[c.minute], t.units[c.minute],
     ':', t.tens[c.second], t.units[c.second]]
  }

  /** The fraction, omitted when it has no microseconds. */
  function TableFraction(t: Tables, micro: int): (r: string)
    requires t.Correct() && 0 <= micro < 1_000_000
    ensures |r| == if micro == 0 then 0 else 7
  {
    if micro == 0 then []
    else
      var micro10000, micro100, micro1 := micro / 10000, micro / 100 % 100, micro % 100;
      ['.', t.tens[micro10000], t.units[micro10000], t.tens[micro100], t.units[micro100],
       t.tens[micro1], t.units[micro1]]
  }

  /** The bytes interpolateParams appends for a non-zero time. */
  function TableLiteral(t: Tables, d: Date, c: Clock): string
    requires t.Correct() && IsDate(d) && IsClock(c) && 0 <= d.year <= 9999
  {
    TableDate(t, d) + TableClock(t, c) + TableFraction(t, c.nanos / 1000) + "'"
  }

  /** The literal of the rounded instant. */
  function TimeText(tables: Tables, t: int): string
    requires tables.Correct() && YearInTables(t)
  {
    InstantRoundTrip(Rounded(t));
    TableLiteral(tables, DateOf(DayOf(Rounded(t))), ClockOf(Rounded(t)))
  }

  // ---------------------------------------------------------------- index computations

  /** Go's integer division and remainder, which round toward zero. */
  function TruncatedDiv(a: int, b: int): int
    requires b > 0
  {
    if a >= 0 then a / b else -((-a) / b)
  }

  function TruncatedMod(a: int, b: int): int
    requires b > 0
  {
    if a >= 0 then a % b else -((-a) % b)
  }

  /** The two bytes at index n of the tables; None is an index out of range. */
  function Lookup(t: Tables, n: int): Option<string> {
    if 0 <= n < |t.tens| && n < |t.units| then Some([t.tens[n], t.units[n]]) else None
  }

  function LookedUpDate(t: Tables, d: Date): Option<string> {
    var year100, year1 := Lookup(t, TruncatedDiv(d.year, 100)), Lookup(t, TruncatedMod(d.year, 100));
    var month, day := Lookup(t, d.month), Lookup(t, d.day);
    if year100.None? || year1.None? || month.None? || day.None? then None
    else Some("'" + year100.value + year1.value + "-" + month.value + "-" + day.value)
  }

  function LookedUpClock(t: Tables, c: Clock): Option<string> {
    var hour, minute, second := Lookup(t, c.hour), Lookup(t, c.minute), Lookup(t, c.second);
    if hour.None? || minute.None? || second.None? then None
    else Some(" " + hour.value + ":" + minute.value + ":" + second.value)
  }

  function LookedUpDateAndClock(t: Tables, d: Date, c: Clock): Option<string> {
    var date, clock := LookedUpDate(t, d), LookedUpClock(t, c);
    if date.None? || clock.None? then None else Some(date.value + clock.value)
  }

  function LookedUpFraction(t: Tables, micro: int): Option<string> {
    var a, b, c := Lookup(t, micro / 10000), Lookup(t, micro / 100 % 100), Lookup(t, micro % 100);
    if a.None? || b.None? || c.None? then None else Some("." + a.value + b.value + c.value)
  }

  /** The part of a time's literal up to the seconds; None is a panic on a table index. */
  function LookedUpFront(tables: Tables, t: int): Option<string> {
    LookedUpDateAndClock(tables, DateOf(DayOf(Rounded(t))), ClockOf(Rounded(t)))
  }

  /** The fraction, which is omitted when it is zero, and the closing quote. */
  function LookedUpBack(tables: Tables, micro: int): Option<string> {
    if micro == 0 then Some("'")
    else
      var fraction := LookedUpFraction(tables, micro);
      if fraction.None? then None else Some(fraction.value + "'")
  }

  function MicroOf(t: int): int {
    ClockOf(Rounded(t)).nanos / 1000
  }

  /** The bytes interpolateParams looks up for a time; None is a panic on a table index. */
  function LookedUpTime(tables: Tables, t: int): Option<string> {
    var front, back := LookedUpFront(tables, t), LookedUpBack(tables, MicroOf(t));
    if front.None? || back.None? then None else Some(front.value + back.value)
  }

  lemma LookupInTables(t: Tables, n: int)
    requires t.Correct()
    ensures Lookup(t, n) == if 0 <= n < 100 then Some(t.Pair(n)) else None
  {
  }

  /** The hundreds and the rest of a year index the tables exactly in the years 0 to 9999. */
  lemma YearIndexes(year: int)
    ensures 0 <= TruncatedDiv(year, 100) < 100 && 0 <= TruncatedMod(year, 100) < 100 <==> 0 <= year <= 9999
  {
  }

  lemma DateLookup(t: Tables, d: Date)
    requires t.Correct() && IsDate(d)
    ensures LookedUpDate(t, d) == if 0 <= d.year <= 9999 then Some(TableDate(t, d)) else None
  {
    YearIndexes(d.year);
    LookupInTables(t, TruncatedDiv(d.year, 100));
    LookupInTables(t, TruncatedMod(d.year, 100));
    LookupInTables(t, d.month);
    LookupInTables(t, d.day);
    if 0 <= d.year <= 9999 {
      assert "'" + t.Pair(d.year / 100) + t.Pair(d.year % 100) + "-" + t.Pair(d.month) + "-" + t.Pair(d.day)
             == TableDate(t, d);
    }
  }

  lemma ClockLookup(t: Tables, c: Clock)
    requires t.Correct() && IsClock(c)
    ensures LookedUpClock(t, c) == Some(TableClock(t, c))
  {
    LookupInTables(t, c.hour);
    LookupInTables(t, c.minute);
    LookupInTables(t, c.second);
    assert " " + t.Pair(c.hour) + ":" + t.Pair(c.minute) + ":" + t.Pair(c.second) == TableClock(t, c);
  }

  lemma FractionLookup(t: Tables, micro: int)
    requires t.Correct() && 0 < micro < 1_000_000
    ensures LookedUpFraction(t, micro) == Some(TableFraction(t, micro))
  {
    LookupInTables(t, micro / 10000);
    LookupInTables(t, micro / 100 % 100);
    LookupInTables(t, micro % 100);
    assert "." + t.Pair(micro / 10000) + t.Pair(micro / 100 % 100) + t.Pair(micro % 100) == TableFraction(t, micro);
  }

  /**
   Some index leaves the tables exactly when the rounded year is not 0 to 9999; otherwise the
   bytes looked up are the literal of the time.
   */
  lemma IndexesInRange(tables: Tables, t: int)
    requires tables.Correct()
    ensures LookedUpTime(tables, t) == if YearInTables(t) then Some(TimeText(tables, t)) else None
  {
    InstantRoundTrip(Rounded(t));
    var d, c := DateOf(DayOf(Rounded(t))), ClockOf(Rounded(t));
    FrontLookup(tables, d, c);
    BackLookup(tables, MicroOf(t));
    if YearInTables(t) {
      var date, clock, fraction := TableDate(tables, d), TableClock(tables, c), TableFraction(tables, MicroOf(t));
      assert (date + clock) + (fraction + "'") == date + clock + fraction + "'";
    }
  }

  lemma FrontLookup(t: Tables, d: Date, c: Clock)
    requires t.Correct() && IsDate(d) && IsClock(c)
    ensures LookedUpDateAndClock(t, d, c)
            == if 0 <= d.year <= 9999 then Some(TableDate(t, d) + TableClock(t, c)) else None
  {
    DateLookup(t, d);
    ClockLookup(t, c);
  }

  lemma BackLookup(t: Tables, micro: int)
    requires t.Correct() && 0 <= micro < 1_000_000
    ensures LookedUpBack(t, micro) == Some(TableFraction(t, micro) + "'")
  {
    if micro != 0 { FractionLookup(t, micro); } else { assert TableFraction(t, 0) + "'" == "'"; }
  }

  /** A time is written between quotes, with no byte in between that a lexer stops at. */
  lemma TimeIsQuoted(tables: Tables, t: int)
    requires tables.Correct() && YearInTables(t)
    ensures var text := TimeText(tables, t);
      && |text| >= 2 && text[0] == '\'' && text[|text| - 1] == '\''
      && forall i | 1 <= i < |text| - 1 :: TimeByte(text[i])
  {
    InstantRoundTrip(Rounded(t));
    TableLiteralIsQuoted(tables, DateOf(DayOf(Rounded(t))), ClockOf(Rounded(t)));
  }

  predicate TimeByte(c: char) {
    IsDigit(c) || c in "- :."
  }

  lemma TableLiteralIsQuoted(t: Tables, d: Date, c: Clock)
    requires t.Correct() && IsDate(d) && IsClock(c) && 0 <= d.year <= 9999
    ensures var text := TableLiteral(t, d, c);
      && |text| >= 2 && text[0] == '\'' && text[|text| - 1] == '\''
      && forall i | 1 <= i < |text| - 1 :: TimeByte(text[i])
  {
    var date, clock, fraction := TableDate(t, d), TableClock(t, c), TableFraction(t, c.nanos / 1000);
    var text := TableLiteral(t, d, c);
    assert forall i | 1 <= i < |date| :: TimeByte(date[i]);
    assert forall i | 0 <= i < |clock| :: TimeByte(clock[i]);
    assert forall i | 0 <= i < |fraction| :: TimeByte(fraction[i]);
    forall i | 1 <= i < |text| - 1 ensures TimeByte(text[i]) {
      if i < |date| { assert text[i] == date[i]; }
      else if i < |date| + |clock| { assert text[i] == clock[i - |date|]; }
      else { assert text[i] == fraction[i - |date| - |clock|]; }
    }
  }

  /** Go's appendInt: a decimal, zero-padded to `width` digits after the sign. */
  function PadInt(n: int, width: nat): string {
    if n < 0 then "-" + Zeros(width, Digits(-n)) else Zeros(width, Digits(n))
  }

  function Zeros(width: nat, digits: string): string
    decreases width - |digits|
  {
    if |digits| >= width then digits else Zeros(width, "0" + digits)
  }

  /** The opening quote, then time.Format of the "2006-01-02" part. */
  function LayoutDate(d: Date): string {
    "'" + PadInt(d.year, 4) + "-" + PadInt(d.month, 2) + "-" + PadInt(d.day, 2)
  }

  /** time.Format of the " 15:04:05" part. */
  function LayoutClock(c: Clock): string {
    " " + PadInt(c.hour, 2) + ":" + PadInt(c.minute, 2) + ":" + PadInt(c.second, 2)
  }

  /** What buildExecutionParams writes for a non-zero time: ".000000" joins the layout if needed. */
  function LayoutLiteral(d: Date, c: Clock): string {
    var micro := c.nanos / 1000;
    LayoutDate(d) + LayoutClock(c) + (if micro == 0 then "" else "." + PadInt(micro, 6)) + "'"
  }

  // ---------------------------------------------------------------- the tables and the layout agree

  lemma DecadeDigit(k: int)
    requires 0 <= k < 10
    ensures DECADE[k] == Digit(k)
  {
  }

  lemma {:induction false} CopiesLength(n: nat)
    ensures |Copies(n)| == 10 * n
  {
    if n > 0 { CopiesLength(n - 1); }
  }

  lemma {:induction false} CopiesAt(n: nat, i: nat)
    requires i < 10 * n
    ensures |Copies(n)| == 10 * n && Copies(n)[i] == DECADE[i % 10]
  {
    CopiesLength(n);
    CopiesLength(n - 1);
    if i >= 10 {
      CopiesAt(n - 1, i - 10);
      assert Copies(n)[i] == Copies(n - 1)[i - 10];
      TenLess(i);
    }
  }

  lemma TenLess(i: int)
    ensures (i - 10) % 10 == i % 10
  {
  }

  lemma {:induction false} RunsAt(cs: string, i: nat)
    ensures |Runs(cs)| == 10 * |cs|
    ensures i < 10 * |cs| ==> Runs(cs)[i] == cs[i / 10]
  {
    if cs != [] {
      RunsAt(cs[1..], if i >= 10 then i - 10 else 0);
      if 10 <= i < 10 * |cs| {
        assert Runs(cs)[i] == Runs(cs[1..])[i - 10];
        assert (i - 10) / 10 == i / 10 - 1;
      }
    }
  }

  /** The tables of the source hold the tens digit and the units digit of their index. */
  lemma SourceTablesCorrect()
    ensures Tables(DIGITS10, DIGITS01).Correct()
  {
    CopiesAt(10, 0);
    RunsAt(DECADE, 0);
    forall n | 0 <= n < 100 ensures DIGITS10[n] == Digit(n / 10) && DIGITS01[n] == Digit(n % 10) {
      CopiesAt(10, n);
      RunsAt(DECADE, n);
      DecadeDigit(n / 10);
      DecadeDigit(n % 10);
    }
  }

  lemma {:induction false} ZerosSnoc(width: nat, digits: string, c: char)
    ensures Zeros(width + 1, digits + [c]) == Zeros(width, digits) + [c]
    decreases width - |digits|
  {
    if |digits| < width {
      assert "0" + (digits + [c]) == ("0" + digits) + [c];
      ZerosSnoc(width, "0" + digits, c);
    }
  }

  /** Padding puts the units digit last. */
  lemma PadSnoc(n: nat, width: nat)
    requires width >= 1
    ensures PadInt(n, width + 1) == PadInt(n / 10, width) + [Digit(n % 10)]
  {
    if n < 10 {
      ZerosSnoc(width, [], Digit(n));
      assert [] + [Digit(n)] == Digits(n);
      assert Digits(0) == "0" + [];
    } else {
      ZerosSnoc(width, Digits(n / 10), Digit(n % 10));
    }
  }

  lemma Pad2(t: Tables, n: int)
    requires t.Correct() && 0 <= n < 100
    ensures PadInt(n, 2) == t.Pair(n)
  {
    PadSnoc(n, 1);
    assert PadInt(n / 10, 1) == [Digit(n / 10)];
  }

  lemma PadPair(t: Tables, n: nat, width: nat)
    requires t.Correct() && width >= 1
    ensures PadInt(n, width + 2) == PadInt(n / 100, width) + t.Pair(n % 100)
  {
    PadSnoc(n, width + 1);
    PadSnoc(n / 10, width);
    assert n / 10 / 10 == n / 100 && n / 10 % 10 == n % 100 / 10 && n % 10 == n % 100 % 10;
    assert t.Pair(n % 100) == [Digit(n / 10 % 10)] + [Digit(n % 10)];
  }

  lemma LayoutDateIsTable(t: Tables, d: Date)
    requires t.Correct() && IsDate(d) && 0 <= d.year <= 9999
    ensures LayoutDate(d) == TableDate(t, d)
  {
    PadPair(t, d.year, 2);
    Pad2(t, d.year / 100);
    var year100, year1 := d.year / 100, d.year % 100;
    assert PadInt(d.year, 4) == [t.tens[year100], t.units[year100], t.tens[year1], t.units[year1]];
    Pad2(t, d.month);
    Pad2(t, d.day);
  }

  lemma LayoutClockIsTable(t: Tables, c: Clock)
    requires t.Correct() && IsClock(c)
    ensures LayoutClock(c) == TableClock(t, c)
  {
    Pad2(t, c.hour);
    Pad2(t, c.minute);
    Pad2(t, c.second);
  }

  lemma LayoutFractionIsTable(t: Tables, micro: int)
    requires t.Correct() && 0 < micro < 1_000_000
    ensures "." + PadInt(micro, 6) == TableFraction(t, micro)
  {
    PadPair(t, micro, 4);
    PadPair(t, micro / 100, 2);
    Pad2(t, micro / 10000);
    assert micro / 100 / 100 == micro / 10000;
  }

  /** The two renderers write the same literal for every time whose rounded year has four digits. */
  lemma LayoutIsTable(t: Tables, d: Date, c: Clock)
    requires t.Correct() && IsDate(d) && IsClock(c) && 0 <= d.year <= 9999
    ensures LayoutLiteral(d, c) == TableLiteral(t, d, c)
  {
    LayoutDateIsTable(t, d);
    LayoutClockIsTable(t, c);
    var micro := c.nanos / 1000;
    if micro != 0 { LayoutFractionIsTable(t, micro); }
  }

  // ---------------------------------------------------------------- decoding

  predicate HasPair(s: string, i: nat) {
    i + 1 < |s| && IsDigit(s[i]) && IsDigit(s[i+1])
  }

  function PairAt(s: string, i: nat): int
    requires HasPair(s, i)
  {
    10 * DigitValue(s[i]) + DigitValue(s[i+1])
  }

  function DecodeDate(s: string): Option<Date> {
    if HasPair(s, 1) && HasPair(s, 3) && HasPair(s, 6) && HasPair(s, 9) then
      Some(Date(100 * PairAt(s, 1) + PairAt(s, 3), PairAt(s, 6), PairAt(s, 9)))
    else None
  }

  function DecodeClock(s: string): Option<(int, int, int)> {
    if HasPair(s, 12) && HasPair(s, 15) && HasPair(s, 18) then
      Some((PairAt(s, 12), PairAt(s, 15), PairAt(s, 18)))
    else None
  }

  function DecodeFraction(s: string): Option<int> {
    if |s| == 21 then Some(0)
    else if |s| == 28 && HasPair(s, 21) && HasPair(s, 23) && HasPair(s, 25) then
      Some(10000 * PairAt(s, 21) + 100 * PairAt(s, 23) + PairAt(s, 25))
    else None
  }

  /** Reads a literal back as microseconds since the zero time. */
  function Decode(s: string): Option<int> {
    match (DecodeDate(s), DecodeClock(s), DecodeFraction(s))
    case (Some(d), Some((hour, minute, second)), Some(micro)) =>
      var c := Clock(hour, minute, second, 1000 * micro);
      if IsDate(d) && IsClock(c) then Some(Instant(d, c) / 1000) else None
    case _ => None
  }

  lemma PairBack(t: Tables, s: string, i: nat, n: int)
    requires t.Correct() && 0 <= n < 100 && i + 1 < |s| && s[i] == t.tens[n] && s[i+1] == t.units[n]
    ensures HasPair(s, i) && PairAt(s, i) == n
  {
  }

  lemma DateBack(t: Tables, d: Date, rest: string)
    requires t.Correct() && IsDate(d) && 0 <= d.year <= 9999
    ensures DecodeDate(TableDate(t, d) + rest) == Some(d)
  {
    var s := TableDate(t, d) + rest;
    PairBack(t, s, 1, d.year / 100);
    PairBack(t, s, 3, d.year % 100);
    PairBack(t, s, 6, d.month);
    PairBack(t, s, 9, d.day);
  }

  lemma ClockBack(t: Tables, before: string, c: Clock, rest: string)
    requires t.Correct() && IsClock(c) && |before| == 11
    ensures DecodeClock(before + TableClock(t, c) + rest) == Some((c.hour, c.minute, c.second))
  {
    var s, f := before + TableClock(t, c) + rest, TableClock(t, c);
    assert s[12] == f[1] && s[13] == f[2] && s[15] == f[4] && s[16] == f[5] && s[18] == f[7] && s[19] == f[8];
    PairBack(t, s, 12, c.hour);
    PairBack(t, s, 15, c.minute);
    PairBack(t, s, 18, c.second);
  }

  lemma Between(before: string, f: string, after: string, k: nat)
    requires k < |f|
    ensures |before| + k < |before + f + after| && (before + f + after)[|before| + k] == f[k]
  {
  }

  lemma PairBetween(t: Tables, before: string, f: string, after: string, k: nat, n: int)
    requires t.Correct() && 0 <= n < 100 && k + 1 < |f| && f[k] == t.tens[n] && f[k+1] == t.units[n]
    ensures HasPair(before + f + after, |before| + k) && PairAt(before + f + after, |before| + k) == n
  {
    Between(before, f, after, k);
    Between(before, f, after, k + 1);
    PairBack(t, before + f + after, |before| + k, n);
  }

  lemma FractionBack(t: Tables, before: string, micro: int)
    requires t.Correct() && 0 <= micro < 1_000_000 && |before| == 20
    ensures DecodeFraction(before + TableFraction(t, micro) + "'") == Some(micro)
  {
    var f := TableFraction(t, micro);
    if micro != 0 {
      PairBetween(t, before, f, "'", 1, micro / 10000);
      PairBetween(t, before, f, "'", 3, micro / 100 % 100);
      PairBetween(t, before, f, "'", 5, micro % 100);
      Between(before, f, "'", 0);
      MicroParts(micro);
    }
  }

  lemma MicroParts(micro: int)
    requires 0 <= micro
    ensures 10000 * (micro / 10000) + 100 * (micro / 100 % 100) + micro % 100 == micro
  {
  }

  /** Decoding recovers every field the tables wrote. */
  lemma DecodeTable(t: Tables, d: Date, c: Clock)
    requires t.Correct() && IsDate(d) && IsClock(c) && 0 <= d.year <= 9999
    ensures Decode(TableLiteral(t, d, c)) == Some(Instant(d, c) / 1000)
  {
    var date, clock, fraction := TableDate(t, d), TableClock(t, c), TableFraction(t, c.nanos / 1000);
    LiteralSplits(date, clock, fraction);
    DateBack(t, d, clock + fraction + "'");
    ClockBack(t, date, c, fraction + "'");
    FractionBack(t, date + clock, c.nanos / 1000);
    DroppedNanos(d, c);
  }

  lemma LiteralSplits(date: string, clock: string, fraction: string)
    ensures date + clock + fraction + "'" == date + (clock + fraction + "'")
    ensures date + clock + fraction + "'" == date + clock + (fraction + "'")
  {
  }

  lemma DroppedNanos(d: Date, c: Clock)
    requires IsDate(d)
    ensures Instant(d, c) / 1000 == Instant(d, c.(nanos := 1000 * (c.nanos / 1000))) / 1000
  {
    var seconds := DayNumber(d) * SECONDS_PER_DAY + c.hour * 3600 + c.minute * 60 + c.second;
    assert Instant(d, c) == 1000 * (1_000_000 * seconds + c.nanos / 1000) + c.nanos % 1000;
  }

  /**
   What interpolateParams writes for a time decodes to that time rounded half up to a
   microsecond, with every carry, and has a fraction exactly when there are microseconds.
   */
  lemma LiteralDecodesToRoundedTime(tables: Tables, t: int)
    requires tables.Correct() && YearInTables(t)
    ensures var s := TimeText(tables, t);
      var micros := Decode(s);
      && micros.Some?
      && 1000 * micros.value - 500 <= t < 1000 * micros.value + 500
      && (|s| == 21 <==> micros.value % 1_000_000 == 0)
  {
    var r := Rounded(t);
    InstantRoundTrip(r);
    DecodeTable(tables, DateOf(DayOf(r)), ClockOf(r));
    FractionOfInstant(r);
  }

  lemma FractionOfInstant(t: int)
    ensures ClockOf(t).nanos / 1000 == t / 1000 % 1_000_000
  {
    var day, rest := t / (SECONDS_PER_DAY * NANOS_PER_SECOND), t % (SECONDS_PER_DAY * NANOS_PER_SECOND);
    var seconds, nanos := rest / NANOS_PER_SECOND, rest % NANOS_PER_SECOND;
    assert t == 1000 * (1_000_000 * (SECONDS_PER_DAY * day + seconds) + nanos / 1000) + nanos % 1000;
    ByThousand(t, 1_000_000 * (SECONDS_PER_DAY * day + seconds) + nanos / 1000, nanos % 1000);
    ByMillion(t / 1000, SECONDS_PER_DAY * day + seconds, nanos / 1000);
  }

  lemma ByThousand(p: int, q: int, r: int)
    requires p == 1000 * q + r && 0 <= r < 1000
    ensures p / 1000 == q
  {
  }

  lemma ByMillion(p: int, q: int, r: int)
    requires p == 1_000_000 * q + r && 0 <= r < 1_000_000
    ensures p % 1_000_000 == r
  {
  }
}
