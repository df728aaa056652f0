/** The UTC timestamp codec: RFC 3339 text, IDE wall-clock text and epoch digits all become one
    fixed-width text, whose order is the order of the instants. */
module Timestamps {
  import opened Common
  import opened Text
  import opened Calendar

  const MIN_MILLIS := -62167219200000  // 0000-01-01T00:00:00.000Z
  const MAX_MILLIS := 253402300799999  // 9999-12-31T23:59:59.999Z

  datatype Fields = Fields(date: Date, hour: nat, minute: nat, second: nat, millisecond: nat)

  datatype Zone = Unspecified | Utc | Offset(negative: bool, hours: nat, minutes: nat)

  /** What the timestamp expression captures. */
  datatype Captured = Captured(year: nat, month: nat, day: nat, hour: nat, minute: nat, second: nat,
                               fraction: string, zone: Zone)

  // ----- printing -----

  /** A zero-padded number and the character after it. */
  datatype Block = Block(value: nat, width: nat, after: char)

  function Blocks(f: Fields): seq<Block>
    requires 0 <= f.date.year && 0 <= f.date.month && 0 <= f.date.day
  {
    [Block(f.date.year, 4, '-'), Block(f.date.month, 2, '-'), Block(f.date.day, 2, 'T'),
     Block(f.hour, 2, ':'), Block(f.minute, 2, ':'), Block(f.second, 2, '.'), Block(f.millisecond, 3, 'Z')]
  }

  function Print(blocks: seq<Block>): string {
    if blocks == [] then "" else Pad(blocks[0].value, blocks[0].width) + [blocks[0].after] + Print(blocks[1..])
  }

  function FieldsOf(millis: int): Fields {
    var seconds := millis / 1000;
    var within := seconds % 86400;
    Fields(CivilFromDays(seconds / 86400), within / 3600, within / 60 % 60, within % 60, millis % 1000)
  }

  function FormatEpoch(millis: int): Option<string> {
    var f := FieldsOf(millis);
    DaysOfCivil(millis / 1000 / 86400);
    if !(0 <= f.date.year <= 9999) then None else Some(Print(Blocks(f)))
  }

  // ----- parsing -----

  predicate DigitsAt(s: string, from: nat, count: nat) {
    from + count <= |s| && AllDigits(s[from..from + count])
  }

  function NumberAt(s: string, from: nat, count: nat): nat
    requires DigitsAt(s, from, count)
  {
    Number(s[from..from + count])
  }

  function DigitRun(s: string): (n: nat)
    ensures n <= |s| && AllDigits(s[..n]) && (n < |s| ==> !IsDigit(s[n]))
  {
    if s == "" || !IsDigit(s[0]) then 0 else 1 + DigitRun(s[1..])
  }

  function MatchZone(s: string): Option<Zone> {
    if s == "" then Some(Unspecified)
    else if s == "Z" then Some(Utc)
    else if |s| == 6 && s[0] in {'+', '-'} && DigitsAt(s, 1, 2) && s[3] == ':' && DigitsAt(s, 4, 2) then
      Some(Offset(s[0] == '-', NumberAt(s, 1, 2), NumberAt(s, 4, 2)))
    else None
  }

  /** The timestamp expression, anchored at both ends. */
  function Match(s: string): Option<Captured> {
    if !(DigitsAt(s, 0, 4) && |s| >= 10 && s[4] == '-' && DigitsAt(s, 5, 2) && s[7] == '-' && DigitsAt(s, 8, 2)) then None
    else
      var (year, month, day) := (NumberAt(s, 0, 4), NumberAt(s, 5, 2), NumberAt(s, 8, 2));
      if |s| == 10 then Some(Captured(year, month, day, 0, 0, 0, "", Unspecified))
      else if !(|s| >= 19 && s[10] in {'T', ' '} && DigitsAt(s, 11, 2) && s[13] == ':' && DigitsAt(s, 14, 2)
                && s[16] == ':' && DigitsAt(s, 17, 2)) then None
      else
        var rest := s[19..];
        var fractional := rest != "" && rest[0] in {'.', ','};
        var run := if fractional then DigitRun(rest[1..]) else 0;
        if fractional && !(1 <= run <= 9) then None
        else
          var zone := MatchZone(if fractional then rest[1 + run..] else rest);
          if zone.None? then None
          else Some(Captured(year, month, day, NumberAt(s, 11, 2), NumberAt(s, 14, 2), NumberAt(s, 17, 2),
                             if fractional then rest[1..1 + run] else "", zone.value))
  }

  /** The first three fraction digits, the missing ones taken as zero. */
  function Milliseconds(fraction: string): nat
    requires AllDigits(fraction)
  {
    var padded := fraction + "000";
    Number(padded[..3])
  }

  function OffsetSeconds(zone: Zone): int {
    if zone.Offset? then (zone.hours * 60 + zone.minutes) * 60 * (if zone.negative then -1 else 1) else 0
  }

  predicate InRange(c: Captured) {
    && 1 <= c.month <= 12 && 1 <= c.day <= DaysInMonth(c.year, c.month)
    && c.hour <= 23 && c.minute <= 59 && c.second <= 59
    && (c.zone.Offset? ==> c.zone.hours <= 23 && c.zone.minutes <= 59)
  }

  function Millis(c: Captured): int
    requires AllDigits(c.fraction)
  {
    (DaysFromCivil(Date(c.year, c.month, c.day)) * 86400 + c.hour * 3600 + c.minute * 60 + c.second
       - OffsetSeconds(c.zone)) * 1000 + Milliseconds(c.fraction)
  }

  lemma FractionIsDigits(s: string)
    ensures Match(s).Some? ==> AllDigits(Match(s).value.fraction)
  {
    if Match(s).Some? && |s| >= 19 {
      var rest := s[19..];
      if rest != "" && rest[0] in {'.', ','} {
        assert rest[1..1 + DigitRun(rest[1..])] == rest[1..][..DigitRun(rest[1..])];
      }
    }
  }

  function NormalizeTimestamp(value: string): Option<string> {
    if AllDigits(value) && |value| in {10, 13} then
      FormatEpoch(if |value| == 10 then Number(value) * 1000 else Number(value))
    else
      var captured := Match(value);
      FractionIsDigits(value);
      if captured.None? || !InRange(captured.value) then None else FormatEpoch(Millis(captured.value))
  }

  // ----- fields and milliseconds -----

  predicate ProperFields(f: Fields) {
    Valid(f.date) && f.hour <= 23 && f.minute <= 59 && f.second <= 59 && f.millisecond <= 999
  }

  function MillisOf(f: Fields): int {
    (DaysFromCivil(f.date) * 86400 + f.hour * 3600 + f.minute * 60 + f.second) * 1000 + f.millisecond
  }

  lemma ClockOf(within: int)
    requires 0 <= within < 86400
    ensures within / 3600 <= 23 && within / 60 % 60 <= 59
    ensures within / 3600 * 3600 + within / 60 % 60 * 60 + within % 60 == within
  {
    var minutes := within / 60;
    assert minutes / 60 == within / 3600;
  }

  lemma MillisOfFields(millis: int)
    ensures ProperFields(FieldsOf(millis)) && MillisOf(FieldsOf(millis)) == millis
  {
    var seconds := millis / 1000;
    DaysOfCivil(seconds / 86400);
    ClockOf(seconds % 86400);
    hide DaysFromCivil; hide CivilFromDays; hide Valid;
  }

  // ----- printed order is time order -----

  predicate SameShape(a: seq<Block>, b: seq<Block>) {
    && |a| == |b|
    && forall i :: 0 <= i < |a| ==>
         a[i].width == b[i].width && a[i].after == b[i].after && a[i].value < Pow10(a[i].width) && b[i].value < Pow10(b[i].width)
  }

  predicate ValuesLess(a: seq<Block>, b: seq<Block>)
    requires |a| == |b|
  {
    a != [] && (a[0].value < b[0].value || (a[0].value == b[0].value && ValuesLess(a[1..], b[1..])))
  }

  lemma {:induction false} PrintOrder(a: seq<Block>, b: seq<Block>)
    requires SameShape(a, b)
    ensures LexLess(Print(a), Print(b)) <==> ValuesLess(a, b)
  {
    if a != [] {
      PrintOrder(a[1..], b[1..]);
      var (p, q) := (Pad(a[0].value, a[0].width), Pad(b[0].value, b[0].width));
      PadOrder(a[0].value, b[0].value, a[0].width);
      LexOfConcat(p + [a[0].after], q + [b[0].after], Print(a[1..]), Print(b[1..]));
      LexOfConcat(p, q, [a[0].after], [b[0].after]);
      assert (p + [a[0].after])[..|p|] == p && (q + [b[0].after])[..|q|] == q;
    }
  }

  predicate FieldsLess(a: Fields, b: Fields) {
    || Earlier(a.date, b.date)
    || (a.date == b.date && a.hour < b.hour)
    || (a.date == b.date && a.hour == b.hour && a.minute < b.minute)
    || (a.date == b.date && a.hour == b.hour && a.minute == b.minute && a.second < b.second)
    || (a.date == b.date && a.hour == b.hour && a.minute == b.minute && a.second == b.second && a.millisecond < b.millisecond)
  }

  predicate Printable(f: Fields) {
    ProperFields(f) && 0 <= f.date.year <= 9999
  }

  lemma Powers()
    ensures Pow10(2) == 100 && Pow10(3) == 1000 && Pow10(4) == 10000
  {
  }

  lemma ValuesOrder(a: Fields, b: Fields)
    requires Printable(a) && Printable(b)
    ensures ValuesLess(Blocks(a), Blocks(b)) <==> FieldsLess(a, b)
    ensures SameShape(Blocks(a), Blocks(b))
  {
    Powers();
    var (x, y) := (Blocks(a), Blocks(b));
    ValuesLessAt(x, y, 6);
    ValuesLessAt(x, y, 5);
    ValuesLessAt(x, y, 4);
    ValuesLessAt(x, y, 3);
    ValuesLessAt(x, y, 2);
    ValuesLessAt(x, y, 1);
    ValuesLessAt(x, y, 0);
    assert x[0..] == x && y[0..] == y && x[7..] == [];
  }

  lemma ValuesLessAt(a: seq<Block>, b: seq<Block>, i: nat)
    requires i < |a| == |b|
    ensures ValuesLess(a[i..], b[i..]) <==>
            a[i].value < b[i].value || (a[i].value == b[i].value && ValuesLess(a[i + 1..], b[i + 1..]))
  {
    assert a[i..][1..] == a[i + 1..] && b[i..][1..] == b[i + 1..];
  }

  lemma FieldsOrder(a: Fields, b: Fields)
    requires Printable(a) && Printable(b) && FieldsLess(a, b)
    ensures MillisOf(a) < MillisOf(b)
  {
    if a.date != b.date {
      EarlierCountsLess(a.date, b.date);
    }
    hide DaysFromCivil; hide Valid;
  }

  lemma FieldsTotal(a: Fields, b: Fields)
    ensures a == b || FieldsLess(a, b) || FieldsLess(b, a)
  {
  }

  /** Comparing two normalized timestamps as text compares the instants. */
  lemma TextOrderIsTimeOrder(a: int, b: int)
    requires FormatEpoch(a).Some? && FormatEpoch(b).Some?
    ensures LexLess(FormatEpoch(a).value, FormatEpoch(b).value) <==> a < b
    ensures FormatEpoch(a).value == FormatEpoch(b).value <==> a == b
  {
    var (f, g) := (FieldsOf(a), FieldsOf(b));
    MillisOfFields(a);
    MillisOfFields(b);
    hide FieldsOf; hide MillisOf;
    ValuesOrder(f, g);
    ValuesOrder(g, f);
    PrintOrder(Blocks(f), Blocks(g));
    PrintOrder(Blocks(g), Blocks(f));
    FieldsTotal(f, g);
    if FieldsLess(f, g) {
      FieldsOrder(f, g);
      LexIrreflexive(Print(Blocks(f)));
    } else if FieldsLess(g, f) {
      FieldsOrder(g, f);
      LexIrreflexive(Print(Blocks(f)));
    } else {
      LexIrreflexive(Print(Blocks(f)));
    }
  }

  // ----- what is accepted -----

  lemma NegativeYearsComeBefore(date: Date)
    requires Valid(date) && date.year < 0
    ensures DaysFromCivil(date) < -EPOCH_FROM_ZERO
  {
    ClosedFormula(date);
    var adjusted := date.year - (if date.month <= 2 then 1 else 0);
    assert adjusted / 4 <= adjusted / 100 && adjusted / 400 <= -1;
    hide DaysFromCivil;
  }

  lemma FirstAndLastDay()
    ensures Valid(Date(0, 1, 1)) && DaysFromCivil(Date(0, 1, 1)) == -EPOCH_FROM_ZERO
    ensures Valid(Date(9999, 12, 31)) && DaysFromCivil(Date(9999, 12, 31)) == 2932896
  {
  }

  /** Exactly the instants of the years 0000 to 9999 have a text. */
  lemma FormatsExactlyFourDigitYears(millis: int)
    ensures FormatEpoch(millis).Some? <==> MIN_MILLIS <= millis <= MAX_MILLIS
  {
    var days := millis / 1000 / 86400;
    var date := FieldsOf(millis).date;
    DaysOfCivil(days);
    FirstAndLastDay();
    var (first, last) := (Date(0, 1, 1), Date(9999, 12, 31));
    assert MIN_MILLIS <= millis <= MAX_MILLIS <==> -EPOCH_FROM_ZERO <= days <= 2932896;
    hide DaysFromCivil; hide CivilFromDays; hide Valid;
    if date.year < 0 {
      NegativeYearsComeBefore(date);
    } else {
      if Earlier(date, first) || Earlier(last, date) {
        OutsideYears(date);
      }
      if Earlier(first, date) { EarlierCountsLess(first, date); }
      if Earlier(date, last) { EarlierCountsLess(date, last); }
      if Earlier(last, date) { EarlierCountsLess(last, date); }
      YearBounds(date);
    }
  }

  lemma OutsideYears(date: Date)
    requires Valid(date) && 0 <= date.year
    ensures !Earlier(date, Date(0, 1, 1))
  {
  }

  lemma YearBounds(date: Date)
    requires Valid(date) && 0 <= date.year
    ensures date == Date(0, 1, 1) || Earlier(Date(0, 1, 1), date)
    ensures date.year <= 9999 <==> date == Date(9999, 12, 31) || Earlier(date, Date(9999, 12, 31))
    ensures date.year > 9999 <==> Earlier(Date(9999, 12, 31), date)
  {
  }

  /** The instant that a written date and time means, counted from the calendar's rules. */
  ghost function Instant(c: Captured): int
    requires InRange(c) && AllDigits(c.fraction)
  {
    (((CountedDays(Date(c.year, c.month, c.day)) - EPOCH_FROM_ZERO) * 24 + c.hour) * 60 + c.minute) * 60000
      + c.second * 1000 - OffsetSeconds(c.zone) * 1000 + Milliseconds(c.fraction)
  }

  /** A written timestamp is accepted exactly if its fields exist on the calendar and the clock and
      its instant lies in the years 0000 to 9999; it becomes the text of that instant. */
  lemma WrittenTimestampsMeanTheirInstant(value: string)
    requires !(AllDigits(value) && |value| in {10, 13})
    ensures NormalizeTimestamp(value).Some? <==>
            && Match(value).Some? && InRange(Match(value).value)
            && AllDigits(Match(value).value.fraction)
            && MIN_MILLIS <= Instant(Match(value).value) <= MAX_MILLIS
    ensures NormalizeTimestamp(value).Some? ==> NormalizeTimestamp(value) == FormatEpoch(Instant(Match(value).value))
  {
    hide FormatEpoch; hide Match;
    FractionIsDigits(value);
    if Match(value).Some? && InRange(Match(value).value) {
      var c := Match(value).value;
      FormulaCountsDays(Date(c.year, c.month, c.day));
      assert Millis(c) == Instant(c);
      FormatsExactlyFourDigitYears(Millis(c));
    }
  }

  lemma {:induction false} NumberOfConcat(a: string, b: string)
    requires AllDigits(a) && AllDigits(b)
    ensures AllDigits(a + b) && Number(a + b) == Number(a) * Pow10(|b|) + Number(b)
  {
    if b == "" {
      assert a + b == a;
    } else {
      var head := b[..|b| - 1];
      NumberOfConcat(a, head);
      assert (a + b)[..|a + b| - 1] == a + head;
      TenTimes(Number(a), Pow10(|head|));
    }
  }

  lemma TenTimes(n: nat, power: nat)
    ensures n * (10 * power) == 10 * (n * power)
  {
  }

  lemma ShortFraction(fraction: string)
    requires AllDigits(fraction) && |fraction| <= 3
    ensures Milliseconds(fraction) == Number(fraction) * Pow10(3 - |fraction|)
  {
    var zeros := "000"[..3 - |fraction|];
    assert (fraction + "000")[..3] == fraction + zeros;
    NumberOfConcat(fraction, zeros);
    NoDigits(3 - |fraction|);
  }

  lemma LongFraction(fraction: string)
    requires AllDigits(fraction) && 3 < |fraction|
    ensures Milliseconds(fraction) == Number(fraction[..3])
    ensures Number(fraction) == Number(fraction[..3]) * Pow10(|fraction| - 3) + Number(fraction[3..])
    ensures Number(fraction[3..]) < Pow10(|fraction| - 3)
  {
    assert (fraction + "000")[..3] == fraction[..3] && fraction == fraction[..3] + fraction[3..];
    NumberOfConcat(fraction[..3], fraction[3..]);
    PadOfNumber(fraction[3..]);
  }

  /** A fraction counts as whole milliseconds; finer digits are cut off. */
  lemma MillisecondsAreCutOff(fraction: string)
    requires AllDigits(fraction)
    ensures Milliseconds(fraction) * Pow10(|fraction|) <= Number(fraction) * 1000 < (Milliseconds(fraction) + 1) * Pow10(|fraction|)
  {
    hide Milliseconds; hide Number;
    var n := |fraction|;
    if n <= 3 {
      ShortFraction(fraction);
      SmallPowers(Number(fraction), n);
    } else {
      LongFraction(fraction);
      PowerOfTail(n);
      CutOff(Number(fraction[..3]), Number(fraction[3..]), Pow10(n - 3));
    }
  }

  lemma SmallPowers(number: nat, n: nat)
    requires n <= 3
    ensures number * Pow10(3 - n) * Pow10(n) == number * 1000
    ensures number * 1000 < (number * Pow10(3 - n) + 1) * Pow10(n)
  {
    Powers();
    assert Pow10(0) == 1 && Pow10(1) == 10;
    if n == 0 {} else if n == 1 {} else if n == 2 {} else {}
  }

  lemma NoDigits(n: nat)
    requires n <= 3
    ensures Number("000"[..n]) == 0
  {
    if n > 0 {
      assert "000"[..n][..n - 1] == "000"[..n - 1];
      NoDigits(n - 1);
    }
  }

  lemma PowerOfTail(n: nat)
    requires 3 < n
    ensures Pow10(n) == 1000 * Pow10(n - 3)
  {
    assert Pow10(n) == 10 * Pow10(n - 1) && Pow10(n - 1) == 10 * Pow10(n - 2) && Pow10(n - 2) == 10 * Pow10(n - 3);
  }

  lemma CutOff(head: nat, tail: nat, unit: nat)
    requires tail < unit
    ensures head * (1000 * unit) <= (head * unit + tail) * 1000 < (head + 1) * (1000 * unit)
  {
    var product := head * unit;
    assert head * (1000 * unit) == 1000 * product;
    assert (head + 1) * (1000 * unit) == 1000 * product + 1000 * unit;
  }

  // ----- reading back what was printed -----

  lemma PrintHead(blocks: seq<Block>)
    requires blocks != []
    ensures var (s, b) := (Print(blocks), blocks[0]);
            && |s| == b.width + 1 + |Print(blocks[1..])|
            && s[..b.width] == Pad(b.value, b.width) && s[b.width] == b.after && s[b.width + 1..] == Print(blocks[1..])
  {
  }

  /** Block `i` of a text starts where the blocks before it end. */
  lemma BlockAt(blocks: seq<Block>, i: nat, text: string, from: nat)
    requires i < |blocks| && from <= |text| && text[from..] == Print(blocks[i..])
    ensures var b := blocks[i];
            && from + b.width + 1 <= |text|
            && text[from..from + b.width] == Pad(b.value, b.width) && text[from + b.width] == b.after
            && text[from + b.width + 1..] == Print(blocks[i + 1..])
  {
    var b := blocks[i];
    PrintHead(blocks[i..]);
    assert blocks[i..][1..] == blocks[i + 1..];
    assert text[from..][..b.width] == text[from..from + b.width];
    assert text[from..][b.width + 1..] == text[from + b.width + 1..];
    assert text[from..][b.width] == text[from + b.width];
  }

  lemma EmptyPrint(blocks: seq<Block>)
    requires blocks == []
    ensures Print(blocks) == ""
  {
  }

  lemma PrintedLayout(f: Fields, text: string)
    requires Printable(f) && text == Print(Blocks(f))
    ensures |text| == 24
    ensures text[0..4] == Pad(f.date.year, 4) && text[4] == '-' && text[5..7] == Pad(f.date.month, 2) && text[7] == '-'
    ensures text[8..10] == Pad(f.date.day, 2) && text[10] == 'T' && text[11..13] == Pad(f.hour, 2) && text[13] == ':'
    ensures text[14..16] == Pad(f.minute, 2) && text[16] == ':' && text[17..19] == Pad(f.second, 2) && text[19] == '.'
    ensures text[20..23] == Pad(f.millisecond, 3) && text[23] == 'Z'
  {
    hide Print; hide Pad;
    var blocks := Blocks(f);
    hide Printable;
    assert text[0..] == text && blocks[0..] == blocks;
    BlockAt(blocks, 0, text, 0);
    BlockAt(blocks, 1, text, 5);
    BlockAt(blocks, 2, text, 8);
    BlockAt(blocks, 3, text, 11);
    BlockAt(blocks, 4, text, 14);
    BlockAt(blocks, 5, text, 17);
    BlockAt(blocks, 6, text, 20);
    EmptyPrint(blocks[7..]);
  }

  lemma PrintedNumber(text: string, from: nat, width: nat, n: nat)
    requires from + width <= |text| && text[from..from + width] == Pad(n, width) && n < Pow10(width)
    ensures DigitsAt(text, from, width) && NumberAt(text, from, width) == n
  {
    NumberOfPad(n, width);
  }

  lemma PrintedFieldsMatch(f: Fields)
    requires Printable(f)
    ensures var text := Print(Blocks(f));
            && !AllDigits(text)
            && Match(text) == Some(Captured(f.date.year, f.date.month, f.date.day, f.hour, f.minute, f.second,
                                            Pad(f.millisecond, 3), Utc))
  {
    hide Print, Blocks, Pad, Number, Pow10, DigitsAt, NumberAt, MatchZone, DigitRun;
    var text := Print(Blocks(f));
    PrintedLayout(f, text);
    Powers();
    PrintedNumber(text, 0, 4, f.date.year);
    PrintedNumber(text, 5, 2, f.date.month);
    PrintedNumber(text, 8, 2, f.date.day);
    PrintedNumber(text, 11, 2, f.hour);
    PrintedNumber(text, 14, 2, f.minute);
    PrintedNumber(text, 17, 2, f.second);
    assert !IsDigit(text[4]);
    FractionThenUtc(text, f.millisecond);
  }

  /** After the seconds: a point, three digits and `Z`. */
  lemma FractionThenUtc(text: string, millisecond: nat)
    requires |text| == 24 && text[19] == '.' && text[20..23] == Pad(millisecond, 3) && text[23] == 'Z'
    ensures var rest := text[19..];
      && rest != "" && rest[0] == '.' && DigitRun(rest[1..]) == 3
      && rest[1..4] == Pad(millisecond, 3) && MatchZone(rest[4..]) == Some(Utc)
  {
    hide Pad;
    var rest := text[19..];
    assert rest[1..] == text[20..] && rest[1..][..3] == text[20..23] && rest[1..][3] == 'Z';
    RunOf(rest[1..], 3);
    assert rest[1..4] == text[20..23] && rest[4..] == "Z";
  }

  lemma {:induction false} RunOf(s: string, n: nat)
    requires n < |s| && AllDigits(s[..n]) && !IsDigit(s[n])
    ensures DigitRun(s) == n
  {
    if n != 0 {
      assert IsDigit(s[..n][0]) && s[1..][..n - 1] == s[..n][1..];
      RunOf(s[1..], n - 1);
    }
  }

  lemma ThreeDigitFraction(n: nat)
    requires n < 1000
    ensures Milliseconds(Pad(n, 3)) == n
  {
    Powers();
    NumberOfPad(n, 3);
    assert (Pad(n, 3) + "000")[..3] == Pad(n, 3);
  }

  /** Formatting an instant and parsing the text gives the instant again. */
  lemma FormatThenParse(millis: int)
    requires FormatEpoch(millis).Some?
    ensures var text := FormatEpoch(millis).value;
            && !AllDigits(text) && Match(text).Some? && InRange(Match(text).value)
            && AllDigits(Match(text).value.fraction) && Millis(Match(text).value) == millis
            && NormalizeTimestamp(text) == Some(text)
  {
    var f := FieldsOf(millis);
    MillisOfFields(millis);
    ThreeDigitFraction(f.millisecond);
    hide Match; hide FieldsOf; hide DaysFromCivil; hide Milliseconds;
    PrintedFieldsMatch(f);
  }

  /** Normalizing is idempotent, whatever was normalized first. */
  lemma NormalizeIsIdempotent(value: string)
    ensures NormalizeTimestamp(value).Some? ==> NormalizeTimestamp(NormalizeTimestamp(value).value) == NormalizeTimestamp(value)
  {
    if NormalizeTimestamp(value).Some? {
      var millis := InstantOf(value);
      FormatThenParse(millis);
    }
  }

  /** Every normalized text is the text of one instant. */
  lemma InstantOf(value: string) returns (millis: int)
    requires NormalizeTimestamp(value).Some?
    ensures FormatEpoch(millis) == NormalizeTimestamp(value)
  {
    hide FormatEpoch; hide Match;
    if AllDigits(value) && |value| in {10, 13} {
      millis := if |value| == 10 then Number(value) * 1000 else Number(value);
    } else {
      FractionIsDigits(value);
      millis := Millis(Match(value).value);
    }
  }

  /** Two normalized timestamps compare as texts like their instants. */
  lemma NormalizedOrderIsTimeOrder(v: string, w: string, a: int, b: int)
    requires NormalizeTimestamp(v).Some? && FormatEpoch(a) == NormalizeTimestamp(v)
    requires NormalizeTimestamp(w).Some? && FormatEpoch(b) == NormalizeTimestamp(w)
    ensures LexAtMost(NormalizeTimestamp(v).value, NormalizeTimestamp(w).value) <==> a <= b
  {
    hide NormalizeTimestamp;
    TextOrderIsTimeOrder(a, b);
  }
}
