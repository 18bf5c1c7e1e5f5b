/** Printing a time value with an offset, and reading back a legacy date and time. */
module LegacyTime {
  import opened Text
  import opened Calendar

  // ----- printing

  /** String(value).padStart(size, "0") */
  function Pad(s: string, size: nat): string
    decreases size - |s|
  {
    if |s| >= size then s else Pad("0" + s, size)
  }

  function DatePart(f: Fields): string
    requires Real(f)
  {
    ShowInt(f.year) + "-" + Pad(Dec(f.month + 1), 2) + "-" + Pad(Dec(f.day), 2)
  }

  function TimePart(f: Fields): string
    requires Real(f)
  {
    Pad(Dec(f.hour), 2) + ":" + Pad(Dec(f.minute), 2) + ":" + Pad(Dec(f.second), 2) + "." + Pad(Dec(f.milli), 3)
  }

  /** formatIsoWithOffset for an explicit whole-minute offset east of UTC. */
  function FormatIso(ts: int, offset: int): string {
    if ts <= 0 then ""
    else
      var local := ts + offset * 60000;
      UtcOfFields(local);
      DatePart(FieldsOf(local)) + "T" + TimePart(FieldsOf(local)) + Zone(offset)
  }

  function Zone(offset: int): string {
    var abs := if offset >= 0 then offset else -offset;
    (if offset >= 0 then "+" else "-") + Pad(Dec(abs / 60), 2) + ":" + Pad(Dec(abs % 60), 2)
  }

  // ----- reading

  /** The length of the leading run of digits. */
  function Digits(s: string): (n: nat)
    ensures n <= |s| && AllDigits(s[..n])
    ensures n < |s| ==> !IsDigit(s[n])
  {
    if s == "" || !IsDigit(s[0]) then 0
    else
      var n := 1 + Digits(s[1..]);
      assert s[..n] == [s[0]] + s[1..][..n - 1];
      n
  }

  datatype Number = Number(value: nat, width: nat, rest: string)

  /** A number of lo to hi digits at the head of s, as \d{lo,hi} before a non-digit. */
  function ReadNumber(s: string, lo: nat, hi: nat): Option<Number> {
    var n := Digits(s);
    if lo <= n <= hi then Some(Number(Value(s[..n]), n, s[n..])) else None
  }

  /** The rest of s after one of the given separators. */
  function ReadSeparator(s: string, separators: string): Option<string> {
    if s != "" && s[0] in separators then Some(s[1..]) else None
  }

  datatype Clock = Clock(hour: nat, minute: nat, second: nat, milli: nat)

  /** Number(digits.padEnd(3, "0")) for one to three digits. */
  function Millis(n: Number): nat
    requires 1 <= n.width <= 3
  {
    if n.width == 1 then n.value * 100 else if n.width == 2 then n.value * 10 else n.value
  }

  /** The optional fraction and the end of the text. */
  function ReadFraction(s: string): Option<nat> {
    if s == "" then Some(0)
    else
      match ReadSeparator(s, ".,")
      case None => None
      case Some(r) =>
        match ReadNumber(r, 1, 3)
        case None => None
        case Some(ms) => if ms.rest == "" then Some(Millis(ms)) else None
  }

  /** h:m, optionally :s, optionally a fraction. */
  function ReadTime(s: string): Option<Clock> {
    match ReadNumber(s, 1, 2)
    case None => None
    case Some(h) =>
      match ReadSeparator(h.rest, ":")
      case None => None
      case Some(r) =>
        match ReadNumber(r, 1, 2)
        case None => None
        case Some(m) =>
          match ReadSeparator(m.rest, ":")
          case None => ReadEnd(h.value, m.value, 0, m.rest)
          case Some(q) =>
            match ReadNumber(q, 1, 2)
            case None => None
            case Some(sec) => ReadEnd(h.value, m.value, sec.value, sec.rest)
  }

  function ReadEnd(h: nat, m: nat, s: nat, rest: string): Option<Clock> {
    match ReadFraction(rest)
    case None => None
    case Some(ms) => Some(Clock(h, m, s, ms))
  }

  datatype Date = Date(year: nat, month: nat, day: nat)

  /** Three numbers of the given widths with a separator between each two. */
  function ReadThree(s: string, lo: nat, hi: nat, first: string, second: string, lastLo: nat, lastHi: nat)
    : Option<(nat, nat, nat, string)>
  {
    match ReadNumber(s, lo, hi)
    case None => None
    case Some(a) =>
      match ReadSeparator(a.rest, first)
      case None => None
      case Some(r) =>
        match ReadNumber(r, 1, 2)
        case None => None
        case Some(b) =>
          match ReadSeparator(b.rest, second)
          case None => None
          case Some(q) =>
            match ReadNumber(q, lastLo, lastHi)
            case None => None
            case Some(c) => Some((a.value, b.value, c.value, c.rest))
  }

  /** Year first, or month/day/year. */
  function ReadDate(s: string): Option<Date> {
    match ReadThree(s, 4, 4, "/.-\U{5E74}", "/.-\U{6708}", 1, 2)
    case Some((y, m, d, rest)) =>
      if rest == "" || rest == "\U{65E5}" then Some(Date(y, m, d)) else None
    case None =>
      match ReadThree(s, 1, 2, "/.-", "/.-", 4, 4)
      case Some((m, d, y, rest)) => if rest == "" then Some(Date(y, m, d)) else None
      case None => None
  }

  /** The date and time a well-shaped pair of texts spells, whether or not it exists. */
  function Spelled(dateText: string, timeText: string): Option<Fields> {
    match ReadTime(Trim(timeText))
    case None => None
    case Some(t) =>
      match ReadDate(Trim(dateText))
      case None => None
      case Some(d) => Some(Fields(d.year, d.month - 1, d.day, t.hour, t.minute, t.second, t.milli))
  }

  predicate SameToTheSecond(a: Fields, b: Fields) {
    && a.year == b.year && a.month == b.month && a.day == b.day
    && a.hour == b.hour && a.minute == b.minute && a.second == b.second
  }

  predicate OutOfRange(f: Fields) {
    || f.year < 1970 || f.month < 0 || f.month > 11 || f.day < 1 || f.day > 31
    || f.hour > 23 || f.minute > 59 || f.second > 59
  }

  /** parseLegacyDateTime for an explicit whole-minute offset. */
  function ParseLegacy(dateText: string, timeText: string, offset: int): Option<int> {
    InstantIfAny(Spelled(dateText, timeText), offset)
  }

  function InstantIfAny(spelled: Option<Fields>, offset: int): Option<int> {
    match spelled
    case None => None
    case Some(f) => Instant(f, offset)
  }

  /** The range checks, the time value, and the check that the calendar gives the same fields back. */
  function Instant(f: Fields, offset: int): Option<int> {
    if OutOfRange(f) then None
    else
      var result := Utc(f) - offset * 60000;
      if SameToTheSecond(FieldsOf(result + offset * 60000), f) then Some(result) else None
  }

  // ----- exactly the real dates are accepted

  lemma {:induction false} ValueBound(s: string)
    requires AllDigits(s) && |s| <= 3
    ensures Value(s) < if |s| == 0 then 1 else if |s| == 1 then 10 else if |s| == 2 then 100 else 1000
  {
    if s != "" { ValueBound(s[..|s| - 1]); }
  }

  lemma FractionBound(s: string)
    ensures ReadFraction(s).Some? ==> ReadFraction(s).value < 1000
  {
    if ReadFraction(s).Some? && s != "" {
      var r := ReadSeparator(s, ".,").value;
      ValueBound(r[..Digits(r)]);
    }
  }

  lemma ClockMilli(s: string)
    ensures ReadTime(s).Some? ==> ReadTime(s).value.milli < 1000
  {
    if ReadTime(s).Some? {
      var h := ReadNumber(s, 1, 2).value;
      var m := ReadNumber(ReadSeparator(h.rest, ":").value, 1, 2).value;
      FractionBound(m.rest);
      if ReadSeparator(m.rest, ":").Some? {
        FractionBound(ReadNumber(ReadSeparator(m.rest, ":").value, 1, 2).value.rest);
      }
    }
  }

  predicate Plausible(f: Fields) { f.hour >= 0 && f.minute >= 0 && f.second >= 0 && 0 <= f.milli < 1000 }

  lemma SpelledIsPlausible(dateText: string, timeText: string)
    ensures Spelled(dateText, timeText).Some? ==> Plausible(Spelled(dateText, timeText).value)
  {
    ClockMilli(Trim(timeText));
  }

  /** Well-shaped texts from 1970 on are accepted exactly when they name a real date and time,
      and then the result is that instant. */
  lemma AcceptedIffReal(dateText: string, timeText: string, offset: int)
    ensures NamesInstant(Spelled(dateText, timeText), ParseLegacy(dateText, timeText, offset), offset)
  {
    SpelledIsPlausible(dateText, timeText);
    AnyInstantIffReal(Spelled(dateText, timeText), offset);
  }

  /** r is an instant exactly when the spelled fields are real and not before 1970, and it has these fields. */
  predicate NamesInstant(spelled: Option<Fields>, r: Option<int>, offset: int) {
    && (r.Some? <==> spelled.Some? && spelled.value.year >= 1970 && Real(spelled.value))
    && (r.Some? ==> FieldsOf(r.value + offset * 60000) == spelled.value)
  }

  lemma AnyInstantIffReal(spelled: Option<Fields>, offset: int)
    requires spelled.Some? ==> Plausible(spelled.value)
    ensures NamesInstant(spelled, InstantIfAny(spelled, offset), offset)
  {
    if spelled.Some? {
      InstantIffReal(spelled.value, offset);
    }
  }

  lemma InstantIffReal(f: Fields, offset: int)
    requires Plausible(f)
    ensures Instant(f, offset).Some? <==> f.year >= 1970 && Real(f)
    ensures Instant(f, offset).Some? ==> Instant(f, offset).value == Utc(f) - offset * 60000
    ensures Real(f) ==> FieldsOf(Utc(f)) == f
  {
    if Real(f) {
      FieldsOfUtc(f);
      MonthLengths(f.year, f.month);
    } else if !OutOfRange(f) {
      OverlongDayIsCaught(f);
    }
  }

  lemma MonthLengths(y: int, m: int)
    requires 0 <= m < 12
    ensures 28 <= DaysInMonth(y, m) <= 31
  {
  }

  // ----- reading what was printed

  lemma {:induction false} LeadingZero(s: string)
    requires AllDigits(s)
    ensures AllDigits("0" + s) && Value("0" + s) == Value(s)
  {
    var t := "0" + s;
    if s == [] {
      assert t[..0] == [];
    } else {
      LeadingZero(s[..|s| - 1]);
      assert t[..|t| - 1] == "0" + s[..|s| - 1];
    }
  }

  lemma DecWidth(n: nat)
    ensures n < 10 ==> |Dec(n)| == 1
    ensures 10 <= n < 100 ==> |Dec(n)| == 2
    ensures 100 <= n < 1000 ==> |Dec(n)| == 3
    ensures 1000 <= n < 10000 ==> |Dec(n)| == 4
  {
    if n >= 10 {
      assert |Dec(n)| == |Dec(n / 10)| + 1;
      if n >= 100 {
        assert |Dec(n / 10)| == |Dec(n / 100)| + 1 by { assert n / 10 / 10 == n / 100; }
        if n >= 1000 {
          assert |Dec(n / 100)| == |Dec(n / 1000)| + 1 by { assert n / 100 / 10 == n / 1000; }
        }
      }
    }
  }

  lemma {:induction false} PadKeepsValue(s: string, size: nat)
    requires AllDigits(s) && |s| <= size
    ensures |Pad(s, size)| == size && AllDigits(Pad(s, size)) && Value(Pad(s, size)) == Value(s)
    decreases size - |s|
  {
    if |s| < size {
      LeadingZero(s);
      PadKeepsValue("0" + s, size);
    }
  }

  predicate Fits(n: nat, size: nat) {
    (size == 2 && n < 100) || (size == 3 && n < 1000) || (size == 4 && 1000 <= n < 10000)
  }

  /** A padded number has its width and its value. */
  lemma Padded(n: nat, size: nat)
    requires Fits(n, size)
    ensures |Pad(Dec(n), size)| == size && AllDigits(Pad(Dec(n), size)) && Value(Pad(Dec(n), size)) == n
  {
    DecWidth(n);
    DecValue(n);
    PadKeepsValue(Dec(n), size);
  }

  lemma {:induction false} DigitsOf(a: string, rest: string)
    requires AllDigits(a) && (rest == "" || !IsDigit(rest[0]))
    ensures Digits(a + rest) == |a|
  {
    if a == "" {
      assert a + rest == rest;
    } else {
      assert (a + rest)[1..] == a[1..] + rest;
      DigitsOf(a[1..], rest);
    }
  }

  lemma ReadsNumber(n: nat, size: nat, rest: string, lo: nat, hi: nat)
    requires Fits(n, size)
    requires lo <= size <= hi && (rest == "" || !IsDigit(rest[0]))
    ensures ReadNumber(Pad(Dec(n), size) + rest, lo, hi) == Some(Number(n, size, rest))
  {
    var a := Pad(Dec(n), size);
    Padded(n, size);
    DigitsOf(a, rest);
    assert (a + rest)[..size] == a && (a + rest)[size..] == rest;
  }

  lemma ReadsSeparator(c: char, rest: string, separators: string)
    requires c in separators
    ensures ReadSeparator([c] + rest, separators) == Some(rest)
  {
  }

  function Two(n: nat): string { Pad(Dec(n), 2) }

  lemma ReadsFraction(ms: nat)
    requires ms < 1000
    ensures ReadFraction("." + Pad(Dec(ms), 3)) == Some(ms)
  {
    ReadsSeparator('.', Pad(Dec(ms), 3), ".,");
    ReadsNumber(ms, 3, "", 1, 3);
    assert Pad(Dec(ms), 3) + "" == Pad(Dec(ms), 3);
  }

  lemma ReadsClock(h: nat, m: nat, sec: nat, ms: nat, tail: string)
    requires h < 100 && m < 100 && sec < 100 && ms < 1000 && tail == "." + Pad(Dec(ms), 3)
    ensures ReadTime(TimeText(h, m, sec, ms)) == Some(Clock(h, m, sec, ms))
  {
    var a := Two(sec) + tail;
    var b := Two(m) + (":" + a);
    ReadsNumber(h, 2, ":" + b, 1, 2);
    ReadsSeparator(':', b, ":");
    ReadsNumber(m, 2, ":" + a, 1, 2);
    ReadsSeparator(':', a, ":");
    ReadsNumber(sec, 2, tail, 1, 2);
    ReadsFraction(ms);
  }

  lemma ReadsTime(f: Fields)
    requires Real(f)
    ensures ReadTime(TimePart(f)) == Some(Clock(f.hour, f.minute, f.second, f.milli))
  {
    TimeShape(f);
    ReadsClock(f.hour, f.minute, f.second, f.milli, "." + Pad(Dec(f.milli), 3));
  }

  function TimeText(h: nat, m: nat, sec: nat, ms: nat): string {
    Two(h) + (":" + (Two(m) + (":" + (Two(sec) + ("." + Pad(Dec(ms), 3))))))
  }

  function DateText(y: nat, m: nat, d: nat): string {
    Pad(Dec(y), 4) + ("-" + (Two(m) + ("-" + Two(d))))
  }

  lemma TimeShape(f: Fields)
    requires Real(f)
    ensures TimePart(f) == TimeText(f.hour, f.minute, f.second, f.milli)
  {
    var ms := "." + Pad(Dec(f.milli), 3);
    Regroup4(Two(f.hour), Two(f.minute), Two(f.second), ms, ":");
    assert TimePart(f) == Two(f.hour) + ":" + Two(f.minute) + ":" + Two(f.second) + ms;
  }

  lemma DateShape(f: Fields)
    requires Real(f) && 1970 <= f.year <= 9999
    ensures 0 <= f.month < 12 && f.day < 100
    ensures DatePart(f) == DateText(f.year, f.month + 1, f.day)
  {
    MonthLengths(f.year, f.month);
    DecWidth(f.year);
    Regroup4(Dec(f.year), Two(f.month + 1), Two(f.day), "", "-");
  }

  lemma Regroup4(a: string, b: string, c: string, d: string, sep: string)
    ensures a + sep + b + sep + c + d == a + (sep + (b + (sep + (c + d))))
  {
  }

  lemma ReadsYmd(y: nat, m: nat, d: nat)
    requires 1000 <= y < 10000 && m < 100 && d < 100
    ensures ReadDate(DateText(y, m, d)) == Some(Date(y, m, d))
  {
    var a := Two(m) + ("-" + Two(d));
    ReadsNumber(y, 4, "-" + a, 4, 4);
    ReadsSeparator('-', a, "/.-\U{5E74}");
    ReadsNumber(m, 2, "-" + Two(d), 1, 2);
    ReadsSeparator('-', Two(d), "/.-\U{6708}");
    ReadsNumber(d, 2, "", 1, 2);
    assert Two(d) + "" == Two(d);
  }

  lemma ReadsDate(f: Fields)
    requires Real(f) && 1970 <= f.year <= 9999
    ensures ReadDate(DatePart(f)) == Some(Date(f.year, f.month + 1, f.day))
  {
    DateShape(f);
    ReadsYmd(f.year, f.month + 1, f.day);
  }

  /** Text that begins and ends with digits has nothing to trim. */
  lemma TrimNothing(a: string, mid: string, b: string)
    requires a != "" && AllDigits(a) && b != "" && AllDigits(b)
    ensures Trim(a + mid + b) == a + mid + b
  {
    var s := a + mid + b;
    assert s[0] == a[0] && s[|s| - 1] == b[|b| - 1];
  }

  lemma DateIsTrimmed(f: Fields)
    requires Real(f) && 1970 <= f.year <= 9999
    ensures |DatePart(f)| == 10 && Trim(DatePart(f)) == DatePart(f)
  {
    DateShape(f);
    DecWidth(f.year);
    DecValue(f.year);
    Padded(f.month + 1, 2);
    Padded(f.day, 2);
    TrimNothing(Dec(f.year), "-" + Two(f.month + 1) + "-", Two(f.day));
    assert DatePart(f) == Dec(f.year) + ("-" + Two(f.month + 1) + "-") + Two(f.day);
  }

  lemma TimeIsTrimmed(f: Fields)
    requires Real(f)
    ensures |TimePart(f)| == 12 && Trim(TimePart(f)) == TimePart(f)
  {
    Padded(f.hour, 2);
    Padded(f.minute, 2);
    Padded(f.second, 2);
    Padded(f.milli, 3);
    var mid := ":" + Two(f.minute) + ":" + Two(f.second) + ".";
    TrimNothing(Two(f.hour), mid, Pad(Dec(f.milli), 3));
    Around(Two(f.hour), Two(f.minute), Two(f.second), Pad(Dec(f.milli), 3));
  }

  lemma Around(a: string, b: string, c: string, d: string)
    ensures a + ":" + b + ":" + c + "." + d == a + (":" + b + ":" + c + ".") + d
    ensures |a + ":" + b + ":" + c + "." + d| == |a| + |b| + |c| + |d| + 3
  {
  }

  lemma SpelledByParts(f: Fields)
    requires Real(f) && 1970 <= f.year <= 9999
    ensures Spelled(DatePart(f), TimePart(f)) == Some(f)
  {
    DateIsTrimmed(f);
    TimeIsTrimmed(f);
    ReadsDate(f);
    ReadsTime(f);
  }

  lemma CutParts(a: string, b: string, rest: string)
    requires |a| == 10 && |b| == 12
    ensures
      var t := a + "T" + b + rest;
      |t| == 23 + |rest| && t[..10] == a && t[11..23] == b && t[23..] == rest
  {
  }

  /** Parsing the printed date and time with the printed offset gives the same millisecond back. */
  lemma ParseUndoesFormat(ts: int, offset: int)
    requires ts > 0 && 1970 <= FieldsOf(ts + offset * 60000).year <= 9999
    ensures
      var text := FormatIso(ts, offset);
      |text| >= 23 && ParseLegacy(text[..10], text[11..23], offset) == Some(ts)
  {
    var local := ts + offset * 60000;
    UtcOfFields(local);
    var f := FieldsOf(local);
    DateIsTrimmed(f);
    TimeIsTrimmed(f);
    CutParts(DatePart(f), TimePart(f), Zone(offset));
    SpelledByParts(f);
    InstantIffReal(f, offset);
  }

  /** What the printed offset says: a sign, hours and minutes. */
  predicate SaysOffset(zone: string, offset: int) {
    && |zone| >= 6 && zone[|zone| - 3] == ':'
    && AllDigits(zone[1..|zone| - 3]) && AllDigits(zone[|zone| - 2..])
    && var minutes := Value(zone[1..|zone| - 3]) * 60 + Value(zone[|zone| - 2..]);
       if zone[0] == '+' then offset == minutes else zone[0] == '-' && offset == -minutes
  }

  lemma FormatEnds(ts: int, offset: int)
    requires ts > 0 && 1970 <= FieldsOf(ts + offset * 60000).year <= 9999
    ensures |FormatIso(ts, offset)| == 23 + |Zone(offset)| && FormatIso(ts, offset)[23..] == Zone(offset)
  {
    var local := ts + offset * 60000;
    UtcOfFields(local);
    var f := FieldsOf(local);
    DateIsTrimmed(f);
    TimeIsTrimmed(f);
    CutParts(DatePart(f), TimePart(f), Zone(offset));
  }

  /** The printed offset, which ends the printed instant, says the offset it was printed with. */
  lemma OffsetReads(ts: int, offset: int)
    requires ts > 0 && 1970 <= FieldsOf(ts + offset * 60000).year <= 9999
    ensures |FormatIso(ts, offset)| > 23 && SaysOffset(FormatIso(ts, offset)[23..], offset)
  {
    FormatEnds(ts, offset);
    ZoneSays(offset);
  }

  lemma ZoneSays(offset: int)
    ensures SaysOffset(Zone(offset), offset)
  {
    var abs := if offset >= 0 then offset else -offset;
    var h, m := Pad(Dec(abs / 60), 2), Pad(Dec(abs % 60), 2);
    Padded(abs % 60, 2);
    PaddedHours(abs / 60);
    ZoneParts(if offset >= 0 then "+" else "-", h, m);
  }

  lemma PaddedHours(n: nat)
    ensures |Pad(Dec(n), 2)| >= 2 && AllDigits(Pad(Dec(n), 2)) && Value(Pad(Dec(n), 2)) == n
  {
    DecValue(n);
    if |Dec(n)| <= 2 {
      PadKeepsValue(Dec(n), 2);
    }
  }

  lemma ZoneParts(sign: string, h: string, m: string)
    requires |sign| == 1 && |h| >= 2 && |m| == 2
    ensures
      var z := sign + h + ":" + m;
      |z| >= 6 && z[0] == sign[0] && z[1..|z| - 3] == h && z[|z| - 3] == ':' && z[|z| - 2..] == m
  {
  }
}
