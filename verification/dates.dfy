/** Calendar dates and date-times as the service reads and writes them:
    `_iso` (main.py:89-95), `_parse_iso` (main.py:103-114) and the timestamp
    text `_actualizar_timestamps` writes (main.py:394-397). */
module Dates {
  import opened Values
  import opened Text

  datatype Date = Date(year: int, month: int, day: int)

  predicate IsLeap(y: int)
  {
    y % 4 == 0 && (y % 100 != 0 || y % 400 == 0)
  }

  function DaysInMonth(y: int, m: int): int
    requires 1 <= m <= 12
  {
    if m == 2 then (if IsLeap(y) then 29 else 28)
    else if m == 4 || m == 6 || m == 9 || m == 11 then 30
    else 31
  }

  /** A date Python's `datetime.date` accepts (years 1 to 9999). */
  predicate ValidDate(d: Date)
  {
    1 <= d.year <= 9999 && 1 <= d.month <= 12 && 1 <= d.day <= DaysInMonth(d.year, d.month)
  }

  // ---------------------------------------------------------------------------
  // Zero-padded decimal fields.

  function Pad2(n: nat): (r: string)
    requires n < 100
    ensures |r| == 2 && AllDigits(r)
  {
    [DigitChar(n / 10), DigitChar(n % 10)]
  }

  function Pad4(n: nat): (r: string)
    requires n < 10000
    ensures |r| == 4 && AllDigits(r)
  {
    var a := n / 10;
    var b := a / 10;
    [DigitChar(b / 10), DigitChar(b % 10), DigitChar(a % 10), DigitChar(n % 10)]
  }

  lemma DigitsValue2(s: string)
    requires |s| == 2 && AllDigits(s)
    ensures DigitsValue(s) == 10 * DigitValue(s[0]) + DigitValue(s[1])
  {
    assert DigitsValue(s[..1]) == DigitValue(s[0]) by {
      assert s[..1][..0] == [];
    }
  }

  lemma DigitsValue4(s: string)
    requires |s| == 4 && AllDigits(s)
    ensures DigitsValue(s) == 1000 * DigitValue(s[0]) + 100 * DigitValue(s[1]) + 10 * DigitValue(s[2]) + DigitValue(s[3])
  {
    assert DigitsValue(s[..1]) == DigitValue(s[0]) by {
      assert s[..1][..0] == [];
    }
    assert DigitsValue(s[..2]) == 10 * DigitValue(s[0]) + DigitValue(s[1]) by {
      assert s[..2][..1] == s[..1];
    }
    assert DigitsValue(s[..3]) == 10 * DigitsValue(s[..2]) + DigitValue(s[2]) by {
      assert s[..3][..2] == s[..2];
    }
  }

  /** Reading back a padded field gives the number. */
  lemma Pad2Value(n: nat)
    requires n < 100
    ensures DigitsValue(Pad2(n)) == n
  {
    DigitsValue2(Pad2(n));
  }

  lemma Pad4Value(n: nat)
    requires n < 10000
    ensures DigitsValue(Pad4(n)) == n
  {
    DigitsValue4(Pad4(n));
  }

  /** Padding the number a field denotes gives the field back. */
  lemma ValuePad2(s: string)
    requires |s| == 2 && AllDigits(s)
    ensures DigitsValue(s) < 100 && Pad2(DigitsValue(s)) == s
  {
    DigitsValue2(s);
  }

  lemma ValuePad4(s: string)
    requires |s| == 4 && AllDigits(s)
    ensures DigitsValue(s) < 10000 && Pad4(DigitsValue(s)) == s
  {
    DigitsValue4(s);
    var n := DigitsValue(s);
    var d0, d1, d2, d3 := DigitValue(s[0]), DigitValue(s[1]), DigitValue(s[2]), DigitValue(s[3]);
    assert n / 10 == 100 * d0 + 10 * d1 + d2 && n % 10 == d3;
    assert n / 10 / 10 == 10 * d0 + d1 && n / 10 % 10 == d2;
    assert n / 10 / 10 / 10 == d0 && n / 10 / 10 % 10 == d1;
  }

  // ---------------------------------------------------------------------------
  // Dates: `date.isoformat()` and `date.fromisoformat()`.

  /** `date.isoformat()`: `YYYY-MM-DD`. */
  function FormatDate(d: Date): (r: string)
    requires ValidDate(d)
    ensures |r| == 10
  {
    Pad4(d.year) + "-" + Pad2(d.month) + "-" + Pad2(d.day)
  }

  /** `date.fromisoformat(s)` for the extended form `YYYY-MM-DD`. */
  function ParseDate(s: string): (r: Option<Date>)
    ensures r.Some? ==> ValidDate(r.value)
  {
    if |s| == 10 && AllDigits(s[..4]) && s[4] == '-' && AllDigits(s[5..7]) && s[7] == '-' && AllDigits(s[8..]) then
      var d := Date(DigitsValue(s[..4]), DigitsValue(s[5..7]), DigitsValue(s[8..]));
      if ValidDate(d) then Some(d) else None
    else None
  }

  /** Parsing a formatted date gives the date back. */
  lemma ParseFormatDate(d: Date)
    requires ValidDate(d)
    ensures ParseDate(FormatDate(d)) == Some(d)
  {
    var s := FormatDate(d);
    assert s[..4] == Pad4(d.year);
    assert s[5..7] == Pad2(d.month);
    assert s[8..] == Pad2(d.day);
    Pad4Value(d.year);
    Pad2Value(d.month);
    Pad2Value(d.day);
  }

  /** A string that parses as a date is already in the form `isoformat` writes. */
  lemma FormatParseDate(s: string)
    requires ParseDate(s).Some?
    ensures FormatDate(ParseDate(s).value) == s
  {
    ValuePad4(s[..4]);
    ValuePad2(s[5..7]);
    ValuePad2(s[8..]);
    assert s == s[..4] + "-" + s[5..7] + "-" + s[8..];
  }

  function Min(a: int, b: int): int { if a <= b then a else b }

  /** `_iso(d)` (main.py:89-95): `None` for an empty string; otherwise the
      canonical form of the date in the first ten characters, or `d`
      unchanged when those do not parse. */
  function Iso(d: string): (r: Option<string>)
  {
    if d == "" then None
    else match ParseDate(d[..Min(10, |d|)])
      case Some(date) => Some(FormatDate(date))
      case None => Some(d)
  }

  /** The three outcomes of `_iso`. */
  lemma IsoCases(d: string)
    ensures Iso(d) == None <==> d == ""
    ensures d != "" && |d| >= 10 && ParseDate(d[..10]).Some? ==> Iso(d) == Some(d[..10])
    ensures d != "" && (|d| < 10 || ParseDate(d[..10]).None?) ==> Iso(d) == Some(d)
  {
    if d != "" && |d| >= 10 && ParseDate(d[..10]).Some? {
      FormatParseDate(d[..10]);
    }
  }

  /** Normalising an already normalised date changes nothing. */
  lemma IsoIdempotent(d: string)
    requires Iso(d).Some?
    ensures Iso(Iso(d).value) == Iso(d)
  {
    IsoCases(d);
    var x := Iso(d).value;
    if |d| >= 10 && ParseDate(d[..10]).Some? {
      assert x == d[..10] && x[..10] == x;
      IsoCases(x);
    }
  }

  // ---------------------------------------------------------------------------
  // Date-times: seconds on a clock, `isoformat`, and `datetime.fromisoformat`.

  datatype DateTime = DateTime(date: Date, hour: int, minute: int, second: int)

  predicate ValidDateTime(t: DateTime)
  {
    ValidDate(t.date) && 0 <= t.hour < 24 && 0 <= t.minute < 60 && 0 <= t.second < 60
  }

  function DaysBeforeYear(y: int): int
    requires y >= 1
  {
    var p := y - 1;
    365 * p + p / 4 - p / 100 + p / 400
  }

  function DaysBeforeMonth(y: int, m: int): int
    requires 1 <= m <= 12
  {
    if m == 1 then 0 else DaysBeforeMonth(y, m - 1) + DaysInMonth(y, m - 1)
  }

  /** Days from 0001-01-01 to `d`. */
  function DayNumber(d: Date): int
    requires ValidDate(d)
  {
    DaysBeforeYear(d.year) + DaysBeforeMonth(d.year, d.month) + d.day - 1
  }

  /** The seconds a clock reading stands for, counted from 0001-01-01T00:00:00
      on the same clock. For a UTC reading this is the instant itself. */
  function ClockSeconds(t: DateTime): int
    requires ValidDateTime(t)
  {
    DayNumber(t.date) * 86400 + t.hour * 3600 + t.minute * 60 + t.second
  }

  /** `datetime.isoformat()` without microseconds or offset: `YYYY-MM-DDTHH:MM:SS`. */
  function FormatDateTime(t: DateTime): (r: string)
    requires ValidDateTime(t)
    ensures |r| == 19
  {
    FormatDate(t.date) + "T" + Pad2(t.hour) + ":" + Pad2(t.minute) + ":" + Pad2(t.second)
  }

  /** A parsed date-time: the clock reading and its UTC offset in seconds, if any. */
  datatype Reading = Reading(clock: DateTime, offset: Option<int>)

  /** `HH:MM:SS`. */
  function ParseClock(s: string): Option<(int, int, int)>
  {
    if |s| == 8 && AllDigits(s[..2]) && s[2] == ':' && AllDigits(s[3..5]) && s[5] == ':' && AllDigits(s[6..]) then
      var h, m, sec := DigitsValue(s[..2]), DigitsValue(s[3..5]), DigitsValue(s[6..]);
      if h < 24 && m < 60 && sec < 60 then Some((h, m, sec)) else None
    else None
  }

  /** `+HH:MM` or `-HH:MM`, in seconds east of UTC. */
  function ParseOffset(s: string): Option<int>
  {
    if |s| == 6 && (s[0] == '+' || s[0] == '-') && AllDigits(s[1..3]) && s[3] == ':' && AllDigits(s[4..]) then
      var h, m := DigitsValue(s[1..3]), DigitsValue(s[4..]);
      if h < 24 && m < 60 then Some(if s[0] == '+' then h * 3600 + m * 60 else -(h * 3600 + m * 60))
      else None
    else None
  }

  /** `datetime.fromisoformat(s)` for `YYYY-MM-DD`, `YYYY-MM-DD?HH:MM:SS` (any
      separator character) and the latter followed by `+HH:MM` or `-HH:MM`. */
  function ParseDateTime(s: string): (r: Option<Reading>)
    ensures r.Some? ==> ValidDateTime(r.value.clock)
  {
    if |s| == 10 then
      match ParseDate(s)
      case None => None
      case Some(d) => Some(Reading(DateTime(d, 0, 0, 0), None))
    else if |s| == 19 || |s| == 25 then
      match (ParseDate(s[..10]), ParseClock(s[11..19]))
      case (Some(d), Some((h, m, sec))) =>
        if |s| == 19 then Some(Reading(DateTime(d, h, m, sec), None))
        else (match ParseOffset(s[19..])
              case None => None
              case Some(off) => Some(Reading(DateTime(d, h, m, sec), Some(off))))
      case _ => None
    else None
  }

  /** America/Mexico_City, UTC-06:00 all year. */
  const MexicoCityOffset: int := -6 * 3600

  /** The instant (UTC seconds) of a reading: a reading without an offset is
      taken as Mexico City time, as `_parse_iso` does with `replace(tzinfo=MX_TZ)`. */
  function Instant(r: Reading): int
    requires ValidDateTime(r.clock)
  {
    ClockSeconds(r.clock) - (match r.offset case None => MexicoCityOffset case Some(o) => o)
  }

  function InstantOf(r: Option<Reading>): (t: Option<int>)
    requires r.Some? ==> ValidDateTime(r.value.clock)
    ensures t.Some? <==> r.Some?
  {
    match r
    case None => None
    case Some(x) => Some(Instant(x))
  }

  /** `_parse_iso(s)` (main.py:103-114) AS WRITTEN: every `Z` is deleted and a
      reading without offset is taken as Mexico City time. */
  function ParseIsoAsWritten(v: Value): Option<int>
  {
    if !Truthy(v) then None
    else match v
      case Str(s) => InstantOf(ParseDateTime(ReplaceAll(s, "Z", "")))
      case _ => None   // `.replace` on a number raises, and the handler returns None
  }

  /** `_parse_iso(s)` with the evident intent: a `Z` suffix means UTC. */
  function ParseIso(v: Value): Option<int>
  {
    if !Truthy(v) then None
    else match v
      case Str(s) => InstantOf(ParseDateTime(ReplaceAll(s, "Z", "+00:00")))
      case _ => None
  }

  /** The text `_actualizar_timestamps` stores for a UTC clock reading (main.py:394-397):
      `isoformat()` with offset `+00:00`, then `+00:00` replaced by `Z`. */
  function UtcStamp(t: DateTime): string
    requires ValidDateTime(t)
  {
    ReplaceAll(FormatDateTime(t) + "+00:00", "+00:00", "Z")
  }

  // ---------------------------------------------------------------------------
  // Reading back what `_actualizar_timestamps` writes.

  predicate NoChar(s: string, c: char)
  {
    forall i :: 0 <= i < |s| ==> s[i] != c
  }

  /** Replacing in `s + tail` leaves `s` alone when the pattern's first
      character does not occur in `s`. */
  lemma {:induction false} ReplaceSkipsPrefix(s: string, tail: string, pat: string, rep: string)
    requires pat != [] && NoChar(s, pat[0])
    ensures ReplaceAll(s + tail, pat, rep) == s + ReplaceAll(tail, pat, rep)
    decreases |s|
  {
    if s == [] {
      assert s + tail == tail;
    } else if |s + tail| < |pat| {
      assert |tail| < |pat|;
    } else {
      assert (s + tail)[..|pat|][0] == s[0];
      assert (s + tail)[1..] == s[1..] + tail;
      ReplaceSkipsPrefix(s[1..], tail, pat, rep);
    }
  }

  lemma ReplaceWhole(pat: string, rep: string)
    requires pat != []
    ensures ReplaceAll(pat, pat, rep) == rep
  {
    assert pat[|pat|..] == [];
  }

  lemma FormattedCharacters(t: DateTime)
    requires ValidDateTime(t)
    ensures NoChar(FormatDateTime(t), 'Z') && NoChar(FormatDateTime(t), '+')
  {
    var s := FormatDateTime(t);
    forall i | 0 <= i < |s| ensures IsDigit(s[i]) || s[i] in "-T:" {
    }
  }

  lemma UtcStampShape(t: DateTime)
    requires ValidDateTime(t)
    ensures UtcStamp(t) == FormatDateTime(t) + "Z"
  {
    FormattedCharacters(t);
    ReplaceSkipsPrefix(FormatDateTime(t), "+00:00", "+00:00", "Z");
    ReplaceWhole("+00:00", "Z");
  }

  lemma ParseClockPad(t: DateTime)
    requires ValidDateTime(t)
    ensures ParseClock(FormatDateTime(t)[11..19]) == Some((t.hour, t.minute, t.second))
  {
    var c := FormatDateTime(t)[11..19];
    assert c == Pad2(t.hour) + ":" + Pad2(t.minute) + ":" + Pad2(t.second);
    assert c[..2] == Pad2(t.hour) && c[3..5] == Pad2(t.minute) && c[6..] == Pad2(t.second);
    Pad2Value(t.hour);
    Pad2Value(t.minute);
    Pad2Value(t.second);
  }

  lemma ParseUtcOffset()
    ensures ParseOffset("+00:00") == Some(0)
  {
    assert "+00:00"[1..3] == "00" && "+00:00"[4..] == "00";
    assert DigitsValue("00") == 0 by {
      assert "00"[..1] == "0" && "0"[..0] == "";
    }
  }

  lemma ParseFormatDateTime(t: DateTime)
    requires ValidDateTime(t)
    ensures ParseDateTime(FormatDateTime(t)) == Some(Reading(t, None))
  {
    var s := FormatDateTime(t);
    assert s[..10] == FormatDate(t.date);
    ParseFormatDate(t.date);
    ParseClockPad(t);
  }

  lemma ParseFormatDateTimeUtc(t: DateTime)
    requires ValidDateTime(t)
    ensures ParseDateTime(FormatDateTime(t) + "+00:00") == Some(Reading(t, Some(0)))
  {
    var s := FormatDateTime(t);
    var u := s + "+00:00";
    assert u[..10] == FormatDate(t.date) by { assert u[..10] == s[..10]; }
    ParseFormatDate(t.date);
    assert u[11..19] == s[11..19];
    ParseClockPad(t);
    assert u[19..] == "+00:00";
    ParseUtcOffset();
  }

  /** Deleting the `Z` of a stamp leaves the bare clock reading. */
  lemma DeleteZ(t: DateTime)
    requires ValidDateTime(t)
    ensures ReplaceAll(FormatDateTime(t) + "Z", "Z", "") == FormatDateTime(t)
  {
    FormattedCharacters(t);
    ReplaceSkipsPrefix(FormatDateTime(t), "Z", "Z", "");
    ReplaceWhole("Z", "");
    assert FormatDateTime(t) + "" == FormatDateTime(t);
  }

  /** Reading the `Z` of a stamp as UTC gives the `+00:00` offset. */
  lemma ZAsUtc(t: DateTime)
    requires ValidDateTime(t)
    ensures ReplaceAll(FormatDateTime(t) + "Z", "Z", "+00:00") == FormatDateTime(t) + "+00:00"
  {
    FormattedCharacters(t);
    ReplaceSkipsPrefix(FormatDateTime(t), "Z", "Z", "+00:00");
    ReplaceWhole("Z", "+00:00");
  }

  /** FINDING, as written: a stamp written for UTC instant `t` reads back six
      hours later than `t`. */
  lemma StampReadBackSixHoursLate(t: DateTime)
    requires ValidDateTime(t)
    ensures ParseIsoAsWritten(Str(UtcStamp(t))) == Some(ClockSeconds(t) + 6 * 3600)
  {
    var stamp := UtcStamp(t);
    UtcStampShape(t);
    assert stamp != "";
    DeleteZ(t);
    ParseFormatDateTime(t);
    assert ParseIsoAsWritten(Str(stamp)) == InstantOf(ParseDateTime(FormatDateTime(t)));
  }

  /** Corrected: a stamp written for UTC instant `t` reads back as `t`. */
  lemma StampReadBack(t: DateTime)
    requires ValidDateTime(t)
    ensures ParseIso(Str(UtcStamp(t))) == Some(ClockSeconds(t))
  {
    var stamp := UtcStamp(t);
    UtcStampShape(t);
    assert stamp != "";
    ZAsUtc(t);
    ParseFormatDateTimeUtc(t);
    assert ParseIso(Str(stamp)) == InstantOf(ParseDateTime(FormatDateTime(t) + "+00:00"));
  }
}
