/**
 * Python `datetime` values as the pipeline writes and reads them: the
 * proleptic Gregorian calendar, and the `%Y-%m-%d %H:%M:%S` text form in its
 * canonical, zero-padded layout.
 */
module Calendar {
  import opened Wrappers
  import opened Strings

  datatype DateTime = DateTime(year: nat, month: nat, day: nat, hour: nat, minute: nat, second: nat)

  predicate IsLeap(year: nat) {
    year % 4 == 0 && (year % 100 != 0 || year % 400 == 0)
  }

  function DaysInMonth(year: nat, month: nat): (n: nat)
    requires 1 <= month <= 12
    ensures 28 <= n <= 31
    ensures n == 29 <==> month == 2 && IsLeap(year)
  {
    if month == 2 then (if IsLeap(year) then 29 else 28)
    else if month == 4 || month == 6 || month == 9 || month == 11 then 30
    else 31
  }

  /** What `datetime(year, month, day)` accepts: years 1..9999, real months and days. */
  predicate ValidDate(year: nat, month: nat, day: nat) {
    1 <= year <= 9999 && 1 <= month <= 12 && 1 <= day <= DaysInMonth(year, month)
  }

  /** What `datetime(...)` accepts, the clock part included (no leap seconds). */
  predicate Valid(dt: DateTime) {
    ValidDate(dt.year, dt.month, dt.day) && dt.hour < 24 && dt.minute < 60 && dt.second < 60
  }

  /** `dt.replace(second=0)`. */
  function ToMinute(dt: DateTime): DateTime {
    dt.(second := 0)
  }

  // ---------------------------------------------------------------------------
  // `%Y-%m-%d %H:%M:%S`

  lemma Pow10Values()
    ensures Pow10(2) == 100 && Pow10(4) == 10000
  {
    assert Pow10(1) == 10;
    assert Pow10(3) == 1000;
  }

  /** Digits at `s[from..from + width]`. */
  predicate DigitsAt(s: string, from: nat, width: nat) {
    from + width <= |s| && AllDigits(s[from..from + width])
  }

  /** The canonical layout `DDDD-DD-DD DD:DD:DD`. */
  predicate Layout(s: string) {
    && |s| == 19
    && DigitsAt(s, 0, 4) && s[4] == '-' && DigitsAt(s, 5, 2) && s[7] == '-' && DigitsAt(s, 8, 2)
    && s[10] == ' '
    && DigitsAt(s, 11, 2) && s[13] == ':' && DigitsAt(s, 14, 2) && s[16] == ':' && DigitsAt(s, 17, 2)
  }

  /** Six digit runs joined by the separators of the layout. */
  function Joined(y: string, mo: string, d: string, h: string, mi: string, se: string): string {
    y + "-" + mo + "-" + d + " " + h + ":" + mi + ":" + se
  }

  /** Runs of the right widths joined give the layout, and each run sits at its place. */
  lemma JoinedLayout(y: string, mo: string, d: string, h: string, mi: string, se: string)
    requires |y| == 4 && |mo| == 2 && |d| == 2 && |h| == 2 && |mi| == 2 && |se| == 2
    requires AllDigits(y) && AllDigits(mo) && AllDigits(d) && AllDigits(h) && AllDigits(mi) && AllDigits(se)
    ensures var s := Joined(y, mo, d, h, mi, se);
      && Layout(s)
      && s[0..4] == y && s[5..7] == mo && s[8..10] == d
      && s[11..13] == h && s[14..16] == mi && s[17..19] == se
  {
    var s := Joined(y, mo, d, h, mi, se);
    SliceFromChars(s, 0, y);
    SliceFromChars(s, 5, mo);
    SliceFromChars(s, 8, d);
    SliceFromChars(s, 11, h);
    SliceFromChars(s, 14, mi);
    SliceFromChars(s, 17, se);
  }

  /** `strftime("%Y-%m-%d %H:%M:%S")`. */
  function FormatTimestamp(dt: DateTime): (s: string)
    requires Valid(dt)
    ensures Layout(s)
  {
    Pow10Values();
    var y, mo, d := PadDigits(dt.year, 4), PadDigits(dt.month, 2), PadDigits(dt.day, 2);
    var h, mi, se := PadDigits(dt.hour, 2), PadDigits(dt.minute, 2), PadDigits(dt.second, 2);
    JoinedLayout(y, mo, d, h, mi, se);
    Joined(y, mo, d, h, mi, se)
  }

  /** The fields written in a text of the canonical layout. */
  function Fields(s: string): DateTime
    requires Layout(s)
  {
    DateTime(DigitsValue(s[0..4]), DigitsValue(s[5..7]), DigitsValue(s[8..10]),
             DigitsValue(s[11..13]), DigitsValue(s[14..16]), DigitsValue(s[17..19]))
  }

  /**
   * `datetime.strptime(s, "%Y-%m-%d %H:%M:%S")` on the canonical layout:
   * None stands for the ValueError raised for any other text or for a
   * date or time that does not exist.
   */
  function ParseTimestamp(s: string): (r: Option<DateTime>)
    ensures r.Some? <==> Layout(s) && Valid(Fields(s))
    ensures r.Some? ==> r.value == Fields(s)
  {
    if Layout(s) && Valid(Fields(s)) then Some(Fields(s)) else None
  }

  /** Reading back a written timestamp gives the same date-time. */
  lemma ParseFormat(dt: DateTime)
    requires Valid(dt)
    ensures ParseTimestamp(FormatTimestamp(dt)) == Some(dt)
  {
    Pow10Values();
    JoinedLayout(PadDigits(dt.year, 4), PadDigits(dt.month, 2), PadDigits(dt.day, 2),
                 PadDigits(dt.hour, 2), PadDigits(dt.minute, 2), PadDigits(dt.second, 2));
    PadDigitsValue(dt.year, 4);
    PadDigitsValue(dt.month, 2);
    PadDigitsValue(dt.day, 2);
    PadDigitsValue(dt.hour, 2);
    PadDigitsValue(dt.minute, 2);
    PadDigitsValue(dt.second, 2);
  }

  /** Writing a parsed timestamp reproduces the text: parsing is one-to-one on its domain. */
  lemma FormatParse(s: string)
    requires ParseTimestamp(s).Some?
    ensures FormatTimestamp(ParseTimestamp(s).value) == s
  {
    var dt := ParseTimestamp(s).value;
    DigitsPadValue(s[0..4]);
    DigitsPadValue(s[5..7]);
    DigitsPadValue(s[8..10]);
    DigitsPadValue(s[11..13]);
    DigitsPadValue(s[14..16]);
    DigitsPadValue(s[17..19]);
    LayoutPieces(s);
  }

  /** A text of the canonical layout is its six digit runs joined by the five separators. */
  lemma LayoutPieces(s: string)
    requires Layout(s)
    ensures s == s[0..4] + "-" + s[5..7] + "-" + s[8..10] + " " + s[11..13] + ":" + s[14..16] + ":" + s[17..19]
  {
    assert s[4..5] == "-" && s[7..8] == "-" && s[10..11] == " " && s[13..14] == ":" && s[16..17] == ":";
    assert s == s[0..4] + s[4..5] + s[5..7] + s[7..8] + s[8..10] + s[10..11] + s[11..13] + s[13..14] + s[14..16] + s[16..17] + s[17..19];
  }
}
