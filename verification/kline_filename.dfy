/**
 * K-line file names `K_line_YYYYMMDD_HHMMSS.csv`: the legacy strategy tester
 * builds them from an alert timestamp (`parse_timestamp_to_filename`), the
 * legacy calculator reads the minute back out of them
 * (`extract_time_from_kline_filename`).
 */
module KlineFilenames {
  import opened Wrappers
  import opened Strings
  import opened Calendar

  const Prefix: string := "K_line_"
  const Suffix: string := ".csv"
  /** Length of `K_line_YYYYMMDD_HHMMSS.csv`. */
  const NameLength: nat := 26

  /** `K_line_(\d{8})_(\d{6})\.csv` matches `s` at index `i`. */
  predicate MatchesAt(s: string, i: nat) {
    && i + NameLength <= |s|
    && s[i..i + 7] == Prefix && DigitsAt(s, i + 7, 8) && s[i + 15] == '_'
    && DigitsAt(s, i + 16, 6) && s[i + 22..i + 26] == Suffix
  }

  /** `re.search`: the leftmost index, from `from` on, where the pattern matches. */
  function FirstMatch(s: string, from: nat): (r: Option<nat>)
    ensures r.Some? ==> from <= r.value && MatchesAt(s, r.value)
    ensures r.Some? ==> forall j | from <= j < r.value :: !MatchesAt(s, j)
    ensures r.None? ==> forall j | from <= j :: !MatchesAt(s, j)
    decreases |s| - from
  {
    if from + NameLength > |s| then None
    else if MatchesAt(s, from) then Some(from)
    else FirstMatch(s, from + 1)
  }

  /** The `dt_str` rebuilt from the two digit groups of a match at `i`. */
  function StampText(s: string, i: nat): string
    requires MatchesAt(s, i)
  {
    s[i + 7..i + 11] + "-" + s[i + 11..i + 13] + "-" + s[i + 13..i + 15] + " "
      + s[i + 16..i + 18] + ":" + s[i + 18..i + 20] + ":" + s[i + 20..i + 22]
  }

  /**
   * `extract_time_from_kline_filename`: the date-time written in the first
   * match; `now` when nothing matches. None stands for the ValueError that
   * `strptime` raises when the digits do not form a real date-time.
   */
  function ExtractTime(name: string, now: DateTime): (r: Option<DateTime>)
    ensures FirstMatch(name, 0).None? ==> r == Some(now)
    ensures FirstMatch(name, 0).Some? ==> r == ParseTimestamp(StampText(name, FirstMatch(name, 0).value))
  {
    match FirstMatch(name, 0)
    case None => Some(now)
    case Some(i) => ParseTimestamp(StampText(name, i))
  }

  /** `f"K_line_{dt.strftime('%Y%m%d_%H%M00')}.csv"`: seconds are always written as 00. */
  function KlineFilename(dt: DateTime): (name: string)
    requires Valid(dt)
    ensures |name| == NameLength && MatchesAt(name, 0)
    ensures name[20..22] == "00"
  {
    Pow10Values();
    var date := PadDigits(dt.year, 4) + PadDigits(dt.month, 2) + PadDigits(dt.day, 2);
    var time := PadDigits(dt.hour, 2) + PadDigits(dt.minute, 2) + "00";
    assert AllDigits(date) && AllDigits(time);
    var name := Prefix + date + "_" + time + Suffix;
    assert name[7..15] == date && name[16..22] == time;
    assert name[..7] == Prefix && name[22..26] == Suffix;
    name
  }

  /** `parse_timestamp_to_filename`: None when the timestamp does not parse. */
  function TimestampToFilename(ts: string): (r: Option<string>)
    ensures r.Some? <==> ParseTimestamp(ts).Some?
    ensures r.Some? ==> r.value == KlineFilename(ParseTimestamp(ts).value)
  {
    match ParseTimestamp(ts)
    case None => None
    case Some(dt) => Some(KlineFilename(dt))
  }

  /** The file name carries the timestamp's minute: reading it back gives the timestamp with seconds zeroed. */
  lemma FilenameRoundTrip(ts: string, now: DateTime)
    requires ParseTimestamp(ts).Some?
    ensures ExtractTime(TimestampToFilename(ts).value, now) == Some(ToMinute(ParseTimestamp(ts).value))
  {
    var dt := ParseTimestamp(ts).value;
    var name := KlineFilename(dt);
    assert FirstMatch(name, 0) == Some(0);
    Pow10Values();
    var m := ToMinute(dt);
    assert PadDigits(0, 2) == "00" by {
      assert PadDigits(0, 1) == "0";
    }
    var date := PadDigits(dt.year, 4) + PadDigits(dt.month, 2) + PadDigits(dt.day, 2);
    var time := PadDigits(dt.hour, 2) + PadDigits(dt.minute, 2) + "00";
    assert name == Prefix + date + "_" + time + Suffix;
    assert name[7..11] == PadDigits(dt.year, 4) && name[11..13] == PadDigits(dt.month, 2) && name[13..15] == PadDigits(dt.day, 2);
    assert name[16..18] == PadDigits(dt.hour, 2) && name[18..20] == PadDigits(dt.minute, 2) && name[20..22] == "00";
    assert StampText(name, 0) == FormatTimestamp(m);
    ParseFormat(m);
  }
}
