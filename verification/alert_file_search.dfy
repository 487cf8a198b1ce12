/**
 * Finding the newest dated alerts file of a directory: `alerts_YYYY-MM-DD.csv`
 * for the raw alerts, `alerts_calc_YYYY-MM-DD.csv` for the calculated ones.
 * The directory listing is a parameter, in the order the system lists it.
 */
module AlertFileSearch {
  import opened Wrappers
  import opened Strings
  import opened Calendar

  const AlertsPrefix: string := "alerts_"
  const CalcPrefix: string := "alerts_calc_"

  /** The outcome of a search: the directory is missing (the ValueError), or the newest file, if any. */
  datatype Search = MissingDirectory | Latest(file: Option<string>)

  /** A calendar date, compared as `datetime(year, month, day)` values are. */
  datatype Date = Date(year: nat, month: nat, day: nat)

  /** `a` is strictly later than `b`. */
  predicate Later(a: Date, b: Date) {
    || a.year > b.year
    || (a.year == b.year && a.month > b.month)
    || (a.year == b.year && a.month == b.month && a.day > b.day)
  }

  /**
   * `re.match(prefix + r'(\d{4})-(\d{2})-(\d{2})\.csv', name)`: the pattern
   * is anchored at the start of the name only, so anything may follow `.csv`.
   */
  predicate Matches(name: string, prefix: string) {
    var p := |prefix|;
    && p + 14 <= |name|
    && name[..p] == prefix
    && DigitsAt(name, p, 4) && name[p + 4] == '-' && DigitsAt(name, p + 5, 2) && name[p + 7] == '-'
    && DigitsAt(name, p + 8, 2) && name[p + 10..p + 14] == ".csv"
  }

  /** The three digit groups of a matching name, as `map(int, match.groups())` reads them. */
  function DateOf(name: string, prefix: string): Date
    requires Matches(name, prefix)
  {
    var p := |prefix|;
    Date(DigitsValue(name[p..p + 4]), DigitsValue(name[p + 5..p + 7]), DigitsValue(name[p + 8..p + 10]))
  }

  /** A name that matches and whose date exists (otherwise `datetime` raises and the name is skipped). */
  predicate Candidate(name: string, prefix: string) {
    Matches(name, prefix) && var d := DateOf(name, prefix); ValidDate(d.year, d.month, d.day)
  }

  /** No candidate among the first `upto` names is dated later than `d`. */
  predicate NoneLater(names: seq<string>, prefix: string, upto: nat, d: Date)
    requires upto <= |names|
  {
    forall j | 0 <= j < upto && Candidate(names[j], prefix) :: !Later(DateOf(names[j], prefix), d)
  }

  /** Every candidate among the first `k` names is dated strictly earlier than `d`. */
  predicate AllEarlier(names: seq<string>, prefix: string, k: nat, d: Date)
    requires k <= |names|
  {
    forall j | 0 <= j < k && Candidate(names[j], prefix) :: Later(d, DateOf(names[j], prefix))
  }

  /** The candidate at `k` is the first one carrying the latest date among the first `upto` names. */
  predicate FirstLatest(names: seq<string>, prefix: string, upto: nat, k: nat)
    requires upto <= |names|
  {
    && k < upto && Candidate(names[k], prefix)
    && NoneLater(names, prefix, upto, DateOf(names[k], prefix))
    && AllEarlier(names, prefix, k, DateOf(names[k], prefix))
  }

  /** A candidate dated strictly later than the current pick becomes the first latest. */
  lemma ReplaceStep(names: seq<string>, prefix: string, i: nat, k: nat)
    requires i < |names| && FirstLatest(names, prefix, i, k) && Candidate(names[i], prefix)
    requires Later(DateOf(names[i], prefix), DateOf(names[k], prefix))
    ensures FirstLatest(names, prefix, i + 1, i)
  {
    var d := DateOf(names[i], prefix);
    forall j | 0 <= j < i && Candidate(names[j], prefix)
      ensures Later(d, DateOf(names[j], prefix))
    {
      assert !Later(DateOf(names[j], prefix), DateOf(names[k], prefix));
    }
  }

  /** A candidate not dated strictly later leaves the pick as it is. */
  lemma KeepStep(names: seq<string>, prefix: string, i: nat, k: nat)
    requires i < |names| && FirstLatest(names, prefix, i, k) && Candidate(names[i], prefix)
    requires !Later(DateOf(names[i], prefix), DateOf(names[k], prefix))
    ensures FirstLatest(names, prefix, i + 1, k)
  {
  }

  /** `os.path.join(directory, name)` for a bare file name. */
  function PathJoin(directory: string, name: string): string {
    if directory == [] || directory[|directory| - 1] == '/' then directory + name
    else directory + "/" + name
  }

  /**
   * `get_latest_alert_file` (prefix `alerts_`) and `get_latest_alert_calc_file`
   * (prefix `alerts_calc_`): the scan over the listing, where a name replaces
   * the current one only when its date is strictly later. The result is the
   * first candidate carrying the latest date, and nothing exactly when no
   * name is a candidate.
   */
  method LatestFile(dirExists: bool, directory: string, names: seq<string>, prefix: string) returns (r: Search)
    ensures !dirExists <==> r == MissingDirectory
    ensures dirExists ==> r.Latest? && (r.file.None? <==> forall j | 0 <= j < |names| :: !Candidate(names[j], prefix))
    ensures r.Latest? && r.file.Some? ==>
      exists k | 0 <= k < |names| :: FirstLatest(names, prefix, |names|, k) && r.file.value == PathJoin(directory, names[k])
  {
    if !dirExists {
      return MissingDirectory;
    }
    var latestFile: Option<string> := None;
    var latestDate: Option<Date> := None;
    var best: nat := 0;
    var i := 0;
    while i < |names|
      invariant 0 <= i <= |names|
      invariant latestFile.None? <==> latestDate.None?
      invariant latestDate.None? <==> forall j | 0 <= j < i :: !Candidate(names[j], prefix)
      invariant latestDate.Some? ==> FirstLatest(names, prefix, i, best)
      invariant latestDate.Some? ==> latestDate.value == DateOf(names[best], prefix)
      invariant latestFile.Some? ==> latestFile.value == PathJoin(directory, names[best])
    {
      var name := names[i];
      if Candidate(name, prefix) {
        var fileDate := DateOf(name, prefix);
        if latestDate.None? || Later(fileDate, latestDate.value) {
          if latestDate.Some? {
            ReplaceStep(names, prefix, i, best);
          }
          latestDate := Some(fileDate);
          latestFile := Some(PathJoin(directory, name));
          best := i;
        } else {
          KeepStep(names, prefix, i, best);
        }
      }
      i := i + 1;
    }
    return Latest(latestFile);
  }

  /** The plain alerts search never settles on a calculated file: `c` is not a digit. */
  lemma CalcNamesAreNotAlerts(name: string)
    requires StartsWith(name, CalcPrefix)
    ensures !Matches(name, AlertsPrefix)
  {
    assert name[7] == 'c';
    assert !IsDigit(name[7]);
  }

  /** Both searches read the same date from a calculated file name and its raw counterpart. */
  lemma CalcDateAgrees(date: string, rest: string)
    requires Matches(AlertsPrefix + date + rest, AlertsPrefix)
    ensures Matches(CalcPrefix + date + rest, CalcPrefix)
    ensures DateOf(CalcPrefix + date + rest, CalcPrefix) == DateOf(AlertsPrefix + date + rest, AlertsPrefix)
  {
    var a := AlertsPrefix + date + rest;
    var c := CalcPrefix + date + rest;
    assert a[7..] == date + rest;
    assert c[12..] == date + rest;
    assert a[7..11] == c[12..16] && a[12..14] == c[17..19] && a[15..17] == c[20..22] && a[17..21] == c[22..26];
  }
}
