/**
 * The legacy alerts copier: it watches the newest `alerts_DATE.csv`, finds
 * the lines that appeared since the last look, and appends those whose buy,
 * min and max prices are filled to `alerts_calc_DATE.csv`, at second 50 of
 * a minute.
 */
module AlertsCopy {
  import opened Wrappers
  import opened Strings

  // ---------------------------------------------------------------------------
  // Reading and diffing

  /** `read_file_rows`: the stripped, non-empty lines of a file. */
  function ReadFileRows(lines: seq<string>): (rows: set<string>)
    ensures forall x :: x in rows <==> x != "" && exists l | l in lines :: Strip(l) == x
  {
    set l | l in lines && Strip(l) != "" :: Strip(l)
  }

  /** A read row carries no white space at either end. */
  lemma ReadRowsStripped(lines: seq<string>, x: string)
    requires x in ReadFileRows(lines)
    ensures |x| > 0 && !IsSpace(x[0]) && !IsSpace(x[|x| - 1])
  {
    var l :| l in lines && Strip(l) == x;
    StripSpec(l);
  }

  /** What the copier remembers of the watched file. */
  datatype Watch = Watch(known: set<string>, lastModified: real)

  /**
   * `check_for_new_rows`, given the file's modification time and its rows
   * now. Nothing happens unless the file is newer; the rows not seen before
   * are returned, and the remembered rows are replaced only when there are
   * some.
   */
  function CheckForNewRows(w: Watch, modified: real, current: set<string>): (r: (Watch, set<string>))
    ensures modified <= w.lastModified ==> r == (w, {})
    ensures modified > w.lastModified ==> r.0.lastModified == modified && r.1 == current - w.known
    ensures modified > w.lastModified ==> r.0.known == if current - w.known == {} then w.known else current
  {
    if modified <= w.lastModified then (w, {})
    else
      var unseen := current - w.known;
      if unseen != {} then (Watch(current, modified), unseen)
      else (Watch(w.known, modified), {})
  }

  /** A second look at an unchanged file finds nothing, and every returned row is remembered afterwards. */
  lemma CheckForNewRowsSettles(w: Watch, modified: real, current: set<string>)
    ensures var (w1, unseen) := CheckForNewRows(w, modified, current);
      && unseen !! w.known && unseen <= w1.known
      && CheckForNewRows(w1, modified, current) == (w1, {})
  {
  }

  // ---------------------------------------------------------------------------
  // Row filter

  const HeaderStart: string := "ticker,volume,time"

  /** Field `k` of the split row, or empty when the row is shorter. */
  function Field(parts: seq<string>, k: nat): string {
    if k < |parts| then parts[k] else ""
  }

  /**
   * The test of `process_new_rows`: not a header, at least six fields, and
   * buy price (field 3), min price (field 4) and max price (field 6) filled.
   */
  predicate KeepRow(row: string) {
    var parts := Split(row, ',');
    && !StartsWith(row, HeaderStart)
    && |parts| >= 6
    && Field(parts, 3) != "" && Field(parts, 4) != "" && Field(parts, 6) != ""
  }

  /** A kept row has at least seven fields: the max price sits after the min-price time. */
  lemma KeptRowsHaveSevenFields(row: string)
    requires KeepRow(row)
    ensures |Split(row, ',')| >= 7
  {
  }

  /** The kept rows, in order. */
  function Filter(rows: seq<string>): (r: seq<string>)
    ensures |r| <= |rows|
    ensures forall x :: x in r <==> x in rows && KeepRow(x)
  {
    if |rows| == 0 then []
    else
      var rest := Filter(rows[1..]);
      assert forall x | x in rows :: x == rows[0] || x in rows[1..];
      if KeepRow(rows[0]) then [rows[0]] + rest else rest
  }

  /**
   * `process_new_rows`: the rows appended to the calc file, or None when
   * nothing is written (no new rows, no kept row, or an empty header line).
   */
  function ProcessNewRows(newRows: seq<string>, header: string): (r: Option<seq<string>>)
    ensures r.Some? <==> header != "" && exists x | x in newRows :: KeepRow(x)
    ensures r.Some? ==> r.value == Filter(newRows)
  {
    var kept := Filter(newRows);
    if |kept| > 0 && header != "" then
      assert kept[0] in kept;
      Some(kept)
    else None
  }

  // ---------------------------------------------------------------------------
  // Writing

  /** The second of the minute `k` seconds after second `s`. */
  function SecondAfter(s: nat, k: nat): nat {
    (s + k) % 60
  }

  /** `wait_for_50th_second`: the seconds to sleep from second `s` of a minute: the first moment that is second 50. */
  function SleepTime(s: nat): (t: nat)
    requires s < 60
    ensures t < 60 && SecondAfter(s, t) == 50
    ensures forall k | 0 <= k < t :: SecondAfter(s, k) != 50
  {
    if s < 50 then 50 - s
    else if s > 50 then 60 - s + 50
    else 0
  }

  const CalcPrefix: string := "alerts_calc_"

  /** `alerts_calc_{name.replace('alerts_', '').replace('.csv', '')}.csv`. */
  function CalcFilename(name: string): string {
    CalcPrefix + RemoveAll(RemoveAll(name, "alerts_"), ".csv") + ".csv"
  }

  /** For a dated alerts file the calc file carries the same date. */
  lemma CalcFilenameOfDate(date: string)
    requires 'a' !in date && '.' !in date
    ensures CalcFilename("alerts_" + date + ".csv") == CalcPrefix + date + ".csv"
  {
    var name := "alerts_" + date + ".csv";
    assert name[..7] == "alerts_" && name[7..] == date + ".csv";
    assert 'a' !in date + ".csv";
    RemoveAllAbsent(date + ".csv", "alerts_");
    RemoveAllTrailing(date, ".csv");
  }

  /** `write_to_calc_file`: a new file starts with the header; an existing file only grows by the rows. */
  function AppendToCalcFile(existing: Option<seq<string>>, header: string, rows: seq<string>): (lines: seq<string>)
    ensures existing.None? ==> lines == [header] + rows
    ensures existing.Some? ==> lines == existing.value + rows
  {
    match existing
    case None => [header] + rows
    case Some(lines) => lines + rows
  }
}
