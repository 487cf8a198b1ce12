/**
 * `calculate_alert_metrics`, in its two copies: twelve column sums over the
 * present values and the ten largest losses and profits.
 */
module Metrics {
  import opened Wrappers
  import opened AlertRecords
  import opened Sorting

  /** The summed columns, in the order of `AlertMetrics`: RPS 1-5, max loss, RPB 1-5, max profit. */
  const ColumnCount: nat := 12
  /** Column index of max loss and of max profit. */
  const LossColumn: nat := 5
  const ProfitColumn: nat := 11
  /** Length of the top lists. */
  const TopCount: nat := 10

  /** Column `j` of an alert. */
  function Column(a: AlertRecord, j: nat): Option<real>
    requires j < ColumnCount
  {
    if j == 0 then a.rps1 else if j == 1 then a.rps2 else if j == 2 then a.rps3
    else if j == 3 then a.rps4 else if j == 4 then a.rps5 else if j == 5 then a.maxLoss
    else if j == 6 then a.rpb1 else if j == 7 then a.rpb2 else if j == 8 then a.rpb3
    else if j == 9 then a.rpb4 else if j == 10 then a.rpb5 else a.maxProfit
  }

  /** The sum of the present values of column `j`. */
  function ColumnSum(alerts: seq<AlertRecord>, j: nat): real
    requires j < ColumnCount
  {
    if |alerts| == 0 then 0.0
    else
      ColumnSum(alerts[..|alerts| - 1], j) + Amount(Column(alerts[|alerts| - 1], j))
  }

  /** Summing over a concatenation sums the parts. */
  lemma {:induction false} ColumnSumConcat(a: seq<AlertRecord>, b: seq<AlertRecord>, j: nat)
    requires j < ColumnCount
    ensures ColumnSum(a + b, j) == ColumnSum(a, j) + ColumnSum(b, j)
  {
    if |b| == 0 {
      assert a + b == a;
    } else {
      ColumnSumConcat(a, b[..|b| - 1], j);
      assert (a + b)[..|a + b| - 1] == a + b[..|b| - 1];
    }
  }

  /** Alerts whose column `j` is absent add nothing. */
  lemma {:induction false} ColumnSumAbsent(alerts: seq<AlertRecord>, j: nat)
    requires j < ColumnCount && forall i | 0 <= i < |alerts| :: Column(alerts[i], j).None?
    ensures ColumnSum(alerts, j) == 0.0
  {
    if |alerts| > 0 {
      ColumnSumAbsent(alerts[..|alerts| - 1], j);
    }
  }

  /** (ticker, value) for every alert whose column `j` is present, in input order. */
  function Pairs(alerts: seq<AlertRecord>, j: nat): (r: seq<(string, real)>)
    requires j < ColumnCount
    ensures |r| <= |alerts|
    ensures forall p | p in r :: exists i | 0 <= i < |alerts| :: Column(alerts[i], j) == Some(p.1) && alerts[i].ticker == p.0
  {
    if |alerts| == 0 then []
    else
      var n := |alerts| - 1;
      var prev := Pairs(alerts[..n], j);
      assert forall i | 0 <= i < n :: alerts[..n][i] == alerts[i];
      Appended(prev, alerts[n].ticker, Column(alerts[n], j))
  }

  /** `if value is not None: pairs.append((ticker, value))`. */
  function Appended(pairs: seq<(string, real)>, ticker: string, value: Option<real>): seq<(string, real)> {
    if value.Some? then pairs + [(ticker, value.value)] else pairs
  }

  /** The number of alerts whose column `j` is present. */
  function Present(alerts: seq<AlertRecord>, j: nat): (n: nat)
    requires j < ColumnCount
    ensures n == |Pairs(alerts, j)|
  {
    if |alerts| == 0 then 0
    else Present(alerts[..|alerts| - 1], j) + (if Column(alerts[|alerts| - 1], j).Some? then 1 else 0)
  }

  function NegatedValue(p: (string, real)): real {
    -p.1
  }

  /**
   * `sort(key=value, reverse=True)` then `[:10]`: the ten largest values,
   * largest first; the sort is stable, so equal values keep input order.
   */
  function Top(pairs: seq<(string, real)>): (r: seq<(string, real)>)
    ensures |r| == if |pairs| < TopCount then |pairs| else TopCount
    ensures forall i, j | 0 <= i < j < |r| :: r[i].1 >= r[j].1
    ensures forall p | p in r :: p in pairs
    ensures forall p | p in pairs && p !in r :: forall q | q in r :: q.1 >= p.1
  {
    var sorted := SortBy(pairs, NegatedValue);
    var k := if |pairs| < TopCount then |pairs| else TopCount;
    assert forall i, j | 0 <= i < j < |sorted| :: NegatedValue(sorted[i]) <= NegatedValue(sorted[j]);
    forall p | p in sorted ensures p in pairs {
      assert p in multiset(sorted);
    }
    forall p | p in pairs && p !in sorted[..k] ensures forall q | q in sorted[..k] :: q.1 >= p.1 {
      assert p in multiset(pairs);
      var m :| 0 <= m < |sorted| && sorted[m] == p;
      assert m >= k;
    }
    sorted[..k]
  }

  /**
   * Stability: the entries of one value in the top list are the first of
   * that value in the input, in input order. The value is given by its sort
   * key `w`, that is, the value `-w`.
   */
  lemma TopStable(pairs: seq<(string, real)>, w: real)
    ensures WithKey(Top(pairs), NegatedValue, w) <= WithKey(pairs, NegatedValue, w)
  {
    var k := TopSize(|pairs|);
    SortedPrefixStable(pairs, k, w);
  }

  /** Any prefix of the stable sort holds a prefix of the entries of each value, in input order. */
  lemma SortedPrefixStable(pairs: seq<(string, real)>, k: nat, v: real)
    requires k <= |pairs|
    ensures k <= |SortBy(pairs, NegatedValue)|
    ensures WithKey(SortBy(pairs, NegatedValue)[..k], NegatedValue, v) <= WithKey(pairs, NegatedValue, v)
  {
    var sorted := SortBy(pairs, NegatedValue);
    WithKeyPrefix(sorted, k, v);
    SortByStable(pairs, NegatedValue, v);
  }

  /** `min(n, 10)`. */
  function TopSize(n: nat): nat {
    if n < TopCount then n else TopCount
  }

  /** The entries of one value in a prefix are a prefix of those in the whole. */
  lemma WithKeyPrefix(s: seq<(string, real)>, k: nat, v: real)
    requires k <= |s|
    ensures WithKey(s[..k], NegatedValue, v) <= WithKey(s, NegatedValue, v)
  {
    assert s == s[..k] + s[k..];
    WithKeyConcat(s[..k], s[k..], NegatedValue, v);
  }

  /** The result of `calculate_alert_metrics`. */
  datatype AlertMetrics = AlertMetrics(sums: seq<real>, topLoss: seq<(string, real)>, topProfit: seq<(string, real)>, tickersCount: nat)

  /** The metrics the two copies compute, stated column by column. */
  function MetricsOf(alerts: seq<AlertRecord>): (m: AlertMetrics)
    ensures |m.sums| == ColumnCount
    ensures forall j | 0 <= j < ColumnCount :: m.sums[j] == ColumnSum(alerts, j)
    ensures m.topLoss == Top(Pairs(alerts, LossColumn)) && m.topProfit == Top(Pairs(alerts, ProfitColumn))
    ensures m.tickersCount == |alerts|
  {
    AlertMetrics(seq(ColumnCount, j requires 0 <= j < ColumnCount => ColumnSum(alerts, j)),
                 Top(Pairs(alerts, LossColumn)), Top(Pairs(alerts, ProfitColumn)), |alerts|)
  }

  /** `calculate_alert_metrics` of the calculator: one pass accumulating sums and pairs, then the top lists. */
  method CalculateAlertMetrics(alerts: seq<AlertRecord>) returns (m: AlertMetrics)
    ensures m == MetricsOf(alerts)
  {
    var sums, loss, profit := Accumulate(alerts);
    m := AlertMetrics(sums, Top(loss), Top(profit), |alerts|);
    assert m.sums == MetricsOf(alerts).sums;
  }

  /** The loop of `calculate_alert_metrics`: the column sums, and the loss and profit pairs in input order. */
  method Accumulate(alerts: seq<AlertRecord>) returns (sums: seq<real>, loss: seq<(string, real)>, profit: seq<(string, real)>)
    ensures |sums| == ColumnCount
    ensures forall j | 0 <= j < ColumnCount :: sums[j] == ColumnSum(alerts, j)
    ensures loss == Pairs(alerts, LossColumn) && profit == Pairs(alerts, ProfitColumn)
  {
    sums := seq(ColumnCount, _ => 0.0);
    loss, profit := [], [];
    var i := 0;
    while i < |alerts|
      invariant 0 <= i <= |alerts|
      invariant |sums| == ColumnCount
      invariant forall j | 0 <= j < ColumnCount :: sums[j] == ColumnSum(alerts[..i], j)
      invariant loss == Pairs(alerts[..i], LossColumn) && profit == Pairs(alerts[..i], ProfitColumn)
    {
      var a := alerts[i];
      sums := AddColumns(sums, a);
      forall j | 0 <= j < ColumnCount
        ensures ColumnSum(alerts[..i + 1], j) == ColumnSum(alerts[..i], j) + Amount(Column(a, j))
      {
        ColumnSumSnoc(alerts, i, j);
      }
      PairsSnoc(alerts, i, LossColumn);
      PairsSnoc(alerts, i, ProfitColumn);
      assert Column(a, LossColumn) == a.maxLoss && Column(a, ProfitColumn) == a.maxProfit;
      loss := Appended(loss, a.ticker, a.maxLoss);
      profit := Appended(profit, a.ticker, a.maxProfit);
      i := i + 1;
    }
    assert alerts[..i] == alerts;
  }

  /** A present value counts as itself, an absent one as nothing. */
  function Amount(c: Option<real>): real {
    if c.Some? then c.value else 0.0
  }

  /** The inner loop of `calculate_alert_metrics`: one alert's present values added to the running sums. */
  method AddColumns(sums: seq<real>, a: AlertRecord) returns (r: seq<real>)
    requires |sums| == ColumnCount
    ensures |r| == ColumnCount
    ensures forall j | 0 <= j < ColumnCount :: r[j] == sums[j] + Amount(Column(a, j))
  {
    r := sums;
    var j := 0;
    while j < ColumnCount
      invariant 0 <= j <= ColumnCount
      invariant |r| == ColumnCount
      invariant forall k | 0 <= k < j :: r[k] == sums[k] + Amount(Column(a, k))
      invariant forall k | j <= k < ColumnCount :: r[k] == sums[k]
    {
      var c := Column(a, j);
      if c.Some? {
        r := r[j := r[j] + c.value];
      }
      j := j + 1;
    }
  }

  lemma ColumnSumSnoc(alerts: seq<AlertRecord>, i: nat, j: nat)
    requires i < |alerts| && j < ColumnCount
    ensures ColumnSum(alerts[..i + 1], j) == ColumnSum(alerts[..i], j) + Amount(Column(alerts[i], j))
  {
    var pre := alerts[..i + 1];
    assert pre[..i] == alerts[..i] && pre[i] == alerts[i];
  }

  lemma PairsSnoc(alerts: seq<AlertRecord>, i: nat, j: nat)
    requires i < |alerts| && j < ColumnCount
    ensures Pairs(alerts[..i + 1], j) == Appended(Pairs(alerts[..i], j), alerts[i].ticker, Column(alerts[i], j))
  {
    var pre := alerts[..i + 1];
    assert pre[..i] == alerts[..i] && pre[i] == alerts[i];
  }

  /**
   * `calculate_alert_metrics` of the metrics monitor: an empty list returns
   * the defaults at once; otherwise the same pass as the calculator.
   */
  function MonitorMetrics(alerts: seq<AlertRecord>): (m: AlertMetrics)
    ensures |alerts| == 0 ==> m == AlertMetrics(seq(ColumnCount, _ => 0.0), [], [], 0)
  {
    if |alerts| == 0 then AlertMetrics(seq(ColumnCount, _ => 0.0), [], [], 0)
    else MetricsOf(alerts)
  }

  /** The two copies agree on every input, the empty list included. */
  lemma MonitorAgreesWithCalculator(alerts: seq<AlertRecord>)
    ensures MonitorMetrics(alerts) == MetricsOf(alerts)
  {
    if |alerts| == 0 {
      assert Pairs(alerts, LossColumn) == [] && Pairs(alerts, ProfitColumn) == [];
      assert MetricsOf(alerts).sums == seq(ColumnCount, _ => 0.0);
    }
  }

  /** The top lists hold min(10, present values) entries. */
  lemma TopLength(alerts: seq<AlertRecord>)
    ensures |MetricsOf(alerts).topLoss| == if Present(alerts, LossColumn) < TopCount then Present(alerts, LossColumn) else TopCount
    ensures |MetricsOf(alerts).topProfit| == if Present(alerts, ProfitColumn) < TopCount then Present(alerts, ProfitColumn) else TopCount
  {
  }
}
