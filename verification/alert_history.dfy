/**
 * The in-memory alert history: minute slots of alerts, slot 0 the newest,
 * used to suppress a second alert for a ticker that was alerted recently.
 */
module AlertHistory {
  import opened AlertRecords
  import opened Slots

  type History = seq<seq<AlertRecord>>

  predicate HasTicker(slot: seq<AlertRecord>, ticker: string) {
    exists k | 0 <= k < |slot| :: slot[k].ticker == ticker
  }

  predicate AnyHasTicker(w: History, ticker: string) {
    exists i | 0 <= i < |w| :: HasTicker(w[i], ticker)
  }

  /** Number of alerts for `ticker` in one slot. */
  function SlotCount(s: seq<AlertRecord>, ticker: string): (n: nat)
    ensures n == 0 <==> !HasTicker(s, ticker)
  {
    if |s| == 0 then 0
    else SlotCount(s[..|s| - 1], ticker) + (if s[|s| - 1].ticker == ticker then 1 else 0)
  }

  /** Number of alerts for `ticker` in the whole history. */
  function TickerCount(w: History, ticker: string): (n: nat)
    ensures n == 0 <==> !AnyHasTicker(w, ticker)
  {
    if |w| == 0 then 0
    else
      assert forall i | 1 <= i < |w| :: w[i] == w[1..][i - 1];
      SlotCount(w[0], ticker) + TickerCount(w[1..], ticker)
  }

  /**
   * One insertion step of `save_alert_to_memory`: when slot 0 already holds
   * alerts of this very millisecond the alert joins it, otherwise every slot
   * moves back one place and slot 0 becomes a new slot holding the alert.
   */
  function InsertAlert(w: History, a: AlertRecord): (r: History)
    requires |w| > 0
    ensures |r| == |w|
    ensures |r[0]| > 0 && r[0][|r[0]| - 1] == a
  {
    if |w[0]| > 0 && w[0][0].time == a.time then w[0 := w[0] + [a]]
    else ShiftInsert(w, 0, [a])
  }

  /**
   * The loop of `save_alert_to_memory` as written: it walks the live list
   * and, for every slot that does not hold the ticker, performs the
   * insertion step again (the insertion sits inside the loop body).
   */
  function SaveAlertLoop(w: History, a: AlertRecord, i: nat): (res: (bool, History))
    requires i <= |w|
    ensures |res.1| == |w|
    decreases |w| - i
  {
    if i == |w| then (true, w)
    else if HasTicker(w[i], a.ticker) then (false, w)
    else SaveAlertLoop(InsertAlert(w, a), a, i + 1)
  }

  /** `save_alert_to_memory(ticker, reason)` as written; `now` is the wall-clock reading. */
  function SaveAlertAsWritten(w: History, ticker: string, reason: string, now: int): (res: (bool, History))
    ensures |res.1| == |w|
    ensures |w| > 0 && HasTicker(w[0], ticker) ==> res == (false, w)
  {
    SaveAlertLoop(w, CreateFromAlert(ticker, reason, now), 0)
  }

  /**
   * `save_alert_to_memory` as evidently intended: refuse when any slot holds
   * the ticker, otherwise insert the alert once.
   */
  function SaveAlert(w: History, ticker: string, reason: string, now: int): (res: (bool, History))
    ensures |res.1| == |w|
    ensures res.0 <==> !AnyHasTicker(w, ticker)
    ensures !res.0 ==> res.1 == w
    ensures res.0 && |w| > 0 ==>
      TickerCount(res.1, ticker) == 1 && |res.1[0]| > 0 && res.1[0][|res.1[0]| - 1] == CreateFromAlert(ticker, reason, now)
  {
    if AnyHasTicker(w, ticker) then (false, w)
    else if |w| == 0 then (true, w)
    else
      var a: AlertRecord := CreateFromAlert(ticker, reason, now);
      var r := InsertAlert(w, a);
      InsertOnceCount(w, a);
      (true, r)
  }

  lemma {:induction false} AppendCount(s: seq<AlertRecord>, a: AlertRecord)
    ensures SlotCount(s + [a], a.ticker) == SlotCount(s, a.ticker) + 1
  {
    assert (s + [a])[..|s + [a]| - 1] == s;
  }

  /** Appending to slot 0 adds one alert for the ticker; shifting in a new slot adds one and drops the last slot. */
  lemma InsertAlertCount(w: History, a: AlertRecord)
    requires |w| > 0
    ensures |w[0]| > 0 && w[0][0].time == a.time ==>
      TickerCount(InsertAlert(w, a), a.ticker) == TickerCount(w, a.ticker) + 1
    ensures !(|w[0]| > 0 && w[0][0].time == a.time) ==>
      TickerCount(InsertAlert(w, a), a.ticker) == 1 + TickerCount(w[..|w| - 1], a.ticker)
  {
    var r := InsertAlert(w, a);
    if |w[0]| > 0 && w[0][0].time == a.time {
      AppendCount(w[0], a);
      assert r[1..] == w[1..];
    } else {
      assert r[1..] == w[..|w| - 1];
      assert SlotCount([a], a.ticker) == 1 by {
        assert [a][..0] == [];
      }
    }
  }

  lemma InsertOnceCount(w: History, a: AlertRecord)
    requires |w| > 0 && !AnyHasTicker(w, a.ticker)
    ensures TickerCount(InsertAlert(w, a), a.ticker) == 1
    ensures var r := InsertAlert(w, a); r[0][|r[0]| - 1] == a
  {
    InsertAlertCount(w, a);
    var pre := w[..|w| - 1];
    assert !AnyHasTicker(pre, a.ticker) by {
      forall i | 0 <= i < |pre| ensures !HasTicker(pre[i], a.ticker) {
        assert pre[i] == w[i];
      }
    }
  }

  /** After the first insertion the loop only appends to slot 0, once per remaining slot. */
  lemma {:induction false} LoopAppends(w: History, a: AlertRecord, i: nat)
    requires 1 <= i <= |w|
    requires |w[0]| > 0 && w[0][0].time == a.time
    requires forall j | 1 <= j < |w| :: !HasTicker(w[j], a.ticker)
    ensures SaveAlertLoop(w, a, i).0
    ensures TickerCount(SaveAlertLoop(w, a, i).1, a.ticker) == TickerCount(w, a.ticker) + (|w| - i)
    decreases |w| - i
  {
    if i < |w| {
      var w1: History := InsertAlert(w, a);
      InsertAlertCount(w, a);
      assert w1 == w[0 := w[0] + [a]];
      forall j | 1 <= j < |w1| ensures !HasTicker(w1[j], a.ticker) {
        assert w1[j] == w[j];
      }
      LoopAppends(w1, a, i + 1);
    }
  }

  /**
   * As written, saving an alert for a ticker that no slot holds succeeds and
   * leaves one copy of the alert per slot of the history, all in slot 0.
   */
  lemma SaveAlertAsWrittenRepeats(w: History, ticker: string, reason: string, now: int)
    requires |w| > 0 && !AnyHasTicker(w, ticker)
    ensures var res := SaveAlertAsWritten(w, ticker, reason, now);
      res.0 && TickerCount(res.1, ticker) == |w|
  {
    var a: AlertRecord := CreateFromAlert(ticker, reason, now);
    var w1: History := InsertAlert(w, a);
    InsertOnceCount(w, a);
    assert |w1[0]| > 0 && w1[0][0].time == a.time;
    forall j | 1 <= j < |w1| ensures !HasTicker(w1[j], ticker) {
      if |w[0]| > 0 && w[0][0].time == a.time {
        assert w1[j] == w[j];
      } else {
        assert w1[j] == w[j - 1];
      }
    }
    LoopAppends(w1, a, 1);
  }

  /** The smallest witness: a two-slot history that starts empty stores the alert twice. */
  lemma SaveAlertAsWrittenTwice(ticker: string, reason: string, now: int)
    ensures var a := CreateFromAlert(ticker, reason, now);
      SaveAlertAsWritten([[], []], ticker, reason, now) == (true, [[a, a], []])
  {
    var a: AlertRecord := CreateFromAlert(ticker, reason, now);
    var w1: History := InsertAlert([[], []], a);
    assert w1 == [[a], []];
    var w2: History := InsertAlert(w1, a);
    assert [a] + [a] == [a, a];
    assert w2 == [[a, a], []];
    assert !HasTicker([], ticker);
    assert SaveAlertLoop([[], []], a, 0) == SaveAlertLoop(w1, a, 1);
    assert SaveAlertLoop(w1, a, 1) == SaveAlertLoop(w2, a, 2);
  }

  /** `get_recent_alerts(minutes)`: every alert of the first `minutes` slots, newest slot first. */
  function RecentAlerts(w: History, minutes: int): (r: seq<AlertRecord>)
    ensures forall a :: a in r <==> exists i | 0 <= i < Clamp(minutes, |w|) :: a in w[i]
    ensures minutes <= 0 ==> r == []
    ensures minutes >= |w| ==> r == RecentAlerts(w, |w|)
  {
    var k := Clamp(minutes, |w|);
    var pre := w[..k];
    assert forall i | 0 <= i < k :: pre[i] == w[i];
    Flatten(pre)
  }

  /**
   * The loop of `get_recent_alerts`, one slot at a time: looking one minute
   * further back appends that slot's alerts, in their order, after the rest.
   */
  lemma RecentAlertsStep(w: History, m: nat)
    requires m < |w|
    ensures RecentAlerts(w, m + 1) == RecentAlerts(w, m) + w[m]
  {
    var pre := w[..m + 1];
    FlattenSnoc(pre);
    assert pre[..m] == w[..m] && pre[m] == w[m];
  }

  /** `check_ticker_alert_exists(ticker, minutes_back)`. */
  function CheckTickerAlertExists(w: History, ticker: string, minutes: int): bool {
    exists a | a in RecentAlerts(w, minutes) :: a.ticker == ticker
  }

  /** The check is exactly "one of the first `minutes` slots holds the ticker". */
  lemma CheckTickerAlertExistsSpec(w: History, ticker: string, minutes: int)
    ensures CheckTickerAlertExists(w, ticker, minutes)
        <==> exists i | 0 <= i < Clamp(minutes, |w|) :: HasTicker(w[i], ticker)
  {
    var k := Clamp(minutes, |w|);
    if CheckTickerAlertExists(w, ticker, minutes) {
      var a :| a in RecentAlerts(w, minutes) && a.ticker == ticker;
      var i :| 0 <= i < k && a in w[i];
      var j :| 0 <= j < |w[i]| && w[i][j] == a;
      assert HasTicker(w[i], ticker);
    }
    if exists i | 0 <= i < k :: HasTicker(w[i], ticker) {
      var i :| 0 <= i < k && HasTicker(w[i], ticker);
      var j :| 0 <= j < |w[i]| && w[i][j].ticker == ticker;
      assert w[i][j] in w[i];
      assert w[i][j] in RecentAlerts(w, minutes);
    }
  }

  /** The alerts of one slot with `time >= cutoff`, in order. */
  function KeepSince(s: seq<AlertRecord>, cutoff: int): (r: seq<AlertRecord>)
    ensures |r| <= |s|
    ensures forall a :: a in r <==> a in s && a.time >= cutoff
  {
    if |s| == 0 then []
    else (if s[0].time >= cutoff then [s[0]] else []) + KeepSince(s[1..], cutoff)
  }

  /** Filtering a concatenation filters each part, keeping the parts in order. */
  lemma {:induction false} KeepSinceConcat(a: seq<AlertRecord>, b: seq<AlertRecord>, cutoff: int)
    ensures KeepSince(a + b, cutoff) == KeepSince(a, cutoff) + KeepSince(b, cutoff)
  {
    if |a| == 0 {
      assert a + b == b;
    } else {
      var h, t := a[0], a[1..];
      KeepSinceConcat(t, b, cutoff);
      assert a == [h] + t && a + b == [h] + (t + b);
      KeepSinceCons(h, t + b, cutoff);
      KeepSinceCons(h, t, cutoff);
      AlertsAssoc(if h.time >= cutoff then [h] else [], KeepSince(t, cutoff), KeepSince(b, cutoff));
    }
  }

  lemma KeepSinceCons(h: AlertRecord, t: seq<AlertRecord>, cutoff: int)
    ensures KeepSince([h] + t, cutoff) == (if h.time >= cutoff then [h] else []) + KeepSince(t, cutoff)
  {
    assert ([h] + t)[0] == h && ([h] + t)[1..] == t;
  }

  lemma AlertsAssoc(p: seq<AlertRecord>, q: seq<AlertRecord>, r: seq<AlertRecord>)
    ensures p + (q + r) == (p + q) + r
  {
  }

  /** One alert is kept exactly when it is not older than the cutoff. */
  lemma KeepSinceSingle(a: AlertRecord, cutoff: int)
    ensures KeepSince([a], cutoff) == if a.time >= cutoff then [a] else []
  {
    assert [a][1..] == [];
  }

  /**
   * `clean_old_alerts_from_memory(hours)`: drop alerts older than `hours`
   * before `now`; each slot keeps its surviving alerts in their order.
   */
  function CleanOldAlerts(w: History, hours: int, now: int): (r: History)
    ensures |r| == |w|
    ensures forall i | 0 <= i < |w| :: forall a :: a in r[i] <==> a in w[i] && a.time >= now - hours * 3600000
    ensures forall i | 0 <= i < |w| :: r[i] == KeepSince(w[i], now - hours * 3600000)
  {
    seq(|w|, i requires 0 <= i < |w| => KeepSince(w[i], now - hours * 3600000))
  }

  lemma {:induction false} KeepSinceIdempotent(s: seq<AlertRecord>, cutoff: int)
    ensures KeepSince(KeepSince(s, cutoff), cutoff) == KeepSince(s, cutoff)
  {
    if |s| > 0 {
      var rest := KeepSince(s[1..], cutoff);
      KeepSinceIdempotent(s[1..], cutoff);
      if s[0].time >= cutoff {
        var k := [s[0]] + rest;
        assert KeepSince(s, cutoff) == k;
        assert k[0] == s[0] && k[1..] == rest;
        assert KeepSince(k, cutoff) == [s[0]] + KeepSince(rest, cutoff);
      } else {
        assert KeepSince(s, cutoff) == [] + rest == rest;
      }
    }
  }

  /** Cleaning twice with the same clock reading is the same as cleaning once. */
  lemma CleanOldAlertsIdempotent(w: History, hours: int, now: int)
    ensures CleanOldAlerts(CleanOldAlerts(w, hours, now), hours, now) == CleanOldAlerts(w, hours, now)
  {
    var c := now - hours * 3600000;
    var r := CleanOldAlerts(w, hours, now);
    var r2 := CleanOldAlerts(r, hours, now);
    forall i | 0 <= i < |w| ensures r2[i] == r[i] {
      assert r[i] == KeepSince(w[i], c);
      assert r2[i] == KeepSince(r[i], c);
      KeepSinceIdempotent(w[i], c);
    }
  }
}
