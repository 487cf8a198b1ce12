/**
 * `update_current_alert` / `process_new_rows`: when the recent alerts differ
 * from the last set seen, the new set is remembered and its priced alerts
 * are appended, as one batch, to the store of alerts to calculate.
 */
module CurrentAlert {
  import opened Wrappers
  import opened AlertRecords

  /** The remembered alert set and the calculation store (`alerts_calc_records`). */
  datatype State = State(current: seq<AlertRecord>, pending: seq<seq<AlertRecord>>)

  /** Python truthiness of an optional price: present and not zero. */
  predicate Truthy(x: Option<real>) {
    x.Some? && x.value != 0.0
  }

  /** Buy, min and max prices are all present and non-zero. */
  predicate Priced(a: AlertRecord) {
    Truthy(a.buyShortPrice) && Truthy(a.minPrice) && Truthy(a.maxPrice)
  }

  /** The alerts kept, in order. */
  function KeepPriced(alerts: seq<AlertRecord>): seq<AlertRecord> {
    if |alerts| == 0 then []
    else (if Priced(alerts[0]) then [alerts[0]] else []) + KeepPriced(alerts[1..])
  }

  /** The loop of `process_new_rows`: the priced alerts, in order. */
  function PricedAlerts(alerts: seq<AlertRecord>): (r: seq<AlertRecord>)
    ensures |r| <= |alerts|
    ensures forall a :: a in r <==> a in alerts && Priced(a)
  {
    KeepPricedMembers(alerts);
    KeepPriced(alerts)
  }

  /** Nothing is kept twice, and exactly the priced alerts are kept. */
  lemma {:induction false} KeepPricedMembers(alerts: seq<AlertRecord>)
    ensures |KeepPriced(alerts)| <= |alerts|
    ensures forall a :: a in KeepPriced(alerts) <==> a in alerts && Priced(a)
  {
    if |alerts| > 0 {
      KeepPricedMembers(alerts[1..]);
      assert forall a | a in alerts :: a == alerts[0] || a in alerts[1..];
    }
  }

  /** Filtering distributes over concatenation, so order is kept. */
  lemma {:induction false} PricedAlertsConcat(x: seq<AlertRecord>, y: seq<AlertRecord>)
    ensures PricedAlerts(x + y) == PricedAlerts(x) + PricedAlerts(y)
  {
    KeepPricedConcat(x, y);
  }

  lemma {:induction false} KeepPricedConcat(x: seq<AlertRecord>, y: seq<AlertRecord>)
    ensures KeepPriced(x + y) == KeepPriced(x) + KeepPriced(y)
  {
    if |x| == 0 {
      assert x + y == y;
    } else {
      var xy := x + y;
      KeepPricedConcat(x[1..], y);
      assert xy[0] == x[0] && xy[1..] == x[1..] + y;
      ConcatAssoc(if Priced(x[0]) then [x[0]] else [], KeepPriced(x[1..]), KeepPriced(y));
    }
  }

  lemma ConcatAssoc(p: seq<AlertRecord>, q: seq<AlertRecord>, r: seq<AlertRecord>)
    ensures p + (q + r) == (p + q) + r
  {
  }

  /** Filtering a second time keeps everything. */
  lemma PricedAlertsIdempotent(alerts: seq<AlertRecord>)
    ensures PricedAlerts(PricedAlerts(alerts)) == PricedAlerts(alerts)
  {
    KeepPricedIdempotent(alerts);
  }

  lemma {:induction false} KeepPricedIdempotent(alerts: seq<AlertRecord>)
    ensures KeepPriced(KeepPriced(alerts)) == KeepPriced(alerts)
  {
    if |alerts| > 0 {
      var rest := KeepPriced(alerts[1..]);
      KeepPricedIdempotent(alerts[1..]);
      if Priced(alerts[0]) {
        var r := [alerts[0]] + rest;
        assert r[0] == alerts[0] && r[1..] == rest;
      } else {
        assert KeepPriced(alerts) == [] + rest == rest;
      }
    }
  }

  /**
   * `update_current_alert`. An unchanged set does nothing. A changed but
   * empty set reads `alerts[0]` before the assignment; the IndexError is
   * caught and nothing changes either. Otherwise the set is remembered and
   * exactly its priced alerts are appended as one batch.
   */
  function UpdateCurrentAlert(st: State, alerts: seq<AlertRecord>): (r: State)
    ensures r == st <==> alerts == st.current || |alerts| == 0
    ensures r != st ==> && r.current == alerts
                        && |r.pending| == |st.pending| + 1 && r.pending[..|st.pending|] == st.pending
                        && forall a :: a in r.pending[|st.pending|] <==> a in alerts && Priced(a)
  {
    if alerts == st.current || |alerts| == 0 then st
    else
      var r := State(alerts, st.pending + [PricedAlerts(alerts)]);
      assert r.pending[..|st.pending|] == st.pending;
      r
  }

  /** A second update with the same alerts processes nothing. */
  lemma UpdateCurrentAlertIdempotent(st: State, alerts: seq<AlertRecord>)
    ensures UpdateCurrentAlert(UpdateCurrentAlert(st, alerts), alerts) == UpdateCurrentAlert(st, alerts)
  {
  }
}
