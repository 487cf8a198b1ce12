/**
 * The sliding window of one-minute candles kept in memory: a fixed number
 * of minute slots, slot 0 the newest, each slot the batch of candles of one
 * minute (one candle per symbol).
 */
module KlineWindow {
  import opened Candles
  import opened Sorting
  import opened Slots

  type Window = seq<seq<Candle>>

  function OpenTimeKey(c: Candle): real {
    c.openTime as real
  }

  /** A slot holds the minute starting at `t` (judged by its first candle). */
  predicate HoldsMinute(slot: seq<Candle>, t: int) {
    |slot| > 0 && slot[0].openTime == t
  }

  /** A filled slot whose minute is older than `t`. */
  predicate OlderThan(slot: seq<Candle>, t: int) {
    |slot| > 0 && t > slot[0].openTime
  }

  predicate HasMinute(w: Window, t: int) {
    exists i | 0 <= i < |w| :: HoldsMinute(w[i], t)
  }

  /** Index of the first slot older than `t`, or `|w|`. */
  function FirstOlder(w: Window, t: int): (k: nat)
    ensures k <= |w|
    ensures k < |w| ==> OlderThan(w[k], t)
    ensures forall j | 0 <= j < k :: !OlderThan(w[j], t)
  {
    if |w| == 0 then 0 else if OlderThan(w[0], t) then 0 else 1 + FirstOlder(w[1..], t)
  }

  /** Index of the first empty slot, or `|w|`. */
  function FirstEmpty(w: Window): (k: nat)
    ensures k <= |w|
    ensures k < |w| ==> |w[k]| == 0
    ensures forall j | 0 <= j < k :: |w[j]| > 0
  {
    if |w| == 0 then 0 else if |w[0]| == 0 then 0 else 1 + FirstEmpty(w[1..])
  }

  /**
   * The slot the scan of `save_klines_to_ram` settles on: the first slot
   * older than `t` when there is one (it ends the scan even after an empty
   * slot was seen), otherwise the first empty slot, otherwise -1.
   */
  function InsertPosition(w: Window, t: int): (p: int)
    ensures -1 <= p < |w|
    ensures p == -1 <==> (forall j | 0 <= j < |w| :: |w[j]| > 0 && !OlderThan(w[j], t))
  {
    var o := FirstOlder(w, t);
    if o < |w| then o
    else
      var e := FirstEmpty(w);
      if e < |w| then e else -1
  }

  /**
   * `save_klines_to_ram`. An empty batch, or a batch whose first candle's
   * minute is already stored, changes nothing. Otherwise the batch, sorted by
   * open time, is inserted at `InsertPosition`, shifting older slots towards
   * the end; the last slot falls off. When every slot is filled and newer
   * than the batch, the window is shifted once (slot 0 is copied to slot 1),
   * and then the batch is inserted at slot 0, which shifts a second time.
   */
  function SaveKlines(w: Window, batch: seq<Candle>): (r: Window)
    ensures |r| == |w|
    ensures |batch| == 0 || HasMinute(w, batch[0].openTime) ==> r == w
    ensures |batch| > 0 && !HasMinute(w, batch[0].openTime) && |w| > 0
      ==> SortBy(batch, OpenTimeKey) in r
  {
    if |batch| == 0 then w
    else
      var t := batch[0].openTime;
      if HasMinute(w, t) then w
      else
        var sorted := SortBy(batch, OpenTimeKey);
        var p := InsertPosition(w, t);
        if p >= 0 then ShiftInsert(w, p, sorted)
        else if |w| == 0 then w
        else ShiftInsert(ShiftInsert(w, 0, w[0]), 0, sorted)
  }

  /** `save_klines_to_ram` written as its loops, over a local copy of the window. */
  method SaveKlinesLoops(w0: Window, batch: seq<Candle>) returns (w: Window)
    ensures w == SaveKlines(w0, batch)
  {
    w := w0;
    if |batch| == 0 {
      return;
    }
    var t := batch[0].openTime;
    var i := 0;
    while i < |w|
      invariant 0 <= i <= |w|
      invariant forall j | 0 <= j < i :: !HoldsMinute(w[j], t)
    {
      if |w[i]| > 0 && w[i][0].openTime == t {
        return;
      }
      i := i + 1;
    }
    var sorted := SortBy(batch, OpenTimeKey);
    var pos := -1;
    i := 0;
    while i < |w|
      invariant 0 <= i <= |w|
      invariant forall j | 0 <= j < i :: !OlderThan(w[j], t)
      invariant pos == -1 ==> forall j | 0 <= j < i :: |w[j]| > 0
      invariant pos != -1 ==> pos == FirstEmpty(w) && pos < i
    {
      if |w[i]| == 0 {
        if pos == -1 {
          pos := i;
        }
        i := i + 1;
        continue;
      }
      if t > w[i][0].openTime {
        pos := i;
        break;
      }
      i := i + 1;
    }
    assert pos == InsertPosition(w, t);
    if pos == -1 {
      var last := -1;
      i := 0;
      while i < |w|
        invariant 0 <= i <= |w|
        invariant last == i - 1
      {
        if |w[i]| > 0 {
          last := i;
        }
        i := i + 1;
      }
      if last < |w| - 1 {
        pos := last + 1;
      } else if |w| > 0 {
        w := ShiftDown(w, 0);
        pos := 0;
      } else {
        pos := 0;
      }
    }
    if pos < |w| {
      var shifted := ShiftDown(w, pos);
      ShiftDownThenStore(w, pos, shifted, sorted);
      w := shifted[pos := sorted];
    }
  }

  /** Every candle of a slot belongs to the same minute. */
  predicate Uniform(slot: seq<Candle>) {
    forall k | 0 <= k < |slot| :: slot[k].openTime == slot[0].openTime
  }

  /**
   * The window's intended shape: filled slots form a prefix, each holds one
   * minute, and the minutes strictly decrease from slot 0 on.
   */
  predicate NewestFirst(w: Window) {
    && (forall i | 0 <= i < |w| :: Uniform(w[i]))
    && (forall i, j | 0 <= i < j < |w| && |w[j]| > 0 :: |w[i]| > 0 && w[i][0].openTime > w[j][0].openTime)
  }

  /** Elements that all share a key are left in place by the stable sort. */
  lemma {:induction false} WithKeyAll(s: seq<Candle>, v: real)
    requires forall k | 0 <= k < |s| :: OpenTimeKey(s[k]) == v
    ensures WithKey(s, OpenTimeKey, v) == s
  {
    if |s| > 0 {
      WithKeyAll(s[1..], v);
      assert s == [s[0]] + s[1..];
    }
  }

  lemma SortUniform(batch: seq<Candle>)
    requires |batch| > 0 && Uniform(batch)
    ensures SortBy(batch, OpenTimeKey) == batch
  {
    var v := OpenTimeKey(batch[0]);
    var r := SortBy(batch, OpenTimeKey);
    forall k | 0 <= k < |r| ensures OpenTimeKey(r[k]) == v {
      assert r[k] in multiset(batch);
    }
    WithKeyAll(batch, v);
    WithKeyAll(r, v);
    SortByStable(batch, OpenTimeKey, v);
  }

  /**
   * Saving a one-minute batch keeps the window newest-first, provided the
   * window still has an empty slot or the batch is newer than its oldest
   * minute.
   */
  lemma SaveKlinesKeepsNewestFirst(w: Window, batch: seq<Candle>)
    requires NewestFirst(w) && Uniform(batch)
    requires |w| == 0 || |w[|w| - 1]| == 0 || (|batch| > 0 && batch[0].openTime > w[|w| - 1][0].openTime)
    ensures NewestFirst(SaveKlines(w, batch))
  {
    if |batch| > 0 && !HasMinute(w, batch[0].openTime) && |w| > 0 {
      var t := batch[0].openTime;
      SortUniform(batch);
      var p := InsertPosition(w, t);
      assert p >= 0 by {
        if |w[|w| - 1]| == 0 {
          assert !(|w[|w| - 1]| > 0);
        } else {
          assert OlderThan(w[|w| - 1], t);
        }
      }
      // slots before p are filled and newer than t; slots from p on are older than t or empty
      forall j | 0 <= j < p ensures |w[j]| > 0 && w[j][0].openTime > t {
        assert !HoldsMinute(w[j], t);
      }
      forall j | p <= j < |w| && |w[j]| > 0 ensures t > w[j][0].openTime {
        if j > p {
          assert |w[p]| > 0;
        }
      }
      assert SaveKlines(w, batch) == ShiftInsert(w, p, batch);
      InsertKeepsNewestFirst(w, p, batch);
    }
  }

  /** Inserting a uniform batch between the newer and the older slots keeps the window newest-first. */
  lemma InsertKeepsNewestFirst(w: Window, p: nat, batch: seq<Candle>)
    requires NewestFirst(w) && Uniform(batch) && |batch| > 0 && p < |w|
    requires forall j | 0 <= j < p :: |w[j]| > 0 && w[j][0].openTime > batch[0].openTime
    requires forall j | p <= j < |w| && |w[j]| > 0 :: batch[0].openTime > w[j][0].openTime
    ensures NewestFirst(ShiftInsert(w, p, batch))
  {
    var r: Window := ShiftInsert(w, p, batch);
    forall i, j | 0 <= i < j < |r| && |r[j]| > 0
      ensures |r[i]| > 0 && r[i][0].openTime > r[j][0].openTime
    {
      if j > p && i > p {
        assert r[i] == w[i - 1] && r[j] == w[j - 1];
      }
    }
  }

  /**
   * The normal minute: on a newest-first window, a batch newer than every
   * stored minute goes to slot 0 and everything else moves back one slot.
   */
  lemma SaveNewestMinute(w: Window, batch: seq<Candle>)
    requires NewestFirst(w) && Uniform(batch) && |batch| > 0 && |w| > 0
    requires |w[0]| == 0 || batch[0].openTime > w[0][0].openTime
    ensures SaveKlines(w, batch) == [batch] + w[..|w| - 1]
  {
    var t := batch[0].openTime;
    SortUniform(batch);
    assert !HasMinute(w, t) by {
      forall j | 0 <= j < |w| && |w[j]| > 0 ensures w[j][0].openTime < t {
        if j > 0 {
          assert |w[0]| > 0;
        }
      }
    }
    assert InsertPosition(w, t) == 0;
  }

  /**
   * As written, a batch older than every minute of a full window lands in
   * slot 0 and the newest stored minute ends up in both slot 1 and slot 2.
   */
  lemma SaveOlderIntoFullWindow(w: Window, batch: seq<Candle>)
    requires |w| >= 3 && Uniform(batch) && |batch| > 0
    requires forall j | 0 <= j < |w| :: |w[j]| > 0 && w[j][0].openTime > batch[0].openTime
    ensures var r := SaveKlines(w, batch);
      r == [batch, w[0], w[0]] + w[1..|w| - 2] && !NewestFirst(r)
  {
    var t := batch[0].openTime;
    SortUniform(batch);
    assert !HasMinute(w, t);
    assert InsertPosition(w, t) == -1;
    var r := SaveKlines(w, batch);
    assert r == [batch, w[0], w[0]] + w[1..|w| - 2];
    assert r[1] == r[2];
  }

  /** In a newest-first window every slot after the first empty one is empty. */
  lemma EmptyAfterFirstEmpty(w: Window)
    requires NewestFirst(w)
    ensures forall i | FirstEmpty(w) <= i < |w| :: |w[i]| == 0
  {
    var e := FirstEmpty(w);
    forall i | e < i < |w| ensures |w[i]| == 0 {
      assert |w[e]| == 0;
    }
  }

  lemma PrefixRead(w: Window, k: nat)
    requires k <= |w|
    requires forall i | FirstEmpty(w) <= i < |w| :: |w[i]| == 0
    ensures NonEmpty(w[..k]) == w[..if k < FirstEmpty(w) then k else FirstEmpty(w)]
  {
    var e := FirstEmpty(w);
    var m := if k < e then k else e;
    var s := w[..k];
    forall i | 0 <= i < m ensures |s[i]| > 0 {
      assert s[i] == w[i];
    }
    forall i | m <= i < k ensures |s[i]| == 0 {
      assert s[i] == w[i];
    }
    NonEmptyOfPrefix(s, m);
    assert s[..m] == w[..m];
  }

  /** On a newest-first window, skipping empty slots reads a prefix of the window. */
  lemma RecentIsPrefix(w: Window, count: int)
    requires NewestFirst(w)
    ensures var k := Clamp(count, |w|);
      Recent(w, count) == w[..if k < FirstEmpty(w) then k else FirstEmpty(w)]
  {
    EmptyAfterFirstEmpty(w);
    PrefixRead(w, Clamp(count, |w|));
  }
}
