/**
 * Ten-minute trade volumes. Two generations compute them: the sliding-window
 * aggregator of the analytics utilities (by position in each minute's candle
 * list) and the starter's `update_10m_volumes` (by symbol).
 */
module MinuteVolumes {
  import opened Wrappers
  import opened Candles
  import opened Slots

  /** `Volume_10m`: one symbol's summed quote volume over the window. */
  datatype Volume10m = Volume10m(ticker: string, volume: real, openTime: int, closeTime: int)

  /** The number of minutes both aggregators sum over. */
  const WindowMinutes: nat := 10

  lemma {:induction false} MinExists(s: set<int>)
    requires s != {}
    ensures exists m :: m in s && forall x | x in s :: m <= x
  {
    assert (forall x :: x !in s) ==> s == {};
    var y :| y in s;
    if s != {y} {
      MinExists(s - {y});
      var m :| m in s - {y} && forall x | x in s - {y} :: m <= x;
      var lo := if y < m then y else m;
      forall x | x in s ensures lo <= x {
        if x != y {
          assert x in s - {y};
        }
      }
      assert lo in s;
    } else {
      forall x | x in s ensures y <= x {
        assert x == y;
      }
    }
  }

  function MinOf(s: set<int>): (m: int)
    requires s != {}
    ensures m in s && forall x | x in s :: m <= x
  {
    MinExists(s);
    var m :| m in s && forall x | x in s :: m <= x;
    m
  }

  predicate Increasing(r: seq<int>) {
    forall i, j | 0 <= i < j < |r| :: r[i] < r[j]
  }

  /** `sorted(keys)`: the keys in increasing order. */
  function AscendingKeys(s: set<int>): (r: seq<int>)
    ensures |r| == |s|
    ensures forall x :: x in r <==> x in s
    ensures Increasing(r)
    decreases |s|
  {
    if s == {} then []
    else
      var m := MinOf(s);
      var rest := AscendingKeys(s - {m});
      assert forall j | 0 <= j < |rest| :: m < rest[j] by {
        forall j | 0 <= j < |rest| ensures m < rest[j] {
          assert rest[j] in s - {m};
        }
      }
      [m] + rest
  }

  /** Two increasing sequences with the same elements are equal. */
  lemma {:induction false} IncreasingUnique(a: seq<int>, b: seq<int>)
    requires Increasing(a) && Increasing(b)
    requires forall x :: x in a <==> x in b
    ensures a == b
  {
    if |a| > 0 {
      assert a[0] in a;
    }
    if |b| > 0 {
      assert b[0] in b;
    }
    if |a| > 0 && |b| > 0 {
      assert a[0] == b[0] by {
        assert a[0] in b && b[0] in a;
        var i :| 0 <= i < |b| && b[i] == a[0];
        var j :| 0 <= j < |a| && a[j] == b[0];
        assert b[0] <= a[0] && a[0] <= b[0];
      }
      forall x ensures x in a[1..] <==> x in b[1..] {
        if x in a[1..] {
          var i :| 0 <= i < |a| - 1 && a[1..][i] == x;
          assert a[i + 1] == x && x in b;
          var j :| 0 <= j < |b| && b[j] == x;
          assert j > 0 && b[1..][j - 1] == x;
        }
        if x in b[1..] {
          var i :| 0 <= i < |b| - 1 && b[1..][i] == x;
          assert b[i + 1] == x && x in a;
          var j :| 0 <= j < |a| && a[j] == x;
          assert j > 0 && a[1..][j - 1] == x;
        }
      }
      IncreasingUnique(a[1..], b[1..]);
      assert a == [a[0]] + a[1..] && b == [b[0]] + b[1..];
    }
  }

  /**
   * `sorted(candle_dict.keys())[-10:]`: the ten latest minutes, oldest first;
   * every other key is older than all of them.
   */
  function WindowKeys(keys: set<int>): (r: seq<int>)
    requires |keys| >= WindowMinutes
    ensures |r| == WindowMinutes && Increasing(r)
    ensures forall i | 0 <= i < |r| :: r[i] in keys
  {
    var a := AscendingKeys(keys);
    a[|a| - WindowMinutes..]
  }

  /** Every stored minute outside the window is older than all window minutes. */
  lemma WindowKeysAreLatest(keys: set<int>)
    requires |keys| >= WindowMinutes
    ensures var r := WindowKeys(keys);
      forall k | k in keys :: k in r || k < r[0]
  {
    var a := AscendingKeys(keys);
    var r := WindowKeys(keys);
    forall k | k in keys ensures k in r || k < r[0] {
      var i :| 0 <= i < |a| && a[i] == k;
      if i >= |a| - WindowMinutes {
        assert r[i - (|a| - WindowMinutes)] == k;
      }
    }
  }

  /** The candle lists of the window minutes, oldest first. */
  function WindowSlots(d: map<int, seq<Candle>>): (slots: seq<seq<Candle>>)
    requires |d| >= WindowMinutes
    ensures |slots| == WindowMinutes
  {
    SlotsAt(d, WindowKeys(d.Keys))
  }

  /** The candle lists stored under the minutes `ks`, in that order. */
  function SlotsAt(d: map<int, seq<Candle>>, ks: seq<int>): (slots: seq<seq<Candle>>)
    requires forall i | 0 <= i < |ks| :: ks[i] in d
    ensures |slots| == |ks|
  {
    seq(|ks|, k requires 0 <= k < |ks| => d[ks[k]])
  }

  lemma SlotsAtAgree(d: map<int, seq<Candle>>, d2: map<int, seq<Candle>>, ks: seq<int>)
    requires forall i | 0 <= i < |ks| :: ks[i] in d && ks[i] in d2 && d2[ks[i]] == d[ks[i]]
    ensures SlotsAt(d2, ks) == SlotsAt(d, ks)
  {
  }

  /** Every minute of the window lists as many candles as the earliest one. */
  predicate SameLengths(slots: seq<seq<Candle>>) {
    forall k | 0 <= k < |slots| :: |slots[k]| == |slots[0]|
  }

  /** The quote volumes at position `i` of every minute, added up (a minute too short to have one adds nothing). */
  function PositionalVolume(slots: seq<seq<Candle>>, i: nat): real {
    if |slots| == 0 then 0.0
    else
      var last := slots[|slots| - 1];
      PositionalVolume(slots[..|slots| - 1], i) + (if i < |last| then last[i].quoteVolume else 0.0)
  }

  /**
   * The sliding-window result for the window minutes `slots`, oldest first:
   * None when a minute lists a different number of candles than the
   * earliest; otherwise one entry per candle of the earliest minute.
   */
  function WindowVolumes(slots: seq<seq<Candle>>): (r: Option<seq<Volume10m>>)
    requires |slots| > 0
    ensures r.Some? <==> SameLengths(slots)
    ensures r.Some? ==> |r.value| == |slots[0]|
    ensures r.Some? ==> forall i | 0 <= i < |r.value| ::
      && r.value[i].ticker == slots[0][i].symbol
      && r.value[i].openTime == slots[0][i].openTime
      && r.value[i].closeTime == slots[|slots| - 1][i].openTime
      && r.value[i].volume == PositionalVolume(slots, i)
  {
    if !SameLengths(slots) then None
    else
      var n := |slots[0]|;
      var last := slots[|slots| - 1];
      Some(seq(n, i requires 0 <= i < n => Volume10m(slots[0][i].symbol, PositionalVolume(slots, i), slots[0][i].openTime, last[i].openTime)))
  }

  /**
   * `calculate_10m_volumes_sidedWindow`. None when fewer than ten minutes are
   * stored; otherwise the window volumes of the ten latest minutes.
   */
  function SidedWindow(d: map<int, seq<Candle>>): (r: Option<seq<Volume10m>>)
    ensures |d| < WindowMinutes ==> r.None?
    ensures |d| >= WindowMinutes ==> r == WindowVolumes(WindowSlots(d))
  {
    if |d| < WindowMinutes then None else WindowVolumes(WindowSlots(d))
  }

  /** `calculate_10m_volumes_sidedWindow` as its loops: per-minute length check, positional accumulation. */
  method SidedWindowLoops(d: map<int, seq<Candle>>) returns (r: Option<seq<Volume10m>>)
    ensures r == SidedWindow(d)
  {
    if |d| < WindowMinutes {
      return None;
    }
    r := WindowVolumesLoops(WindowSlots(d));
  }

  method WindowVolumesLoops(slots: seq<seq<Candle>>) returns (r: Option<seq<Volume10m>>)
    requires |slots| > 0
    ensures r == WindowVolumes(slots)
  {
    var n := |slots[0]|;
    var volumes := seq(n, _ => 0.0);
    var k := 0;
    while k < |slots|
      invariant 0 <= k <= |slots| && |volumes| == n
      invariant forall j | 0 <= j < k :: |slots[j]| == n
      invariant forall i | 0 <= i < n :: volumes[i] == PositionalVolume(slots[..k], i)
    {
      if |slots[k]| != n {
        assert !SameLengths(slots);
        return None;
      }
      var i := 0;
      while i < n
        invariant 0 <= i <= n && |volumes| == n
        invariant forall j | 0 <= j < i :: volumes[j] == PositionalVolume(slots[..k], j) + slots[k][j].quoteVolume
        invariant forall j | i <= j < n :: volumes[j] == PositionalVolume(slots[..k], j)
      {
        volumes := volumes[i := volumes[i] + slots[k][i].quoteVolume];
        i := i + 1;
      }
      assert slots[..k + 1][..k] == slots[..k];
      k := k + 1;
    }
    assert slots[..k] == slots;
    var last := slots[|slots| - 1];
    var out := seq(n, i requires 0 <= i < n => Volume10m(slots[0][i].symbol, volumes[i], slots[0][i].openTime, last[i].openTime));
    assert SameLengths(slots);
    assert forall i | 0 <= i < n :: out[i] == WindowVolumes(slots).value[i];
    assert out == WindowVolumes(slots).value;
    r := Some(out);
  }

  /** Restricted to its window minutes, a map keeps the same window. */
  lemma RestrictedWindowKeys(d: map<int, seq<Candle>>)
    requires |d| >= WindowMinutes
    ensures var ks := WindowKeys(d.Keys);
      var d2 := map k | k in ks :: d[k];
      |d2| >= WindowMinutes && WindowKeys(d2.Keys) == ks
  {
    var ks := WindowKeys(d.Keys);
    var d2 := map k | k in ks :: d[k];
    var a := AscendingKeys(d2.Keys);
    IncreasingUnique(a, ks);
  }

  /** The result depends on the ten latest minutes only: dropping every older minute changes nothing. */
  lemma OnlyLatestMinutesMatter(d: map<int, seq<Candle>>)
    requires |d| >= WindowMinutes
    ensures var ks := WindowKeys(d.Keys);
      SidedWindow(map k | k in ks :: d[k]) == SidedWindow(d)
  {
    var ks := WindowKeys(d.Keys);
    var d2 := map k | k in ks :: d[k];
    RestrictedWindowKeys(d);
    SlotsAtAgree(d, d2, ks);
  }

  /** The summed quote volume of the candles of `symbol`. */
  function VolumeOf(cs: seq<Candle>, symbol: string): real {
    if |cs| == 0 then 0.0
    else
      var c := cs[|cs| - 1];
      VolumeOf(cs[..|cs| - 1], symbol) + (if c.symbol == symbol then c.quoteVolume else 0.0)
  }

  lemma {:induction false} VolumeOfAbsent(cs: seq<Candle>, symbol: string)
    requires forall i | 0 <= i < |cs| :: cs[i].symbol != symbol
    ensures VolumeOf(cs, symbol) == 0.0
  {
    if |cs| > 0 {
      VolumeOfAbsent(cs[..|cs| - 1], symbol);
    }
  }

  /** Volumes of a concatenation add up. */
  lemma {:induction false} VolumeOfConcat(a: seq<Candle>, b: seq<Candle>, symbol: string)
    ensures VolumeOf(a + b, symbol) == VolumeOf(a, symbol) + VolumeOf(b, symbol)
  {
    if |b| > 0 {
      VolumeOfConcat(a, b[..|b| - 1], symbol);
      assert (a + b)[..|a + b| - 1] == a + b[..|b| - 1];
    } else {
      assert a + b == a;
    }
  }

  /** A symbol listed once contributes exactly that candle's volume. */
  lemma {:induction false} VolumeOfSingle(cs: seq<Candle>, i: nat)
    requires i < |cs|
    requires forall j | 0 <= j < |cs| && j != i :: cs[j].symbol != cs[i].symbol
    ensures VolumeOf(cs, cs[i].symbol) == cs[i].quoteVolume
  {
    var n := |cs| - 1;
    if i < n {
      VolumeOfSingle(cs[..n], i);
    } else {
      VolumeOfAbsent(cs[..n], cs[i].symbol);
    }
  }

  /**
   * `volumes[symbol] = volumes.get(symbol, 0) + quote_volume` over the
   * candles in order: one entry per symbol seen, holding its summed volume.
   */
  function SymbolTotals(cs: seq<Candle>): (m: map<string, real>)
    ensures m.Keys == set c | c in cs :: c.symbol
    ensures forall s | s in m :: m[s] == VolumeOf(cs, s)
  {
    if |cs| == 0 then map[]
    else
      var init := cs[..|cs| - 1];
      var c := cs[|cs| - 1];
      var prev := SymbolTotals(init);
      var m := prev[c.symbol := (if c.symbol in prev then prev[c.symbol] else 0.0) + c.quoteVolume];
      SymbolTotalsStep(cs, prev, m);
      m
  }

  /** Adding the newest candle to the totals of the others gives the totals of all. */
  lemma SymbolTotalsStep(cs: seq<Candle>, prev: map<string, real>, m: map<string, real>)
    requires |cs| > 0
    requires prev.Keys == set c | c in cs[..|cs| - 1] :: c.symbol
    requires forall s | s in prev :: prev[s] == VolumeOf(cs[..|cs| - 1], s)
    requires var c := cs[|cs| - 1];
      m == prev[c.symbol := (if c.symbol in prev then prev[c.symbol] else 0.0) + c.quoteVolume]
    ensures m.Keys == set c | c in cs :: c.symbol
    ensures forall s | s in m :: m[s] == VolumeOf(cs, s)
  {
    var init := cs[..|cs| - 1];
    var c := cs[|cs| - 1];
    SymbolSetSnoc(cs);
    forall s | s in m ensures m[s] == VolumeOf(cs, s) {
      assert VolumeOf(cs, s) == VolumeOf(init, s) + (if c.symbol == s then c.quoteVolume else 0.0);
      if s == c.symbol && s !in prev {
        PrevAbsent(init, prev, s);
      }
    }
  }

  lemma SymbolSetSnoc(cs: seq<Candle>)
    requires |cs| > 0
    ensures (set x | x in cs :: x.symbol) == (set x | x in cs[..|cs| - 1] :: x.symbol) + {cs[|cs| - 1].symbol}
  {
    assert cs == cs[..|cs| - 1] + [cs[|cs| - 1]];
  }

  /** A symbol missing from the totals has no volume. */
  lemma PrevAbsent(init: seq<Candle>, prev: map<string, real>, s: string)
    requires prev.Keys == set c | c in init :: c.symbol
    requires s !in prev
    ensures VolumeOf(init, s) == 0.0
  {
    forall j | 0 <= j < |init| ensures init[j].symbol != s {
      assert init[j] in init;
    }
    VolumeOfAbsent(init, s);
  }

  /**
   * `update_10m_volumes`: None (the function's False, nothing saved) unless
   * all ten newest minute slots are filled; otherwise the per-symbol sum over
   * exactly those ten minutes.
   */
  function Update10mVolumes(w: seq<seq<Candle>>): (r: Option<map<string, real>>)
    ensures r.Some? <==> |w| >= WindowMinutes && forall i | 0 <= i < WindowMinutes :: |w[i]| > 0
    ensures r.Some? ==> r.value == SymbolTotals(Flatten(w[..WindowMinutes]))
  {
    var recent := Recent(w, WindowMinutes);
    RecentTen(w);
    if |recent| < WindowMinutes then None
    else Some(SymbolTotals(Flatten(recent)))
  }

  /** Ten recent minutes are found exactly when the ten newest slots are all filled, and then they are those slots. */
  lemma RecentTen(w: seq<seq<Candle>>)
    ensures |Recent(w, WindowMinutes)| == WindowMinutes <==> |w| >= WindowMinutes && forall i | 0 <= i < WindowMinutes :: |w[i]| > 0
    ensures |Recent(w, WindowMinutes)| == WindowMinutes ==> Recent(w, WindowMinutes) == w[..WindowMinutes]
  {
    var k := Clamp(WindowMinutes, |w|);
    var pre := w[..k];
    NonEmptyAllFilled(pre);
    assert forall i | 0 <= i < k :: pre[i] == w[i];
    if |w| >= WindowMinutes && forall i | 0 <= i < WindowMinutes :: |w[i]| > 0 {
      NonEmptyOfPrefix(pre, k);
    }
  }

  /** Every minute lists the same symbols in the same order, none twice. */
  predicate Aligned(slots: seq<seq<Candle>>) {
    && |slots| > 0 && SameLengths(slots)
    && (forall k, i | 0 <= k < |slots| && 0 <= i < |slots[k]| :: slots[k][i].symbol == slots[0][i].symbol)
    && (forall i, j | 0 <= i < |slots[0]| && 0 <= j < |slots[0]| && i != j :: slots[0][i].symbol != slots[0][j].symbol)
  }

  /**
   * When the minutes are aligned, summing by position (the sliding-window
   * aggregator) and summing by symbol (the starter) agree.
   */
  lemma {:induction false} PositionalMatchesBySymbol(slots: seq<seq<Candle>>, i: nat)
    requires Aligned(slots) && i < |slots[0]|
    ensures VolumeOf(Flatten(slots), slots[0][i].symbol) == PositionalVolume(slots, i)
  {
    var n := |slots| - 1;
    var sym := slots[0][i].symbol;
    FlattenSnoc(slots);
    VolumeOfConcat(Flatten(slots[..n]), slots[n], sym);
    LastSlotSingle(slots, i);
    if n > 0 {
      AlignedPrefix(slots);
      PositionalMatchesBySymbol(slots[..n], i);
    } else {
      assert slots[..n] == [];
    }
  }

  /**
   * On aligned minutes the sliding-window volume of entry `i` is the total
   * quote volume of its ticker over the ten minutes.
   */
  lemma WindowVolumeBySymbol(slots: seq<seq<Candle>>, i: nat)
    requires Aligned(slots) && i < |slots[0]|
    ensures WindowVolumes(slots).Some?
    ensures WindowVolumes(slots).value[i].volume == VolumeOf(Flatten(slots), WindowVolumes(slots).value[i].ticker)
  {
    PositionalMatchesBySymbol(slots, i);
  }

  /** In the latest of aligned minutes the symbol at position `i` of the earliest occurs once, at `i`. */
  lemma LastSlotSingle(slots: seq<seq<Candle>>, i: nat)
    requires Aligned(slots) && i < |slots[0]|
    ensures VolumeOf(slots[|slots| - 1], slots[0][i].symbol) == slots[|slots| - 1][i].quoteVolume
  {
    var last := slots[|slots| - 1];
    assert forall j | 0 <= j < |last| :: last[j].symbol == slots[0][j].symbol;
    VolumeOfSingle(last, i);
  }

  /** Dropping the latest minute keeps the rest aligned, with the same earliest minute. */
  lemma AlignedPrefix(slots: seq<seq<Candle>>)
    requires Aligned(slots) && |slots| > 1
    ensures Aligned(slots[..|slots| - 1]) && slots[..|slots| - 1][0] == slots[0]
  {
  }
}
