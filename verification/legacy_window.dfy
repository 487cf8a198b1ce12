/**
 * The older in-memory window of the first bot generation: 180 minute slots
 * and a plain push to the front, with no duplicate check and no ordering.
 */
module LegacyWindow {
  import opened Candles
  import opened Slots
  import KlineWindow

  /** `k_line_CLEAN_OLD_FILES`: the number of minute slots. */
  const LegacySlots: nat := 180

  /**
   * `save_to_ram`: a non-empty batch becomes slot 0 and every slot moves back
   * one place, the last one falling off; an empty batch changes nothing.
   * The window is the module-level list created with 180 empty slots.
   */
  function SaveToRam(w: seq<seq<Candle>>, batch: seq<Candle>): (r: seq<seq<Candle>>)
    requires |w| == LegacySlots
    ensures |r| == LegacySlots
    ensures |batch| == 0 ==> r == w
    ensures |batch| > 0 ==> r[0] == batch && forall j | 1 <= j < LegacySlots :: r[j] == w[j - 1]
  {
    if |batch| == 0 then w else ShiftInsert(w, 0, batch)
  }

  /**
   * The two generations agree on the normal minute: a one-minute batch newer
   * than everything stored lands in slot 0 of both windows, with everything
   * else moved back one slot.
   */
  lemma SaveKlinesAgreesWithLegacy(w: seq<seq<Candle>>, batch: seq<Candle>)
    requires |w| == LegacySlots && KlineWindow.NewestFirst(w)
    requires |batch| > 0 && KlineWindow.Uniform(batch)
    requires |w[0]| == 0 || batch[0].openTime > w[0][0].openTime
    ensures KlineWindow.SaveKlines(w, batch) == SaveToRam(w, batch)
  {
    KlineWindow.SaveNewestMinute(w, batch);
  }
}
