/**
 * `compare_tickers`: the tickers added to, removed from and kept in a list,
 * each reported as a sorted list without duplicates.
 */
module TickerDiff {
  import opened Strings
  import opened Sorting

  predicate Distinct(s: seq<string>) {
    forall i, j | 0 <= i < j < |s| :: s[i] != s[j]
  }

  /** `set(xs)` written out as a list: the first occurrence of each string, in order. */
  function Dedup(xs: seq<string>): (r: seq<string>)
    ensures Distinct(r)
    ensures forall x :: x in r <==> x in xs
  {
    if |xs| == 0 then []
    else
      var n := |xs| - 1;
      var init := Dedup(xs[..n]);
      assert forall x | x in xs :: x in xs[..n] || x == xs[n];
      if xs[n] in init then init else init + [xs[n]]
  }

  /** The strings of `xs` that are in `ys` (`inside`) or not in `ys` (`!inside`), in order. */
  function Select(xs: seq<string>, ys: seq<string>, inside: bool): (r: seq<string>)
    requires Distinct(xs)
    ensures Distinct(r)
    ensures forall x :: x in r <==> x in xs && (x in ys <==> inside)
  {
    if |xs| == 0 then []
    else
      var n := |xs| - 1;
      var init := Select(xs[..n], ys, inside);
      assert forall x | x in xs :: x in xs[..n] || x == xs[n];
      assert xs[n] !in xs[..n];
      if (xs[n] in ys) == inside then init + [xs[n]] else init
  }

  /** `sorted(...)` on a list without duplicates: strictly increasing, the same strings. */
  function Sorted(xs: seq<string>): (r: seq<string>)
    requires Distinct(xs)
    ensures StrictlySortedStrings(r)
    ensures forall x :: x in r <==> x in xs
  {
    var r := SortStrings(xs);
    assert forall x :: x in r <==> x in multiset(r);
    assert forall x :: x in xs <==> x in multiset(xs);
    r
  }

  datatype Comparison = Comparison(added: seq<string>, removed: seq<string>, kept: seq<string>)

  /**
   * `compare_tickers(old, new)`: `sorted(set(new) - set(old))`,
   * `sorted(set(old) - set(new))` and `sorted(set(old) & set(new))`.
   */
  function CompareTickers(old0: seq<string>, new0: seq<string>): (c: Comparison)
    ensures StrictlySortedStrings(c.added) && StrictlySortedStrings(c.removed) && StrictlySortedStrings(c.kept)
    ensures forall x :: x in c.added <==> x in new0 && x !in old0
    ensures forall x :: x in c.removed <==> x in old0 && x !in new0
    ensures forall x :: x in c.kept <==> x in old0 && x in new0
  {
    var o := Dedup(old0);
    var n := Dedup(new0);
    Comparison(Sorted(Select(n, o, false)), Sorted(Select(o, n, false)), Sorted(Select(o, n, true)))
  }

  /**
   * Each list is the one answer `sorted` can give: any strictly increasing
   * list holding exactly the added (removed, kept) tickers is that list.
   */
  lemma ComparisonDetermined(old0: seq<string>, new0: seq<string>, added: seq<string>, removed: seq<string>, kept: seq<string>)
    requires StrictlySortedStrings(added) && forall x :: x in added <==> x in new0 && x !in old0
    requires StrictlySortedStrings(removed) && forall x :: x in removed <==> x in old0 && x !in new0
    requires StrictlySortedStrings(kept) && forall x :: x in kept <==> x in old0 && x in new0
    ensures CompareTickers(old0, new0) == Comparison(added, removed, kept)
  {
    var c := CompareTickers(old0, new0);
    StrictlySortedUnique(c.added, added);
    StrictlySortedUnique(c.removed, removed);
    StrictlySortedUnique(c.kept, kept);
  }

  /** Comparing a list with itself reports no change, and keeps every ticker once, sorted. */
  lemma CompareSelf(xs: seq<string>)
    ensures CompareTickers(xs, xs).added == [] && CompareTickers(xs, xs).removed == []
    ensures CompareTickers(xs, xs).kept == Sorted(Dedup(xs))
  {
    var c := CompareTickers(xs, xs);
    NoMembersEmpty(c.added);
    NoMembersEmpty(c.removed);
    StrictlySortedUnique(c.kept, Sorted(Dedup(xs)));
  }

  lemma NoMembersEmpty(s: seq<string>)
    requires forall x :: x !in s
    ensures s == []
  {
    if |s| > 0 {
      FirstIsMember(s);
    }
  }

  lemma FirstIsMember(s: seq<string>)
    requires |s| > 0
    ensures s[0] in s
  {
  }

  const SampleOld: seq<string> := ["AAPL", "GOOGL", "MSFT", "AMZN", "TSLA", "FB", "NVDA", "NFLX"]
  const SampleNew: seq<string> := ["AAPL", "GOOGL", "MSFT", "AMZN", "TSLA", "META", "NVDA", "AMD", "INTC"]

  /** The sample comparison: AMD, INTC and META appear; FB and NFLX disappear. */
  lemma SampleComparison(old0: seq<string>, new0: seq<string>)
    requires old0 == SampleOld && new0 == SampleNew
    ensures CompareTickers(old0, new0).added == ["AMD", "INTC", "META"]
    ensures CompareTickers(old0, new0).removed == ["FB", "NFLX"]
  {
    var c := CompareTickers(old0, new0);
    var added := SampleAdded();
    var removed := SampleRemoved();
    assert forall x :: x in c.added <==> x in added;
    assert forall x :: x in c.removed <==> x in removed;
    StrictlySortedUnique(c.added, added);
    StrictlySortedUnique(c.removed, removed);
  }

  lemma SampleAdded() returns (added: seq<string>)
    ensures added == ["AMD", "INTC", "META"] && StrictlySortedStrings(added)
    ensures forall x :: x in added <==> x in SampleNew && x !in SampleOld
  {
    added := ["AMD", "INTC", "META"];
    assert LexLess("AMD", "INTC") && LexLess("INTC", "META") && LexLess("AMD", "META");
    forall i | 0 <= i < |SampleNew|
      ensures SampleNew[i] in SampleOld || SampleNew[i] in added
    {
    }
  }

  lemma SampleRemoved() returns (removed: seq<string>)
    ensures removed == ["FB", "NFLX"] && StrictlySortedStrings(removed)
    ensures forall x :: x in removed <==> x in SampleOld && x !in SampleNew
  {
    removed := ["FB", "NFLX"];
    assert LexLess("FB", "NFLX");
    forall i | 0 <= i < |SampleOld|
      ensures SampleOld[i] in SampleNew || SampleOld[i] in removed
    {
    }
  }
}
