/**
 * Python's `list.sort(key=...)` / `sorted(...)`: a stable sort by a numeric key,
 * and `sorted` on strings. Descending order (`reverse=True`) is a stable
 * ascending sort on the negated key, which keeps equal elements in input order
 * exactly as CPython does.
 */
module Sorting {
  import opened Strings

  ghost predicate SortedBy<T>(s: seq<T>, key: T -> real) {
    forall i, j | 0 <= i < j < |s| :: key(s[i]) <= key(s[j])
  }

  /** The elements of `s` whose key equals `v`, in order. */
  function WithKey<T>(s: seq<T>, key: T -> real, v: real): seq<T> {
    if |s| == 0 then []
    else (if key(s[0]) == v then [s[0]] else []) + WithKey(s[1..], key, v)
  }

  function Insert<T>(x: T, s: seq<T>, key: T -> real): (r: seq<T>)
    requires SortedBy(s, key)
    ensures SortedBy(r, key)
    ensures multiset(r) == multiset(s) + multiset{x}
    ensures |r| == |s| + 1
  {
    if |s| == 0 || key(x) <= key(s[0]) then [x] + s
    else
      var t := Insert(x, s[1..], key);
      assert s == [s[0]] + s[1..];
      InsertAboveHead(x, s, key, t);
      ConsSorted(s[0], t, key);
      [s[0]] + t
  }

  /** Everything inserted behind the head of a sorted list has a key no smaller than the head's. */
  lemma InsertAboveHead<T>(x: T, s: seq<T>, key: T -> real, t: seq<T>)
    requires SortedBy(s, key) && |s| > 0 && key(s[0]) < key(x)
    requires multiset(t) == multiset(s[1..]) + multiset{x}
    ensures forall i | 0 <= i < |t| :: key(s[0]) <= key(t[i])
  {
    forall i | 0 <= i < |t| ensures key(s[0]) <= key(t[i]) {
      var y := t[i];
      assert y in multiset(t);
      if y != x {
        assert y in multiset(s[1..]);
        var k :| 0 <= k < |s[1..]| && s[1..][k] == y;
        assert s[k + 1] == y;
      }
    }
  }

  lemma ConsSorted<T>(h: T, t: seq<T>, key: T -> real)
    requires SortedBy(t, key) && forall i | 0 <= i < |t| :: key(h) <= key(t[i])
    ensures SortedBy([h] + t, key)
  {
    var r := [h] + t;
    forall i, j | 0 <= i < j < |r| ensures key(r[i]) <= key(r[j]) {
      assert r[j] == t[j - 1];
      if i > 0 {
        assert r[i] == t[i - 1];
      }
    }
  }

  /** Stable insertion sort, ascending by `key`. */
  function SortBy<T>(s: seq<T>, key: T -> real): (r: seq<T>)
    ensures SortedBy(r, key)
    ensures multiset(r) == multiset(s)
    ensures |r| == |s|
  {
    if |s| == 0 then []
    else
      assert s == [s[0]] + s[1..];
      Insert(s[0], SortBy(s[1..], key), key)
  }

  lemma {:induction false} WithKeyConcat<T>(a: seq<T>, b: seq<T>, key: T -> real, v: real)
    ensures WithKey(a + b, key, v) == WithKey(a, key, v) + WithKey(b, key, v)
  {
    if |a| > 0 {
      assert (a + b)[1..] == a[1..] + b;
      assert (a + b)[0] == a[0];
      WithKeyConcat(a[1..], b, key, v);
      var h := if key(a[0]) == v then [a[0]] else [];
      assert WithKey(a, key, v) == h + WithKey(a[1..], key, v);
      assert WithKey(a + b, key, v) == h + WithKey(a[1..] + b, key, v);
      assert h + (WithKey(a[1..], key, v) + WithKey(b, key, v))
          == (h + WithKey(a[1..], key, v)) + WithKey(b, key, v);
    } else {
      assert a + b == b;
    }
  }

  lemma {:induction false} InsertStable<T>(x: T, s: seq<T>, key: T -> real, v: real)
    requires SortedBy(s, key)
    ensures WithKey(Insert(x, s, key), key, v)
         == (if key(x) == v then [x] else []) + WithKey(s, key, v)
  {
    if |s| == 0 || key(x) <= key(s[0]) {
      WithKeyCons(x, s, key, v);
    } else {
      var t := Insert(x, s[1..], key);
      InsertStable(x, s[1..], key, v);
      assert Insert(x, s, key) == [s[0]] + t;
      WithKeyCons(s[0], t, key, v);
      assert s == [s[0]] + s[1..];
      WithKeyCons(s[0], s[1..], key, v);
      if key(x) == v {
        // s[0] precedes x and has a smaller key, so it is not among the key-v elements
        assert key(s[0]) < v;
      }
    }
  }

  lemma WithKeyCons<T>(h: T, t: seq<T>, key: T -> real, v: real)
    ensures WithKey([h] + t, key, v) == (if key(h) == v then [h] else []) + WithKey(t, key, v)
  {
    assert ([h] + t)[0] == h && ([h] + t)[1..] == t;
  }

  /** Stability: among elements with equal keys the input order is kept. */
  lemma {:induction false} SortByStable<T>(s: seq<T>, key: T -> real, v: real)
    ensures WithKey(SortBy(s, key), key, v) == WithKey(s, key, v)
  {
    if |s| > 0 {
      SortByStable(s[1..], key, v);
      InsertStable(s[0], SortBy(s[1..], key), key, v);
    }
  }

  ghost predicate StrictlySortedStrings(s: seq<string>) {
    forall i, j | 0 <= i < j < |s| :: LexLess(s[i], s[j])
  }

  function InsertString(x: string, s: seq<string>): (r: seq<string>)
    requires StrictlySortedStrings(s) && x !in s
    ensures StrictlySortedStrings(r)
    ensures multiset(r) == multiset(s) + multiset{x}
  {
    if |s| == 0 then [x]
    else
      LexLessTotal(x, s[0]);
      if LexLess(x, s[0]) then
        forall j | 0 < j < |s| ensures LexLess(x, s[j]) {
          LexLessTransitive(x, s[0], s[j]);
        }
        ConsStrictlySorted(x, s);
        [x] + s
      else
        var t := InsertString(x, s[1..]);
        assert s == [s[0]] + s[1..];
        StringsAboveHead(x, s, t);
        ConsStrictlySorted(s[0], t);
        [s[0]] + t
  }

  /** Everything inserted behind the head of a strictly sorted list is above the head. */
  lemma StringsAboveHead(x: string, s: seq<string>, t: seq<string>)
    requires StrictlySortedStrings(s) && |s| > 0 && LexLess(s[0], x)
    requires multiset(t) == multiset(s[1..]) + multiset{x}
    ensures forall i | 0 <= i < |t| :: LexLess(s[0], t[i])
  {
    forall i | 0 <= i < |t| ensures LexLess(s[0], t[i]) {
      var y := t[i];
      assert y in multiset(t);
      if y != x {
        assert y in multiset(s[1..]);
        var k :| 0 <= k < |s[1..]| && s[1..][k] == y;
        assert s[k + 1] == y;
      }
    }
  }

  lemma ConsStrictlySorted(h: string, t: seq<string>)
    requires StrictlySortedStrings(t) && forall i | 0 <= i < |t| :: LexLess(h, t[i])
    ensures StrictlySortedStrings([h] + t)
  {
    var r := [h] + t;
    forall i, j | 0 <= i < j < |r| ensures LexLess(r[i], r[j]) {
      assert r[j] == t[j - 1];
      if i > 0 {
        assert r[i] == t[i - 1];
      }
    }
  }

  /**
   * Python's `sorted(...)` of a duplicate-free list of strings: the result is
   * strictly increasing and holds exactly the same strings.
   */
  function SortStrings(s: seq<string>): (r: seq<string>)
    requires forall i, j | 0 <= i < j < |s| :: s[i] != s[j]
    ensures StrictlySortedStrings(r)
    ensures multiset(r) == multiset(s)
  {
    if |s| == 0 then []
    else
      assert s == [s[0]] + s[1..];
      var t := SortStrings(s[1..]);
      assert s[0] !in t by {
        assert s[0] !in multiset(s[1..]);
      }
      InsertString(s[0], t)
  }

  /** Two strictly increasing lists with the same strings are equal: `sorted` has one answer. */
  lemma {:induction false} StrictlySortedUnique(a: seq<string>, b: seq<string>)
    requires StrictlySortedStrings(a) && StrictlySortedStrings(b)
    requires forall x :: x in a <==> x in b
    ensures a == b
  {
    if |a| > 0 {
      assert a[0] in b;
    }
    if |b| > 0 {
      assert b[0] in a;
    }
    if |a| > 0 && |b| > 0 {
      // both heads are the least element of the common set
      if a[0] != b[0] {
        assert b[0] in a;
        assert a[0] in b;
        var i :| 0 <= i < |a| && a[i] == b[0];
        var j :| 0 <= j < |b| && b[j] == a[0];
        assert LexLess(a[0], b[0]);
        assert LexLess(b[0], a[0]);
        LexLessAsymmetric(a[0], b[0]);
      }
      forall x ensures x in a[1..] <==> x in b[1..] {
        if x in a[1..] {
          var i :| 1 <= i < |a| && a[i] == x;
          assert x in b;
          LexLessIrreflexive(a[0]);
        }
        if x in b[1..] {
          var j :| 1 <= j < |b| && b[j] == x;
          assert x in a;
          LexLessIrreflexive(b[0]);
        }
      }
      StrictlySortedUnique(a[1..], b[1..]);
      assert a == [a[0]] + a[1..] && b == [b[0]] + b[1..];
    }
  }

  /** A permutation has the same members. */
  lemma PermutationMembers<T>(a: seq<T>, b: seq<T>)
    requires multiset(a) == multiset(b)
    ensures forall x :: x in a <==> x in b
  {
    forall x ensures x in a <==> x in b {
      assert x in a <==> x in multiset(a);
      assert x in b <==> x in multiset(b);
    }
  }

  /** In a sorted list every key lies between the first key and the last. */
  lemma SortedBetweenEnds<T>(s: seq<T>, key: T -> real, k: nat)
    requires SortedBy(s, key) && k < |s|
    ensures key(s[0]) <= key(s[k]) <= key(s[|s| - 1])
  {
    if 0 < k {
      assert key(s[0]) <= key(s[k]);
    }
    if k < |s| - 1 {
      assert key(s[k]) <= key(s[|s| - 1]);
    }
  }

  /** The tail of a list without repeats has no repeats and lacks the head. */
  lemma DistinctTail<T>(s: seq<T>)
    requires |s| > 0 && forall i, j | 0 <= i < j < |s| :: s[i] != s[j]
    ensures forall i, j | 0 <= i < j < |s[1..]| :: s[1..][i] != s[1..][j]
    ensures s[0] !in s[1..]
  {
    var t := s[1..];
    forall i, j | 0 <= i < j < |t| ensures t[i] != t[j] {
      assert t[i] == s[i + 1] && t[j] == s[j + 1];
    }
    forall k | 0 <= k < |t| ensures t[k] != s[0] {
      assert t[k] == s[k + 1];
    }
  }

  /** Putting a new element in front of a list without repeats keeps it without repeats. */
  lemma ConsDistinct<T>(x: T, rest: seq<T>)
    requires x !in rest && forall i, j | 0 <= i < j < |rest| :: rest[i] != rest[j]
    ensures forall i, j | 0 <= i < j < |[x] + rest| :: ([x] + rest)[i] != ([x] + rest)[j]
  {
    var r := [x] + rest;
    forall i, j | 0 <= i < j < |r| ensures r[i] != r[j] {
      assert r[j] == rest[j - 1];
      if i > 0 {
        assert r[i] == rest[i - 1];
      }
    }
  }

  /** In a list without repeats every element occurs once. */
  lemma OnceInDistinct<T>(a: seq<T>, p: nat)
    requires p < |a| && forall i, j | 0 <= i < j < |a| :: a[i] != a[j]
    ensures multiset(a)[a[p]] == 1
  {
    var x := a[p];
    var pre, post := a[..p], a[p + 1..];
    assert a == pre + [x] + post;
    forall i | 0 <= i < |pre| ensures pre[i] != x {
      assert pre[i] == a[i];
    }
    forall i | 0 <= i < |post| ensures post[i] != x {
      assert post[i] == a[p + 1 + i];
    }
  }

  /** An element listed at two positions occurs at least twice. */
  lemma TwiceCounted<T>(b: seq<T>, i: nat, j: nat)
    requires i < j < |b|
    ensures b[i] == b[j] ==> multiset(b)[b[i]] >= 2
  {
    var pre, post := b[..j], b[j..];
    assert b == pre + post;
    assert pre[i] == b[i] && post[0] == b[j];
  }
}
