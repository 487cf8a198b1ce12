/**
 * The in-memory stores are Python lists of per-minute (or per-hour) lists,
 * index 0 being the newest period. These are the list manipulations they
 * share: the right shift with insertion, skipping empty periods,
 * flattening, and clamping a requested count to the list length.
 */
module Slots {

  /**
   * `if count > len(xs): count = len(xs)` followed by `range(count)`: the
   * number of leading periods read. A negative count reads none.
   */
  function Clamp(count: int, n: nat): (k: nat)
    ensures k <= n
    ensures count <= 0 ==> k == 0
    ensures count >= n ==> k == n
    ensures 0 <= count <= n ==> k == count
  {
    if count > n then n else if count < 0 then 0 else count
  }

  /**
   * `for i in range(len(xs)-1, p, -1): xs[i] = xs[i-1]` then `xs[p] = x`:
   * `x` goes to position `p`, the periods from `p` on move one place
   * towards the old end and the last one falls off.
   */
  function ShiftInsert<T>(w: seq<T>, p: nat, x: T): (r: seq<T>)
    requires p < |w|
    ensures |r| == |w|
    ensures r[p] == x
    ensures forall j | 0 <= j < p :: r[j] == w[j]
    ensures forall j | p < j < |w| :: r[j] == w[j - 1]
  {
    w[..p] + [x] + w[p..|w| - 1]
  }

  /** The Python right-shift loop, element by element. */
  method ShiftDown<T>(w: seq<T>, p: nat) returns (r: seq<T>)
    requires p < |w|
    ensures |r| == |w|
    ensures forall j | 0 <= j <= p :: r[j] == w[j]
    ensures forall j | p < j < |w| :: r[j] == w[j - 1]
  {
    r := w;
    var i := |w| - 1;
    while i > p
      invariant p <= i <= |w| - 1
      invariant |r| == |w|
      invariant forall j | 0 <= j <= i :: r[j] == w[j]
      invariant forall j | i < j < |w| :: r[j] == w[j - 1]
    {
      r := r[i := r[i - 1]];
      i := i - 1;
    }
  }

  /** The shift loop followed by the store at `p` computes `ShiftInsert`. */
  lemma ShiftDownThenStore<T>(w: seq<T>, p: nat, shifted: seq<T>, x: T)
    requires p < |w| && |shifted| == |w|
    requires forall j | 0 <= j <= p :: shifted[j] == w[j]
    requires forall j | p < j < |w| :: shifted[j] == w[j - 1]
    ensures shifted[p := x] == ShiftInsert(w, p, x)
  {
  }

  /** The non-empty periods of `s`, in order (`if xs[i]: out.append(xs[i])`). */
  function NonEmpty<T(!new)>(s: seq<seq<T>>): (r: seq<seq<T>>)
    ensures |r| <= |s|
    ensures forall x :: x in r <==> x in s && |x| > 0
  {
    if |s| == 0 then []
    else (if |s[0]| > 0 then [s[0]] else []) + NonEmpty(s[1..])
  }

  /** Where the filled periods are a prefix, skipping the empty ones returns that prefix. */
  lemma {:induction false} NonEmptyOfPrefix<T(!new)>(s: seq<seq<T>>, k: nat)
    requires k <= |s|
    requires forall i | 0 <= i < k :: |s[i]| > 0
    requires forall i | k <= i < |s| :: |s[i]| == 0
    ensures NonEmpty(s) == s[..k]
  {
    if |s| > 0 {
      if k > 0 {
        NonEmptyOfPrefix(s[1..], k - 1);
        assert s[..k] == [s[0]] + s[1..][..k - 1];
      } else {
        NonEmptyOfPrefix(s[1..], 0);
      }
    }
  }

  /** `get_recent_1m_klines(count)` / `get_recent_1h_klines(count)`: the non-empty periods among the first `count`. */
  function Recent<T(!new)>(w: seq<seq<T>>, count: int): (r: seq<seq<T>>)
    ensures |r| <= Clamp(count, |w|)
    ensures forall x :: x in r <==> |x| > 0 && exists i | 0 <= i < Clamp(count, |w|) :: w[i] == x
  {
    var k := Clamp(count, |w|);
    assert forall x :: x in w[..k] <==> exists i | 0 <= i < k :: w[i] == x by {
      forall x ensures x in w[..k] <==> exists i | 0 <= i < k :: w[i] == x {
        if x in w[..k] {
          var i :| 0 <= i < k && w[..k][i] == x;
          assert w[i] == x;
        }
        if exists i | 0 <= i < k :: w[i] == x {
          var i :| 0 <= i < k && w[i] == x;
          assert w[..k][i] == x;
        }
      }
    }
    NonEmpty(w[..k])
  }

  /** All elements of all periods, in order (`out.extend(xs[i])`). */
  function Flatten<T(!new)>(s: seq<seq<T>>): (r: seq<T>)
    ensures forall x :: x in r <==> exists i | 0 <= i < |s| :: x in s[i]
  {
    if |s| == 0 then []
    else
      assert forall x :: ((exists i | 0 <= i < |s| :: x in s[i])
                      <==> x in s[0] || exists i | 0 <= i < |s[1..]| :: x in s[1..][i]) by {
        forall x ensures (exists i | 0 <= i < |s| :: x in s[i])
                         <==> x in s[0] || exists i | 0 <= i < |s[1..]| :: x in s[1..][i] {
          if exists i | 0 <= i < |s| :: x in s[i] {
            var i :| 0 <= i < |s| && x in s[i];
            if i > 0 {
              assert x in s[1..][i - 1];
            }
          }
        }
      }
      s[0] + Flatten(s[1..])
  }

  /** Flattening the periods one at a time from the back (`for xs in s: out.extend(xs)`). */
  lemma {:induction false} FlattenSnoc<T(!new)>(s: seq<seq<T>>)
    requires |s| > 0
    ensures Flatten(s) == Flatten(s[..|s| - 1]) + s[|s| - 1]
  {
    if |s| > 1 {
      FlattenSnoc(s[1..]);
      assert s[1..][..|s| - 2] == s[..|s| - 1][1..];
    } else {
      assert s[..0] == [];
    }
  }

  /** Exactly all of the first `k` periods are filled when none of them is skipped. */
  lemma {:induction false} NonEmptyAllFilled<T(!new)>(s: seq<seq<T>>)
    ensures |NonEmpty(s)| == |s| <==> forall i | 0 <= i < |s| :: |s[i]| > 0
  {
    if |s| > 0 {
      NonEmptyAllFilled(s[1..]);
      if |s[0]| == 0 {
        assert |NonEmpty(s)| < |s|;
      }
      assert forall i | 1 <= i < |s| :: s[i] == s[1..][i - 1];
    }
  }
}
