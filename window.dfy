/**
 * The look-ahead window of the gallery: which positions around the current
 * one should be resident in the cache, and in which order they are requested.
 *
 * `Navigator.indices()` builds the window from two Python `range`s, the
 * positions ahead of the current one and the positions behind it, and puts
 * one of them first according to the test `dir >= 0`. The name tested there
 * is Python's builtin function `dir`, not the navigator's field `self.dir`;
 * under Python 2's mixed-type ordering every number sorts below every object
 * other than `None`, the builtin `dir` among them, so the test always holds and the source always puts the positions
 * ahead first. `SourceWindow` is that window; `BiasedWindow` is the order the
 * test evidently meant (testing the recorded direction), kept for comparison.
 */
module WindowPolicy {

  function Min(a: int, b: int): (r: int)
    ensures r <= a && r <= b && (r == a || r == b)
  {
    if a <= b then a else b
  }

  function Max(a: int, b: int): (r: int)
    ensures r >= a && r >= b && (r == a || r == b)
  {
    if a <= b then b else a
  }

  /** No position occurs twice. */
  predicate Distinct(s: seq<int>)
  {
    forall p, q :: 0 <= p < q < |s| ==> s[p] != s[q]
  }

  /** Python's `range(lo, hi)`: lo, lo + 1, ..., hi - 1, and nothing when hi <= lo. */
  function Range(lo: int, hi: int): (r: seq<int>)
    ensures |r| == if lo < hi then hi - lo else 0
    ensures forall k :: 0 <= k < |r| ==> r[k] == lo + k
    ensures forall x :: x in r <==> lo <= x < hi
    decreases hi - lo
  {
    if hi <= lo then [] else [lo] + Range(lo + 1, hi)
  }

  /**
   * `before`: the positions behind `i` that are at most `steps` away and not
   * below 0, in ascending order; at most `steps` of them.
   */
  function Before(steps: int, i: int): (r: seq<int>)
    ensures forall x :: x in r <==> Max(0, i - steps) <= x < i
    ensures forall p, q :: 0 <= p < q < |r| ==> r[p] < r[q]
    ensures steps >= 0 ==> |r| <= steps
  {
    Range(Max(0, i - steps), i)
  }

  /**
   * `after`: the positions ahead of `i` that are at most `steps` away and not
   * above n - 1, in ascending order; at most `steps` of them.
   */
  function After(n: int, steps: int, i: int): (r: seq<int>)
    ensures forall x :: x in r <==> i < x <= Min(n - 1, i + steps)
    ensures forall p, q :: 0 <= p < q < |r| ==> r[p] < r[q]
    ensures steps >= 0 ==> |r| <= steps
  {
    Range(i + 1, Min(n - 1, i + steps) + 1)
  }

  /** A value the window's direction test can compare with 0. */
  datatype Tested = Number(value: int) | BuiltinFunction

  /**
   * Python 2's `x >= 0`: numbers compare by value, and every number sorts
   * below every object other than `None`, the builtin function `dir` among
   * them, so a builtin function is always `>= 0`.
   */
  predicate AtLeastZero(x: Tested): (r: bool)
    ensures x == BuiltinFunction ==> r
    ensures x.Number? ==> (r <==> x.value >= 0)
  {
    match x
    case Number(v) => v >= 0
    case BuiltinFunction => true
  }

  /**
   * The window listed with `c` first and then the other positions in two
   * ascending runs: the positions ahead of `c` before those behind it when
   * `aheadFirst`, the other way round otherwise.
   */
  ghost predicate Prioritized(w: seq<int>, c: int, aheadFirst: bool)
  {
    && |w| >= 1 && w[0] == c
    && (forall p, q :: 1 <= p < q < |w| && (w[p] < c <==> w[q] < c) ==> w[p] < w[q])
    && (forall p, q :: 1 <= p < q < |w| ==>
          if aheadFirst then !(w[p] < c && c < w[q]) else !(c < w[p] && w[q] < c))
  }

  /** Ahead and behind runs never share a position and never contain `i`. */
  lemma RunsApart(n: int, steps: int, i: int)
    ensures forall x :: x in After(n, steps, i) ==> i < x <= Min(n - 1, i + steps)
    ensures forall x :: x in Before(steps, i) ==> Max(0, i - steps) <= x < i
    ensures Distinct(After(n, steps, i)) && Distinct(Before(steps, i))
  {
  }

  /** Three runs whose elements are pairwise apart concatenate to a duplicate-free sequence. */
  lemma {:induction false} DistinctConcat(a: seq<int>, b: seq<int>)
    requires Distinct(a) && Distinct(b)
    requires forall x :: x in a ==> x !in b
    ensures Distinct(a + b)
  {
    forall p, q | 0 <= p < q < |a + b|
      ensures (a + b)[p] != (a + b)[q]
    {
      if q < |a| {
      } else if p >= |a| {
        assert (a + b)[p] == b[p - |a|] && (a + b)[q] == b[q - |a|];
      } else {
        assert (a + b)[p] in a && (a + b)[q] in b;
      }
    }
  }

  /** `[c] + x + y` is prioritized when x and y are ascending runs on opposite sides of c. */
  lemma {:induction false} RunsPrioritized(c: int, x: seq<int>, y: seq<int>, aheadFirst: bool)
    requires forall k :: 0 <= k < |x| ==> (if aheadFirst then c < x[k] else x[k] < c)
    requires forall k :: 0 <= k < |y| ==> (if aheadFirst then y[k] < c else c < y[k])
    requires forall p, q :: 0 <= p < q < |x| ==> x[p] < x[q]
    requires forall p, q :: 0 <= p < q < |y| ==> y[p] < y[q]
    ensures Prioritized([c] + x + y, c, aheadFirst)
  {
    var w := [c] + x + y;
    forall p, q | 1 <= p < q < |w|
      ensures (w[p] < c <==> w[q] < c) ==> w[p] < w[q]
      ensures if aheadFirst then !(w[p] < c && c < w[q]) else !(c < w[p] && w[q] < c)
    {
      if q <= |x| {
        assert w[p] == x[p - 1] && w[q] == x[q - 1];
      } else if p > |x| {
        assert w[p] == y[p - 1 - |x|] && w[q] == y[q - 1 - |x|];
      } else {
        assert w[p] == x[p - 1] && w[q] == y[q - 1 - |x|];
      }
    }
  }

  /**
   * The body of `indices()`, with the value its `if` tests made explicit: `i`
   * first, then the positions ahead of and behind `i` within `steps`, each
   * run ascending, the ahead run first exactly when the test passes. No
   * position is listed twice.
   */
  function Indices(n: int, steps: int, i: int, tested: Tested): (r: seq<int>)
    ensures Distinct(r)
    ensures forall x :: x in r <==> x == i || Max(0, i - steps) <= x < i || i < x <= Min(n - 1, i + steps)
    ensures Prioritized(r, i, AtLeastZero(tested))
  {
    var a, b := After(n, steps, i), Before(steps, i);
    RunsApart(n, steps, i);
    if AtLeastZero(tested) then
      DistinctConcat([i], a);
      DistinctConcat([i] + a, b);
      RunsPrioritized(i, a, b, true);
      [i] + a + b
    else
      DistinctConcat([i], b);
      DistinctConcat([i] + b, a);
      RunsPrioritized(i, b, a, false);
      [i] + b + a
  }

  /**
   * Either arrangement of the runs lies in [0, n) when `i` does; with a
   * non-negative depth it has as many elements as the clipped interval
   * around `i`, at most 2 * steps + 1.
   */
  lemma RunsExtent(n: int, steps: int, i: int, w: seq<int>)
    requires 0 <= i < n
    requires w == [i] + After(n, steps, i) + Before(steps, i) || w == [i] + Before(steps, i) + After(n, steps, i)
    ensures forall k :: 0 <= k < |w| ==> 0 <= w[k] < n
    ensures steps >= 0 ==> |w| == Min(n - 1, i + steps) - Max(0, i - steps) + 1 <= 2 * steps + 1
  {
    assert forall k :: 0 <= k < |w| ==> w[k] in w;
  }

  /**
   * The window `indices()` returns. It starts at `i`, lists no position twice,
   * holds exactly `i` and the positions in [max(0, i - steps), min(n - 1, i + steps)]
   * (so only valid positions), has at most 2 * steps + 1 elements, and puts
   * the positions ahead of `i` before those behind it.
   */
  function SourceWindow(n: int, steps: int, i: int): (w: seq<int>)
    requires 0 <= i < n
    ensures |w| >= 1 && w[0] == i
    ensures Distinct(w)
    ensures forall x :: x in w <==> x == i || Max(0, i - steps) <= x <= Min(n - 1, i + steps)
    ensures forall k :: 0 <= k < |w| ==> 0 <= w[k] < n
    ensures steps >= 0 ==> |w| == Min(n - 1, i + steps) - Max(0, i - steps) + 1 <= 2 * steps + 1
    ensures Prioritized(w, i, true)
  {
    RunsExtent(n, steps, i, [i] + After(n, steps, i) + Before(steps, i));
    Indices(n, steps, i, BuiltinFunction)
  }

  /**
   * The window ordered by a recorded direction `d`, as the test in `indices()`
   * would order it if it read the navigator's field `self.dir`: equal to the
   * source's window when d >= 0, behind-first when d < 0.
   */
  function BiasedWindow(n: int, steps: int, i: int, d: int): (w: seq<int>)
    requires 0 <= i < n
    ensures d >= 0 ==> w == SourceWindow(n, steps, i)
    ensures |w| >= 1 && w[0] == i
    ensures Distinct(w)
    ensures Prioritized(w, i, d >= 0)
  {
    if d >= 0 then
      assert Indices(n, steps, i, Number(d)) == SourceWindow(n, steps, i);
      Indices(n, steps, i, Number(d))
    else
      Indices(n, steps, i, Number(d))
  }

  /** Whatever the direction, the biased window is a rearrangement of the source's window. */
  lemma BiasedWindowRearranges(n: int, steps: int, i: int, d: int)
    requires 0 <= i < n
    ensures multiset(BiasedWindow(n, steps, i, d)) == multiset(SourceWindow(n, steps, i))
  {
    if d < 0 {
      var a, b := After(n, steps, i), Before(steps, i);
      assert BiasedWindow(n, steps, i, d) == [i] + b + a;
      assert SourceWindow(n, steps, i) == [i] + a + b;
      calc {
        multiset([i] + b + a);
        multiset([i]) + multiset(b) + multiset(a);
        multiset([i] + a + b);
      }
    }
  }

  /**
   * With positions on both sides of `i`, the source's window and the
   * behind-first window differ: right after `i` the first comes ahead of it,
   * the second behind it.
   */
  lemma BackwardOrderDiffers(n: int, steps: int, i: int, d: int)
    requires steps > 0 && 0 < i < n - 1 && d < 0
    ensures SourceWindow(n, steps, i)[1] == i + 1
    ensures BiasedWindow(n, steps, i, d)[1] < i
    ensures SourceWindow(n, steps, i) != BiasedWindow(n, steps, i, d)
  {
    var a, b := After(n, steps, i), Before(steps, i);
    assert a[0] == i + 1 && b[0] < i;
    assert ([i] + a + b)[1] == a[0];
    assert ([i] + b + a)[1] == b[0];
  }

  /** First position, no position behind 0: N = 5, steps = 2, i = 0 gives [0, 1, 2]. */
  lemma WindowAtStart()
    ensures SourceWindow(5, 2, 0) == [0, 1, 2]
  {
    assert After(5, 2, 0) == [1, 2];
    assert Before(2, 0) == [];
    assert Indices(5, 2, 0, BuiltinFunction) == [0] + [1, 2] + [];
  }

  /** Middle position: N = 5, steps = 2, i = 2 gives [2, 3, 4, 0, 1] whatever the recorded direction. */
  lemma WindowInMiddle()
    ensures SourceWindow(5, 2, 2) == [2, 3, 4, 0, 1]
  {
    assert After(5, 2, 2) == [3, 4];
    assert Before(2, 2) == [0, 1];
    assert Indices(5, 2, 2, BuiltinFunction) == [2] + [3, 4] + [0, 1];
  }

  /** The behind-first order, had the test read a backward direction: [2, 0, 1, 3, 4]. */
  lemma BiasedWindowBackward()
    ensures BiasedWindow(5, 2, 2, -1) == [2, 0, 1, 3, 4]
  {
    assert After(5, 2, 2) == [3, 4];
    assert Before(2, 2) == [0, 1];
    assert Indices(5, 2, 2, Number(-1)) == [2] + [0, 1] + [3, 4];
  }
}
