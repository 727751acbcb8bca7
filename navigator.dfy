/**
 * The navigator: a position `i` in a collection of `n` items, the last
 * movement direction `dir` (0 after a jump, 1 forward, -1 backward) and the
 * look-ahead depth `steps`. Moving forward or backward stops at the ends of
 * the collection; it never wraps.
 */
module Navigation {
  import opened WindowPolicy

  class Navigator {
    const n: int
    const steps: int
    var i: int
    var dir: int

    /** The position the source assumes: inside the collection. */
    ghost predicate Valid()
      reads this
    {
      0 <= i < n
    }

    /** A navigator at position 0 with no direction; valid once the collection is not empty. */
    constructor (n: int, steps: int)
      ensures this.n == n && this.steps == steps
      ensures i == 0 && dir == 0
      ensures Valid() <==> n >= 1
    {
      this.n := n;
      this.steps := steps;
      i := 0;
      dir := 0;
    }

    /**
     * Jumps to `j` and forgets the direction. Nothing is clamped: the
     * navigator stays valid exactly when `j` is a position of the collection.
     */
    method Set(j: int)
      modifies this
      ensures i == j && dir == 0
      ensures Valid() <==> 0 <= j < n
    {
      i := j;
      dir := 0;
    }

    /** One step forward, unless already at the last position; the direction becomes 1. */
    method Next()
      modifies this
      ensures i == if old(i) < n - 1 then old(i) + 1 else old(i)
      ensures dir == 1
      ensures old(Valid()) ==> Valid()
    {
      if i < n - 1 {
        i := i + 1;
      }
      dir := 1;
    }

    /** One step back, unless already at position 0; the direction becomes -1. */
    method Previous()
      modifies this
      ensures i == if old(i) > 0 then old(i) - 1 else old(i)
      ensures dir == -1
      ensures old(Valid()) ==> Valid()
    {
      if i > 0 {
        i := i - 1;
      }
      dir := -1;
    }

    /** The current position, a position of the collection whenever the navigator is valid. */
    function Current(): (r: int)
      reads this
      ensures Valid() ==> 0 <= r < n
      ensures r == i
    {
      i
    }

    /**
     * The window to keep resident around the current position: `i` first,
     * then the positions ahead of it, then those behind it, each run
     * ascending, all in [0, n) and none twice. The test in the source reads
     * the builtin `dir`, so the recorded direction plays no part: the result
     * is the order a direction of 0 would select.
     */
    function Indices(): (r: seq<int>)
      reads this
      requires Valid()
      ensures Prioritized(r, i, true) && Distinct(r)
      ensures forall k :: 0 <= k < |r| ==> 0 <= r[k] < n
      ensures r == BiasedWindow(n, steps, i, 0)
    {
      SourceWindow(n, steps, i)
    }

    /**
     * After a backward move with positions on both sides, the window still
     * lists a position ahead right after `i`, unlike the behind-first order
     * the recorded direction would select.
     */
    lemma BackwardDirectionIgnored()
      requires Valid() && dir < 0 && steps > 0 && 0 < i < n - 1
      ensures Indices()[1] == i + 1
      ensures Indices() != BiasedWindow(n, steps, i, dir)
    {
      BackwardOrderDiffers(n, steps, i, dir);
    }
  }
}
