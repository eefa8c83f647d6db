/** The passing window of one data bit, and what the two edge sweeps of the
    per-bit deskew record about it.  Everything here concerns a single bit. */
module Windows {
  import opened CInt

  /** A bit passes its read or write test exactly at the skews lo..hi, where skew
      is (DQS delay) - (DQ delay).  A marginal bit passes at its top setting when the
      left sweep measures it and fails there when the right sweep does. */
  datatype Window = Window(lo: int, hi: int, marginal: bool) {

    predicate Passes(skew: int, rightSweep: bool) {
      lo <= skew <= if rightSweep then LateHi() else hi
    }

    /** The top setting as the right sweep sees it. */
    function LateHi(): int {
      if marginal then hi - 1 else hi
    }

    /** The window relative to the DQS delay the sweeps start from. */
    function From(start: int): Window {
      Window(lo - start, hi - start, marginal)
    }

    /** The right end of the window as recorded by the two sweeps: the left sweep sees it
        when it lies at negative skew, the right sweep when it does not. */
    function ObservedHi(): int {
      if hi < 0 then hi else LateHi()
    }

    /** Some setting of the two sweeps passes: skews -dqMax..0 by DQ delay, 0..reach by DQS. */
    ghost predicate Visible(dqMax: nat, reach: nat) {
      || (exists x :: -(dqMax as int) <= x <= 0 && Passes(x, false))
      || (exists x :: 0 <= x <= reach && Passes(x, true))
    }

    /** Distance from zero skew to the left end of the window, within the swept range. */
    function LeftEdge(dqMax: nat): int {
      Min(dqMax, -lo)
    }

    /** Distance from zero skew to the right end of the window, within the swept range. */
    function RightEdge(reach: nat): int {
      Min(reach, ObservedHi())
    }
  }

  datatype Edges = Edges(left: int, right: int)

  /** Left sweep, DQ delay d: what the loop body does to one bit's two edges. */
  function LeftStep(e: Edges, pass: bool, d: nat, unseen: int): Edges {
    if pass then e.(left := d)
    else if e.left == unseen then e.(right := -(d + 1))
    else e
  }

  /** Right sweep, DQS shift d: what the loop body does to one bit's two edges. */
  function RightStep(e: Edges, pass: bool, d: nat, unseen: int): Edges {
    if pass then e.(right := d)
    else if d != 0 then
      if e.right == unseen then e.(left := -(d + 1)) else e
    else if e.right == unseen && e.left != unseen then e.(right := -1)
    else if e.right == unseen then e.(left := -(d + 1))
    else e
  }

  /** Some DQ delay below k passed in the left sweep. */
  predicate SeenLeft(w: Window, k: nat) {
    w.lo <= w.hi && w.lo <= 0 < k && -w.hi < k
  }

  /** Some DQS shift below k passed in the right sweep. */
  predicate SeenRight(w: Window, k: nat) {
    0 < k && w.lo < k && Max(w.lo, 0) <= w.LateHi()
  }

  /** The edges after DQ delays 0..k-1 of the left sweep. */
  predicate AfterLeft(w: Window, k: nat, e: Edges, unseen: int) {
    if SeenLeft(w, k) then
      && e.left == Min(k - 1, -w.lo)
      && e.right == (if w.hi < 0 then w.hi else unseen)
    else
      && e.left == unseen
      && e.right == (if k == 0 then unseen else 0 - k)
  }

  /** The edges between the two sweeps, unseen right edges reset. */
  predicate Between(w: Window, e: Edges, dqMax: nat) {
    if SeenLeft(w, dqMax + 1) then
      && e.left == w.LeftEdge(dqMax)
      && e.right == (if w.hi < 0 then w.hi else dqMax + 1)
    else
      && e.left == dqMax + 1
      && e.right == dqMax + 1
  }

  /** The edges after DQS shifts 0..k-1 of the right sweep. */
  predicate AfterRight(w: Window, k: nat, e: Edges, dqMax: nat) {
    if SeenLeft(w, dqMax + 1) then
      && e.left == w.LeftEdge(dqMax)
      && e.right == (if w.hi < 0 then w.hi else if k == 0 then dqMax + 1 else Min(k - 1, w.LateHi()))
    else if SeenRight(w, k) then
      && e.left == -w.lo
      && e.right == Min(k - 1, w.LateHi())
    else
      && e.left == (if k == 0 then dqMax + 1 else 0 - k)
      && e.right == dqMax + 1
  }

  lemma LeftStepKeeps(w: Window, k: nat, e: Edges, unseen: int)
    requires k < unseen
    requires AfterLeft(w, k, e, unseen)
    ensures AfterLeft(w, k + 1, LeftStep(e, w.Passes(0 - k, false), k, unseen), unseen)
    ensures SeenLeft(w, k + 1) <==> SeenLeft(w, k) || w.Passes(0 - k, false)
  {
  }

  /** Stopping the left sweep at the first setting that fails after a pass loses nothing. */
  lemma LeftStopIsComplete(w: Window, k: nat, e: Edges, dqMax: nat)
    requires k <= dqMax
    requires AfterLeft(w, k, e, dqMax + 1)
    requires SeenLeft(w, k) && !w.Passes(0 - k, false)
    ensures AfterLeft(w, dqMax + 1, e, dqMax + 1)
  {
  }

  lemma RightStepKeeps(w: Window, k: nat, e: Edges, dqMax: nat)
    requires k <= dqMax
    requires AfterRight(w, k, e, dqMax)
    ensures AfterRight(w, k + 1, RightStep(e, w.Passes(k, true), k, dqMax + 1), dqMax)
    ensures SeenRight(w, k + 1) <==> SeenRight(w, k) || w.Passes(k, true)
  {
  }

  /** Stopping the right sweep at a setting where this bit fails is complete for a bit that
      passed earlier in the sweep, and for one seen by the left sweep unless the stop comes at
      once and its right edge is still open; the marginal rule then closes that edge. */
  lemma RightStopIsComplete(w: Window, k: nat, e: Edges, dqMax: nat, reach: nat)
    requires k <= reach <= dqMax
    requires AfterRight(w, k, e, dqMax)
    requires !w.Passes(k, true)
    requires SeenLeft(w, dqMax + 1) || SeenRight(w, k)
    ensures w.hi < 0 || 0 < k ==> AfterRight(w, reach + 1, e, dqMax)
    ensures k == 0 ==>
              AfterRight(w, reach + 1,
                         if e.right == dqMax + 1 && e.left != dqMax + 1 then e.(right := -1) else e, dqMax)
  {
  }

  /** The sweeps together are exact: a bit has two real edges just when some swept setting
      passes, and then they are the ends of its window cut to the swept range. */
  lemma EdgesAreExact(w: Window, e: Edges, dqMax: nat, reach: nat)
    requires reach <= dqMax
    requires AfterRight(w, reach + 1, e, dqMax)
    ensures w.Visible(dqMax, reach) <==> e.left != dqMax + 1 && e.right != dqMax + 1
    ensures w.Visible(dqMax, reach) ==> e == Edges(w.LeftEdge(dqMax), w.RightEdge(reach))
  {
    if SeenLeft(w, dqMax + 1) {
      assert w.Passes(-(Max(0, -w.hi)), false);
    } else if SeenRight(w, reach + 1) {
      assert w.Passes(Max(w.lo, 0), true);
    }
  }
}
