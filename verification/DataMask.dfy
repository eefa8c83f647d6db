/** Centring the data-mask pin, the DM part of rw_mgr_mem_calibrate_writes_center.  The pass pattern
    is arbitrary: the search makes no assumption about windows. */
module DataMask {
  import opened CInt

  /** Every setting from b to e passes. */
  ghost predicate Run(pass: int -> bool, b: int, e: int) {
    forall x :: b <= x <= e ==> pass(x)
  }

  /** b..e is the first longest all-passing run of lo..hi and win its length; win is 0 when there is none. */
  ghost predicate FirstLongest(pass: int -> bool, lo: int, hi: int, b: int, e: int, win: nat) {
    && (win > 0 ==> lo <= b <= e <= hi && Run(pass, b, e) && win == e - b + 1)
    && (forall p, q :: lo <= p <= q <= hi && Run(pass, p, q) ==>
          q - p + 1 <= win && (q - p + 1 == win ==> b <= p))
  }

  /** The run in progress at x: it began at b and nothing before b belongs to it. */
  ghost predicate Current(pass: int -> bool, lo: int, x: int, b: int, unseen: int) {
    if lo <= x && pass(x) then
      lo <= b <= x && Run(pass, b, x) && (lo < b ==> !pass(b - 1))
    else
      b == unseen
  }

  /** State of the search: the run in progress and the best one so far. */
  datatype Search = Search(bgnCurr: int, endCurr: int, bgnBest: int, endBest: int, winBest: nat)

  ghost predicate Good(pass: int -> bool, lo: int, x: int, s: Search, unseen: int) {
    && FirstLongest(pass, lo, x, s.bgnBest, s.endBest, s.winBest)
    && Current(pass, lo, x, s.bgnCurr, unseen)
    && s.endCurr == (if lo <= x && pass(x) then x else unseen)
  }

  class MaskPin {
    const max: nat
    /** What the all-bits write test answers at a skew, (DQS delay) - (DM delay). */
    const pass: int -> bool
    var dm: int
    var dqs: int

    constructor (max: nat, pass: int -> bool, dm: int, dqs: int)
      requires 0 <= dm <= max && 0 <= dqs <= max
      ensures Valid()
      ensures this.max == max && this.pass == pass && this.dm == dm && this.dqs == dqs
    {
      this.max, this.pass, this.dm, this.dqs := max, pass, dm, dqs;
    }

    ghost predicate Valid()
      reads this
    {
      0 <= dm <= max && 0 <= dqs <= max
    }

    method Test() returns (ok: bool)
      ensures ok == pass(dqs - dm)
    {
      ok := pass(dqs - dm);
    }
  }

  /** The pattern seen from a strobe delay. */
  function From(pass: int -> bool, newDqs: int): int -> bool {
    x => pass(x + newDqs)
  }

  /** One passing setting: the loop body's first branch. */
  function Extend(s: Search, x: int, unseen: int): Search
    requires s.bgnCurr == unseen || s.bgnCurr <= x
  {
    var bgn := if s.bgnCurr == unseen then x else s.bgnCurr;
    if x - bgn + 1 > s.winBest then Search(bgn, x, bgn, x, x - bgn + 1)
    else s.(bgnCurr := bgn, endCurr := x)
  }

  lemma ExtendKeeps(pass: int -> bool, lo: int, x: int, s: Search, unseen: int)
    requires lo <= x < unseen && pass(x)
    requires Good(pass, lo, x - 1, s, unseen)
    ensures Good(pass, lo, x, Extend(s, x, unseen), unseen)
  {
    var t := Extend(s, x, unseen);
    forall p, q | lo <= p <= q <= x && Run(pass, p, q)
      ensures q - p + 1 <= t.winBest && (q - p + 1 == t.winBest ==> t.bgnBest <= p)
    {
    }
  }

  lemma FailKeeps(pass: int -> bool, lo: int, x: int, s: Search, unseen: int)
    requires lo <= x && !pass(x)
    requires Good(pass, lo, x - 1, s, unseen)
    ensures Good(pass, lo, x, s.(bgnCurr := unseen, endCurr := unseen), unseen)
  {
    forall p, q | lo <= p <= q <= x && Run(pass, p, q)
      ensures q - p + 1 <= s.winBest && (q - p + 1 == s.winBest ==> s.bgnBest <= p)
    {
    }
  }

  /** Stopping at a failing setting is complete once the best run is longer than what is left. */
  lemma EarlyExit(pass: int -> bool, lo: int, x: int, hi: int, s: Search)
    requires lo <= x <= hi && !pass(x)
    requires FirstLongest(pass, lo, x, s.bgnBest, s.endBest, s.winBest)
    requires s.winBest - 1 > hi - x
    ensures FirstLongest(pass, lo, hi, s.bgnBest, s.endBest, s.winBest)
  {
    forall p, q | lo <= p <= q <= hi && Run(pass, p, q)
      ensures q - p + 1 <= s.winBest && (q - p + 1 == s.winBest ==> s.bgnBest <= p)
    {
    }
  }

  /** What one test result does to the search.  Zero skew is measured by both sweeps; the second
      time changes nothing. */
  method Note(s: Search, x: int, ok: bool, unseen: int, ghost pass: int -> bool, ghost lo: int)
      returns (t: Search)
    requires lo <= x < unseen && ok == pass(x)
    requires Good(pass, lo, x - 1, s, unseen) || (x == 0 && Good(pass, lo, x, s, unseen))
    requires s.winBest == 0 ==> s.bgnBest == s.endBest == unseen
    ensures Good(pass, lo, x, t, unseen)
    ensures t.winBest == 0 ==> t.bgnBest == t.endBest == unseen
  {
    t := s;
    if ok {
      t := t.(endCurr := x);
      if t.bgnCurr == unseen {
        t := t.(bgnCurr := x);
      }
      if t.endCurr - t.bgnCurr + 1 > t.winBest {
        t := t.(winBest := t.endCurr - t.bgnCurr + 1, bgnBest := t.bgnCurr, endBest := t.endCurr);
      }
    } else {
      t := t.(bgnCurr := unseen, endCurr := unseen);
    }
    if !Good(pass, lo, x, s, unseen) {
      if ok {
        ExtendKeeps(pass, lo, x, s, unseen);
      } else {
        FailKeeps(pass, lo, x, s, unseen);
      }
    }
  }

  /** First part of the DM search: lower the DM delay from its maximum to 0. */
  method SweepMask(c: MaskPin) returns (s: Search)
    requires c.Valid()
    modifies c`dm
    ensures c.dm == 0
    ensures Good(From(c.pass, c.dqs), -(c.max as int), 0, s, c.max + 1)
    ensures s.winBest == 0 ==> s.bgnBest == s.endBest == c.max + 1
  {
    var unseen := c.max + 1;
    ghost var pass, lo := From(c.pass, c.dqs), -(c.max as int);
    s := Search(unseen, unseen, unseen, unseen, 0);
    var d: int := c.max;
    while d >= 0
      invariant -1 <= d <= c.max
      invariant Good(pass, lo, -d - 1, s, unseen)
      invariant s.winBest == 0 ==> s.bgnBest == s.endBest == unseen
    {
      c.dm := d;
      var ok := c.Test();
      s := Note(s, -d, ok, unseen, pass, lo);
      d := d - 1;
    }
    c.dm := 0;
    if s.endCurr != 0 {
      s := s.(bgnCurr := unseen, endCurr := unseen);
    }
  }

  /** One setting of the second part of the search: DQS raised by d. */
  method StrobeStep(c: MaskPin, newDqs: int, d: nat, s: Search, ghost pass: int -> bool)
      returns (t: Search, stop: bool)
    requires c.dm == 0 && 0 <= newDqs && d + newDqs <= c.max && pass == From(c.pass, newDqs)
    requires Good(pass, -(c.max as int), Max(d - 1, 0), s, c.max + 1)
    requires s.winBest == 0 ==> s.bgnBest == s.endBest == c.max + 1
    modifies c`dqs
    ensures c.Valid()
    ensures Good(pass, -(c.max as int), d, t, c.max + 1)
    ensures t.winBest == 0 ==> t.bgnBest == t.endBest == c.max + 1
    ensures stop ==> FirstLongest(pass, -(c.max as int), c.max - newDqs, t.bgnBest, t.endBest, t.winBest)
  {
    c.dqs := d + newDqs;
    var ok := c.Test();
    t := Note(s, d, ok, c.max + 1, pass, -(c.max as int));
    stop := !ok && t.winBest - 1 > c.max - newDqs - d;
    if stop {
      EarlyExit(pass, -(c.max as int), d, c.max - newDqs, t);
    }
  }

  /** Second part of the DM search: raise the DQS delay from newDqs, leaving early once the best run
      is longer than what is left. */
  method SweepStrobe(c: MaskPin, newDqs: int, s0: Search, ghost pass: int -> bool) returns (s: Search)
    requires c.Valid() && c.dm == 0 && 0 <= newDqs <= c.max && pass == From(c.pass, newDqs)
    requires Good(pass, -(c.max as int), 0, s0, c.max + 1)
    requires s0.winBest == 0 ==> s0.bgnBest == s0.endBest == c.max + 1
    modifies c`dqs
    ensures c.Valid()
    ensures FirstLongest(pass, -(c.max as int), c.max - newDqs, s.bgnBest, s.endBest, s.winBest)
    ensures s.winBest == 0 ==> s.bgnBest == s.endBest == c.max + 1
  {
    s := s0;
    var d := 0;
    while d <= c.max - newDqs
      invariant 0 <= d <= c.max - newDqs + 1 && c.Valid()
      invariant Good(pass, -(c.max as int), Max(d - 1, 0), s, c.max + 1)
      invariant s.winBest == 0 ==> s.bgnBest == s.endBest == c.max + 1
    {
      var stop;
      s, stop := StrobeStep(c, newDqs, d, s, pass);
      if stop {
        return;
      }
      d := d + 1;
    }
  }

  /** The DM part of rw_mgr_mem_calibrate_writes_center.  The margin is not negative exactly when the
      DM delay left behind is a setting of the best run, which happens exactly when that run reaches
      zero skew or left of it. */
  method CentreMask(c: MaskPin) returns (margin: int, s: Search)
    requires c.Valid()
    modifies c
    ensures c.Valid() && c.dqs == old(c.dqs)
    ensures FirstLongest(From(c.pass, c.dqs), -(c.max as int), c.max - c.dqs, s.bgnBest, s.endBest, s.winBest)
    ensures margin >= 0 <==> s.winBest > 0 && s.bgnBest <= -c.dm <= s.endBest
    ensures margin >= 0 <==> s.winBest > 0 && s.bgnBest <= 0
    ensures margin >= 0 ==> c.pass(c.dqs - c.dm)
    ensures s.winBest > 0 && s.bgnBest + s.endBest <= 0 ==> 0 <= (-c.dm - s.bgnBest) - (s.endBest + c.dm) <= 1
    ensures s.winBest == 0 || s.bgnBest + s.endBest > 0 ==> c.dm == 0
    ensures margin == if s.winBest == 0 then -1 else -c.dm - s.bgnBest
  {
    var newDqs := c.dqs;
    s := SweepMask(c);
    s := SweepStrobe(c, newDqs, s, From(c.pass, newDqs));
    var left, right := -1 * s.bgnBest, s.endBest;
    c.dqs := newDqs;
    var mid := Half(left - right);
    if mid < 0 {
      mid := 0;
    }
    if s.winBest == 0 {
      margin := -1;
    } else {
      margin := left - mid;
    }
    c.dm := mid;
    assert margin >= 0 ==> From(c.pass, c.dqs)(-c.dm);
  }

  /** The search is for the longest run, not for a usable one: with this pattern it settles on
      3..5, which no DM delay reaches, although DM delay 1 passes. */
  lemma LongestMayBeUnusable(pass: int -> bool)
    requires forall x :: pass(x) <==> x == -1 || 3 <= x <= 5
    ensures FirstLongest(pass, -31, 31, 3, 5, 3) && pass(-1)
  {
    forall p, q | -31 <= p <= q <= 31 && Run(pass, p, q)
      ensures q - p + 1 <= 3 && (q - p + 1 == 3 ==> 3 <= p)
    {
      assert pass(p) && pass(q);
      assert p == -1 && q != -1 ==> pass(0);
    }
  }

  /** p..q lies right of zero and is longer than every run that does not. */
  ghost predicate LongerRight(pass: int -> bool, lo: int, hi: int, p: int, q: int) {
    && 0 < p <= q <= hi && lo <= p && Run(pass, p, q)
    && forall p', q' :: lo <= p' <= q' <= hi && p' <= 0 && Run(pass, p', q') ==> q' - p' < q - p
  }

  /** The search settles on an unusable run exactly when there is one right of zero longer than every run
      that begins at or left of it. */
  lemma UnusableIff(pass: int -> bool, lo: int, hi: int, b: int, e: int, win: nat)
    requires FirstLongest(pass, lo, hi, b, e, win)
    ensures win > 0 && b > 0 <==> exists p, q :: LongerRight(pass, lo, hi, p, q)
  {
    if win > 0 && b > 0 {
      assert LongerRight(pass, lo, hi, b, e);
    }
  }

  /** A best run is determined by the pattern: the search has one possible answer. */
  lemma FirstLongestIsUnique(pass: int -> bool, lo: int, hi: int, b: int, e: int, win: nat, b': int, e': int, win': nat)
    requires FirstLongest(pass, lo, hi, b, e, win) && FirstLongest(pass, lo, hi, b', e', win')
    ensures win == win' && (win > 0 ==> b == b' && e == e')
    ensures win == 0 <==> forall x :: lo <= x <= hi ==> !pass(x)
  {
    assert win > 0 ==> pass(b);
    forall x | lo <= x <= hi && pass(x)
      ensures win > 0
    {
      assert Run(pass, x, x);
    }
  }
}
