/** rw_mgr_mem_calibrate_writes_center as a whole: the data pins, then the data-mask pin against the
    same strobe. */
module WritePath {
  import opened DelayChains
  import opened Centering
  import opened DataMask

  /** Write centring succeeds exactly when every data bit's margins hold, which is centred, and the first
      longest run of the mask pin begins at or left of zero skew.  Then every data bit and the mask pin pass
      where they are left, with the strobe where it was. */
  method CentreGroupWrites(g: Group, c: MaskPin) returns (ok: bool, failed: int, s: Search, ghost centred: bool)
    requires g.Valid() && g.base == 0 && g.dqMax == g.dqsMax
    requires c.Valid() && c.max == g.dqsMax && c.dqs == g.dqs
    modifies g`dqs, g.dq, c
    ensures g.Valid() && c.Valid() && g.OthersKept(old(g.dq[..])) && c.dqs == old(c.dqs)
    ensures ok ==> AllPass(g, old(g.dqs)) && c.pass(c.dqs - c.dm) && g.dqs == c.dqs
    ensures WritesEnd(g, old(g.dqs), failed, centred)
    ensures failed != -1 ==> !ok && c.dm == old(c.dm)
    ensures failed == -1 ==>
              && FirstLongest(From(c.pass, c.dqs), -(c.max as int), c.max - c.dqs, s.bgnBest, s.endBest, s.winBest)
              && (ok <==> centred && s.winBest > 0 && s.bgnBest <= 0)
  {
    s := Search(0, 0, 0, 0, 0);
    ok, failed := CentreWrites(g);
    centred := ok;
    if failed == -1 {
      var margin;
      margin, s := CentreMask(c);
      ok := ok && margin >= 0;
    }
  }
}
