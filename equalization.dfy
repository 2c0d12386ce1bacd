/**
 * The two-point stretch of the colorimetric equalisation
 * (EgalisationColorimetrique.py:83-132) and the way its caller uses it
 * (EgalisationColorimetrique.py:209-233).
 */
module EgalisationColorimetrique {
  import opened PyNum
  import opened Histograms
  import opened HistogramMatching

  /** `c[-1] / 10`: a tenth of the pixels. */
  function Tenth(c: seq<int>): real
    requires |c| > 0
  {
    Last(c) as real / 10.0
  }

  /** `c[-1] - c[-1] / 10`: nine tenths of the pixels. */
  function NineTenths(c: seq<int>): real
    requires |c| > 0
  {
    Last(c) as real - Last(c) as real / 10.0
  }

  /** `(seuil*100)/len(...)`: bin k of n as a percentage. */
  function Percent(k: nat, n: nat): real
    requires n > 0
  {
    (k * 100) as real / n as real
  }

  /** `ref_seuil_debut`: the 10th-percentile bin of the reference, as a percentage of its bins. */
  function RefStart(rc: seq<int>): real
    requires |rc| > 0
  {
    Percent(CountBelow(AsReals(rc), Tenth(rc)), |rc|)
  }

  /** `ref_seuil_fin`: the 90th-percentile bin of the reference, as a percentage of its bins. */
  function RefEnd(rc: seq<int>): real
    requires |rc| > 0
  {
    Percent(CountBelow(AsReals(rc), NineTenths(rc)), |rc|)
  }

  /** `match_seuil_debut`: the 10th-percentile bin of the matched histogram, as a bin index. */
  function MatchStart(mc: seq<int>): nat
    requires |mc| > 0
  {
    CountBelow(AsReals(mc), Tenth(mc))
  }

  /** `match_seuil_fin`: the 90th-percentile bin of the matched histogram, as a bin index. */
  function MatchEnd(mc: seq<int>): nat
    requires |mc| > 0
  {
    CountBelow(AsReals(mc), NineTenths(mc))
  }

  /**
   * Line 131 divides by `ref_seuil_fin - ref_seuil_debut` unguarded: the
   * stretch is defined when a cumulative histogram is empty (early return)
   * or when the reference has distinct percentile bins.
   */
  predicate DefinedOn(rc: seq<int>, mc: seq<int>)
  {
    |rc| == 0 || |mc| == 0 || RefStart(rc) != RefEnd(rc)
  }

  /** A `(min, max)` pair of stretch bounds. */
  datatype Bounds = Bounds(min: real, max: real)

  /**
   * Lines 131-132: from the reference percentages (rs, rf) and the matched
   * bins (ms, mf), the slope `val_pourcent` and the returned pair.
   */
  function Ends(rs: real, rf: real, ms: int, mf: int): Bounds
    requires rs != rf
  {
    var r := Slope(rs, rf, ms, mf);
    Bounds(ms as real - rs * r, mf as real + (100.0 - rf) * r)
  }

  /** `val_pourcent`: matched bins per reference percentage point. */
  function Slope(rs: real, rf: real, ms: int, mf: int): real
    requires rs != rf
  {
    (mf - ms) as real / (rf - rs)
  }

  /** The `(min, max)` pair of lines 90-132, from the two cumulative histograms. */
  function StretchOf(rc: seq<int>, mc: seq<int>): Bounds
    requires DefinedOn(rc, mc)
  {
    if |rc| == 0 || |mc| == 0 then Bounds(0.0, 0.0)
    else Ends(RefStart(rc), RefEnd(rc), MatchStart(mc), MatchEnd(mc))
  }

  predicate StretchDefined(b: BandHistograms)
  {
    DefinedOn(Cumulative(b.reference), Cumulative(b.matched))
  }

  /** The `(min, max)` pair `computeHistoMatch` returns for one band. */
  function HistoMatch(b: BandHistograms): Bounds
    requires StretchDefined(b)
  {
    StretchOf(Cumulative(b.reference), Cumulative(b.matched))
  }

  /** `computeHistoMatch`: the stretch bounds of one band. */
  method ComputeHistoMatch(b: BandHistograms) returns (lo: real, hi: real)
    requires StretchDefined(b)
    ensures Bounds(lo, hi) == HistoMatch(b)
  {
    var refCum := Cumulative(b.reference);
    var matchCum := Cumulative(b.matched);
    lo, hi := StretchBounds(refCum, matchCum);
  }

  /** Lines 90-132: the early return and the four percentile loops. */
  method StretchBounds(refCum: seq<int>, matchCum: seq<int>) returns (lo: real, hi: real)
    requires DefinedOn(refCum, matchCum)
    ensures Bounds(lo, hi) == StretchOf(refCum, matchCum)
  {
    if |refCum| == 0 || |matchCum| == 0 {
      return 0.0, 0.0;
    }
    var refNbPix := refCum[|refCum| - 1];
    var seuil := LeadingBelow(AsReals(refCum), refNbPix as real / 10.0);
    var refStart := Percent(seuil, |refCum|);
    seuil := LeadingBelow(AsReals(refCum), refNbPix as real - refNbPix as real / 10.0);
    var refEnd := Percent(seuil, |refCum|);
    var matchNbPix := matchCum[|matchCum| - 1];
    var matchStart := LeadingBelow(AsReals(matchCum), matchNbPix as real / 10.0);
    var matchEnd := LeadingBelow(AsReals(matchCum), matchNbPix as real - matchNbPix as real / 10.0);
    var bounds := Ends(refStart, refEnd, matchStart, matchEnd);
    assert refStart == RefStart(refCum) && refEnd == RefEnd(refCum);
    assert matchStart == MatchStart(matchCum) && matchEnd == MatchEnd(matchCum);
    lo, hi := bounds.min, bounds.max;
  }

  /** With non-negative counts the nine-tenths threshold is at least the one-tenth threshold. */
  lemma ThresholdsOrdered(c: seq<int>)
    requires |c| > 0 && Last(c) >= 0
    ensures Tenth(c) <= NineTenths(c)
    ensures CountBelow(AsReals(c), Tenth(c)) <= CountBelow(AsReals(c), NineTenths(c))
  {
    CountBelowMonotone(AsReals(c), Tenth(c), NineTenths(c));
  }

  /**
   * The reference percentile bins are percentages, `0 <= debut <= fin <= 100`;
   * the matched ones are bin indices, `0 <= debut <= fin <= len`.
   */
  lemma PercentileBounds(b: BandHistograms)
    requires NonNegative(b.reference) && NonNegative(b.matched)
    requires |b.reference| > 0 && |b.matched| > 0
    ensures var rc, mc := Cumulative(b.reference), Cumulative(b.matched);
      && 0.0 <= RefStart(rc) <= RefEnd(rc) <= 100.0
      && 0 <= MatchStart(mc) <= MatchEnd(mc) <= |mc|
  {
    var rc, mc := Cumulative(b.reference), Cumulative(b.matched);
    CumulativeEnds(b.reference);
    CumulativeEnds(b.matched);
    SumNonNegative(b.reference);
    SumNonNegative(b.matched);
    ThresholdsOrdered(rc);
    ThresholdsOrdered(mc);
    PercentMonotone(CountBelow(AsReals(rc), Tenth(rc)), CountBelow(AsReals(rc), NineTenths(rc)), |rc|);
  }

  lemma PercentMonotone(k1: nat, k2: nat, n: nat)
    requires k1 <= k2 <= n && n > 0
    ensures 0.0 <= Percent(k1, n) <= Percent(k2, n) <= 100.0
  {
    DivMonotone(0.0, (k1 * 100) as real, n as real);
    DivMonotone((k1 * 100) as real, (k2 * 100) as real, n as real);
    DivMonotone((k2 * 100) as real, (n * 100) as real, n as real);
    assert (n * 100) as real / n as real == 100.0;
  }

  lemma {:induction false} SumNonNegative(h: seq<int>)
    requires NonNegative(h)
    ensures Sum(h) >= 0
  {
    if h != [] {
      SumNonNegative(h[..|h| - 1]);
    }
  }

  /**
   * The returned pair are the ends, at 0% and 100%, of the line through the
   * two percentile points `(ref_seuil_debut, match_seuil_debut)` and
   * `(ref_seuil_fin, match_seuil_fin)`.
   */
  lemma EndsOfLine(rs: real, rf: real, ms: int, mf: int)
    requires rs != rf
    ensures var Bounds(lo, hi) := Ends(rs, rf, ms, mf);
      var r := Slope(rs, rf, ms, mf);
      && lo + rs * r == ms as real
      && lo + rf * r == mf as real
      && hi == lo + 100.0 * r
  {
    var r := Slope(rs, rf, ms, mf);
    assert (rf - rs) * r == (mf - ms) as real;
  }

  /** The same, stated for the pair computed from a band's histograms. */
  lemma StretchIsLineThroughPercentiles(b: BandHistograms)
    requires StretchDefined(b) && |b.reference| > 0 && |b.matched| > 0
    ensures var rc, mc := Cumulative(b.reference), Cumulative(b.matched);
      var Bounds(lo, hi) := HistoMatch(b);
      var r := Slope(RefStart(rc), RefEnd(rc), MatchStart(mc), MatchEnd(mc));
      && lo + RefStart(rc) * r == MatchStart(mc) as real
      && lo + RefEnd(rc) * r == MatchEnd(mc) as real
      && hi == lo + 100.0 * r
  {
    var rc, mc := Cumulative(b.reference), Cumulative(b.matched);
    EndsOfLine(RefStart(rc), RefEnd(rc), MatchStart(mc), MatchEnd(mc));
  }

  /**
   * Matching a histogram of L bins against itself gives the bounds (0, L):
   * the whole bin range, so the stretch leaves the band unchanged.
   */
  lemma IdenticalHistograms(h: seq<int>)
    requires StretchDefined(BandHistograms(h, h)) && |h| > 0
    ensures HistoMatch(BandHistograms(h, h)) == Bounds(0.0, |h| as real)
  {
    var c := Cumulative(h);
    SameStretch(MatchStart(c), MatchEnd(c), |c|);
  }

  lemma SameStretch(k1: nat, k2: nat, n: nat)
    requires n > 0 && Percent(k1, n) != Percent(k2, n)
    ensures Ends(Percent(k1, n), Percent(k2, n), k1, k2) == Bounds(0.0, n as real)
  {
    var rs, rf := Percent(k1, n), Percent(k2, n);
    var N := n as real;
    assert rf - rs == (k2 as int - k1 as int) as real * 100.0 / N;
    var r := Slope(rs, rf, k1, k2);
    assert r == N / 100.0;
    assert rs * r == k1 as real;
    assert rf * r == k2 as real;
  }

  /** The ten-bin histogram of a 10 x 10 raster, matched against itself, is stretched to (0, 10). */
  lemma TenBinExample()
    ensures var h := [0, 0, 5, 20, 50, 20, 5, 0, 0, 0];
      StretchDefined(BandHistograms(h, h)) && HistoMatch(BandHistograms(h, h)) == Bounds(0.0, 10.0)
  {
    var h := [0, 0, 5, 20, 50, 20, 5, 0, 0, 0];
    TenBinCumulative();
    TenBinCounts();
    IdenticalHistograms(h);
  }

  lemma TenBinCumulative()
    ensures Cumulative([0, 0, 5, 20, 50, 20, 5, 0, 0, 0]) == [0, 0, 5, 25, 75, 95, 100, 100, 100, 100]
  {
    var h := [0, 0, 5, 20, 50, 20, 5, 0, 0, 0];
    FirstSum(h);
    CumulativeStep(h, 1);
    CumulativeStep(h, 2);
    CumulativeStep(h, 3);
    CumulativeStep(h, 4);
    CumulativeStep(h, 5);
    CumulativeStep(h, 6);
    CumulativeStep(h, 7);
    CumulativeStep(h, 8);
    CumulativeStep(h, 9);
  }

  lemma TenBinCounts()
    ensures var c := [0, 0, 5, 25, 75, 95, 100, 100, 100, 100];
      && MatchStart(c) == 3 && MatchEnd(c) == 5
      && RefStart(c) == 30.0 && RefEnd(c) == 50.0
  {
    var c := [0, 0, 5, 25, 75, 95, 100, 100, 100, 100];
    TenBinAsReals();
    assert Tenth(c) == 10.0 && NineTenths(c) == 90.0;
    TenBinPrefixes();
    assert Percent(3, 10) == 30.0 && Percent(5, 10) == 50.0;
  }

  lemma TenBinAsReals()
    ensures AsReals([0, 0, 5, 25, 75, 95, 100, 100, 100, 100])
      == [0.0, 0.0, 5.0, 25.0, 75.0, 95.0, 100.0, 100.0, 100.0, 100.0]
  {
  }

  lemma TenBinPrefixes()
    ensures CountBelow([0.0, 0.0, 5.0, 25.0, 75.0, 95.0, 100.0, 100.0, 100.0, 100.0], 10.0) == 3
    ensures CountBelow([0.0, 0.0, 5.0, 25.0, 75.0, 95.0, 100.0, 100.0, 100.0, 100.0], 90.0) == 5
  {
    assert CountBelow([25.0, 75.0, 95.0, 100.0, 100.0, 100.0, 100.0], 10.0) == 0;
    assert CountBelow([5.0, 25.0, 75.0, 95.0, 100.0, 100.0, 100.0, 100.0], 10.0) == 1;
    assert CountBelow([0.0, 5.0, 25.0, 75.0, 95.0, 100.0, 100.0, 100.0, 100.0], 10.0) == 2;
    assert CountBelow([0.0, 0.0, 5.0, 25.0, 75.0, 95.0, 100.0, 100.0, 100.0, 100.0], 10.0) == 3;
    assert CountBelow([95.0, 100.0, 100.0, 100.0, 100.0], 90.0) == 0;
    assert CountBelow([75.0, 95.0, 100.0, 100.0, 100.0, 100.0], 90.0) == 1;
    assert CountBelow([25.0, 75.0, 95.0, 100.0, 100.0, 100.0, 100.0], 90.0) == 2;
    assert CountBelow([5.0, 25.0, 75.0, 95.0, 100.0, 100.0, 100.0, 100.0], 90.0) == 3;
    assert CountBelow([0.0, 5.0, 25.0, 75.0, 95.0, 100.0, 100.0, 100.0, 100.0], 90.0) == 4;
    assert CountBelow([0.0, 0.0, 5.0, 25.0, 75.0, 95.0, 100.0, 100.0, 100.0, 100.0], 90.0) == 5;
  }

  /**
   * The caller's failure test `(min, max) == (0, 0)` fires for an empty
   * histogram, and for a non-empty one exactly when both matched percentile
   * bins are bin 0.
   */
  lemma ZeroPairMeansFailure(b: BandHistograms)
    requires StretchDefined(b)
    ensures |b.reference| == 0 || |b.matched| == 0 ==> HistoMatch(b) == Bounds(0.0, 0.0)
    ensures |b.reference| > 0 && |b.matched| > 0 ==>
      (HistoMatch(b) == Bounds(0.0, 0.0) <==>
        MatchStart(Cumulative(b.matched)) == 0 && MatchEnd(Cumulative(b.matched)) == 0)
  {
    if |b.reference| > 0 && |b.matched| > 0 {
      var rc, mc := Cumulative(b.reference), Cumulative(b.matched);
      EndsZero(RefStart(rc), RefEnd(rc), MatchStart(mc), MatchEnd(mc));
    }
  }

  lemma EndsZero(rs: real, rf: real, ms: int, mf: int)
    requires rs != rf
    ensures Ends(rs, rf, ms, mf) == Bounds(0.0, 0.0) <==> ms == 0 && mf == 0
  {
    EndsOfLine(rs, rf, ms, mf);
    var r := Slope(rs, rf, ms, mf);
    var e := Ends(rs, rf, ms, mf);
    if ms == 0 && mf == 0 {
      assert r == 0.0 / (rf - rs) == 0.0;
      assert e.min == 0.0 - rs * 0.0 == 0.0;
      assert e.max == 0.0 + (100.0 - rf) * 0.0 == 0.0;
    }
    if e == Bounds(0.0, 0.0) {
      assert 100.0 * r == 0.0;
      assert r == 0.0;
      assert ms as real == 0.0 + rs * 0.0;
      assert mf as real == 0.0 + rf * 0.0;
    }
  }

  /**
   * An all-zero reference histogram (nothing sampled) has both percentile
   * bins at 0: line 131 would divide by zero, so the stretch is undefined.
   */
  lemma EmptyReferenceIsDegenerate(b: BandHistograms)
    requires |b.reference| > 0 && |b.matched| > 0
    requires forall k :: 0 <= k < |b.reference| ==> b.reference[k] == 0
    ensures !StretchDefined(b)
  {
    var rc := Cumulative(b.reference);
    CumulativeEnds(b.reference);
    AllZeroSum(b.reference);
    assert AsReals(rc)[0] == 0.0;
  }

  lemma {:induction false} AllZeroSum(h: seq<int>)
    requires forall k :: 0 <= k < |h| ==> h[k] == 0
    ensures Sum(h) == 0
  {
    if h != [] {
      AllZeroSum(h[..|h| - 1]);
    }
  }

  /** What the caller reports (lines 209-233): failure, or the bounds of the three bands. */
  datatype Outcome = Failure | Stretched(red: Bounds, green: Bounds, blue: Bounds)

  /**
   * Lines 209-233: the red band's `(0, 0)` stops the run; the green and
   * blue bounds are taken as returned, unchecked.
   */
  method Equalize(red: BandHistograms, green: BandHistograms, blue: BandHistograms) returns (o: Outcome)
    requires StretchDefined(red)
    requires HistoMatch(red) != Bounds(0.0, 0.0) ==> StretchDefined(green) && StretchDefined(blue)
    ensures o.Failure? <==> HistoMatch(red) == Bounds(0.0, 0.0)
    ensures o.Stretched? ==> o == Stretched(HistoMatch(red), HistoMatch(green), HistoMatch(blue))
  {
    var lo, hi := ComputeHistoMatch(red);
    if lo == 0.0 && hi == 0.0 {
      return Failure;
    }
    var gLo, gHi := ComputeHistoMatch(green);
    var bLo, bHi := ComputeHistoMatch(blue);
    o := Stretched(Bounds(lo, hi), Bounds(gLo, gHi), Bounds(bLo, bHi));
  }
}
