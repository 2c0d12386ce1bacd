/**
 * The lookup tables of the histogram-matching plugin: the desaturation
 * tuple (HistogramMatching.py:229-250), the reference value of one source
 * intensity (252-266) and the per-band table (357-391).
 */
module HistogramMatching {
  import opened PyNum
  import opened Histograms

  /** The tuple `(min_ref, min_match, pas_match, pas_ref)` of `getDesaturationTuple`. */
  datatype Desaturation = Desaturation(minRef: int, minMatch: nat, pasMatch: real, pasRef: real)

  /**
   * What lines 231-248 need in order to run without an IndexError or a
   * ZeroDivisionError. The desaturation percentage is an integer the
   * plugin accepts between 0 and 100. With d = 0 and a non-empty match
   * histogram, min_ref equals max_ref and line 242 raises: a
   * ZeroDivisionError when the match total is 0, otherwise an IndexError.
   * Only with an empty match histogram does line 247 divide by zero.
   */
  predicate DesaturationDefined(refCum: seq<int>, matchCum: seq<int>, d: int)
  {
    && 1 <= d <= 100
    && (|matchCum| > 0 ==> |refCum| > 0 && Last(refCum) != 0 && Last(matchCum) != 0)
  }

  /** `min_ref = int(max_ref - max_ref*d/100)`: the desaturation cut-off bin, inside the reference domain. */
  function MinRef(maxRef: nat, d: int): (m: int)
    requires 1 <= d <= 100
    ensures maxRef > 0 ==> 0 <= m < maxRef
    ensures maxRef == 0 ==> m == 0
  {
    assert maxRef <= maxRef * d <= 100 * maxRef;
    Trunc(maxRef as real - (maxRef * d) as real / 100.0)
  }

  /** `match_cumulhist[-1] - match_cumulhist[-1]*s/100`: the saturation clip level. */
  function SaturationLevel(matchCum: seq<int>, s: real): real
    requires |matchCum| > 0
  {
    Last(matchCum) as real - Last(matchCum) as real * s / 100.0
  }

  /** `max_match`: the number of leading match bins whose cumulative count is below the clip level. */
  function MaxMatch(matchCum: seq<int>, s: real): (k: nat)
    ensures k <= |matchCum|
  {
    if |matchCum| == 0 then 0 else CountBelow(AsReals(matchCum), SaturationLevel(matchCum, s))
  }

  /** The reference's cumulative fraction at `min_ref`, the level the match histogram is compared with at line 242. */
  function RefLevelAtMinRef(refCum: seq<int>, d: int): real
    requires 1 <= d <= 100 && |refCum| > 0 && Last(refCum) != 0
  {
    refCum[MinRef(|refCum|, d)] as real / Last(refCum) as real
  }

  /** `min_match`: the number of leading match bins whose cumulative fraction is below the reference's at `min_ref`. */
  function MinMatch(refCum: seq<int>, matchCum: seq<int>, d: int): (k: nat)
    requires DesaturationDefined(refCum, matchCum, d)
    ensures k <= |matchCum|
  {
    if |matchCum| == 0 then 0
    else CountBelow(Normalized(matchCum, Last(matchCum)), RefLevelAtMinRef(refCum, d))
  }

  /** The tuple that `getDesaturationTuple` returns. */
  function DesaturationOf(refCum: seq<int>, matchCum: seq<int>, d: int, s: real): (t: Desaturation)
    requires DesaturationDefined(refCum, matchCum, d)
    ensures |refCum| > 0 ==> 0 <= t.minRef < |refCum|
    ensures |refCum| == 0 ==> t.minRef == 0 && t.pasRef == 0.0
    ensures t.minMatch <= |matchCum|
  {
    var minRef := MinRef(|refCum|, d);
    var minMatch := MinMatch(refCum, matchCum, d);
    Desaturation(minRef, minMatch,
                 (MaxMatch(matchCum, s) as int - minMatch as int) as real / d as real,
                 (|refCum| - minRef) as real / d as real)
  }

  /** `getDesaturationTuple`, with its two counting loops. */
  method GetDesaturationTuple(refCum: seq<int>, matchCum: seq<int>, d: int, s: real) returns (t: Desaturation)
    requires DesaturationDefined(refCum, matchCum, d)
    ensures t == DesaturationOf(refCum, matchCum, d, s)
    ensures |refCum| > 0 ==> 0 <= t.minRef < |refCum|
    ensures t.minMatch <= |matchCum|
  {
    var maxRef := |refCum|;
    var maxMatch := 0;
    if |matchCum| > 0 {
      maxMatch := LeadingBelow(AsReals(matchCum), SaturationLevel(matchCum, s));
    }
    var minRef := MinRef(maxRef, d);
    var minMatch := 0;
    if |matchCum| > 0 {
      minMatch := LeadingBelow(Normalized(matchCum, Last(matchCum)), RefLevelAtMinRef(refCum, d));
    }
    var pasMatch := (maxMatch as int - minMatch as int) as real / d as real;
    var pasRef := (maxRef - minRef) as real / d as real;
    t := Desaturation(minRef, minMatch, pasMatch, pasRef);
  }

  /**
   * `pas_ref` is the reference domain's size per percentage point, up to
   * the rounding of `min_ref`: between max_ref/100 and max_ref/100 + 1/d.
   */
  lemma PasRefBounds(refCum: seq<int>, matchCum: seq<int>, d: int, s: real)
    requires DesaturationDefined(refCum, matchCum, d)
    ensures var t := DesaturationOf(refCum, matchCum, d, s);
      |refCum| as real / 100.0 <= t.pasRef < |refCum| as real / 100.0 + 1.0 / d as real
  {
    var L := |refCum|;
    var q := (L * d) as real / 100.0;
    var m := MinRef(L, d);
    assert L as real - q >= 0.0 by {
      assert L * d <= 100 * L;
    }
    assert m as real <= L as real - q < m as real + 1.0;
    var w := (L - m) as real;
    assert q <= w < q + 1.0;
    var dr := d as real;
    assert dr > 0.0;
    assert q / dr == L as real / 100.0;
    DivMonotone(q, w, dr);
    DivStrictMonotone(w, q + 1.0, dr);
    assert (q + 1.0) / dr == q / dr + 1.0 / dr;
  }

  /** What the loop of line 256 reads without dividing by zero. */
  predicate LeadDefined(indice: nat, matchCum: seq<int>, refCum: seq<int>)
  {
    && indice < |matchCum|
    && (|refCum| > 0 ==> Last(refCum) != 0 && Last(matchCum) != 0)
  }

  /** The first test of line 257: reference bin j's cumulative fraction is below the match's at `indice`. */
  predicate RefBelow(indice: nat, matchCum: seq<int>, refCum: seq<int>, j: nat)
    requires LeadDefined(indice, matchCum, refCum) && j < |refCum|
  {
    refCum[j] as real / Last(refCum) as real < matchCum[indice] as real / Last(matchCum) as real
  }

  /**
   * `value` after the loop of lines 256-260: the number of leading
   * reference bins that pass both tests of line 257.
   */
  function LeadCount(indice: nat, matchCum: seq<int>, refCum: seq<int>, minRef: int): (v: nat)
    requires LeadDefined(indice, matchCum, refCum)
    ensures v <= |refCum|
    ensures minRef >= 0 ==> v <= minRef
  {
    if |refCum| == 0 then 0
    else Min(CountBelow(Normalized(refCum, Last(refCum)), matchCum[indice] as real / Last(matchCum) as real),
             Max(minRef, 0))
  }

  /** The count is the first position where one of the two tests of line 257 fails. */
  lemma LeadCountSpec(indice: nat, matchCum: seq<int>, refCum: seq<int>, minRef: int)
    requires LeadDefined(indice, matchCum, refCum)
    ensures var v := LeadCount(indice, matchCum, refCum, minRef);
      && (forall j :: 0 <= j < v ==> RefBelow(indice, matchCum, refCum, j) && j < minRef)
      && (v < |refCum| ==> !RefBelow(indice, matchCum, refCum, v) || v >= minRef)
  {
    if |refCum| > 0 {
      var nr := Normalized(refCum, Last(refCum));
      var c := CountBelow(nr, matchCum[indice] as real / Last(matchCum) as real);
      var v := LeadCount(indice, matchCum, refCum, minRef);
      forall j | 0 <= j < v
        ensures RefBelow(indice, matchCum, refCum, j) && j < minRef
      {
        assert nr[j] < matchCum[indice] as real / Last(matchCum) as real;
      }
      if v < |refCum| && v == c {
        assert nr[v] >= matchCum[indice] as real / Last(matchCum) as real;
      }
    }
  }

  /** The loop's stopping condition determines the count. */
  lemma LeadCountUnique(indice: nat, matchCum: seq<int>, refCum: seq<int>, minRef: int, v: nat)
    requires LeadDefined(indice, matchCum, refCum)
    requires v <= |refCum|
    requires forall j :: 0 <= j < v ==> RefBelow(indice, matchCum, refCum, j) && j < minRef
    requires v < |refCum| ==> !RefBelow(indice, matchCum, refCum, v) || v >= minRef
    ensures v == LeadCount(indice, matchCum, refCum, minRef)
  {
    LeadCountSpec(indice, matchCum, refCum, minRef);
  }

  /** Lines 263-264: the linear extrapolation `int(min_ref + (indice - min_match)/pas_match * pas_ref)`. */
  function Extrapolate(t: Desaturation, indice: int): int
    requires t.pasMatch != 0.0
  {
    Trunc(t.minRef as real + ((indice - t.minMatch) as real / t.pasMatch) * t.pasRef)
  }

  /** What `getRefValue` needs: line 263 divides by `pas_match` whenever the count reaches `min_ref`. */
  predicate RefValueDefined(indice: nat, matchCum: seq<int>, refCum: seq<int>, t: Desaturation)
  {
    && LeadDefined(indice, matchCum, refCum)
    && (LeadCount(indice, matchCum, refCum, t.minRef) == t.minRef ==> t.pasMatch != 0.0)
  }

  /** The value `getRefValue` returns. */
  function RefValue(indice: nat, matchCum: seq<int>, refCum: seq<int>, t: Desaturation): (r: int)
    requires RefValueDefined(indice, matchCum, refCum, t)
    ensures t.minRef >= 0 && LeadCount(indice, matchCum, refCum, t.minRef) != t.minRef ==> 0 <= r < t.minRef && r <= |refCum|
  {
    var v := LeadCount(indice, matchCum, refCum, t.minRef);
    if v == t.minRef then Extrapolate(t, indice) else v
  }

  /** The loop of lines 256-260: count leading reference bins below the match's fraction at `indice`, at most `min_ref` of them. */
  method LeadingRefBins(indice: nat, matchCum: seq<int>, refCum: seq<int>, minRef: int) returns (value: nat)
    requires LeadDefined(indice, matchCum, refCum)
    ensures value == LeadCount(indice, matchCum, refCum, minRef)
  {
    value := 0;
    for n := 0 to |refCum|
      invariant value == n
      invariant forall j :: 0 <= j < n ==> RefBelow(indice, matchCum, refCum, j) && j < minRef
    {
      if RefBelow(indice, matchCum, refCum, n) && value < minRef {
        value := value + 1;
      } else {
        break;
      }
    }
    LeadCountUnique(indice, matchCum, refCum, minRef, value);
  }

  /** `getRefValue`: the count, or the extrapolation of lines 262-264 once it reaches `min_ref`. */
  method GetRefValue(indice: nat, matchCum: seq<int>, refCum: seq<int>, t: Desaturation) returns (value: int)
    requires RefValueDefined(indice, matchCum, refCum, t)
    ensures value == RefValue(indice, matchCum, refCum, t)
  {
    value := LeadingRefBins(indice, matchCum, refCum, t.minRef);
    if value == t.minRef {
      value := Extrapolate(t, indice);
    }
  }

  /** Both branches of `getRefValue`: a count short of `min_ref` is returned as is, otherwise the extrapolation. */
  lemma RefValueCases(indice: nat, matchCum: seq<int>, refCum: seq<int>, t: Desaturation)
    requires RefValueDefined(indice, matchCum, refCum, t)
    requires t.minRef >= 0
    ensures var v := LeadCount(indice, matchCum, refCum, t.minRef);
      || (v < t.minRef && RefValue(indice, matchCum, refCum, t) == v)
      || (v == t.minRef && RefValue(indice, matchCum, refCum, t) == Extrapolate(t, indice))
  {
  }

  /**
   * For a non-decreasing match histogram the count of line 256 never
   * decreases with the intensity: a brighter source pixel is matched to at
   * least as many reference bins.
   */
  lemma {:induction false} LeadCountMonotone(x: nat, y: nat, matchCum: seq<int>, refCum: seq<int>, minRef: int)
    requires x <= y < |matchCum|
    requires NonDecreasing(matchCum) && Last(matchCum) > 0
    requires |refCum| > 0 ==> Last(refCum) != 0
    ensures LeadCount(x, matchCum, refCum, minRef) <= LeadCount(y, matchCum, refCum, minRef)
  {
    if |refCum| > 0 {
      var m := Last(matchCum) as real;
      assert matchCum[x] <= matchCum[y];
      DivMonotone(matchCum[x] as real, matchCum[y] as real, m);
      CountBelowMonotone(Normalized(refCum, Last(refCum)), matchCum[x] as real / m, matchCum[y] as real / m);
    }
  }

  /** With positive steps the extrapolation is non-decreasing in the intensity. */
  lemma ExtrapolateMonotone(t: Desaturation, x: int, y: int)
    requires t.pasMatch > 0.0 && t.pasRef >= 0.0
    requires x <= y
    ensures Extrapolate(t, x) <= Extrapolate(t, y)
  {
    var a := (x - t.minMatch) as real / t.pasMatch;
    var b := (y - t.minMatch) as real / t.pasMatch;
    assert a <= b;
    assert a * t.pasRef <= b * t.pasRef;
    TruncMonotone(t.minRef as real + a * t.pasRef, t.minRef as real + b * t.pasRef);
  }

  /**
   * The extrapolation is the line through (min_match, min_ref) and
   * (max_match, max_ref): it sends `min_match` to `min_ref` and
   * `max_match` to `max_ref = len(ref_cumulhist)`.
   */
  lemma ExtrapolationEndpoints(refCum: seq<int>, matchCum: seq<int>, d: int, s: real)
    requires DesaturationDefined(refCum, matchCum, d)
    requires DesaturationOf(refCum, matchCum, d, s).pasMatch != 0.0
    ensures var t := DesaturationOf(refCum, matchCum, d, s);
      && Extrapolate(t, t.minMatch) == t.minRef
      && Extrapolate(t, MaxMatch(matchCum, s)) == |refCum|
  {
    var t := DesaturationOf(refCum, matchCum, d, s);
    LineThroughEnds(t, MaxMatch(matchCum, s), |refCum|, d as real);
  }

  // The extrapolation of a tuple whose steps span (min_match, min_ref) to (maxMatch, maxRef) in d steps.
  lemma LineThroughEnds(t: Desaturation, maxMatch: int, maxRef: int, d: real)
    requires d != 0.0 && t.pasMatch != 0.0
    requires t.pasMatch == (maxMatch - t.minMatch) as real / d
    requires t.pasRef == (maxRef - t.minRef) as real / d
    ensures Extrapolate(t, t.minMatch) == t.minRef
    ensures Extrapolate(t, maxMatch) == maxRef
  {
    var a := (maxMatch - t.minMatch) as real;
    var w := (maxRef - t.minRef) as real;
    assert a != 0.0;
    StepsCancel(a, w, d);
    assert t.minRef as real + (a / t.pasMatch) * t.pasRef == maxRef as real;
    TruncOfInt(maxRef);
    assert (t.minMatch - t.minMatch) as real / t.pasMatch * t.pasRef == 0.0;
    TruncOfInt(t.minRef);
  }

  /** Once the count of `getRefValue` reaches `min_ref` at `max_match`, the value returned there is `max_ref`. */
  lemma RefValueAtMaxMatch(refCum: seq<int>, matchCum: seq<int>, d: int, s: real)
    requires DesaturationDefined(refCum, matchCum, d)
    requires MaxMatch(matchCum, s) < |matchCum|
    requires RefValueDefined(MaxMatch(matchCum, s), matchCum, refCum, DesaturationOf(refCum, matchCum, d, s))
    requires var t := DesaturationOf(refCum, matchCum, d, s);
      LeadCount(MaxMatch(matchCum, s), matchCum, refCum, t.minRef) == t.minRef
    ensures RefValue(MaxMatch(matchCum, s), matchCum, refCum, DesaturationOf(refCum, matchCum, d, s)) == |refCum|
  {
    ExtrapolationEndpoints(refCum, matchCum, d, s);
  }

  /** Every intensity of the match histogram can be looked up (line 361 maps all of them). */
  predicate TableDefined(matchCum: seq<int>, refCum: seq<int>, t: Desaturation)
  {
    forall x :: 0 <= x < |matchCum| ==> RefValueDefined(x, matchCum, refCum, t)
  }

  /** Line 361: `[getRefValue(x, ...) for x in range(len(match_cumulhist))]`. */
  function TransformationTable(matchCum: seq<int>, refCum: seq<int>, t: Desaturation): (table: seq<int>)
    requires TableDefined(matchCum, refCum, t)
    ensures |table| == |matchCum|
  {
    seq(|matchCum|, x requires 0 <= x < |matchCum| => RefValue(x, matchCum, refCum, t))
  }

  /**
   * The table falls into two runs. Intensities whose count stays short of
   * `min_ref` come first; their entries lie in [0, min_ref) and do not
   * decrease. Every later intensity is extrapolated.
   */
  lemma TableShape(matchCum: seq<int>, refCum: seq<int>, t: Desaturation, x: nat, y: nat)
    requires TableDefined(matchCum, refCum, t)
    requires x <= y < |matchCum|
    requires NonDecreasing(matchCum) && Last(matchCum) > 0
    requires |refCum| > 0 ==> Last(refCum) != 0
    requires t.minRef >= 0
    ensures var table := TransformationTable(matchCum, refCum, t);
      && (LeadCount(x, matchCum, refCum, t.minRef) == t.minRef ==>
            LeadCount(y, matchCum, refCum, t.minRef) == t.minRef && t.pasMatch != 0.0
            && table[y] == Extrapolate(t, y))
      && (LeadCount(y, matchCum, refCum, t.minRef) < t.minRef ==>
            0 <= table[x] <= table[y] < t.minRef)
  {
    LeadCountMonotone(x, y, matchCum, refCum, t.minRef);
    assert RefValueDefined(x, matchCum, refCum, t) && RefValueDefined(y, matchCum, refCum, t);
  }

  /**
   * The extrapolated run does not decrease either when the two steps are
   * positive, as they are when `max_match > min_match`.
   */
  lemma TableExtrapolatedMonotone(matchCum: seq<int>, refCum: seq<int>, t: Desaturation, x: nat, y: nat)
    requires TableDefined(matchCum, refCum, t)
    requires x <= y < |matchCum|
    requires NonDecreasing(matchCum) && Last(matchCum) > 0
    requires |refCum| > 0 ==> Last(refCum) != 0
    requires t.minRef >= 0 && t.pasMatch > 0.0 && t.pasRef >= 0.0
    requires LeadCount(x, matchCum, refCum, t.minRef) == t.minRef
    ensures TransformationTable(matchCum, refCum, t)[x] <= TransformationTable(matchCum, refCum, t)[y]
  {
    TableShape(matchCum, refCum, t, x, y);
    ExtrapolateMonotone(t, x, y);
  }

  /**
   * A table entry can equal `max_ref`, one past the reference domain: four
   * bins of one pixel each, matched against themselves with 50%
   * desaturation and no saturation, give the table [0, 1, 2, 4].
   */
  lemma TableCanReachMaxRef()
    ensures Cumulative([1, 1, 1, 1]) == [1, 2, 3, 4]
    ensures DesaturationOf([1, 2, 3, 4], [1, 2, 3, 4], 50, 0.0) == Desaturation(2, 2, 1.0 / 50.0, 2.0 / 50.0)
    ensures var c, t := [1, 2, 3, 4], Desaturation(2, 2, 1.0 / 50.0, 2.0 / 50.0);
      TableDefined(c, c, t) && TransformationTable(c, c, t) == [0, 1, 2, 4]
  {
    var h := [1, 1, 1, 1];
    FirstSum(h);
    CumulativeStep(h, 1);
    CumulativeStep(h, 2);
    CumulativeStep(h, 3);
    ExampleTuple();
    ExampleTable();
  }

  lemma ExampleCounts()
    ensures CountBelow(AsReals([1, 2, 3, 4]), 4.0) == 3
    ensures var n := Normalized([1, 2, 3, 4], 4);
      CountBelow(n, 0.25) == 0 && CountBelow(n, 0.5) == 1 && CountBelow(n, 0.75) == 2 && CountBelow(n, 1.0) == 3
  {
    assert AsReals([1, 2, 3, 4]) == [1.0, 2.0, 3.0, 4.0];
    assert Normalized([1, 2, 3, 4], 4) == [0.25, 0.5, 0.75, 1.0];
    assert CountBelow([4.0], 4.0) == 0;
    assert CountBelow([3.0, 4.0], 4.0) == 1;
    assert CountBelow([2.0, 3.0, 4.0], 4.0) == 2;
    assert CountBelow([0.75, 1.0], 0.75) == 0;
    assert CountBelow([0.5, 0.75, 1.0], 0.75) == 1;
    assert CountBelow([0.5, 0.75, 1.0], 0.5) == 0;
    assert CountBelow([1.0], 1.0) == 0;
    assert CountBelow([0.75, 1.0], 1.0) == 1;
    assert CountBelow([0.5, 0.75, 1.0], 1.0) == 2;
  }

  lemma ExampleTuple()
    ensures DesaturationOf([1, 2, 3, 4], [1, 2, 3, 4], 50, 0.0) == Desaturation(2, 2, 1.0 / 50.0, 2.0 / 50.0)
  {
    ExampleCounts();
    assert MinRef(4, 50) == 2;
    assert MaxMatch([1, 2, 3, 4], 0.0) == 3;
    assert RefLevelAtMinRef([1, 2, 3, 4], 50) == 0.75;
    assert MinMatch([1, 2, 3, 4], [1, 2, 3, 4], 50) == 2;
  }

  lemma ExampleTable()
    ensures var c, t := [1, 2, 3, 4], Desaturation(2, 2, 1.0 / 50.0, 2.0 / 50.0);
      TableDefined(c, c, t) && TransformationTable(c, c, t) == [0, 1, 2, 4]
  {
    var c, t := [1, 2, 3, 4], Desaturation(2, 2, 1.0 / 50.0, 2.0 / 50.0);
    ExampleCounts();
    assert LeadCount(0, c, c, 2) == 0;
    assert LeadCount(1, c, c, 2) == 1;
    assert LeadCount(2, c, c, 2) == 2;
    assert LeadCount(3, c, c, 2) == 2;
    assert Extrapolate(t, 2) == 2;
    assert Extrapolate(t, 3) == 4;
  }

  /** The two histograms of one band, as the raster providers return them. */
  datatype BandHistograms = BandHistograms(reference: seq<int>, matched: seq<int>)

  /** What lines 357-361 need for one band. */
  predicate BandDefined(b: BandHistograms, d: int, s: real)
  {
    var rc := Cumulative(b.reference);
    var mc := Cumulative(b.matched);
    DesaturationDefined(rc, mc, d) && TableDefined(mc, rc, DesaturationOf(rc, mc, d, s))
  }

  /** The transformation table of one band (lines 357-361). */
  function BandTable(b: BandHistograms, d: int, s: real): seq<int>
    requires BandDefined(b, d, s)
  {
    var rc := Cumulative(b.reference);
    var mc := Cumulative(b.matched);
    TransformationTable(mc, rc, DesaturationOf(rc, mc, d, s))
  }

  /** Lines 357-361 for one band: cumulative histograms, desaturation tuple, table. */
  method BuildBandTable(b: BandHistograms, d: int, s: real) returns (table: seq<int>)
    requires BandDefined(b, d, s)
    ensures table == BandTable(b, d, s)
    ensures |table| == |b.matched|
  {
    var refCum := Cumulative(b.reference);
    var matchCum := Cumulative(b.matched);
    var t := GetDesaturationTuple(refCum, matchCum, d, s);
    table := TransformationTable(matchCum, refCum, t);
  }

  datatype Tables = Tables(red: seq<int>, green: seq<int>, blue: seq<int>)

  /**
   * Lines 349-391: the three tables, or None when the red band's match
   * histogram is empty (the failure reported at lines 353-355). The green
   * and blue histograms are not checked.
   */
  method BuildTables(red: BandHistograms, green: BandHistograms, blue: BandHistograms, d: int, s: real)
    returns (r: Option<Tables>)
    requires |red.matched| > 0 ==> BandDefined(red, d, s) && BandDefined(green, d, s) && BandDefined(blue, d, s)
    ensures r.None? <==> |red.matched| == 0
    ensures r.Some? ==> r.value == Tables(BandTable(red, d, s), BandTable(green, d, s), BandTable(blue, d, s))
    ensures r.Some? ==> |r.value.red| == |red.matched| && |r.value.green| == |green.matched| && |r.value.blue| == |blue.matched|
  {
    if |red.matched| == 0 {
      return None;
    }
    var tRed := BuildBandTable(red, d, s);
    var tGreen := BuildBandTable(green, d, s);
    var tBlue := BuildBandTable(blue, d, s);
    r := Some(Tables(tRed, tGreen, tBlue));
  }
}
