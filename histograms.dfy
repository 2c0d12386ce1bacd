/**
 * Band histograms and the cumulative histograms built from them
 * (HistogramMatching.py:357-358, EgalisationColorimetrique.py:88-89), and
 * the prefix count that every threshold loop of the plugins computes.
 */
module Histograms {

  /** Python's `sum(h)`. */
  function Sum(h: seq<int>): int
  {
    if h == [] then 0 else Sum(h[..|h| - 1]) + h[|h| - 1]
  }

  /** Python's `s[-1]`. */
  function Last(s: seq<int>): int
    requires |s| > 0
  {
    s[|s| - 1]
  }

  predicate NonNegative(h: seq<int>)
  {
    forall i :: 0 <= i < |h| ==> h[i] >= 0
  }

  predicate NonDecreasing(c: seq<int>)
  {
    forall i, j :: 0 <= i <= j < |c| ==> c[i] <= c[j]
  }

  /**
   * `[sum(h[:x+1]) for x in range(len(h))]`: entry x is the number of
   * pixels whose bin is at most x.
   */
  function Cumulative(h: seq<int>): (c: seq<int>)
    ensures |c| == |h|
  {
    seq(|h|, x requires 0 <= x < |h| => Sum(h[..x + 1]))
  }

  /** Each cumulative entry adds exactly one bin to the previous one. */
  lemma CumulativeStep(h: seq<int>, x: nat)
    requires 0 < x < |h|
    ensures Cumulative(h)[x] == Cumulative(h)[x - 1] + h[x]
    ensures Cumulative(h)[0] == h[0]
  {
    assert h[..x + 1][..x] == h[..x];
    FirstSum(h);
  }

  /** The first entry is the first bin, and the last entry is the total pixel count. */
  lemma CumulativeEnds(h: seq<int>)
    requires |h| > 0
    ensures Cumulative(h)[0] == h[0]
    ensures Last(Cumulative(h)) == Sum(h)
  {
    assert h[..|h|] == h;
    FirstSum(h);
  }

  lemma FirstSum(h: seq<int>)
    requires |h| > 0
    ensures Sum(h[..1]) == h[0]
  {
    assert h[..1][..0] == [];
  }

  /** For non-negative counts the cumulative histogram is non-decreasing and non-negative. */
  lemma {:induction false} CumulativeNonDecreasing(h: seq<int>)
    requires NonNegative(h)
    ensures NonDecreasing(Cumulative(h))
    ensures NonNegative(Cumulative(h))
  {
    var c := Cumulative(h);
    if |h| > 0 {
      CumulativeEnds(h);
    }
    forall x | 0 < x < |h|
      ensures c[x - 1] <= c[x]
    {
      CumulativeStep(h, x);
    }
    forall i, j | 0 <= i <= j < |c|
      ensures c[i] <= c[j]
    {
      StepsChain(c, i, j);
    }
  }

  // Adjacent steps that never decrease compose into a non-decreasing sequence.
  lemma {:induction false} StepsChain(c: seq<int>, i: nat, j: nat)
    requires i <= j < |c|
    requires forall x :: 0 < x < |c| ==> c[x - 1] <= c[x]
    ensures c[i] <= c[j]
    decreases j - i
  {
    if i < j {
      StepsChain(c, i + 1, j);
    }
  }

  /** The values of an integer sequence, as floats. */
  function AsReals(s: seq<int>): (r: seq<real>)
    ensures |r| == |s|
  {
    seq(|s|, j requires 0 <= j < |s| => s[j] as real)
  }

  /** `i / total` for every entry `i`: the cumulative fraction of the pixels. */
  function Normalized(s: seq<int>, total: int): (r: seq<real>)
    requires total != 0
    ensures |r| == |s|
  {
    seq(|s|, j requires 0 <= j < |s| => s[j] as real / total as real)
  }

  /**
   * The value of `k` after `k = 0; for v in s: if v < t: k += 1 else: break`:
   * the length of the longest prefix of s whose entries are all below t.
   */
  function CountBelow(s: seq<real>, t: real): (k: nat)
    ensures k <= |s|
    ensures forall j :: 0 <= j < k ==> s[j] < t
    ensures k < |s| ==> s[k] >= t
  {
    if s == [] || s[0] >= t then 0 else 1 + CountBelow(s[1..], t)
  }

  /** The prefix characterisation determines the count. */
  lemma CountBelowUnique(s: seq<real>, t: real, k: nat)
    requires k <= |s|
    requires forall j :: 0 <= j < k ==> s[j] < t
    requires k < |s| ==> s[k] >= t
    ensures k == CountBelow(s, t)
  {
  }

  /**
   * The counting loop the plugins repeat (HistogramMatching.py:233-237 and
   * 241-245, EgalisationColorimetrique.py:94-99, 103-108, 113-118, 122-127):
   * walk the entries from the first, count while they are below the
   * threshold, stop at the first that is not.
   */
  method LeadingBelow(c: seq<real>, threshold: real) returns (k: nat)
    ensures k == CountBelow(c, threshold)
  {
    k := 0;
    for n := 0 to |c|
      invariant k == n
      invariant forall j :: 0 <= j < n ==> c[j] < threshold
    {
      if c[n] < threshold {
        k := k + 1;
      } else {
        break;
      }
    }
    CountBelowUnique(c, threshold, k);
  }

  /** Raising the threshold never shortens the prefix. */
  lemma CountBelowMonotone(s: seq<real>, t1: real, t2: real)
    requires t1 <= t2
    ensures CountBelow(s, t1) <= CountBelow(s, t2)
  {
  }
}
