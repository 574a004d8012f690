/**
  The deviation curve of one set of trial-relative spike times (getTempOffsetOne,
  dependencies.py lines 234-265): the empirical cumulative fraction of the sorted distinct
  times, the fraction a constant rate would give, and their difference with its mean removed.
*/
module Deviation {
  import opened Wrappers
  import opened ArrayOps
  import opened SpikeWindows

  /** The four arrays getTempOffsetOne returns, all of one length. */
  datatype Curve = Curve(deviation: seq<real>, fractions: seq<real>, linear: seq<real>, times: seq<real>)

  lemma CancelFactor(m: real, x: real)
    requires m != 0.0
    ensures (m * x) / m == x
  {
  }

  lemma TimesReciprocal(x: real, n: real)
    requires n != 0.0
    ensures x * (1.0 / n) == x / n
  {
  }

  /** Splitting 1 - 1/n into n - 1 equal steps gives steps of 1/n. */
  lemma ReciprocalStep(nr: real)
    requires nr >= 2.0
    ensures (1.0 - 1.0 / nr) / (nr - 1.0) == 1.0 / nr
  {
    var a := 1.0 / nr;
    assert nr * a == 1.0;
    assert 1.0 - a == (nr - 1.0) * a;
    CancelFactor(nr - 1.0, a);
  }

  /** k + 1 steps of 1/n. */
  lemma StepsOfReciprocal(k: nat, nr: real)
    requires nr > 0.0
    ensures 1.0 / nr + k as real * (1.0 / nr) == (k + 1) as real / nr
  {
    assert 1.0 / nr + k as real * (1.0 / nr) == (k + 1) as real * (1.0 / nr);
    TimesReciprocal((k + 1) as real, nr);
  }

  /** The k-th of n evenly spaced values from 1/n to 1 is (k + 1)/n. */
  lemma FractionAt(n: nat, k: nat)
    requires k < n
    ensures Linspace(1.0 / n as real, 1.0, n)[k] == (k + 1) as real / n as real
  {
    var nr := n as real;
    if n >= 2 {
      LinspaceAt(1.0 / nr, 1.0, n, k);
      assert (n - 1) as real == nr - 1.0;
      ReciprocalStep(nr);
      StepsOfReciprocal(k, nr);
    }
  }

  /** The cumulative fractions 1/n, 2/n, ..., 1 of n times. */
  function Fractions(n: nat): (f: seq<real>)
    requires n > 0
    ensures |f| == n
    ensures forall k :: 0 <= k < n ==> f[k] == (k + 1) as real / n as real
  {
    var f := Linspace(1.0 / n as real, 1.0, n);
    forall k | 0 <= k < n ensures f[k] == (k + 1) as real / n as real {
      FractionAt(n, k);
    }
    f
  }

  /** The fraction of the window each time has reached: what a constant rate would give. */
  function LinearFractions(times: seq<real>, w: real): (l: seq<real>)
    requires w != 0.0
    ensures |l| == |times|
    ensures forall k :: 0 <= k < |times| ==> l[k] * w == times[k]
  {
    seq(|times|, k requires 0 <= k < |times| => times[k] / w)
  }

  /** The curve of n distinct sorted times over a window of length w. */
  function DeviationCurve(times: seq<real>, w: real): (c: Curve)
    requires |times| > 0 && w != 0.0
    ensures |c.deviation| == |c.fractions| == |c.linear| == |c.times| == |times|
    ensures c.times == times
    ensures forall k :: 0 <= k < |times| ==> c.fractions[k] == (k + 1) as real / |times| as real
    ensures forall k :: 0 <= k < |times| ==> c.linear[k] * w == times[k]
    ensures Sum(c.deviation) == 0.0
    ensures forall i, j :: 0 <= i < |times| && 0 <= j < |times| ==>
      c.deviation[i] - c.deviation[j] == (c.fractions[i] - c.linear[i]) - (c.fractions[j] - c.linear[j])
  {
    var fractions := Fractions(|times|);
    var linear := LinearFractions(times, w);
    var raw := seq(|times|, k requires 0 <= k < |times| => fractions[k] - linear[k]);
    Curve(Centre(raw), fractions, linear, times)
  }

  /** The deviation of a curve already has mean zero, so removing its mean again changes nothing. */
  lemma CurveCentred(times: seq<real>, w: real)
    requires |times| > 0 && w != 0.0
    ensures Centre(DeviationCurve(times, w).deviation) == DeviationCurve(times, w).deviation
  {
    var d := DeviationCurve(times, w).deviation;
    assert Mean(d) == 0.0;
  }

  /** Number of entries of s at most x. */
  function CountAtMost(s: seq<real>, x: real): nat {
    if s == [] then 0 else (if s[0] <= x then 1 else 0) + CountAtMost(s[1..], x)
  }

  lemma {:induction false} CountAtMostNone(s: seq<real>, x: real)
    requires forall i :: 0 <= i < |s| ==> x < s[i]
    ensures CountAtMost(s, x) == 0
  {
    if s != [] {
      CountAtMostNone(s[1..], x);
    }
  }

  /** In strictly sorted times, exactly k + 1 entries are at most the k-th. */
  lemma {:induction false} RankOfSorted(s: seq<real>, k: nat)
    requires StrictlySorted(s) && k < |s|
    ensures CountAtMost(s, s[k]) == k + 1
  {
    if k == 0 {
      CountAtMostNone(s[1..], s[0]);
    } else {
      RankOfSorted(s[1..], k - 1);
    }
  }

  /**
    For distinct sorted times the fraction of each time is the empirical cumulative
    distribution at that time: the share of times at or before it.
  */
  lemma FractionIsEmpiricalCdf(times: seq<real>, w: real, k: nat)
    requires StrictlySorted(times) && w != 0.0 && k < |times|
    ensures DeviationCurve(times, w).fractions[k] == CountAtMost(times, times[k]) as real / |times| as real
  {
    RankOfSorted(times, k);
  }

  lemma UnitRatio(l: real, w: real, t: real)
    requires w > 0.0 && l * w == t && 0.0 <= t <= w
    ensures 0.0 <= l <= 1.0
  {
  }

  /** For a positive window, times inside [0, w] have linear fractions inside [0, 1]. */
  lemma LinearFractionInUnit(times: seq<real>, w: real)
    requires w > 0.0
    requires forall k :: 0 <= k < |times| ==> 0.0 <= times[k] <= w
    ensures forall k :: 0 <= k < |times| ==> 0.0 <= LinearFractions(times, w)[k] <= 1.0
  {
    var linear := LinearFractions(times, w);
    forall k | 0 <= k < |times| ensures 0.0 <= linear[k] <= 1.0 {
      UnitRatio(linear[k], w, times[k]);
    }
  }

  /**
    What getTempOffsetOne returns: the curve of the sorted distinct windowed times. When two
    windowed times coincide the source separates them by machine-epsilon offsets; that branch
    is not modelled, and the result is then None.
  */
  function TempOffset(spikes: seq<real>, events: seq<real>, w: real): (r: Option<Curve>)
    ensures var v := SpikeT(spikes, events, w); r.Some? <==> |Unique(v)| == |v|
    ensures r.Some? ==> var v := SpikeT(spikes, events, w); var times := r.value.times;
      && |times| == |v| && |times| >= 2 && w != 0.0
      && StrictlySorted(times) && (forall x :: x in times <==> x in v)
      && r.value == DeviationCurve(times, w)
  {
    var v := SpikeT(spikes, events, w);
    var times := Unique(v);
    if |times| < |v| then None
    else
      UniqueKeepsAllMeansDistinct(v, 0, |v| - 1);
      Some(DeviationCurve(times, w))
  }

  /** The curve has fewer than three points exactly when no spike falls inside any window. */
  lemma TooFewTimes(spikes: seq<real>, events: seq<real>, w: real)
    requires TempOffset(spikes, events, w).Some?
    ensures |TempOffset(spikes, events, w).value.deviation| < 3 <==> PairCount(spikes, events, w) == 0
  {
    SpikeTLength(spikes, events, w);
  }

  /** getTempOffsetOne, on top of the imperative getSpikeT. */
  method GetTempOffsetOne(spikes: seq<real>, events: seq<real>, w: real) returns (r: Option<Curve>)
    ensures r == TempOffset(spikes, events, w)
  {
    var v := GetSpikeT(spikes, events, w);
    var times := Unique(v);
    if |times| < |v| {
      return None;
    }
    UniqueKeepsAllMeansDistinct(v, 0, |v| - 1);
    r := Some(DeviationCurve(times, w));
  }
}
