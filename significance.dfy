/**
  The direct-quantile p-value of getZetaP (dependencies.py lines 135-168): the observed maximum
  deviation is ranked among the sorted distinct null maxima by linear interpolation, and the
  p-value is 1 - rank/(n + 1).
*/
module Significance {
  import opened Wrappers
  import opened ArrayOps

  /** An observed maximum as a float can hold it: a number, NaN, or an infinity. */
  datatype Observed = Finite(d: real) | NaN | PosInf | NegInf

  /** The order of non-NaN observations. */
  predicate AtMost(a: Observed, b: Observed)
    requires !a.NaN? && !b.NaN?
  {
    a.NegInf? || b.PosInf? || (a.Finite? && b.Finite? && a.d <= b.d)
  }

  lemma RatioInUnit(a: real, b: real)
    requires b > 0.0 && 0.0 <= a <= b
    ensures 0.0 <= a / b <= 1.0
  {
  }

  lemma RatioMonotone(a: real, c: real, b: real)
    requires b > 0.0 && a <= c
    ensures a / b <= c / b
  {
  }

  /**
    The value at d of the piecewise-linear curve through (u[i], i + 1), for d between the
    first and last knot.
  */
  function InterpRank(d: real, u: seq<real>): (r: real)
    requires StrictlySorted(u) && |u| > 0 && u[0] <= d <= u[|u| - 1]
    ensures 1.0 <= r <= |u| as real
    decreases |u|
  {
    if |u| == 1 then 1.0
    else if d <= u[1] then
      RatioInUnit(d - u[0], u[1] - u[0]);
      1.0 + (d - u[0]) / (u[1] - u[0])
    else 1.0 + InterpRank(d, u[1..])
  }

  /** At a knot the interpolation returns that knot's rank exactly. */
  lemma {:induction false} InterpAtKnot(u: seq<real>, j: nat)
    requires StrictlySorted(u) && j < |u|
    ensures InterpRank(u[j], u) == (j + 1) as real
  {
    if j == 1 {
      RatioInUnit(u[1] - u[0], u[1] - u[0]);
      SelfRatio(u[1] - u[0]);
    } else if j >= 2 {
      var tail := u[1..];
      assert u[1] < u[j] && tail[j - 1] == u[j];
      InterpAtKnot(tail, j - 1);
    }
  }

  lemma SelfRatio(x: real)
    requires x != 0.0
    ensures x / x == 1.0
  {
  }

  /** The interpolated rank never decreases as d grows. */
  lemma {:induction false} InterpMonotone(d1: real, d2: real, u: seq<real>)
    requires StrictlySorted(u) && |u| > 0 && u[0] <= d1 <= d2 <= u[|u| - 1]
    ensures InterpRank(d1, u) <= InterpRank(d2, u)
    decreases |u|
  {
    if |u| > 1 {
      if d2 <= u[1] {
        RatioMonotone(d1 - u[0], d2 - u[0], u[1] - u[0]);
      } else if d1 <= u[1] {
        RatioInUnit(d1 - u[0], u[1] - u[0]);
      } else {
        InterpMonotone(d1, d2, u[1..]);
      }
    }
  }

  /** The rank of an observation among the sorted distinct null maxima u, from 0 to |u|. */
  function QuantileRank(obs: Observed, u: seq<real>): (r: real)
    requires StrictlySorted(u) && |u| > 0
    ensures 0.0 <= r <= |u| as real
    ensures obs.NaN? || obs.NegInf? || (obs.Finite? && obs.d < u[0]) ==> r == 0.0
    ensures obs.PosInf? || (obs.Finite? && obs.d > u[|u| - 1]) ==> r == |u| as real
    ensures obs.Finite? && u[0] <= obs.d <= u[|u| - 1] ==> r == InterpRank(obs.d, u) && 1.0 <= r
  {
    match obs
    case NaN => 0.0
    case NegInf => 0.0
    case PosInf => |u| as real
    case Finite(d) =>
      if d < u[0] then 0.0
      else if d > u[|u| - 1] then |u| as real
      else InterpRank(d, u)
  }

  lemma RankToP(r: real, n: nat)
    requires n >= 1 && 0.0 <= r <= n as real
    ensures r == n as real ==> 1.0 - r / (n + 1) as real == 1.0 / (n + 1) as real
    ensures 1.0 <= r ==> 1.0 / (n + 1) as real <= 1.0 - r / (n + 1) as real <= n as real / (n + 1) as real
  {
    var m := (n + 1) as real;
    assert 1.0 - n as real / m == 1.0 / m;
    if 1.0 <= r {
      RatioMonotone(1.0, r, m);
      RatioMonotone(r, n as real, m);
      assert 1.0 - 1.0 / m == n as real / m;
    }
  }

  /** The direct-quantile p-value of obs against the sorted distinct null maxima u. */
  function DirectP(obs: Observed, u: seq<real>): (p: real)
    requires StrictlySorted(u) && |u| > 0
    ensures obs.NaN? || obs.NegInf? || (obs.Finite? && obs.d < u[0]) ==> p == 1.0
    ensures obs.PosInf? || (obs.Finite? && obs.d > u[|u| - 1]) ==> p == 1.0 / (|u| + 1) as real
    ensures obs.Finite? && u[0] <= obs.d <= u[|u| - 1] ==>
      1.0 / (|u| + 1) as real <= p <= |u| as real / (|u| + 1) as real
  {
    var r := QuantileRank(obs, u);
    RankToP(r, |u|);
    1.0 - r / (|u| + 1) as real
  }

  /** A null maximum itself gets the p-value 1 - (j + 1)/(n + 1) from its position j. */
  lemma DirectPAtKnot(u: seq<real>, j: nat)
    requires StrictlySorted(u) && j < |u|
    ensures DirectP(Finite(u[j]), u) == 1.0 - (j + 1) as real / (|u| + 1) as real
  {
    InterpAtKnot(u, j);
  }

  /** The p-value never increases as the observed maximum grows. */
  lemma DirectPMonotone(a: Observed, b: Observed, u: seq<real>)
    requires StrictlySorted(u) && |u| > 0
    requires !a.NaN? && !b.NaN? && AtMost(a, b)
    ensures DirectP(b, u) <= DirectP(a, u)
  {
    var m := (|u| + 1) as real;
    var ra, rb := QuantileRank(a, u), QuantileRank(b, u);
    if a.Finite? && b.Finite? && u[0] <= a.d && b.d <= u[|u| - 1] {
      InterpMonotone(a.d, b.d, u);
    }
    assert ra <= rb;
    RatioMonotone(ra, rb, m);
  }

  /**
    getZetaP in direct-quantile mode: the p-value of every observed maximum, filled in one by
    one. The minimum of an empty null distribution raises as soon as it is needed.
  */
  method GetZetaP(observed: seq<Observed>, nullMax: seq<real>) returns (r: Result<seq<real>>)
    ensures |observed| > 0 && |nullMax| == 0 ==> r == Err(EmptyNullDistribution)
    ensures |observed| == 0 || |nullMax| > 0 ==> r.Ok? && |r.value| == |observed|
    ensures r.Ok? ==> forall i :: 0 <= i < |observed| ==>
      |Unique(nullMax)| > 0 && r.value[i] == DirectP(observed[i], Unique(nullMax))
  {
    var u := Unique(nullMax);
    assert |nullMax| > 0 ==> nullMax[0] in u;
    var p := new real[|observed|];
    for i := 0 to |observed|
      invariant |u| > 0 || i == 0
      invariant forall k :: 0 <= k < i ==> p[k] == DirectP(observed[k], u)
    {
      if |u| == 0 {
        return Err(EmptyNullDistribution);
      }
      p[i] := DirectP(observed[i], u);
    }
    r := Ok(p[..]);
  }
}
