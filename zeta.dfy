/**
  calcZetaOne (dependencies.py lines 9-132): the ZETA responsiveness test of one spike train
  against a set of event onsets. The event array is validated and oriented, the spikes are
  reduced to the span around the events, optionally stitched into pseudo time, and turned into
  the deviation curve; the largest absolute deviation is then compared with the largest
  deviations of curves built against jittered onsets.
*/
module Zeta {
  import opened Wrappers
  import opened ArrayOps
  import opened Events
  import opened SpikeWindows
  import opened Deviation
  import opened Significance
  import opened Stitching

  // ---------------------------------------------------------------- jitter

  /** The trial jitters: the jitter size times n evenly spaced values from -w to w. */
  function JitterVector(n: nat, w: real, jitter: real): (r: seq<real>)
    ensures |r| == n
  {
    var l := Linspace(-w, w, n);
    seq(n, k requires 0 <= k < n => jitter * l[k])
  }

  lemma MulDiv(x: real, m: real)
    requires m != 0.0
    ensures m * (x / m) == x
  {
  }

  lemma Distribute(a: real, b: real, s: real)
    ensures a * s + b * s == (a + b) * s
  {
  }

  /** Steps x and y from -a towards a that add up to the whole span land opposite each other. */
  lemma OppositeSteps(a: real, m: real, x: real, y: real)
    requires m > 0.0 && x + y == m
    ensures -a + x * ((a - -a) / m) == -(-a + y * ((a - -a) / m))
  {
    var step := (a - -a) / m;
    Distribute(x, y, step);
    MulDiv(a - -a, m);
  }

  /** Evenly spaced values from -a to a are symmetric around zero. */
  lemma LinspaceSymmetric(a: real, n: nat, k: nat)
    requires 2 <= n && k < n
    ensures Linspace(-a, a, n)[k] == -Linspace(-a, a, n)[n - 1 - k]
  {
    LinspaceAt(-a, a, n, k);
    LinspaceAt(-a, a, n, n - 1 - k);
    OppositeSteps(a, (n - 1) as real, k as real, (n - 1 - k) as real);
  }

  /** With two trials or more, the jitters are symmetric around zero. */
  lemma JitterSymmetric(n: nat, w: real, jitter: real, k: nat)
    requires 2 <= n && k < n
    ensures JitterVector(n, w, jitter)[k] == -JitterVector(n, w, jitter)[n - 1 - k]
  {
    var l := Linspace(-w, w, n);
    LinspaceSymmetric(w, n, k);
    assert jitter * l[k] == -(jitter * l[n - 1 - k]);
  }

  lemma MulMonotone(a: real, b: real, c: real)
    requires 0.0 <= a <= b && 0.0 <= c
    ensures a * c <= b * c
  {
  }

  lemma AbsProduct(a: real, x: real, bound: real)
    requires Abs(x) <= bound
    ensures Abs(a * x) <= Abs(a) * bound
  {
    assert Abs(a * x) == Abs(a) * Abs(x);
    MulMonotone(Abs(x), bound, Abs(a));
  }

  /** Evenly spaced values from -a to a stay inside [-a, a] for non-negative a. */
  lemma LinspaceInside(a: real, n: nat, k: nat)
    requires a >= 0.0 && k < n
    ensures -a <= Linspace(-a, a, n)[k] <= a
  {
    if n >= 2 {
      var span := a - -a;
      var m := (n - 1) as real;
      var step := span / m;
      LinspaceAt(-a, a, n, k);
      MulMonotone(k as real, m, step);
      MulDiv(span, m);
      assert k as real * step <= span;
    }
  }

  /** For a non-negative window, no trial is shifted by more than the jitter size times the window. */
  lemma JitterBounded(n: nat, w: real, jitter: real, k: nat)
    requires w >= 0.0 && k < n
    ensures Abs(JitterVector(n, w, jitter)[k]) <= Abs(jitter) * w
  {
    var l := Linspace(-w, w, n);
    LinspaceInside(w, n, k);
    AbsProduct(jitter, l[k], w);
  }

  // ---------------------------------------------------------------- permutations

  /** A rearrangement of 0, ..., n - 1, as the library's random permutation returns it. */
  predicate IsPermutation(perm: seq<nat>, n: nat) {
    multiset(perm) == multiset(Range(0, n))
  }

  /** Every resampling draws a rearrangement of the n trials. */
  predicate Permutations(perms: seq<seq<nat>>, n: nat) {
    forall q :: 0 <= q < |perms| ==> |perms[q]| == n && IsPermutation(perms[q], n)
  }

  /** A rearrangement of 0, ..., n - 1 has n entries, all below n. */
  lemma PermutationEntries(perm: seq<nat>, n: nat)
    requires IsPermutation(perm, n)
    ensures |perm| == n && forall k :: 0 <= k < n ==> perm[k] < n
  {
    assert |perm| == |multiset(perm)| == |multiset(Range(0, n))| == n;
    forall k | 0 <= k < n ensures perm[k] < n {
      assert perm[k] in multiset(Range(0, n));
    }
  }

  /** The entries of v at the given indices, in their order (an index past the end picks 0). */
  function Pick(v: seq<real>, idx: seq<nat>): (r: seq<real>)
    ensures |r| == |idx|
    ensures forall k :: 0 <= k < |idx| && idx[k] < |v| ==> r[k] == v[idx[k]]
  {
    seq(|idx|, k requires 0 <= k < |idx| => if idx[k] < |v| then v[idx[k]] else 0.0)
  }

  lemma PickAppend(v: seq<real>, x: seq<nat>, y: seq<nat>)
    ensures Pick(v, x + y) == Pick(v, x) + Pick(v, y)
  {
  }

  /** Removing one entry of a sequence removes one copy of it from the multiset. */
  lemma RemoveOne(q: seq<nat>, j: nat)
    requires j < |q|
    ensures multiset(q[..j] + q[j + 1..]) == multiset(q) - multiset{q[j]}
  {
    assert q == q[..j] + [q[j]] + q[j + 1..];
  }

  /** Index sequences holding the same indices pick the same values, with the same repeats. */
  lemma {:induction false} PickRearranged(v: seq<real>, p: seq<nat>, q: seq<nat>)
    requires multiset(p) == multiset(q)
    ensures multiset(Pick(v, p)) == multiset(Pick(v, q))
    decreases |p|
  {
    if p != [] {
      var a := p[0];
      var tail := p[1..];
      assert p == [a] + tail;
      assert a in q by {
        assert a in multiset(q);
      }
      var j :| 0 <= j < |q| && q[j] == a;
      var front, back := q[..j], q[j + 1..];
      assert q == front + ([a] + back);
      RemoveOne(q, j);
      RemoveOne(p, 0);
      assert p[..0] + tail == tail;
      PickRearranged(v, tail, front + back);
      var one := Pick(v, [a]);
      PickAppend(v, [a], tail);
      PickAppend(v, [a], back);
      PickAppend(v, front, [a] + back);
      PickAppend(v, front, back);
      assert multiset(Pick(v, p)) == multiset(one) + multiset(Pick(v, tail));
      assert multiset(Pick(v, q)) == multiset(Pick(v, front)) + (multiset(one) + multiset(Pick(v, back)));
    } else {
      assert |q| == |multiset(q)| == 0;
    }
  }

  /** Picking through a permutation rearranges v: every entry is used exactly once. */
  lemma PickPermuted(v: seq<real>, perm: seq<nat>)
    requires IsPermutation(perm, |v|)
    ensures |perm| == |v| && (forall k :: 0 <= k < |perm| ==> perm[k] < |v|)
    ensures multiset(Pick(v, perm)) == multiset(v)
  {
    PermutationEntries(perm, |v|);
    var all := Range(0, |v|);
    PickRearranged(v, perm, all);
    assert Pick(v, all) == v;
  }

  /** The onsets of one resampling: every onset shifted by the jitter its trial draws. */
  function JitteredOnsets(pe: seq<real>, jv: seq<real>, perm: seq<nat>): (r: seq<real>)
    requires |jv| == |pe| && IsPermutation(perm, |pe|)
    ensures |r| == |pe|
  {
    PermutationEntries(perm, |pe|);
    var shift := Pick(jv, perm);
    seq(|pe|, k requires 0 <= k < |pe| => pe[k] + shift[k])
  }

  /** The shifts applied to the onsets of one resampling are the trial jitters, each used once. */
  lemma ShiftsAreJitters(pe: seq<real>, jv: seq<real>, perm: seq<nat>)
    requires |jv| == |pe| && IsPermutation(perm, |pe|)
    ensures var on := JitteredOnsets(pe, jv, perm);
      multiset(seq(|pe|, k requires 0 <= k < |pe| => on[k] - pe[k])) == multiset(jv)
  {
    PermutationEntries(perm, |pe|);
    var on := JitteredOnsets(pe, jv, perm);
    assert seq(|pe|, k requires 0 <= k < |pe| => on[k] - pe[k]) == Pick(jv, perm);
    PickPermuted(jv, perm);
  }

  // ---------------------------------------------------------------- resamplings

  /** One resampling: the curve of the pseudo spikes against jittered onsets, its deviation re-centred. */
  function ResampleOne(ps: seq<real>, pe: seq<real>, jv: seq<real>, perm: seq<nat>, w: real): (r: Result<Curve>)
    requires |jv| == |pe| && IsPermutation(perm, |pe|)
    ensures r.Err? <==> TempOffset(ps, JitteredOnsets(pe, jv, perm), w).None?
    ensures r.Err? ==> r.error == TiedSpikeTimes
    ensures r.Ok? ==> r.value == TempOffset(ps, JitteredOnsets(pe, jv, perm), w).value
    ensures r.Ok? ==> |r.value.deviation| >= 2 && Sum(r.value.deviation) == 0.0
  {
    match TempOffset(ps, JitteredOnsets(pe, jv, perm), w)
    case None => Err(TiedSpikeTimes)
    case Some(c) =>
      CurveCentred(c.times, w);
      Ok(c.(deviation := Centre(c.deviation)))
  }

  /** The values of a run of results, or the first failure among them. */
  function Collect<T>(rs: seq<Result<T>>): (r: Result<seq<T>>)
    decreases |rs|
  {
    if rs == [] then Ok([])
    else
      match Collect(rs[..|rs| - 1])
      case Err(e) => Err(e)
      case Ok(xs) =>
        match rs[|rs| - 1]
        case Err(e) => Err(e)
        case Ok(x) => Ok(xs + [x])
  }

  /**
    Collecting succeeds exactly when every result does, and then holds each value at its own
    position; a failure is the failure of one of the results.
  */
  lemma {:induction false} CollectAll<T>(rs: seq<Result<T>>)
    ensures Collect(rs).Ok? <==> forall q :: 0 <= q < |rs| ==> rs[q].Ok?
    ensures Collect(rs).Ok? ==> |Collect(rs).value| == |rs|
    ensures Collect(rs).Ok? ==> forall q :: 0 <= q < |rs| ==> Collect(rs).value[q] == rs[q].value
    ensures Collect(rs).Err? ==> exists q :: 0 <= q < |rs| && rs[q] == Err(Collect(rs).error)
    decreases |rs|
  {
    if rs != [] {
      var init := rs[..|rs| - 1];
      CollectAll(init);
      assert forall q :: 0 <= q < |init| ==> init[q] == rs[q];
    }
  }

  /** One more result extends the collection of a prefix. */
  lemma CollectStep<T>(rs: seq<Result<T>>, q: nat)
    requires q < |rs|
    ensures Collect(rs[..q + 1]) == match Collect(rs[..q])
      case Err(e) => Err(e)
      case Ok(xs) => (match rs[q] case Err(e) => Err(e) case Ok(x) => Ok(xs + [x]))
  {
    assert rs[..q + 1][..q] == rs[..q];
  }

  /** The result of every resampling drawn by perms. */
  function Resamplings(ps: seq<real>, pe: seq<real>, jv: seq<real>, perms: seq<seq<nat>>, w: real): (rs: seq<Result<Curve>>)
    requires |jv| == |pe| && Permutations(perms, |pe|)
    ensures |rs| == |perms|
    ensures forall q :: 0 <= q < |perms| ==> rs[q] == ResampleOne(ps, pe, jv, perms[q], w)
    ensures forall q :: 0 <= q < |perms| && rs[q].Err? ==> rs[q].error == TiedSpikeTimes
    ensures forall q :: 0 <= q < |perms| && rs[q].Ok? ==>
      |rs[q].value.deviation| >= 2 && Sum(rs[q].value.deviation) == 0.0
  {
    seq(|perms|, q requires 0 <= q < |perms| => ResampleOne(ps, pe, jv, perms[q], w))
  }

  /**
    All resamplings in order, or the first failing one. They all succeed exactly when every
    single one does, a failure is always a tie, and every curve has a centred deviation.
  */
  lemma ResampledAll(ps: seq<real>, pe: seq<real>, jv: seq<real>, perms: seq<seq<nat>>, w: real)
    requires |jv| == |pe| && Permutations(perms, |pe|)
    ensures var rs := Resamplings(ps, pe, jv, perms, w); var r := Collect(rs);
      && (r.Ok? <==> forall q :: 0 <= q < |perms| ==> rs[q].Ok?)
      && (r.Err? ==> r.error == TiedSpikeTimes)
      && (r.Ok? ==> |r.value| == |perms| && forall q :: 0 <= q < |perms| ==>
            r.value[q] == rs[q].value && |r.value[q].deviation| >= 2 && Sum(r.value[q].deviation) == 0.0)
  {
    CollectAll(Resamplings(ps, pe, jv, perms, w));
  }

  function RandTimes(cs: seq<Curve>): (r: seq<seq<real>>)
    ensures |r| == |cs|
  {
    seq(|cs|, q requires 0 <= q < |cs| => cs[q].times)
  }

  function RandDeviations(cs: seq<Curve>): (r: seq<seq<real>>)
    ensures |r| == |cs|
  {
    seq(|cs|, q requires 0 <= q < |cs| => cs[q].deviation)
  }

  /** The largest absolute deviation of every resampled curve (no resampled curve is empty). */
  function NullMaxima(cs: seq<Curve>): (r: seq<real>)
    ensures |r| == |cs|
  {
    seq(|cs|, q requires 0 <= q < |cs| => if cs[q].deviation == [] then 0.0 else MaxAbs(cs[q].deviation))
  }

  // ---------------------------------------------------------------- significance

  /**
    The significance of the observed maximum: the direct-quantile p-value, or, in Gumbel mode,
    the sorted distinct null maxima the Gumbel fit is given.
  */
  datatype PValue = Quantile(p: real) | GumbelFit(nullMaxima: seq<real>)

  /**
    A direct-quantile p-value lies between 1/(n + 1) and 1 when the distinct null maxima number
    at least one and at most n.
  */
  lemma DirectPInRange(d: real, u: seq<real>, n: nat)
    requires StrictlySorted(u) && 0 < |u| <= n
    ensures 1.0 / (n + 1) as real <= DirectP(Finite(d), u) <= 1.0
  {
    var k, m := (|u| + 1) as real, (n + 1) as real;
    ReciprocalAntitone(k, m);
    RatioInUnit(1.0, k);
    RatioInUnit(k - 1.0, k);
  }

  lemma ReciprocalAntitone(k: real, m: real)
    requires 1.0 <= k <= m
    ensures 1.0 / m <= 1.0 / k
  {
    assert 1.0 / m * k <= 1.0 / m * m;
  }

  /** An observation above every null maximum gets the smallest p-value, 1/(n + 1). */
  lemma AboveAllNull(d: real, nullMax: seq<real>)
    requires nullMax != [] && forall x :: x in nullMax ==> x < d
    ensures |Unique(nullMax)| > 0 && DirectP(Finite(d), Unique(nullMax)) == 1.0 / (|Unique(nullMax)| + 1) as real
  {
    var u := Unique(nullMax);
    assert nullMax[0] in u;
    assert u[|u| - 1] in nullMax;
  }

  function Assess(maxD: real, nullMax: seq<real>, direct: bool): (r: Result<PValue>)
    ensures r.Err? <==> direct && nullMax == []
    ensures r.Err? ==> r.error == EmptyNullDistribution
    ensures !direct ==> r == Ok(GumbelFit(Unique(nullMax)))
    ensures r.Ok? && direct ==> |Unique(nullMax)| > 0 && r.value == Quantile(DirectP(Finite(maxD), Unique(nullMax)))
  {
    if !direct then Ok(GumbelFit(Unique(nullMax)))
    else if nullMax == [] then Err(EmptyNullDistribution)
    else
      var u := Unique(nullMax);
      assert nullMax[0] in u;
      Ok(Quantile(DirectP(Finite(maxD), u)))
  }

  // ---------------------------------------------------------------- the whole computation

  /**
    The spike and onset vectors the curves are built from: the reduced spikes and the onsets,
    or their stitched pseudo-time versions. None means too few spikes remain around the events.
    The stitching fails when some trial finds no spike at or after its onset.
  */
  function Prepared(spikes: seq<real>, a: EventArray, floating: bool, w: real, jitter: real, stitch: bool)
    : (r: Result<Option<(seq<real>, seq<real>)>>)
    requires WellFormed(a)
    ensures EventOnsets(a, floating).Err? ==> r == Err(EventOnsets(a, floating).error)
    ensures EventOnsets(a, floating).Ok? ==> var onsets := EventOnsets(a, floating).value;
      && (onsets == [] ==> r == Err(NoEvents))
      && (onsets != [] && spikes == [] ==> r == Err(NoSpikes))
      && (onsets != [] && spikes != [] && !stitch ==> r.Ok?)
      && (onsets != [] && spikes != [] && stitch ==> var kept := ReduceSpikes(spikes, onsets, w, jitter).value;
            && (r.Err? <==> |kept| >= 3 && !Indexable(Sort(kept), Sort(onsets), w))
            && (r.Err? ==> r.error == EmptyFloatIndex))
      && (r.Ok? ==> (r.value.None? <==> |ReduceSpikes(spikes, onsets, w, jitter).value| < 3))
      && (r.Ok? && r.value.Some? ==> |r.value.value.1| == |onsets|)
      && (r.Ok? && r.value.Some? && stitch ==> Sorted(r.value.value.0))
      && (r.Ok? && r.value.Some? && !stitch ==> r.value.value == (ReduceSpikes(spikes, onsets, w, jitter).value, onsets))
  {
    match EventOnsets(a, floating)
    case Err(e) => Err(e)
    case Ok(onsets) =>
      match ReduceSpikes(spikes, onsets, w, jitter)
      case Err(e) => Err(e)
      case Ok(kept) =>
        if |kept| < 3 then Ok(None)
        else if stitch then
          match Stitch(kept, onsets, w, false)
          case Err(e) => Err(e)
          case Ok(pseudo) => Ok(Some(pseudo))
        else Ok(Some((kept, onsets)))
  }

  /** The curve of the real data, or None when it has fewer than three points. */
  function RealCurve(ps: seq<real>, pe: seq<real>, w: real): (r: Result<Option<Curve>>)
    ensures r.Err? <==> TempOffset(ps, pe, w).None?
    ensures r.Err? ==> r.error == TiedSpikeTimes
    ensures r == Ok(None) <==> TempOffset(ps, pe, w).Some? && PairCount(ps, pe, w) == 0
    ensures r.Ok? && r.value.Some? ==> r.value.value == TempOffset(ps, pe, w).value
    ensures r.Ok? && r.value.Some? ==> |r.value.value.deviation| >= 3
  {
    match TempOffset(ps, pe, w)
    case None => Err(TiedSpikeTimes)
    case Some(c) =>
      TooFewTimes(ps, pe, w);
      if |c.deviation| < 3 then Ok(None)
      else
        CurveCentred(c.times, w);
        Ok(Some(c.(deviation := Centre(c.deviation))))
  }

  /**
    What calcZetaOne returns. Default is the dictionary it returns early (p-value 1, zeta 0 and
    no curves); Computed holds the real curve, the resampled curves, the index and size of the
    largest absolute deviation, and its significance.
  */
  datatype ZetaResult =
    | Default
    | Computed(spikeT: seq<real>, deviation: seq<real>, fractions: seq<real>, linear: seq<real>,
               randTime: seq<seq<real>>, randDeviation: seq<seq<real>>,
               zetaIdx: nat, maxD: real, significance: PValue)

  /** The trial count the permutations range over: the number of event onsets. */
  function Trials(a: EventArray, floating: bool): nat
    requires WellFormed(a)
  {
    if EventOnsets(a, floating).Ok? then |EventOnsets(a, floating).value| else 0
  }

  /**
    The part after the real curve c of the pseudo data: the index and size of its largest
    absolute deviation, the resampled curves and the significance.
  */
  function Analysed(ps: seq<real>, pe: seq<real>, c: Curve, w: real, direct: bool, jitter: real,
                    perms: seq<seq<nat>>): (r: Result<ZetaResult>)
    requires |c.deviation| > 0 && Permutations(perms, |pe|)
  {
    var idx := ArgMaxAbs(c.deviation);
    var maxD := Abs(c.deviation[idx]);
    var jv := JitterVector(|pe|, w, jitter);
    match Collect(Resamplings(ps, pe, jv, perms, w))
    case Err(e) => Err(e)
    case Ok(cs) =>
      match Assess(maxD, NullMaxima(cs), direct)
      case Err(e) => Err(e)
      case Ok(sig) =>
        Ok(Computed(c.times, c.deviation, c.fractions, c.linear, RandTimes(cs), RandDeviations(cs), idx, maxD, sig))
  }

  function CalcZeta(spikes: seq<real>, a: EventArray, floating: bool, w: real, direct: bool,
                    jitter: real, stitch: bool, perms: seq<seq<nat>>): (r: Result<ZetaResult>)
    requires WellFormed(a) && Permutations(perms, Trials(a, floating))
  {
    match Prepared(spikes, a, floating, w, jitter, stitch)
    case Err(e) => Err(e)
    case Ok(None) => Ok(Default)
    case Ok(Some((ps, pe))) => FromPseudoData(ps, pe, w, direct, jitter, perms)
  }

  /** Everything from the pseudo spikes ps and pseudo onsets pe on. */
  function FromPseudoData(ps: seq<real>, pe: seq<real>, w: real, direct: bool, jitter: real,
                          perms: seq<seq<nat>>): (r: Result<ZetaResult>)
    requires Permutations(perms, |pe|)
  {
    match RealCurve(ps, pe, w)
    case Err(e) => Err(e)
    case Ok(None) => Ok(Default)
    case Ok(Some(c)) => Analysed(ps, pe, c, w, direct, jitter, perms)
  }

  // ---------------------------------------------------------------- properties of the result

  /**
    After the real curve: the result keeps the curve, zetaIdx is the first index of its largest
    absolute deviation and maxD that value, and there is one centred random curve per resampling.
  */
  lemma AnalysedPeak(ps: seq<real>, pe: seq<real>, c: Curve, w: real, direct: bool, jitter: real, perms: seq<seq<nat>>)
    requires |c.deviation| > 0 && Permutations(perms, |pe|)
    requires Analysed(ps, pe, c, w, direct, jitter, perms).Ok?
    ensures var z := Analysed(ps, pe, c, w, direct, jitter, perms).value;
      && z.Computed?
      && z.spikeT == c.times && z.deviation == c.deviation && z.fractions == c.fractions && z.linear == c.linear
      && z.zetaIdx < |z.deviation| && z.maxD == Abs(z.deviation[z.zetaIdx])
      && (forall j :: 0 <= j < |z.deviation| ==> Abs(z.deviation[j]) <= z.maxD)
      && (forall j :: 0 <= j < z.zetaIdx ==> Abs(z.deviation[j]) < z.maxD)
      && |z.randTime| == |perms| && |z.randDeviation| == |perms|
      && (forall q :: 0 <= q < |perms| ==> Sum(z.randDeviation[q]) == 0.0)
  {
    var jv := JitterVector(|pe|, w, jitter);
    ResampledAll(ps, pe, jv, perms, w);
    var cs := AnalysedFrom(ps, pe, c, w, direct, jitter, perms);
    var z := Analysed(ps, pe, c, w, direct, jitter, perms).value;
    forall q | 0 <= q < |perms| ensures Sum(z.randDeviation[q]) == 0.0 {
      assert z.randDeviation[q] == cs[q].deviation;
    }
  }

  /** The resampled curves a successful analysis is built from. */
  lemma AnalysedFrom(ps: seq<real>, pe: seq<real>, c: Curve, w: real, direct: bool, jitter: real, perms: seq<seq<nat>>)
    returns (cs: seq<Curve>)
    requires |c.deviation| > 0 && Permutations(perms, |pe|)
    requires Analysed(ps, pe, c, w, direct, jitter, perms).Ok?
    ensures Collect(Resamplings(ps, pe, JitterVector(|pe|, w, jitter), perms, w)) == Ok(cs) && |cs| == |perms|
    ensures var idx := ArgMaxAbs(c.deviation);
      && Assess(Abs(c.deviation[idx]), NullMaxima(cs), direct).Ok?
      && Analysed(ps, pe, c, w, direct, jitter, perms).value ==
         Computed(c.times, c.deviation, c.fractions, c.linear, RandTimes(cs), RandDeviations(cs), idx,
                  Abs(c.deviation[idx]), Assess(Abs(c.deviation[idx]), NullMaxima(cs), direct).value)
  {
    ResampledAll(ps, pe, JitterVector(|pe|, w, jitter), perms, w);
    cs := Collect(Resamplings(ps, pe, JitterVector(|pe|, w, jitter), perms, w)).value;
  }

  /**
    With R null maxima the direct-quantile p-value lies between 1/(R + 1) and 1; the Gumbel
    mode hands over the null maxima.
  */
  lemma AssessRange(maxD: real, nullMax: seq<real>, direct: bool)
    ensures var r := Assess(maxD, nullMax, direct);
      r.Ok? && direct ==> |nullMax| > 0 && r.value.Quantile? && 1.0 / (|nullMax| + 1) as real <= r.value.p <= 1.0
    ensures var r := Assess(maxD, nullMax, direct);
      r.Ok? && !direct ==> r.value.GumbelFit?
  {
    if direct && nullMax != [] {
      QuantileRange(maxD, nullMax);
    }
  }

  /**
    Ties among the null maxima only shrink the distinct values, so the p-value stays between
    1/(R + 1) and 1 for R null maxima.
  */
  lemma QuantileRange(maxD: real, nullMax: seq<real>)
    requires nullMax != []
    ensures |Unique(nullMax)| > 0
    ensures 1.0 / (|nullMax| + 1) as real <= DirectP(Finite(maxD), Unique(nullMax)) <= 1.0
  {
    var u := Unique(nullMax);
    assert nullMax[0] in u;
    DirectPInRange(maxD, u, |nullMax|);
  }

  /**
    The significance: with R resamplings the direct-quantile p-value lies between 1/(R + 1) and
    1, and the Gumbel mode hands over the null maxima.
  */
  lemma AnalysedSignificance(ps: seq<real>, pe: seq<real>, c: Curve, w: real, direct: bool, jitter: real, perms: seq<seq<nat>>)
    requires |c.deviation| > 0 && Permutations(perms, |pe|)
    requires Analysed(ps, pe, c, w, direct, jitter, perms).Ok?
    ensures var z := Analysed(ps, pe, c, w, direct, jitter, perms).value;
      && z.Computed?
      && (direct ==> |perms| > 0 && z.significance.Quantile? && 1.0 / (|perms| + 1) as real <= z.significance.p <= 1.0)
      && (!direct ==> z.significance.GumbelFit?)
  {
    var cs := AnalysedFrom(ps, pe, c, w, direct, jitter, perms);
    var maxD, nullMax := Abs(c.deviation[ArgMaxAbs(c.deviation)]), NullMaxima(cs);
    AssessRange(maxD, nullMax, direct);
    var sig := Analysed(ps, pe, c, w, direct, jitter, perms).value.significance;
    assert sig == Assess(maxD, nullMax, direct).value;
    if direct {
      assert |nullMax| + 1 == |perms| + 1;
      assert 1.0 / (|nullMax| + 1) as real <= sig.p <= 1.0;
    }
  }

  /** The pseudo data and real curve a computed result is built from. */
  lemma ComputedFrom(spikes: seq<real>, a: EventArray, floating: bool, w: real, direct: bool,
                     jitter: real, stitch: bool, perms: seq<seq<nat>>)
    returns (ps: seq<real>, pe: seq<real>, c: Curve)
    requires WellFormed(a) && Permutations(perms, Trials(a, floating))
    requires CalcZeta(spikes, a, floating, w, direct, jitter, stitch, perms).Ok?
    requires !CalcZeta(spikes, a, floating, w, direct, jitter, stitch, perms).value.Default?
    ensures Prepared(spikes, a, floating, w, jitter, stitch) == Ok(Some((ps, pe)))
    ensures Permutations(perms, |pe|) && RealCurve(ps, pe, w) == Ok(Some(c)) && |c.deviation| > 0
    ensures CalcZeta(spikes, a, floating, w, direct, jitter, stitch, perms) == Analysed(ps, pe, c, w, direct, jitter, perms)
  {
    ps, pe := Prepared(spikes, a, floating, w, jitter, stitch).value.value.0, Prepared(spikes, a, floating, w, jitter, stitch).value.value.1;
    c := RealCurve(ps, pe, w).value.value;
  }

  /**
    A computed result: the real deviation has mean zero and at least three points over strictly
    increasing times, zetaIdx is the first index of its largest absolute value and maxD that
    value, and there is one centred random curve per resampling.
  */
  lemma ComputedPeak(spikes: seq<real>, a: EventArray, floating: bool, w: real, direct: bool,
                     jitter: real, stitch: bool, perms: seq<seq<nat>>)
    requires WellFormed(a) && Permutations(perms, Trials(a, floating))
    requires CalcZeta(spikes, a, floating, w, direct, jitter, stitch, perms).Ok?
    ensures var z := CalcZeta(spikes, a, floating, w, direct, jitter, stitch, perms).value;
      z.Computed? ==>
      && |z.deviation| >= 3 && Sum(z.deviation) == 0.0
      && |z.spikeT| == |z.deviation| == |z.fractions| == |z.linear| && StrictlySorted(z.spikeT)
      && z.zetaIdx < |z.deviation| && z.maxD == Abs(z.deviation[z.zetaIdx])
      && (forall j :: 0 <= j < |z.deviation| ==> Abs(z.deviation[j]) <= z.maxD)
      && (forall j :: 0 <= j < z.zetaIdx ==> Abs(z.deviation[j]) < z.maxD)
      && |z.randTime| == |perms| && |z.randDeviation| == |perms|
      && (forall q :: 0 <= q < |perms| ==> Sum(z.randDeviation[q]) == 0.0)
  {
    if CalcZeta(spikes, a, floating, w, direct, jitter, stitch, perms).value.Computed? {
      var ps, pe, c := ComputedFrom(spikes, a, floating, w, direct, jitter, stitch, perms);
      AnalysedPeak(ps, pe, c, w, direct, jitter, perms);
      var times := TempOffset(ps, pe, w).value.times;
      assert c == DeviationCurve(times, w) && StrictlySorted(times);
    }
  }

  /** A computed result's p-value lies between 1/(R + 1) and 1 for R resamplings in direct-quantile mode. */
  lemma ComputedSignificance(spikes: seq<real>, a: EventArray, floating: bool, w: real, direct: bool,
                             jitter: real, stitch: bool, perms: seq<seq<nat>>)
    requires WellFormed(a) && Permutations(perms, Trials(a, floating))
    requires CalcZeta(spikes, a, floating, w, direct, jitter, stitch, perms).Ok?
    ensures var z := CalcZeta(spikes, a, floating, w, direct, jitter, stitch, perms).value;
      z.Computed? ==>
      && (direct ==> |perms| > 0 && z.significance.Quantile? && 1.0 / (|perms| + 1) as real <= z.significance.p <= 1.0)
      && (!direct ==> z.significance.GumbelFit?)
  {
    if CalcZeta(spikes, a, floating, w, direct, jitter, stitch, perms).value.Computed? {
      var ps, pe, c := ComputedFrom(spikes, a, floating, w, direct, jitter, stitch, perms);
      AnalysedSignificance(ps, pe, c, w, direct, jitter, perms);
    }
  }

  /** The part after the real curve never gives the default result. */
  lemma AnalysedNotDefault(ps: seq<real>, pe: seq<real>, c: Curve, w: real, direct: bool, jitter: real, perms: seq<seq<nat>>)
    requires |c.deviation| > 0 && Permutations(perms, |pe|)
    ensures Analysed(ps, pe, c, w, direct, jitter, perms) != Ok(Default)
  {
  }

  /**
    The result is the default dictionary exactly when fewer than three spikes remain around the
    events, or when none of the pseudo spikes falls inside any window.
  */
  lemma DefaultResult(spikes: seq<real>, a: EventArray, floating: bool, w: real, direct: bool,
                      jitter: real, stitch: bool, perms: seq<seq<nat>>)
    requires WellFormed(a) && Permutations(perms, Trials(a, floating))
    ensures var prep := Prepared(spikes, a, floating, w, jitter, stitch);
      CalcZeta(spikes, a, floating, w, direct, jitter, stitch, perms) == Ok(Default) <==>
        prep == Ok(None) ||
        (prep.Ok? && prep.value.Some? && TempOffset(prep.value.value.0, prep.value.value.1, w).Some? &&
         PairCount(prep.value.value.0, prep.value.value.1, w) == 0)
  {
    var prep := Prepared(spikes, a, floating, w, jitter, stitch);
    if prep.Ok? && prep.value.Some? {
      PseudoDefault(prep.value.value.0, prep.value.value.1, w, direct, jitter, perms);
    }
  }

  /** From the pseudo data on, the default result comes exactly from a curve without inner points. */
  lemma PseudoDefault(ps: seq<real>, pe: seq<real>, w: real, direct: bool, jitter: real, perms: seq<seq<nat>>)
    requires Permutations(perms, |pe|)
    ensures FromPseudoData(ps, pe, w, direct, jitter, perms) == Ok(Default) <==>
      TempOffset(ps, pe, w).Some? && PairCount(ps, pe, w) == 0
  {
    var rc := RealCurve(ps, pe, w);
    if rc.Ok? && rc.value.Some? {
      AnalysedNotDefault(ps, pe, rc.value.value, w, direct, jitter, perms);
    }
  }

  /** In direct-quantile mode without resamplings there is no null distribution: only an early return succeeds. */
  lemma NoResamplings(spikes: seq<real>, a: EventArray, floating: bool, w: real,
                      jitter: real, stitch: bool)
    requires WellFormed(a)
    ensures var r := CalcZeta(spikes, a, floating, w, true, jitter, stitch, []);
      r.Ok? ==> r.value.Default?
  {
    var r := CalcZeta(spikes, a, floating, w, true, jitter, stitch, []);
    if r.Ok? && r.value.Computed? {
      ComputedSignificance(spikes, a, floating, w, true, jitter, stitch, []);
    }
  }

  // ---------------------------------------------------------------- the imperative computation

  /** matJitterPerTrial: column q holds the trial jitters in the order permutation q draws. */
  method FillJitter(jv: seq<real>, perms: seq<seq<nat>>) returns (m: array2<real>)
    requires Permutations(perms, |jv|)
    ensures fresh(m) && m.Length0 == |jv| && m.Length1 == |perms|
    ensures forall k, q :: 0 <= k < |jv| && 0 <= q < |perms| ==> m[k, q] == Pick(jv, perms[q])[k]
  {
    m := new real[|jv|, |perms|];
    for q := 0 to |perms|
      invariant forall k, q' :: 0 <= k < |jv| && 0 <= q' < q ==> m[k, q'] == Pick(jv, perms[q'])[k]
    {
      var column := Pick(jv, perms[q]);
      for k := 0 to |jv|
        invariant forall k', q' :: 0 <= k' < |jv| && 0 <= q' < q ==> m[k', q'] == Pick(jv, perms[q'])[k']
        invariant forall k' :: 0 <= k' < k ==> m[k', q] == column[k']
      {
        m[k, q] := column[k];
      }
    }
  }

  /** The onsets of resampling q: every pseudo onset plus its entry in column q. */
  method OnTimes(pe: seq<real>, m: array2<real>, q: nat, ghost shift: seq<real>) returns (on: seq<real>)
    requires m.Length0 == |pe| && q < m.Length1 && |shift| == |pe|
    requires forall k :: 0 <= k < |pe| ==> m[k, q] == shift[k]
    ensures |on| == |pe| && forall k :: 0 <= k < |pe| ==> on[k] == pe[k] + shift[k]
  {
    on := [];
    for k := 0 to |pe|
      invariant |on| == k && forall k' :: 0 <= k' < k ==> on[k'] == pe[k'] + shift[k']
    {
      on := on + [pe[k] + m[k, q]];
    }
  }

  /** The curve of resampling q: the pseudo spikes against the onsets jittered by column q. */
  method ResampleCurve(ps: seq<real>, pe: seq<real>, m: array2<real>, w: real, q: nat,
                       ghost jv: seq<real>, ghost perms: seq<seq<nat>>) returns (curve: Option<Curve>)
    requires |jv| == |pe| && Permutations(perms, |pe|) && q < |perms|
    requires m.Length0 == |pe| && m.Length1 == |perms|
    requires forall k, q :: 0 <= k < |pe| && 0 <= q < |perms| ==> m[k, q] == Pick(jv, perms[q])[k]
    ensures curve.None? <==> ResampleOne(ps, pe, jv, perms[q], w).Err?
    ensures curve.Some? ==> ResampleOne(ps, pe, jv, perms[q], w) == Ok(curve.value)
    ensures curve.Some? ==> |curve.value.deviation| >= 2 && Centre(curve.value.deviation) == curve.value.deviation
  {
    var on := OnTimes(pe, m, q, Pick(jv, perms[q]));
    assert on == JitteredOnsets(pe, jv, perms[q]);
    curve := GetTempOffsetOne(ps, on, w);
    if curve.Some? {
      CurveCentred(curve.value.times, w);
    }
  }

  /** One more resampled curve appends to the times, the deviations and the null maxima. */
  lemma SummariesGrow(cs: seq<Curve>, c: Curve)
    ensures RandTimes(cs + [c]) == RandTimes(cs) + [c.times]
    ensures RandDeviations(cs + [c]) == RandDeviations(cs) + [c.deviation]
    ensures NullMaxima(cs + [c]) == NullMaxima(cs) + NullMaxima([c])
  {
  }

  /** Once a prefix of the results holds a failure, that failure is the result of collecting them all. */
  lemma {:induction false} CollectFailureKept<T>(rs: seq<Result<T>>, n: nat)
    requires n <= |rs| && Collect(rs[..n]).Err?
    ensures Collect(rs) == Collect(rs[..n])
    decreases |rs| - n
  {
    if n < |rs| {
      CollectStep(rs, n);
      CollectFailureKept(rs, n + 1);
    } else {
      assert rs[..n] == rs;
    }
  }

  /**
    Appends one resampled curve to the times and the re-centred deviations and stores its
    largest absolute deviation at position q.
  */
  method Record(c: Curve, q: nat, ghost cs: seq<Curve>, randTime: seq<seq<real>>, randDeviation: seq<seq<real>>,
                maxRand: array<real>) returns (randTime': seq<seq<real>>, randDeviation': seq<seq<real>>)
    requires |c.deviation| >= 2 && Centre(c.deviation) == c.deviation
    requires q < maxRand.Length
    requires randTime == RandTimes(cs) && randDeviation == RandDeviations(cs) && maxRand[..q] == NullMaxima(cs)
    modifies maxRand
    ensures randTime' == RandTimes(cs + [c]) && randDeviation' == RandDeviations(cs + [c])
    ensures maxRand[..q + 1] == NullMaxima(cs + [c])
  {
    SummariesGrow(cs, c);
    var deviation := Centre(c.deviation);
    randTime' := randTime + [c.times];
    randDeviation' := randDeviation + [deviation];
    ghost var before := maxRand[..q];
    maxRand[q] := MaxAbs(deviation);
    assert maxRand[..q] == before;
    assert maxRand[..q + 1] == before + [MaxAbs(c.deviation)];
    assert NullMaxima([c]) == [MaxAbs(c.deviation)];
  }

  /**
    One pass of the resampling loop: the curve of column q, appended to the times and the
    re-centred deviations, with its largest absolute deviation stored at position q. ok is false
    when the curve has tied times.
  */
  method ResampleNext(ps: seq<real>, pe: seq<real>, m: array2<real>, w: real, q: nat,
                      ghost jv: seq<real>, ghost perms: seq<seq<nat>>, ghost cs: seq<Curve>,
                      randTime: seq<seq<real>>, randDeviation: seq<seq<real>>, maxRand: array<real>)
    returns (ok: bool, randTime': seq<seq<real>>, randDeviation': seq<seq<real>>, ghost cs': seq<Curve>)
    requires |jv| == |pe| && Permutations(perms, |pe|) && q < |perms|
    requires m.Length0 == |pe| && m.Length1 == |perms| && maxRand.Length == |perms|
    requires forall k, q :: 0 <= k < |pe| && 0 <= q < |perms| ==> m[k, q] == Pick(jv, perms[q])[k]
    requires Collect(Resamplings(ps, pe, jv, perms, w)[..q]) == Ok(cs)
    requires randTime == RandTimes(cs) && randDeviation == RandDeviations(cs) && maxRand[..q] == NullMaxima(cs)
    modifies maxRand
    ensures !ok ==> Collect(Resamplings(ps, pe, jv, perms, w)[..q + 1]) == Err(TiedSpikeTimes)
    ensures ok ==> Collect(Resamplings(ps, pe, jv, perms, w)[..q + 1]) == Ok(cs')
    ensures ok ==> randTime' == RandTimes(cs') && randDeviation' == RandDeviations(cs')
    ensures ok ==> maxRand[..q + 1] == NullMaxima(cs')
  {
    ghost var rs := Resamplings(ps, pe, jv, perms, w);
    var curve := ResampleCurve(ps, pe, m, w, q, jv, perms);
    CollectStep(rs, q);
    if curve.None? {
      return false, randTime, randDeviation, cs;
    }
    var c := curve.value;
    assert rs[q] == Ok(c);
    randTime', randDeviation' := Record(c, q, cs, randTime, randDeviation, maxRand);
    ok, cs' := true, cs + [c];
  }

  /**
    The resampling loop: for every column the curve against the jittered onsets, appending its
    times and re-centred deviation and recording its largest absolute deviation.
  */
  method Resample(ps: seq<real>, pe: seq<real>, m: array2<real>, w: real, ghost jv: seq<real>, ghost perms: seq<seq<nat>>)
    returns (r: Result<(seq<seq<real>>, seq<seq<real>>, seq<real>)>)
    requires |jv| == |pe| && Permutations(perms, |pe|)
    requires m.Length0 == |pe| && m.Length1 == |perms|
    requires forall k, q :: 0 <= k < |pe| && 0 <= q < |perms| ==> m[k, q] == Pick(jv, perms[q])[k]
    ensures var c := Collect(Resamplings(ps, pe, jv, perms, w));
      && (r.Err? <==> c.Err?)
      && (r.Err? ==> r.error == c.error)
      && (r.Ok? ==> r.value == (RandTimes(c.value), RandDeviations(c.value), NullMaxima(c.value)))
  {
    ghost var rs := Resamplings(ps, pe, jv, perms, w);
    var randTime: seq<seq<real>> := [];
    var randDeviation: seq<seq<real>> := [];
    var maxRand := new real[m.Length1];
    ghost var cs: seq<Curve> := [];
    for q := 0 to m.Length1
      invariant Collect(rs[..q]) == Ok(cs)
      invariant randTime == RandTimes(cs) && randDeviation == RandDeviations(cs)
      invariant maxRand[..q] == NullMaxima(cs)
    {
      var ok;
      ok, randTime, randDeviation, cs := ResampleNext(ps, pe, m, w, q, jv, perms, cs, randTime, randDeviation, maxRand);
      if !ok {
        CollectFailureKept(rs, q + 1);
        return Err(TiedSpikeTimes);
      }
    }
    assert rs[..|perms|] == rs;
    assert maxRand[..] == maxRand[..|perms|];
    r := Ok((randTime, randDeviation, maxRand[..]));
  }

  /** getZetaP on the one observed maximum, or the Gumbel inputs. */
  method ZetaSignificance(maxD: real, nullMax: seq<real>, direct: bool) returns (r: Result<PValue>)
    ensures r == Assess(maxD, nullMax, direct)
  {
    if direct {
      var p := GetZetaP([Finite(maxD)], nullMax);
      if p.Err? {
        return Err(p.error);
      }
      r := Ok(Quantile(p.value[0]));
    } else {
      r := Ok(GumbelFit(Unique(nullMax)));
    }
  }

  /** Orientation, reduction and the optional stitching. */
  method PseudoData(spikes: seq<real>, a: EventArray, floating: bool, w: real, jitter: real, stitch: bool)
    returns (r: Result<Option<(seq<real>, seq<real>)>>)
    requires WellFormed(a)
    ensures r == Prepared(spikes, a, floating, w, jitter, stitch)
  {
    var onsets := EventOnsets(a, floating);
    if onsets.Err? {
      return Err(onsets.error);
    }
    var kept := ReduceSpikes(spikes, onsets.value, w, jitter);
    if kept.Err? {
      return Err(kept.error);
    }
    if |kept.value| < 3 {
      return Ok(None);
    }
    if stitch {
      var pseudo := GetPseudoSpikeVectors(kept.value, onsets.value, w, false);
      if pseudo.Err? {
        return Err(pseudo.error);
      }
      r := Ok(Some(pseudo.value));
    } else {
      r := Ok(Some((kept.value, onsets.value)));
    }
  }

  /** The largest deviation, the jitter matrix, the resampling loop and the significance. */
  method Analyse(ps: seq<real>, pe: seq<real>, c: Curve, w: real, direct: bool, jitter: real,
                 perms: seq<seq<nat>>) returns (r: Result<ZetaResult>)
    requires |c.deviation| > 0 && Permutations(perms, |pe|)
    ensures r == Analysed(ps, pe, c, w, direct, jitter, perms)
  {
    var idx := ArgMaxAbs(c.deviation);
    var maxD := Abs(c.deviation[idx]);
    var jv := JitterVector(|pe|, w, jitter);
    var m := FillJitter(jv, perms);
    var resampled := Resample(ps, pe, m, w, jv, perms);
    if resampled.Err? {
      return Err(resampled.error);
    }
    var (randTime, randDeviation, maxRand) := resampled.value;
    var significance := ZetaSignificance(maxD, maxRand, direct);
    if significance.Err? {
      return Err(significance.error);
    }
    r := Ok(Computed(c.times, c.deviation, c.fractions, c.linear, randTime, randDeviation, idx, maxD, significance.value));
  }

  /**
    calcZetaOne. The resampNum random permutations of the trials are drawn by the caller and
    passed in as perms.
  */
  method CalcZetaOne(spikes: seq<real>, a: EventArray, floating: bool, w: real, resampNum: nat,
                     direct: bool, jitter: real, stitch: bool, perms: seq<seq<nat>>)
    returns (r: Result<ZetaResult>)
    requires WellFormed(a) && |perms| == resampNum && Permutations(perms, Trials(a, floating))
    ensures r == CalcZeta(spikes, a, floating, w, direct, jitter, stitch, perms)
  {
    var prep := PseudoData(spikes, a, floating, w, jitter, stitch);
    if prep.Err? {
      return Err(prep.error);
    }
    if prep.value.None? {
      return Ok(Default);
    }
    var (ps, pe) := prep.value.value;
    r := AnalysePseudoData(ps, pe, w, direct, jitter, perms);
  }

  /** The real curve of the pseudo data, then the analysis, or the default result. */
  method AnalysePseudoData(ps: seq<real>, pe: seq<real>, w: real, direct: bool, jitter: real,
                           perms: seq<seq<nat>>) returns (r: Result<ZetaResult>)
    requires Permutations(perms, |pe|)
    ensures r == FromPseudoData(ps, pe, w, direct, jitter, perms)
  {
    var observed := GetTempOffsetOne(ps, pe, w);
    if observed.None? {
      assert RealCurve(ps, pe, w) == Err(TiedSpikeTimes);
      return Err(TiedSpikeTimes);
    }
    if |observed.value.deviation| < 3 {
      assert RealCurve(ps, pe, w) == Ok(None);
      return Ok(Default);
    }
    var c := observed.value.(deviation := Centre(observed.value.deviation));
    assert RealCurve(ps, pe, w) == Ok(Some(c));
    r := Analyse(ps, pe, c, w, direct, jitter, perms);
  }
}
