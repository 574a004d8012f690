/**
  Pseudo-trial stitching (getPseudoSpikeVectors, dependencies.py lines 299-392): the spikes
  around each event are spliced into one continuous pseudo-recording. A cursor, the pseudo
  event time, advances by the gap to the previous event when the trials overlap and by the
  window otherwise; in the overlap case the samples already used are dropped.
*/
module Stitching {
  import opened Wrappers
  import opened ArrayOps
  import opened Utility

  /** Every sample index is a valid position in an array of n spikes. */
  predicate AllBelow(idx: seq<nat>, n: nat) {
    forall k :: 0 <= k < |idx| ==> idx[k] < n
  }

  predicate Increasing(idx: seq<nat>) {
    forall i, j :: 0 <= i < j < |idx| ==> idx[i] < idx[j]
  }

  /** The integers a, a + 1, ..., b - 1. */
  function Range(a: nat, b: nat): (r: seq<nat>)
    ensures |r| == if a <= b then b - a else 0
    ensures forall k :: 0 <= k < |r| ==> r[k] == a + k
    ensures Increasing(r)
  {
    if a < b then seq(b - a, k requires 0 <= k < b - a => a + k) else []
  }

  /** The sample indices greater than last, in their order. */
  function KeepAfter(idx: seq<nat>, last: int): (r: seq<nat>)
    ensures forall k :: 0 <= k < |r| ==> r[k] > last
    ensures forall x :: x in r <==> x in idx && x > last
    ensures Increasing(idx) ==> Increasing(r)
  {
    if idx == [] then []
    else
      var rest := KeepAfter(idx[1..], last);
      assert idx == [idx[0]] + idx[1..];
      if idx[0] > last then
        assert Increasing(idx) ==> forall k :: 0 <= k < |rest| ==> idx[0] < rest[k] by {
          if Increasing(idx) {
            forall k | 0 <= k < |rest| ensures idx[0] < rest[k] {
              assert rest[k] in idx[1..];
            }
          }
        }
        [idx[0]] + rest
      else rest
  }

  /**
    The samples from the first spike at or after the onset e through the first spike after
    e + w, both included. With no spike after e + w only the first one is taken; with the two
    searches crossing, none.
  */
  function Eligible(s: seq<real>, e: real, w: real): (r: seq<nat>)
    ensures AllBelow(r, |s|) && Increasing(r)
  {
    var start0 := FindFirst(AtLeast(s, e));
    var end0 := FindFirst(Above(s, e + w));
    var crossed := start0.Some? && end0.Some? && start0.value > end0.value;
    var start := if crossed then None else start0;
    var end := if crossed then None else if end0.None? then start0 else end0;
    if start.None? || end.None? then [] else Range(start.value, end.value + 1)
  }

  /**
    Which samples a trial finds: consecutive ones, from the first spike at or after the onset
    through the first spike after e + w (the first sample alone when no spike comes after
    e + w), and none only when no spike comes at or after the onset.
  */
  lemma EligibleShape(s: seq<real>, e: real, w: real)
    ensures var r := Eligible(s, e, w);
      && (r != [] ==> forall k :: 0 <= k < |r| ==> r[k] == r[0] + k)
      && (r != [] ==> e <= s[r[0]] && forall k :: 0 <= k < r[0] ==> s[k] < e)
      && (r != [] && w >= 0.0 ==> forall k :: 0 <= k < r[|r| - 1] ==> s[k] <= e + w)
      && (r != [] ==> e + w < s[r[|r| - 1]] || (|r| == 1 && forall k :: 0 <= k < |s| ==> s[k] <= e + w))
      && (w >= 0.0 ==> (r == [] <==> forall k :: 0 <= k < |s| ==> s[k] < e))
  {
  }

  /**
    For sorted spikes, a window that closes before the last spike and a non-negative window,
    trial e takes exactly the spikes inside [e, e + w] and the first spike after e + w.
  */
  lemma EligibleSpikes(s: seq<real>, e: real, w: real, k: nat)
    requires Sorted(s) && w >= 0.0 && k < |s|
    requires exists j :: 0 <= j < |s| && e + w < s[j]
    ensures k in Eligible(s, e, w) <==> e <= s[k] && (k == 0 || s[k - 1] <= e + w)
  {
    var r := Eligible(s, e, w);
    EligibleShape(s, e, w);
    var j :| 0 <= j < |s| && e + w < s[j];
    assert r != [];
    if k in r {
      var i :| 0 <= i < |r| && r[i] == k;
      assert r[0] <= k;
    }
    if e <= s[k] && (k == 0 || s[k - 1] <= e + w) {
      assert r[0] <= k;
      assert k <= r[|r| - 1];
      assert r[k - r[0]] == k;
    }
  }

  /** The first trial reaches back to sample 0 and the last one on to the final sample. */
  function Widen(use: seq<nat>, t: nat, trials: nat, n: nat, discardEdges: bool): (r: seq<nat>)
    requires AllBelow(use, n) && Increasing(use)
    ensures AllBelow(r, n) && Increasing(r)
  {
    if |use| > 0 && t == 0 && !discardEdges then Range(0, use[|use| - 1] + 1)
    else if |use| > 0 && t + 1 == trials && !discardEdges then Range(use[0], n)
    else use
  }

  /**
    Widening keeps every found sample. Without kept edges, or for a middle trial, or with
    nothing found, it changes nothing; the first trial takes every sample from 0 through its
    last one, and the last trial every sample from its first one through n - 1.
  */
  lemma WidenShape(use: seq<nat>, t: nat, trials: nat, n: nat, discardEdges: bool)
    requires AllBelow(use, n) && Increasing(use)
    ensures var r := Widen(use, t, trials, n, discardEdges);
      && (forall k :: k in use ==> k in r)
      && (use == [] || discardEdges || (t != 0 && t + 1 != trials) ==> r == use)
      && (use != [] && !discardEdges && t == 0 ==>
          |r| == use[|use| - 1] + 1 && forall k :: 0 <= k < |r| ==> r[k] == k)
      && (use != [] && !discardEdges && t != 0 && t + 1 == trials ==>
          |r| == n - use[0] && forall k :: 0 <= k < |r| ==> r[k] == use[0] + k)
  {
    var r := Widen(use, t, trials, n, discardEdges);
    if use != [] && !discardEdges && (t == 0 || t + 1 == trials) {
      forall k | k in use ensures k in r {
        var i :| 0 <= i < |use| && use[i] == k;
        if t == 0 {
          assert i == |use| - 1 || use[i] < use[|use| - 1];
          assert r[k] == k;
        } else {
          assert i == 0 || use[0] < use[i];
          assert r[k - use[0]] == k;
        }
      }
    }
  }

  /** Trial t starts less than a window after the previous event. */
  predicate Overlaps(events: seq<real>, w: real, t: nat)
    requires t < |events|
  {
    t > 0 && w > events[t] - events[t - 1]
  }

  /** The samples trial t takes before the overlap check: they depend on the onsets only. */
  function Candidate(s: seq<real>, events: seq<real>, w: real, discardEdges: bool, t: nat): (r: seq<nat>)
    requires t < |events|
    ensures AllBelow(r, |s|) && Increasing(r)
  {
    Widen(Eligible(s, events[t], w), t, |events|, |s|, discardEdges)
  }

  /** Every trial's candidate samples are increasing positions in the spike array. */
  predicate Fits(s: seq<real>, events: seq<real>, cand: seq<seq<nat>>) {
    |cand| == |events| && forall t :: 0 <= t < |cand| ==> AllBelow(cand[t], |s|) && Increasing(cand[t])
  }

  function Candidates(s: seq<real>, events: seq<real>, w: real, discardEdges: bool): (cand: seq<seq<nat>>)
    ensures Fits(s, events, cand)
  {
    seq(|events|, t requires 0 <= t < |events| => Candidate(s, events, w, discardEdges, t))
  }

  /** The samples trial t contributes, given the last sample used before it. */
  function TrialSamples(s: seq<real>, events: seq<real>, w: real, cand: seq<seq<nat>>, t: nat, lastUsed: int): (r: seq<nat>)
    requires Fits(s, events, cand) && t < |events|
    ensures AllBelow(r, |s|) && Increasing(r)
    ensures Overlaps(events, w, t) ==> forall k :: 0 <= k < |r| ==> r[k] > lastUsed
  {
    if Overlaps(events, w, t) then
      var kept := KeepAfter(cand[t], lastUsed);
      assert forall k :: 0 <= k < |kept| ==> kept[k] in cand[t];
      kept
    else cand[t]
  }

  /** The pseudo event time of trial t after that of trial t - 1. */
  function NextPseudoT(events: seq<real>, w: real, t: nat, prev: real): real
    requires t < |events|
  {
    if t == 0 then 0.0
    else if Overlaps(events, w, t) then prev + events[t] - events[t - 1]
    else prev + w
  }

  /** The spikes at the used samples, moved from onset e to pseudo event time pt. */
  function Local(s: seq<real>, use: seq<nat>, e: real, pt: real): (r: seq<real>)
    requires AllBelow(use, |s|)
    ensures |r| == |use|
    ensures forall k :: 0 <= k < |r| ==> r[k] - pt == s[use[k]] - e
  {
    seq(|use|, k requires 0 <= k < |use| => s[use[k]] - e + pt)
  }

  /** The loop variables of the stitching loop. */
  datatype StitchState = StitchState(
    pseudoT: real,       // pseudo event time of the latest trial
    lastUsed: int,       // last sample index used so far
    first: Option<nat>,  // first sample index ever used
    pseudoT0: real)      // pseudo event time of the trial that set first

  /** One iteration of the loop, for trial t. */
  function Step(s: seq<real>, events: seq<real>, w: real, cand: seq<seq<nat>>, st: StitchState, t: nat): StitchState
    requires Fits(s, events, cand) && t < |events|
  {
    var use := TrialSamples(s, events, w, cand, t, st.lastUsed);
    var pt := NextPseudoT(events, w, t, st.pseudoT);
    var setFirst := st.first.None? && |use| > 0;
    StitchState(
      pt,
      if |use| == 0 then st.lastUsed else use[|use| - 1],
      if setFirst then Some(use[0]) else st.first,
      if setFirst then pt else st.pseudoT0)
  }

  /** The loop variables after the first n trials. */
  function Run(s: seq<real>, events: seq<real>, w: real, cand: seq<seq<nat>>, n: nat): (st: StitchState)
    requires Fits(s, events, cand) && n <= |events|
    ensures st.first.Some? ==> st.first.value < |s|
  {
    if n == 0 then StitchState(0.0, 0, None, 0.0)
    else Step(s, events, w, cand, Run(s, events, w, cand, n - 1), n - 1)
  }

  /** The samples trial t contributes in the run over the events. */
  function Samples(s: seq<real>, events: seq<real>, w: real, cand: seq<seq<nat>>, t: nat): (r: seq<nat>)
    requires Fits(s, events, cand) && t < |events|
    ensures AllBelow(r, |s|) && Increasing(r)
  {
    TrialSamples(s, events, w, cand, t, Run(s, events, w, cand, t).lastUsed)
  }

  /** The pseudo event time of trial t: it depends on the onsets and the window only. */
  function PseudoEvent(events: seq<real>, w: real, t: nat): real
    requires t < |events|
  {
    if t == 0 then 0.0 else NextPseudoT(events, w, t, PseudoEvent(events, w, t - 1))
  }

  /** The loop's pseudo event time after trial n - 1 is that trial's pseudo event time. */
  lemma {:induction false} RunPseudoT(s: seq<real>, events: seq<real>, w: real, cand: seq<seq<nat>>, n: nat)
    requires Fits(s, events, cand) && 0 < n <= |events|
    ensures Run(s, events, w, cand, n).pseudoT == PseudoEvent(events, w, n - 1)
  {
    if n > 1 {
      RunPseudoT(s, events, w, cand, n - 1);
    }
  }

  /** Trial t's samples moved from its onset to its pseudo event time. */
  function Fragment(s: seq<real>, events: seq<real>, w: real, cand: seq<seq<nat>>, t: nat): (r: seq<real>)
    requires Fits(s, events, cand) && t < |events|
    ensures |r| == |Samples(s, events, w, cand, t)|
  {
    Local(s, Samples(s, events, w, cand, t), events[t], PseudoEvent(events, w, t))
  }

  /** The pseudo event times of the first n trials. */
  function PseudoEvents(events: seq<real>, w: real, n: nat): (r: seq<real>)
    requires n <= |events|
    ensures |r| == n
  {
    seq(n, t requires 0 <= t < n => PseudoEvent(events, w, t))
  }

  /** The pseudo-spike fragments of the first n trials. */
  function Fragments(s: seq<real>, events: seq<real>, w: real, cand: seq<seq<nat>>, n: nat): (r: seq<seq<real>>)
    requires Fits(s, events, cand) && n <= |events|
    ensures |r| == n
  {
    seq(n, t requires 0 <= t < n => Fragment(s, events, w, cand, t))
  }

  /** The fragments grow by trial t's fragment. */
  lemma FragmentsGrow(s: seq<real>, events: seq<real>, w: real, cand: seq<seq<nat>>, t: nat)
    requires Fits(s, events, cand) && t < |events|
    ensures Fragments(s, events, w, cand, t + 1)
         == Fragments(s, events, w, cand, t) + [Fragment(s, events, w, cand, t)]
  {
    var longer := Fragments(s, events, w, cand, t + 1);
    var shorter := Fragments(s, events, w, cand, t);
    assert longer[..t] == shorter;
  }

  /** The spikes before the first used sample, placed just before the first pseudo event. */
  function BeginFragments(s: seq<real>, st: StitchState, discardEdges: bool): seq<seq<real>>
    requires st.first.Some? ==> st.first.value < |s|
  {
    if !discardEdges && st.first.Some? && st.first.value > 0 then
      var f := st.first.value;
      var stepBegin := s[f] - s[f - 1];
      var before := s[..f];
      [seq(f, i requires 0 <= i < f => s[i] - s[0] + st.pseudoT0 - stepBegin - (Max(before) - Min(before)))]
    else []
  }

  /** The spikes from the first one after the last window on, placed after the last pseudo window. */
  function EndFragments(s: seq<real>, events: seq<real>, w: real, discardEdges: bool, st: StitchState): seq<seq<real>>
    requires |events| > 0
  {
    var eLast := events[|events| - 1];
    var after := FindFirst(Above(s, eLast + w));
    if !discardEdges && after.Some? && |s| - 1 > after.value then
      var l := after.value;
      [seq(|s| - l, i requires 0 <= i < |s| - l => s[l + i] - eLast + st.pseudoT + w)]
    else []
  }

  /** All the cells the stitching produces for sorted spikes s and sorted onsets e. */
  function Cells(s: seq<real>, e: seq<real>, w: real, discardEdges: bool): seq<seq<real>>
    requires |e| > 0
  {
    var cand := Candidates(s, e, w, discardEdges);
    var st := Run(s, e, w, cand, |e|);
    Fragments(s, e, w, cand, |e|) + BeginFragments(s, st, discardEdges) + EndFragments(s, e, w, discardEdges, st)
  }

  /**
    Every trial finds a sample. A trial that finds none leaves its samples as an empty float
    array (line 330), and indexing the spikes with it (line 344) raises.
  */
  predicate Indexable(s: seq<real>, events: seq<real>, w: real) {
    forall t :: 0 <= t < |events| ==> Eligible(s, events[t], w) != []
  }

  /**
    What getPseudoSpikeVectors returns: the sorted pseudo spikes, which are exactly the spikes
    of all cells, and one pseudo event time per trial.
  */
  function Stitch(spikes: seq<real>, events: seq<real>, w: real, discardEdges: bool): (r: Result<(seq<real>, seq<real>)>)
    ensures r == Err(NoEvents) <==> events == []
    ensures r == Err(EmptyFloatIndex) <==> events != [] && !Indexable(Sort(spikes), Sort(events), w)
    ensures r.Err? ==> r == Err(NoEvents) || r == Err(EmptyFloatIndex)
    ensures r.Ok? ==> Sorted(r.value.0) && |r.value.1| == |events|
    ensures r.Ok? ==> multiset(r.value.0) == multiset(Concat(Cells(Sort(spikes), Sort(events), w, discardEdges)))
  {
    if events == [] then Err(NoEvents)
    else
      var s, e := Sort(spikes), Sort(events);
      if !Indexable(s, e, w) then Err(EmptyFloatIndex)
      else Ok((Sort(Concat(Cells(s, e, w, discardEdges))), PseudoEvents(e, w, |e|)))
  }

  /** The last element of the ascending sort is the largest one. */
  lemma SortLast(v: seq<real>)
    requires |v| > 0
    ensures Sort(v)[|v| - 1] == Max(v)
  {
    SortedLastIsMax(Sort(v), v);
  }

  /** The last element of a sorted rearrangement of v is the largest element of v. */
  lemma SortedLastIsMax(a: seq<real>, v: seq<real>)
    requires |v| > 0 && Sorted(a) && multiset(a) == multiset(v)
    ensures |a| == |v| && a[|a| - 1] == Max(v)
  {
    assert |a| == |multiset(a)| == |multiset(v)| == |v|;
    var last, m := a[|a| - 1], Max(v);
    assert last in multiset(a);
    assert last in v;
    assert m in multiset(v);
    var i :| 0 <= i < |a| && a[i] == m;
    assert m <= last;
  }

  /**
    For a non-negative window the stitching raises exactly when no spike comes at or after the
    last onset: that trial, and possibly earlier ones, find no sample.
  */
  lemma StitchRaises(spikes: seq<real>, events: seq<real>, w: real, discardEdges: bool)
    requires events != [] && w >= 0.0
    ensures Stitch(spikes, events, w, discardEdges) == Err(EmptyFloatIndex) <==>
      forall x :: x in spikes ==> x < Max(events)
  {
    var s, e := Sort(spikes), Sort(events);
    SortLast(events);
    IndexableIffLast(s, e, w);
    if exists k :: 0 <= k < |s| && e[|e| - 1] <= s[k] {
      var k :| 0 <= k < |s| && e[|e| - 1] <= s[k];
      assert s[k] in multiset(s);
      assert s[k] in spikes;
    } else {
      forall x | x in spikes ensures x < e[|e| - 1] {
        assert x in multiset(s);
        var k :| 0 <= k < |s| && s[k] == x;
      }
    }
  }

  /** With sorted onsets and a non-negative window every trial finds a sample exactly when the last one does. */
  lemma IndexableIffLast(s: seq<real>, e: seq<real>, w: real)
    requires Sorted(e) && |e| > 0 && w >= 0.0
    ensures Indexable(s, e, w) <==> exists k :: 0 <= k < |s| && e[|e| - 1] <= s[k]
  {
    var last := e[|e| - 1];
    if exists k :: 0 <= k < |s| && last <= s[k] {
      var k :| 0 <= k < |s| && last <= s[k];
      forall t | 0 <= t < |e| ensures Eligible(s, e[t], w) != [] {
        EligibleShape(s, e[t], w);
        assert e[t] <= last;
        assert !(s[k] < e[t]);
      }
    } else {
      EligibleShape(s, last, w);
      assert Eligible(s, last, w) == [];
    }
  }

  // ---------------------------------------------------------------- properties of the run

  /** The smaller of the gap between onsets and the window. */
  function Advanced(gap: real, w: real): (d: real)
    ensures d <= gap && d <= w
    ensures d == gap || d == w
  {
    if w > gap then gap else w
  }

  /** A time line that starts at 0 and advances by the smaller of the onset gap and the window. */
  predicate Compressed(pe: seq<real>, events: seq<real>, w: real)
    requires |pe| <= |events|
  {
    && (|pe| > 0 ==> pe[0] == 0.0)
    && (forall t :: 0 < t < |pe| ==> pe[t] - pe[t - 1] == Advanced(events[t] - events[t - 1], w))
  }

  /** On a compressed time line trial t sits no later than its onset relative to the first onset. */
  lemma {:induction false} BeforeOnset(pe: seq<real>, events: seq<real>, w: real, t: nat)
    requires |pe| <= |events| && Compressed(pe, events, w) && t < |pe|
    ensures pe[t] <= events[t] - events[0]
  {
    if t > 0 {
      BeforeOnset(pe, events, w, t - 1);
    }
  }

  /** On a compressed time line trial t sits no later than t windows. */
  lemma {:induction false} WithinWindows(pe: seq<real>, events: seq<real>, w: real, t: nat)
    requires |pe| <= |events| && Compressed(pe, events, w) && t < |pe|
    ensures pe[t] <= t as real * w
  {
    if t > 0 {
      WithinWindows(pe, events, w, t - 1);
      assert t as real * w == (t - 1) as real * w + w;
    }
  }

  /** With sorted onsets and a non-negative window a compressed time line never goes back. */
  lemma {:induction false} Climbs(pe: seq<real>, events: seq<real>, w: real, i: nat, j: nat)
    requires |pe| <= |events| && Compressed(pe, events, w) && i <= j < |pe|
    requires Sorted(events) && w >= 0.0
    ensures pe[i] <= pe[j]
  {
    if i < j {
      Climbs(pe, events, w, i, j - 1);
      assert events[j - 1] <= events[j];
    }
  }

  /**
    The pseudo event times of the first n trials: the first is 0, each later one lies the
    smaller of the onset gap and the window after the one before, none lies later than its
    onset relative to the first onset or than t windows, and with sorted onsets they are sorted.
  */
  lemma PseudoEventTimeline(events: seq<real>, w: real, n: nat)
    requires n <= |events|
    ensures Compressed(PseudoEvents(events, w, n), events, w)
    ensures var pe := PseudoEvents(events, w, n);
      forall t :: 0 <= t < n ==> pe[t] <= events[t] - events[0] && pe[t] <= t as real * w
    ensures Sorted(events) && w >= 0.0 ==> Sorted(PseudoEvents(events, w, n))
  {
    var pe := PseudoEvents(events, w, n);
    forall t | 0 < t < n
      ensures pe[t] - pe[t - 1] == Advanced(events[t] - events[t - 1], w)
    {
      assert pe[t] == NextPseudoT(events, w, t, pe[t - 1]);
    }
    forall t | 0 <= t < n
      ensures pe[t] <= events[t] - events[0] && pe[t] <= t as real * w
    {
      BeforeOnset(pe, events, w, t);
      WithinWindows(pe, events, w, t);
    }
    if Sorted(events) && w >= 0.0 {
      forall i, j | 0 <= i < j < n
        ensures pe[i] <= pe[j]
      {
        Climbs(pe, events, w, i, j);
      }
    }
  }

  /** After a trial that used samples, the last used sample is that trial's last one. */
  lemma LastUsedIsLatest(s: seq<real>, events: seq<real>, w: real, cand: seq<seq<nat>>, t: nat)
    requires Fits(s, events, cand) && 0 < t <= |events| && |Samples(s, events, w, cand, t - 1)| > 0
    ensures var prev := Samples(s, events, w, cand, t - 1);
      Run(s, events, w, cand, t).lastUsed == prev[|prev| - 1]
  {
  }

  /**
    In the overlap branch a trial shares no sample with the trial before it: the previous
    trial's samples end at the last used sample, and the kept ones all lie beyond it.
  */
  lemma NoSampleReusedOnOverlap(s: seq<real>, events: seq<real>, w: real, cand: seq<seq<nat>>, t: nat, i: nat, j: nat)
    requires Fits(s, events, cand) && 0 < t < |events| && Overlaps(events, w, t)
    requires i < |Samples(s, events, w, cand, t)| && j < |Samples(s, events, w, cand, t - 1)|
    ensures Samples(s, events, w, cand, t)[i] > Samples(s, events, w, cand, t - 1)[j]
  {
    var prev := Samples(s, events, w, cand, t - 1);
    LastUsedIsLatest(s, events, w, cand, t);
    assert j < |prev| - 1 ==> prev[j] < prev[|prev| - 1];
  }

  /**
    What getPseudoSpikeVectors returns, trial by trial: it succeeds exactly when every trial
    finds a sample; the pseudo event times then form a compressed time line over the sorted
    onsets, sorted when the window is non-negative, and every trial's fragment is inside the
    pseudo spike vector.
  */
  lemma StitchedTrials(spikes: seq<real>, events: seq<real>, w: real, discardEdges: bool, t: nat)
    requires t < |events|
    ensures var r := Stitch(spikes, events, w, discardEdges);
      var e := Sort(events);
      && (r.Ok? <==> Indexable(Sort(spikes), e, w))
      && (r.Ok? ==>
        && Compressed(r.value.1, e, w)
        && (w >= 0.0 ==> Sorted(r.value.1))
        && multiset(Fragment(Sort(spikes), e, w, Candidates(Sort(spikes), e, w, discardEdges), t)) <= multiset(r.value.0))
  {
    var s, e := Sort(spikes), Sort(events);
    if !Indexable(s, e, w) {
      return;
    }
    PseudoEventTimeline(e, w, |e|);
    var cand := Candidates(s, e, w, discardEdges);
    var cells := Cells(s, e, w, discardEdges);
    assert cells[t] == Fragment(s, e, w, cand, t);
    ConcatHasPart(cells, t);
  }

  // ---------------------------------------------------------------- the loop

  /** The eligible samples of one trial, as the loop body finds them. */
  method FindEligible(s: seq<real>, e: real, w: real) returns (use: seq<nat>)
    ensures use == Eligible(s, e, w)
  {
    var start := FindFirst(AtLeast(s, e));
    var end := FindFirst(Above(s, e + w));
    if start.Some? && end.Some? && start.value > end.value {
      start, end := None, None;
    }
    if end.None? {
      end := start;
    }
    if start.None? || end.None? {
      use := [];
    } else {
      use := Range(start.value, end.value + 1);
    }
  }

  /** Lines 337-341: the first and last trials reach to the ends of the spike array. */
  method WidenEdges(use: seq<nat>, t: nat, trials: nat, n: nat, discardEdges: bool) returns (r: seq<nat>)
    requires AllBelow(use, n) && Increasing(use)
    ensures r == Widen(use, t, trials, n, discardEdges)
  {
    r := use;
    if |r| > 0 {
      if t == 0 && !discardEdges {
        r := Range(0, r[|r| - 1] + 1);
      } else if t == trials - 1 && !discardEdges {
        r := Range(r[0], n);
      }
    }
  }

  /** Lines 347-357: advance the pseudo event time, dropping used samples when the trials overlap. */
  method Advance(s: seq<real>, events: seq<real>, w: real, discardEdges: bool, ghost cand: seq<seq<nat>>,
                 found: seq<nat>, st: StitchState, t: nat)
    returns (use: seq<nat>, pseudoT: real)
    requires cand == Candidates(s, events, w, discardEdges) && t < |events| && found == cand[t]
    ensures use == TrialSamples(s, events, w, cand, t, st.lastUsed)
    ensures pseudoT == NextPseudoT(events, w, t, st.pseudoT)
  {
    var e := events[t];
    use := found;
    pseudoT := st.pseudoT;
    if t == 0 {
      pseudoT := 0.0;
    } else if w > e - events[t - 1] {
      use := KeepAfter(use, st.lastUsed);
      pseudoT := pseudoT + e - events[t - 1];
    } else {
      pseudoT := pseudoT + w;
    }
  }

  /**
    One pass of the loop body: the new loop variables and the fragment of trial t, or indexed
    false where a trial without samples makes line 344 raise.
  */
  method StitchTrial(s: seq<real>, events: seq<real>, w: real, discardEdges: bool, ghost cand: seq<seq<nat>>, st: StitchState, t: nat)
    returns (indexed: bool, next: StitchState, local: seq<real>)
    requires cand == Candidates(s, events, w, discardEdges) && t < |events|
    ensures indexed <==> Eligible(s, events[t], w) != []
    ensures indexed ==> next == Step(s, events, w, cand, st, t)
    ensures indexed ==> local == Local(s, TrialSamples(s, events, w, cand, t, st.lastUsed), events[t], next.pseudoT)
  {
    var found := FindEligible(s, events[t], w);
    if found == [] {
      return false, st, [];
    }
    indexed := true;
    found := WidenEdges(found, t, |events|, |s|, discardEdges);
    var use, pseudoT := Advance(s, events, w, discardEdges, cand, found, st, t);
    var lastUsed := st.lastUsed;
    local := [];
    if |use| > 0 {
      lastUsed := use[|use| - 1];
      local := Local(s, use, events[t], pseudoT);
    }
    var first, pseudoT0 := st.first, st.pseudoT0;
    if first.None? && |use| > 0 {
      first := Some(use[0]);
      pseudoT0 := pseudoT;
    }
    next := StitchState(pseudoT, lastUsed, first, pseudoT0);
  }

  /** The pseudo event times grow by trial t's. */
  lemma PseudoEventsGrow(events: seq<real>, w: real, t: nat)
    requires t < |events|
    ensures PseudoEvents(events, w, t + 1) == PseudoEvents(events, w, t) + [PseudoEvent(events, w, t)]
  {
    var longer := PseudoEvents(events, w, t + 1);
    var shorter := PseudoEvents(events, w, t);
    assert longer[..t] == shorter;
  }

  /** One step from the state after t trials is the state after t + 1, with trial t's fragment. */
  lemma StepFromRun(s: seq<real>, events: seq<real>, w: real, cand: seq<seq<nat>>, st: StitchState, t: nat)
    requires Fits(s, events, cand) && t < |events| && st == Run(s, events, w, cand, t)
    ensures Step(s, events, w, cand, st, t) == Run(s, events, w, cand, t + 1)
    ensures Step(s, events, w, cand, st, t).pseudoT == PseudoEvent(events, w, t)
    ensures Local(s, TrialSamples(s, events, w, cand, t, st.lastUsed), events[t], Step(s, events, w, cand, st, t).pseudoT)
         == Fragment(s, events, w, cand, t)
  {
    RunPseudoT(s, events, w, cand, t + 1);
  }

  /** Writes x after the first t entries of a. */
  method Put(a: array<real>, t: nat, x: real)
    requires t < a.Length
    modifies a
    ensures a[..t + 1] == old(a[..t]) + [x]
  {
    a[t] := x;
    assert a[..t + 1] == a[..t] + [x];
  }

  /** One pass of the loop: trial t advances the state, appends its fragment and writes its pseudo event time. */
  method StitchNext(s: seq<real>, events: seq<real>, w: real, discardEdges: bool, ghost cand: seq<seq<nat>>,
                    st: StitchState, cells: seq<seq<real>>, t: nat, pseudoEvents: array<real>)
    returns (indexed: bool, next: StitchState, cells': seq<seq<real>>)
    requires cand == Candidates(s, events, w, discardEdges) && t < |events| == pseudoEvents.Length
    requires st == Run(s, events, w, cand, t)
    requires cells == Fragments(s, events, w, cand, t)
    requires pseudoEvents[..t] == PseudoEvents(events, w, t)
    modifies pseudoEvents
    ensures indexed <==> Eligible(s, events[t], w) != []
    ensures indexed ==> next == Run(s, events, w, cand, t + 1)
    ensures indexed ==> cells' == Fragments(s, events, w, cand, t + 1)
    ensures indexed ==> pseudoEvents[..t + 1] == PseudoEvents(events, w, t + 1)
  {
    var local;
    indexed, next, local := StitchTrial(s, events, w, discardEdges, cand, st, t);
    if !indexed {
      return false, next, cells;
    }
    StepFromRun(s, events, w, cand, st, t);
    cells' := cells + [local];
    FragmentsGrow(s, events, w, cand, t);
    Put(pseudoEvents, t, next.pseudoT);
    PseudoEventsGrow(events, w, t);
  }

  /** One more trial that finds a sample extends a prefix in which every trial does. */
  lemma IndexableGrow(s: seq<real>, events: seq<real>, w: real, t: nat)
    requires t < |events| && Indexable(s, events[..t], w) && Eligible(s, events[t], w) != []
    ensures Indexable(s, events[..t + 1], w)
  {
    var shorter, longer := events[..t], events[..t + 1];
    forall u | 0 <= u < t + 1 ensures Eligible(s, longer[u], w) != [] {
      if u < t {
        assert longer[u] == shorter[u];
      }
    }
  }

  /** One trial without samples makes the whole stitching raise. */
  lemma NotIndexable(s: seq<real>, events: seq<real>, w: real, t: nat)
    requires t < |events| && Eligible(s, events[t], w) == []
    ensures !Indexable(s, events, w)
  {
  }

  /**
    The loop over the sorted events (lines 317-372). It stops with indexed false at the first
    trial that finds no sample, where the source raises.
  */
  method StitchLoop(s: seq<real>, events: seq<real>, w: real, discardEdges: bool, ghost cand: seq<seq<nat>>)
    returns (indexed: bool, st: StitchState, cells: seq<seq<real>>, pseudoEventT: seq<real>)
    requires cand == Candidates(s, events, w, discardEdges)
    ensures indexed <==> Indexable(s, events, w)
    ensures indexed ==> st == Run(s, events, w, cand, |events|)
    ensures indexed ==> cells == Fragments(s, events, w, cand, |events|)
    ensures indexed ==> pseudoEventT == PseudoEvents(events, w, |events|)
  {
    var pseudoEvents := new real[|events|];
    st := StitchState(0.0, 0, None, 0.0);
    cells := [];
    pseudoEventT := [];
    for t := 0 to |events|
      invariant Indexable(s, events[..t], w)
      invariant st == Run(s, events, w, cand, t)
      invariant cells == Fragments(s, events, w, cand, t)
      invariant pseudoEvents[..t] == PseudoEvents(events, w, t)
    {
      indexed, st, cells := StitchNext(s, events, w, discardEdges, cand, st, cells, t, pseudoEvents);
      if !indexed {
        NotIndexable(s, events, w, t);
        return;
      }
      IndexableGrow(s, events, w, t);
    }
    indexed := true;
    assert events[..|events|] == events;
    assert pseudoEvents[..] == pseudoEvents[..|events|];
    pseudoEventT := pseudoEvents[..];
  }

  /** getPseudoSpikeVectors: stitch, add the edge fragments, flatten and sort. */
  method GetPseudoSpikeVectors(spikeTimes: seq<real>, eventTimes: seq<real>, w: real, discardEdges: bool)
    returns (r: Result<(seq<real>, seq<real>)>)
    ensures r == Stitch(spikeTimes, eventTimes, w, discardEdges)
  {
    var s := Sort(spikeTimes);
    var events := Sort(eventTimes);
    ghost var cand := Candidates(s, events, w, discardEdges);
    var indexed, st, cells, pseudoEventT := StitchLoop(s, events, w, discardEdges, cand);
    if !indexed {
      return Err(EmptyFloatIndex);
    }
    if |events| == 0 {
      return Err(NoEvents);
    }
    cells := cells + BeginFragments(s, st, discardEdges) + EndFragments(s, events, w, discardEdges, st);
    var flat := Flatten(Columns(cells));
    FlattenColumns(cells);
    r := Ok((Sort(flat), pseudoEventT));
  }
}
