/**
  Trial windowing (getSpikeT, dependencies.py lines 268-296): the spikes strictly inside
  (onset, onset + W) of every trial, made relative to that onset, sorted and wrapped by the
  sentinels 0 and W. The source gathers them into a pre-allocated buffer through a cursor,
  doubling the buffer when a trial would run past its end.
*/
module SpikeWindows {
  import opened ArrayOps

  /** The spikes of one trial, relative to its onset e. */
  function TrialSpikes(spikes: seq<real>, e: real, w: real): (r: seq<real>)
    ensures |r| <= |spikes|
  {
    Minus(KeepOpen(spikes, e, e + w), e)
  }

  /** The trial spikes of all events, trial after trial. */
  function Collected(spikes: seq<real>, events: seq<real>, w: real): seq<real> {
    if events == [] then []
    else Collected(spikes, events[..|events| - 1], w) + TrialSpikes(spikes, events[|events| - 1], w)
  }

  /** What getSpikeT returns. */
  function SpikeT(spikes: seq<real>, events: seq<real>, w: real): seq<real> {
    [0.0] + Sort(Collected(spikes, events, w)) + [w]
  }

  /** Number of (onset, spike) pairs with onset < spike < onset + w. */
  function PairCount(spikes: seq<real>, events: seq<real>, w: real): nat {
    if events == [] then 0
    else PairCount(spikes, events[1..], w) + CountOpen(spikes, events[0], events[0] + w)
  }

  // ---------------------------------------------------------------- the imperative buffer

  /** The library resize: a new array of the given size filled by repeating a (zeros if a is empty). */
  method Resize(a: array<real>, size: nat) returns (b: array<real>)
    ensures fresh(b) && b.Length == size
    ensures forall k :: 0 <= k < size ==> b[k] == if a.Length == 0 then 0.0 else a[k % a.Length]
    ensures size >= a.Length ==> b[..a.Length] == a[..]
  {
    b := new real[size];
    for k := 0 to size
      invariant forall j :: 0 <= j < k ==> b[j] == if a.Length == 0 then 0.0 else a[j % a.Length]
    {
      b[k] := if a.Length == 0 then 0.0 else a[k % a.Length];
    }
    if size >= a.Length {
      forall j | 0 <= j < a.Length
        ensures b[j] == a[j]
      {
        ModOfSmaller(j, a.Length);
      }
    }
  }

  /** The fancy-index assignment buf[idx : idx + |temp|] = temp. */
  method Store(buf: array<real>, idx: nat, temp: seq<real>)
    requires idx + |temp| <= buf.Length
    modifies buf
    ensures buf[..idx + |temp|] == old(buf[..idx]) + temp
  {
    for j := 0 to |temp|
      invariant buf[..idx] == old(buf[..idx])
      invariant buf[idx..idx + j] == temp[..j]
    {
      buf[idx + j] := temp[j];
      assert buf[idx..idx + j + 1] == buf[idx..idx + j] + [temp[j]];
    }
    assert buf[..idx + |temp|] == buf[..idx] + buf[idx..idx + |temp|];
  }

  /**
    The doubling check: when the last index to be written is past the end, the buffer is
    resized to twice its size. A trial never adds more entries than the buffer holds, so one
    doubling is enough and the entries before the cursor are kept.
  */
  method MakeRoom(buf: array<real>, idx: nat, count: nat) returns (b: array<real>)
    requires idx <= buf.Length && count <= buf.Length
    ensures b == buf || fresh(b)
    ensures idx + count <= b.Length && buf.Length <= b.Length
    ensures b[..idx] == buf[..idx]
  {
    b := buf;
    if count > 0 && idx + count - 1 >= buf.Length {
      b := Resize(buf, buf.Length * 2);
      assert b[..idx] == b[..buf.Length][..idx];
    }
  }

  lemma CollectedStep(spikes: seq<real>, events: seq<real>, w: real, t: nat)
    requires t < |events|
    ensures Collected(spikes, events[..t + 1], w) == Collected(spikes, events[..t], w) + TrialSpikes(spikes, events[t], w)
  {
    assert events[..t + 1][..t] == events[..t];
  }

  lemma ModOfSmaller(k: nat, n: nat)
    requires k < n
    ensures k % n == k
  {
  }

  /**
    getSpikeT. Each trial adds at most |spikes| entries and the buffer starts at twice that, so
    after the one doubling check every index written is inside the buffer; the prefix before
    the cursor always holds exactly the spikes collected so far.
  */
  method GetSpikeT(spikes: seq<real>, events: seq<real>, w: real) returns (r: seq<real>)
    ensures r == SpikeT(spikes, events, w)
  {
    var buf := new real[|spikes| * 2];   // the source fills it with NaN; entries past the cursor are never read
    var idx: nat := 0;
    for t := 0 to |events|
      invariant fresh(buf)
      invariant idx <= buf.Length
      invariant 2 * |spikes| <= buf.Length
      invariant buf[..idx] == Collected(spikes, events[..t], w)
    {
      var temp := TrialSpikes(spikes, events[t], w);
      buf := MakeRoom(buf, idx, |temp|);
      Store(buf, idx, temp);
      CollectedStep(spikes, events, w, t);
      idx := idx + |temp|;
    }
    assert events[..|events|] == events;
    r := [0.0] + Sort(buf[..idx]) + [w];
  }

  // ---------------------------------------------------------------- properties of the result

  /** Every collected relative spike time lies strictly inside (0, w). */
  lemma {:induction false} CollectedInWindow(spikes: seq<real>, events: seq<real>, w: real)
    ensures forall x :: x in multiset(Collected(spikes, events, w)) ==> 0.0 < x < w
  {
    if events != [] {
      var e := events[|events| - 1];
      CollectedInWindow(spikes, events[..|events| - 1], w);
      var kept := KeepOpen(spikes, e, e + w);
      var rel := TrialSpikes(spikes, e, w);
      forall x | x in multiset(rel) ensures 0.0 < x < w {
        var k :| 0 <= k < |rel| && rel[k] == x;
        assert kept[k] in multiset(kept);
      }
    }
  }

  /** The result starts at 0, ends at w, and every entry in between lies strictly inside (0, w). */
  lemma SpikeTBounds(spikes: seq<real>, events: seq<real>, w: real)
    ensures var r := SpikeT(spikes, events, w);
      |r| >= 2 && r[0] == 0.0 && r[|r| - 1] == w &&
      forall i :: 0 < i < |r| - 1 ==> 0.0 < r[i] < w
  {
    var c := Collected(spikes, events, w);
    var sorted := Sort(c);
    CollectedInWindow(spikes, events, w);
    forall i | 0 <= i < |sorted| ensures 0.0 < sorted[i] < w {
      assert sorted[i] in multiset(sorted);
    }
  }

  /** For a positive window the result is sorted. */
  lemma SpikeTSorted(spikes: seq<real>, events: seq<real>, w: real)
    requires w > 0.0
    ensures Sorted(SpikeT(spikes, events, w))
  {
    SpikeTBounds(spikes, events, w);
  }

  lemma {:induction false} CollectedLength(spikes: seq<real>, events: seq<real>, w: real)
    ensures |Collected(spikes, events, w)| == PairCount(spikes, events, w)
    decreases |events|
  {
    if events != [] {
      var e := events[|events| - 1];
      var init := events[..|events| - 1];
      CollectedLength(spikes, init, w);
      KeepOpenLength(spikes, e, e + w);
      PairCountLast(spikes, events, w);
    }
  }

  /** PairCount may equally be summed from the last event. */
  lemma {:induction false} PairCountLast(spikes: seq<real>, events: seq<real>, w: real)
    requires events != []
    ensures PairCount(spikes, events, w) ==
      PairCount(spikes, events[..|events| - 1], w) + CountOpen(spikes, events[|events| - 1], events[|events| - 1] + w)
    decreases |events|
  {
    if |events| > 1 {
      PairCountLast(spikes, events[1..], w);
      assert events[1..][..|events[1..]| - 1] == events[..|events| - 1][1..];
    }
  }

  /** The result has two entries more than there are (onset, spike) pairs inside the window. */
  lemma SpikeTLength(spikes: seq<real>, events: seq<real>, w: real)
    ensures |SpikeT(spikes, events, w)| == 2 + PairCount(spikes, events, w)
  {
    CollectedLength(spikes, events, w);
  }
}
