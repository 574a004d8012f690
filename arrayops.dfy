/**
  The array primitives the ZETA code takes from its numerical library, on sequences of reals:
  sorting, unique values, evenly spaced values, sums and means, the index of the largest
  magnitude, and selection of the entries inside an open interval.
*/
module ArrayOps {

  predicate Sorted(s: seq<real>) {
    forall i, j :: 0 <= i < j < |s| ==> s[i] <= s[j]
  }

  predicate StrictlySorted(s: seq<real>) {
    forall i, j :: 0 <= i < j < |s| ==> s[i] < s[j]
  }

  function Abs(x: real): real {
    if x < 0.0 then -x else x
  }

  // ---------------------------------------------------------------- sorting

  /** Places x in the sorted sequence s. */
  function Insert(x: real, s: seq<real>): (r: seq<real>)
    requires Sorted(s)
    ensures Sorted(r)
    ensures multiset(r) == multiset(s) + multiset{x}
  {
    if s == [] || x <= s[0] then
      ConsSorted(x, s);
      [x] + s
    else
      var rest := Insert(x, s[1..]);
      assert s == [s[0]] + s[1..];
      LowerBoundKept(s[0], x, s[1..], rest);
      ConsSorted(s[0], rest);
      [s[0]] + rest
  }

  /** A value at most every entry of a sorted sequence can go in front of it. */
  lemma ConsSorted(b: real, s: seq<real>)
    requires Sorted(s) && forall k :: 0 <= k < |s| ==> b <= s[k]
    ensures Sorted([b] + s)
  {
  }

  /** A value below x and below all of tail stays below every entry of a rearrangement of tail + [x]. */
  lemma LowerBoundKept(b: real, x: real, tail: seq<real>, rest: seq<real>)
    requires b <= x && forall y :: y in tail ==> b <= y
    requires multiset(rest) == multiset(tail) + multiset{x}
    ensures forall k :: 0 <= k < |rest| ==> b <= rest[k]
  {
    forall k | 0 <= k < |rest| ensures b <= rest[k] {
      var y := rest[k];
      assert y in multiset(rest);
      assert y in multiset(tail) || y == x;
      if y != x {
        assert y in tail;
      }
    }
  }

  /** The ascending sort of s, as the library sort returns it. */
  function Sort(s: seq<real>): (r: seq<real>)
    ensures Sorted(r)
    ensures multiset(r) == multiset(s)
    ensures |r| == |s|
  {
    if s == [] then []
    else
      assert s == [s[0]] + s[1..];
      Insert(s[0], Sort(s[1..]))
  }

  // ---------------------------------------------------------------- unique values

  /** Drops the repeats of a sorted sequence. */
  function Dedup(s: seq<real>): (r: seq<real>)
    requires Sorted(s)
    ensures StrictlySorted(r)
    ensures forall x :: x in r <==> x in s
    ensures |r| <= |s|
    ensures |r| == |s| ==> StrictlySorted(s)
    ensures |s| > 0 ==> |r| > 0 && r[0] == s[0]
  {
    if |s| <= 1 then s
    else if s[0] == s[1] then
      var rest := Dedup(s[1..]);
      assert forall x :: x in s <==> x in s[1..] by {
        assert s == [s[0]] + s[1..];
      }
      rest
    else
      var rest := Dedup(s[1..]);
      assert s == [s[0]] + s[1..];
      [s[0]] + rest
  }

  /** The sorted distinct values of s. */
  function Unique(s: seq<real>): (r: seq<real>)
    ensures StrictlySorted(r)
    ensures forall x :: x in r <==> x in s
    ensures |r| <= |s|
  {
    var sorted := Sort(s);
    assert forall x :: x in sorted <==> x in s by {
      forall x ensures x in sorted <==> x in s {
        assert x in sorted <==> x in multiset(sorted);
      }
    }
    Dedup(sorted)
  }

  /** A strictly sorted sequence holds each value at most once. */
  lemma {:induction false} StrictlySortedOnce(s: seq<real>, x: real)
    requires StrictlySorted(s)
    ensures multiset(s)[x] <= 1
  {
    if s != [] {
      assert s == [s[0]] + s[1..];
      StrictlySortedOnce(s[1..], x);
      if s[0] == x {
        assert x !in s[1..];
      }
    }
  }

  /** Equal values at two positions count twice in the multiset. */
  lemma TwoCopies(s: seq<real>, i: nat, j: nat)
    requires i < j < |s| && s[i] == s[j]
    ensures multiset(s)[s[i]] >= 2
  {
    var front, back := s[..j], s[j..];
    assert s == front + back;
    assert front[i] == s[i] && back[0] == s[j];
    assert multiset(s) == multiset(front) + multiset(back);
  }

  /** When unique values lose nothing, no two positions of the input hold the same value. */
  lemma UniqueKeepsAllMeansDistinct(s: seq<real>, i: nat, j: nat)
    requires |Unique(s)| == |s|
    requires i < j < |s|
    ensures s[i] != s[j]
  {
    var sorted := Sort(s);
    assert StrictlySorted(sorted);
    if s[i] == s[j] {
      TwoCopies(s, i, j);
      StrictlySortedOnce(sorted, s[i]);
    }
  }

  // ---------------------------------------------------------------- evenly spaced values

  /** num evenly spaced values from start to stop, both included (start alone when num is 1). */
  function Linspace(start: real, stop: real, num: nat): (r: seq<real>)
    ensures |r| == num
    ensures num >= 1 ==> r[0] == start
    ensures num >= 2 ==> r[num - 1] == stop
  {
    if num <= 1 then seq(num, k => start)
    else
      var step := (stop - start) / (num - 1) as real;
      seq(num, k requires 0 <= k < num => if k == num - 1 then stop else start + k as real * step)
  }

  /** The k-th of the num values between start and stop lies k steps from start. */
  lemma LinspaceAt(start: real, stop: real, num: nat, k: nat)
    requires 2 <= num && k < num
    ensures Linspace(start, stop, num)[k] == start + k as real * ((stop - start) / (num - 1) as real)
  {
    var step := (stop - start) / (num - 1) as real;
    if k == num - 1 {
      assert (num - 1) as real * step == stop - start;
    }
  }

  // ---------------------------------------------------------------- sums, means, centring

  function Sum(s: seq<real>): real {
    if s == [] then 0.0 else s[0] + Sum(s[1..])
  }

  function Mean(s: seq<real>): real
    requires |s| > 0
  {
    Sum(s) / |s| as real
  }

  /** Adding d to every entry adds |s| times d to the sum. */
  lemma {:induction false} SumOffset(s: seq<real>, d: real)
    ensures Sum(seq(|s|, i requires 0 <= i < |s| => s[i] + d)) == Sum(s) + |s| as real * d
  {
    var t := seq(|s|, i requires 0 <= i < |s| => s[i] + d);
    if s != [] {
      SumOffset(s[1..], d);
      assert t[1..] == seq(|s[1..]|, i requires 0 <= i < |s[1..]| => s[1..][i] + d);
    }
  }

  /** s with its mean subtracted from every entry. */
  function Centre(s: seq<real>): (r: seq<real>)
    requires |s| > 0
    ensures |r| == |s|
    ensures Sum(r) == 0.0
    ensures forall i, j :: 0 <= i < |s| && 0 <= j < |s| ==> r[i] - r[j] == s[i] - s[j]
  {
    var m := Mean(s);
    var r := seq(|s|, i requires 0 <= i < |s| => s[i] + -m);
    SumOffset(s, -m);
    assert |s| as real * m == Sum(s);
    r
  }

  /** Centring a sequence whose mean is already zero changes nothing. */
  lemma CentreIdempotent(s: seq<real>)
    requires |s| > 0
    ensures Centre(Centre(s)) == Centre(s)
  {
    var c := Centre(s);
    assert Mean(c) == 0.0;
  }

  // ---------------------------------------------------------------- largest magnitude

  /** The first index of the largest absolute value. */
  function ArgMaxAbs(s: seq<real>): (k: nat)
    requires |s| > 0
    ensures k < |s|
    ensures forall j :: 0 <= j < |s| ==> Abs(s[j]) <= Abs(s[k])
    ensures forall j :: 0 <= j < k ==> Abs(s[j]) < Abs(s[k])
  {
    if |s| == 1 then 0
    else
      var k := ArgMaxAbs(s[..|s| - 1]);
      assert forall j :: 0 <= j < |s| - 1 ==> s[..|s| - 1][j] == s[j];
      if Abs(s[|s| - 1]) > Abs(s[k]) then |s| - 1 else k
  }

  /** The largest absolute value of s. */
  function MaxAbs(s: seq<real>): (m: real)
    requires |s| > 0
    ensures forall j :: 0 <= j < |s| ==> Abs(s[j]) <= m
    ensures exists j :: 0 <= j < |s| && Abs(s[j]) == m
  {
    Abs(s[ArgMaxAbs(s)])
  }

  // ---------------------------------------------------------------- open-interval selection

  /** The entries of s strictly between lo and hi, in their original order. */
  function KeepOpen(s: seq<real>, lo: real, hi: real): (r: seq<real>)
    ensures |r| <= |s|
    ensures forall x :: multiset(r)[x] == if lo < x < hi then multiset(s)[x] else 0
  {
    if s == [] then []
    else
      var rest := KeepOpen(s[1..], lo, hi);
      assert s == [s[0]] + s[1..];
      if lo < s[0] < hi then [s[0]] + rest else rest
  }

  /** The number of entries of s strictly between lo and hi. */
  function CountOpen(s: seq<real>, lo: real, hi: real): nat {
    if s == [] then 0
    else (if lo < s[0] < hi then 1 else 0) + CountOpen(s[1..], lo, hi)
  }

  lemma {:induction false} KeepOpenLength(s: seq<real>, lo: real, hi: real)
    ensures |KeepOpen(s, lo, hi)| == CountOpen(s, lo, hi)
  {
    if s != [] {
      KeepOpenLength(s[1..], lo, hi);
    }
  }

  /** Every entry of s minus d. */
  function Minus(s: seq<real>, d: real): (r: seq<real>)
    ensures |r| == |s|
    ensures forall i :: 0 <= i < |s| ==> r[i] + d == s[i]
  {
    seq(|s|, i requires 0 <= i < |s| => s[i] - d)
  }

  /** The concatenation of all parts, in order. */
  function Concat(parts: seq<seq<real>>): (r: seq<real>) {
    if parts == [] then [] else parts[0] + Concat(parts[1..])
  }

  /** Every part, with its repeats, is inside the concatenation. */
  lemma {:induction false} ConcatHasPart(parts: seq<seq<real>>, i: nat)
    requires i < |parts|
    ensures multiset(parts[i]) <= multiset(Concat(parts))
  {
    if i > 0 {
      ConcatHasPart(parts[1..], i - 1);
    }
  }

  /** Smallest and largest entries of a non-empty sequence. */
  function Min(s: seq<real>): (m: real)
    requires |s| > 0
    ensures m in s && forall x :: x in s ==> m <= x
  {
    if |s| == 1 then s[0]
    else
      var rest := Min(s[1..]);
      assert s == [s[0]] + s[1..];
      if s[0] <= rest then s[0] else rest
  }

  function Max(s: seq<real>): (m: real)
    requires |s| > 0
    ensures m in s && forall x :: x in s ==> x <= m
  {
    if |s| == 1 then s[0]
    else
      var rest := Max(s[1..]);
      assert s == [s[0]] + s[1..];
      if s[0] >= rest then s[0] else rest
  }
}
