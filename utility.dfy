/** The two module-level helpers of dependencies.py: findfirst and flatten. */
module Utility {
  import opened Wrappers
  import opened ArrayOps

  /** The least index at which the mask is true, or None when no entry is true. */
  function FindFirst(mask: seq<bool>): (r: Option<nat>)
    ensures r.None? <==> forall i :: 0 <= i < |mask| ==> !mask[i]
    ensures r.Some? ==> r.value < |mask| && mask[r.value]
    ensures r.Some? ==> forall i :: 0 <= i < r.value ==> !mask[i]
  {
    if mask == [] then None
    else if mask[0] then Some(0)
    else
      match FindFirst(mask[1..])
      case None => None
      case Some(i) => Some(i + 1)
  }

  /** The element-wise comparisons s >= x and s > x. */
  function AtLeast(s: seq<real>, x: real): (m: seq<bool>)
    ensures |m| == |s| && forall i :: 0 <= i < |s| ==> (m[i] <==> s[i] >= x)
  {
    seq(|s|, i requires 0 <= i < |s| => s[i] >= x)
  }

  function Above(s: seq<real>, x: real): (m: seq<bool>)
    ensures |m| == |s| && forall i :: 0 <= i < |s| ==> (m[i] <==> s[i] > x)
  {
    seq(|s|, i requires 0 <= i < |s| => s[i] > x)
  }

  /** A nested iterable: a float, or a list or array of further iterables. */
  datatype Nested = Scalar(x: real) | Items(items: seq<Nested>)

  /** The floats of a nested iterable, depth first and left to right. */
  function Flatten(l: seq<Nested>): (r: seq<real>)
    decreases l
  {
    if l == [] then []
    else
      var head := match l[0]
        case Scalar(x) => [x]
        case Items(xs) => Flatten(xs);
      head + Flatten(l[1..])
  }

  /** Flattening distributes over concatenation. */
  lemma {:induction false} FlattenAppend(a: seq<Nested>, b: seq<Nested>)
    ensures Flatten(a + b) == Flatten(a) + Flatten(b)
  {
    if a == [] {
      assert a + b == b;
    } else {
      assert (a + b)[0] == a[0];
      assert (a + b)[1..] == a[1..] + b;
      FlattenAppend(a[1..], b);
    }
  }

  /** A fragment as the column array (k rows of one float) that the stitching code produces. */
  function Column(frag: seq<real>): (n: Nested)
    ensures n.Items? && |n.items| == |frag|
  {
    Items(seq(|frag|, i requires 0 <= i < |frag| => Items([Scalar(frag[i])])))
  }

  function Columns(frags: seq<seq<real>>): (l: seq<Nested>)
    ensures |l| == |frags|
  {
    seq(|frags|, i requires 0 <= i < |frags| => Column(frags[i]))
  }

  /** Flattening one column array yields its floats in order. */
  lemma {:induction false} FlattenColumn(frag: seq<real>)
    ensures Flatten([Column(frag)]) == frag
  {
    var rows := Column(frag).items;
    FlattenRows(frag, rows);
    assert Flatten([Column(frag)]) == Flatten(rows) + Flatten([]);
  }

  lemma {:induction false} FlattenRows(frag: seq<real>, rows: seq<Nested>)
    requires |rows| == |frag| && forall i :: 0 <= i < |rows| ==> rows[i] == Items([Scalar(frag[i])])
    ensures Flatten(rows) == frag
  {
    if rows != [] {
      var tail := rows[1..];
      assert forall i :: 0 <= i < |tail| ==> tail[i] == rows[i + 1];
      FlattenRows(frag[1..], tail);
      assert Flatten(rows[0].items) == [frag[0]] + Flatten([]);
      assert Flatten(rows) == Flatten(rows[0].items) + Flatten(tail);
      assert frag == [frag[0]] + frag[1..];
    }
  }

  /** Flattening a list of column arrays is the concatenation of the fragments. */
  lemma {:induction false} FlattenColumns(frags: seq<seq<real>>)
    ensures Flatten(Columns(frags)) == Concat(frags)
  {
    if frags != [] {
      var l := Columns(frags);
      assert l == [Column(frags[0])] + Columns(frags[1..]);
      FlattenAppend([Column(frags[0])], Columns(frags[1..]));
      FlattenColumn(frags[0]);
      FlattenColumns(frags[1..]);
    }
  }
}
