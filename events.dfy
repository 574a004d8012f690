/**
  Validation and orientation of the event array, and the global reduction of the spike
  train to the span around the events (calcZetaOne, dependencies.py lines 43-69).
*/
module Events {
  import opened Wrappers
  import opened ArrayOps

  /** An event array as the caller may pass it, by number of dimensions. */
  datatype EventArray =
    | Scalar0(x: real)                          // a 0-dimensional array
    | Vector(values: seq<real>)                  // shape (n,)
    | Matrix(rows: seq<seq<real>>, cols: nat)    // shape (|rows|, cols)
    | Tensor(shape: seq<nat>)                    // three or more dimensions

  /** Matrix rows all have cols entries; a tensor has at least three dimensions. */
  predicate WellFormed(a: EventArray) {
    match a
    case Matrix(rows, c) => forall i :: 0 <= i < |rows| ==> |rows[i]| == c
    case Tensor(shape) => |shape| >= 3
    case _ => true
  }

  /** A 2-D table after orientation: |rows| rows of cols entries each. */
  datatype Table = Table(rows: seq<seq<real>>, cols: nat)

  predicate Rectangular(t: Table) {
    forall i :: 0 <= i < |t.rows| ==> |t.rows[i]| == t.cols
  }

  function Transpose(rows: seq<seq<real>>, cols: nat): (t: Table)
    requires forall i :: 0 <= i < |rows| ==> |rows[i]| == cols
    ensures Rectangular(t) && |t.rows| == cols && t.cols == |rows|
    ensures forall j, i :: 0 <= j < cols && 0 <= i < |rows| ==> t.rows[j][i] == rows[i][j]
  {
    Table(seq(cols, j requires 0 <= j < cols =>
            seq(|rows|, i requires 0 <= i < |rows| => rows[i][j])), |rows|)
  }

  /**
    Brings the event array into trials-by-columns form: a vector (or a 0-D array) becomes a
    single column, a matrix with fewer than three columns is kept, a matrix with three or more
    columns but fewer than three rows is transposed, and anything else is refused.
  */
  function Orient(a: EventArray, floating: bool): (r: Result<Table>)
    requires WellFormed(a)
    ensures r == Err(NotFloatArray) <==> !floating || a.Tensor?
    ensures r == Err(AmbiguousOrientation) <==> floating && a.Matrix? && a.cols >= 3 && |a.rows| >= 3
    ensures r.Ok? ==> Rectangular(r.value) && r.value.cols < 3
    // a matrix with fewer than three columns is kept as it is
    ensures floating && a.Matrix? && a.cols < 3 ==> r == Ok(Table(a.rows, a.cols))
    // a matrix with three or more columns but fewer than three rows is transposed
    ensures floating && a.Matrix? && a.cols >= 3 && |a.rows| < 3 ==> r == Ok(Transpose(a.rows, a.cols))
    // a vector becomes a single column, one row per value; a 0-D array a single entry
    ensures floating && a.Vector? ==>
      r.Ok? && r.value.cols == 1 && |r.value.rows| == |a.values| &&
      forall i :: 0 <= i < |a.values| ==> r.value.rows[i] == [a.values[i]]
    ensures floating && a.Scalar0? ==> r == Ok(Table([[a.x]], 1))
  {
    if !floating then Err(NotFloatArray)
    else
      match a
      case Tensor(_) => Err(NotFloatArray)
      case Scalar0(x) => Ok(Table([[x]], 1))
      case Vector(v) => Ok(Table(seq(|v|, i requires 0 <= i < |v| => [v[i]]), 1))
      case Matrix(rows, c) =>
        if c < 3 then Ok(Table(rows, c))
        else if |rows| < 3 then Ok(Transpose(rows, c))
        else Err(AmbiguousOrientation)
  }

  /** Column 0 of a table. */
  function FirstColumn(t: Table): (r: Result<seq<real>>)
    requires Rectangular(t)
    ensures r.Err? <==> t.cols == 0
    ensures r.Ok? ==> |r.value| == |t.rows| && forall i :: 0 <= i < |t.rows| ==> r.value[i] == t.rows[i][0]
  {
    if t.cols == 0 then Err(MissingColumn)
    else Ok(seq(|t.rows|, i requires 0 <= i < |t.rows| => t.rows[i][0]))
  }

  /** The event onsets: column 0 of the oriented array. */
  function EventOnsets(a: EventArray, floating: bool): (r: Result<seq<real>>)
    requires WellFormed(a)
    ensures a.Vector? && floating ==> r == Ok(a.values)
    ensures a.Scalar0? && floating ==> r == Ok([a.x])
    ensures a.Matrix? && floating && 0 < a.cols < 3 ==>
      r.Ok? && |r.value| == |a.rows| && forall i :: 0 <= i < |a.rows| ==> r.value[i] == a.rows[i][0]
    ensures a.Matrix? && floating && a.cols >= 3 && 0 < |a.rows| < 3 ==> r == Ok(a.rows[0])
    ensures r.Err? <==> !floating || a.Tensor? || (a.Matrix? && (a.cols == 0 || (a.cols >= 3 && |a.rows| != 1 && |a.rows| != 2)))
  {
    match Orient(a, floating)
    case Err(e) => Err(e)
    case Ok(t) =>
      var r := FirstColumn(t);
      if a.Vector? then
        assert r.value == a.values;
        r
      else if a.Scalar0? then
        assert r.value == [a.x];
        r
      else if a.Matrix? && a.cols >= 3 && 0 < |a.rows| then
        assert r.value == a.rows[0];
        r
      else r
  }

  // ---------------------------------------------------------------- spike reduction

  /**
    x survives the global reduction: later than the first spike, later than some event minus
    the padding, and earlier than some event plus the padding.
  */
  ghost predicate InReach(x: real, spikes: seq<real>, onsets: seq<real>, pad: real)
    requires |spikes| > 0
  {
    && x > spikes[0]
    && (exists i :: 0 <= i < |onsets| && onsets[i] - pad < x)
    && (exists i :: 0 <= i < |onsets| && x < onsets[i] + pad)
  }

  /**
    Restricts the spikes to the open span from max(first spike, first event - 5 W J) to
    last event + 5 W J, where W is the window and J the jitter size.
  */
  function ReduceSpikes(spikes: seq<real>, onsets: seq<real>, w: real, jitter: real): (r: Result<seq<real>>)
    ensures r == Err(NoEvents) <==> onsets == []
    ensures r == Err(NoSpikes) <==> onsets != [] && spikes == []
    ensures r.Ok? ==> forall x :: multiset(r.value)[x] ==
                                  if InReach(x, spikes, onsets, w * 5.0 * jitter) then multiset(spikes)[x] else 0
  {
    if onsets == [] then Err(NoEvents)
    else if spikes == [] then Err(NoSpikes)
    else
      var pad := w * 5.0 * jitter;
      var minPre := Min(onsets) - pad;
      var start := if spikes[0] >= minPre then spikes[0] else minPre;
      var stop := Max(onsets) + pad;
      var kept := KeepOpen(spikes, start, stop);
      assert forall x :: (start < x < stop) <==> InReach(x, spikes, onsets, pad) by {
        forall x ensures (start < x < stop) <==> InReach(x, spikes, onsets, pad) {
          var mi :| 0 <= mi < |onsets| && onsets[mi] == Min(onsets);
          var ma :| 0 <= ma < |onsets| && onsets[ma] == Max(onsets);
          if InReach(x, spikes, onsets, pad) {
            var i :| 0 <= i < |onsets| && onsets[i] - pad < x;
            var j :| 0 <= j < |onsets| && x < onsets[j] + pad;
            assert onsets[i] in onsets && onsets[j] in onsets;
          }
        }
      }
      Ok(kept)
  }
}
