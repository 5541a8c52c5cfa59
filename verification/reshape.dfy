/**
 Row-major reshaping of a flat signal into equal contiguous rows, the inverse
 flattening, and the reshape-with-inferred-width that fails when the row count
 does not divide the length.
 */
module Reshape {

  datatype Option<T> = None | Some(value: T)

  /** Every row of `rows` holds exactly `width` samples. */
  predicate Uniform<T>(rows: seq<seq<T>>, width: nat)
  {
    forall i :: 0 <= i < |rows| ==> |rows[i]| == width
  }

  /** Cuts `s` into `count` consecutive rows of `width` samples each. */
  function Split<T>(s: seq<T>, count: nat, width: nat): (r: seq<seq<T>>)
    requires |s| == count * width
    ensures |r| == count
    ensures Uniform(r, width)
    decreases count
  {
    if count == 0 then [] else [s[..width]] + Split(s[width..], count - 1, width)
  }

  /** Concatenates the rows in row order. */
  function Flatten<T>(rows: seq<seq<T>>): seq<T>
  {
    if |rows| == 0 then [] else rows[0] + Flatten(rows[1..])
  }

  /**
   `torch.reshape(s, (count, -1))`: `None` when `count` does not divide `|s|` or
   `s` is empty (the inferred width of an empty tensor is ambiguous), otherwise
   the `count` rows of inferred width `|s| / count`.
   */
  function ReshapeRows<T>(s: seq<T>, count: nat): (r: Option<seq<seq<T>>>)
    requires count > 0
    ensures r.Some? <==> |s| > 0 && |s| % count == 0
    ensures r.Some? ==> |r.value| == count && Uniform(r.value, |s| / count)
    ensures r.Some? ==> Flatten(r.value) == s
  {
    if |s| > 0 && |s| % count == 0 then
      FlattenSplit(s, count, |s| / count);
      Some(Split(s, count, |s| / count))
    else None
  }

  /** Row `i` of the split is the `i`-th block of `width` consecutive samples. */
  lemma {:induction false} SplitRowIsBlock<T>(s: seq<T>, count: nat, width: nat, i: nat)
    requires |s| == count * width
    requires i < count
    ensures i * width + width <= |s|
    ensures Split(s, count, width)[i] == s[i * width .. i * width + width]
    decreases i
  {
    if i > 0 {
      var rest := s[width..];
      SplitRowIsBlock(rest, count - 1, width, i - 1);
      assert (i - 1) * width + width == i * width;
      assert rest[(i - 1) * width .. (i - 1) * width + width] == s[i * width .. i * width + width];
    }
  }

  /** A flattened uniform grid holds `|rows| * width` samples. */
  lemma {:induction false} FlattenUniformLength<T>(rows: seq<seq<T>>, width: nat)
    requires Uniform(rows, width)
    ensures |Flatten(rows)| == |rows| * width
  {
    if |rows| > 0 {
      FlattenUniformLength(rows[1..], width);
    }
  }

  /** Flattening returns the split signal unchanged. */
  lemma {:induction false} FlattenSplit<T>(s: seq<T>, count: nat, width: nat)
    requires |s| == count * width
    ensures Flatten(Split(s, count, width)) == s
    decreases count
  {
    if count > 0 {
      var rows := Split(s, count, width);
      FlattenSplit(s[width..], count - 1, width);
      assert rows[0] == s[..width];
      assert rows[1..] == Split(s[width..], count - 1, width);
    }
  }

  /** Splitting a flattened uniform grid by its own geometry gives the grid back. */
  lemma {:induction false} SplitFlatten<T>(rows: seq<seq<T>>, width: nat)
    requires Uniform(rows, width)
    ensures |Flatten(rows)| == |rows| * width
    ensures Split(Flatten(rows), |rows|, width) == rows
    decreases |rows|
  {
    FlattenUniformLength(rows, width);
    if |rows| > 0 {
      var flat := Flatten(rows);
      SplitFlatten(rows[1..], width);
      assert flat[..width] == rows[0];
      assert flat[width..] == Flatten(rows[1..]);
      assert [rows[0]] + rows[1..] == rows;
    }
  }

  /** The flattened length of a grid depends only on its row lengths. */
  lemma {:induction false} FlattenLengthByRows<T>(a: seq<seq<T>>, b: seq<seq<T>>)
    requires |a| == |b|
    requires forall i :: 0 <= i < |a| ==> |a[i]| == |b[i]|
    ensures |Flatten(a)| == |Flatten(b)|
  {
    if |a| > 0 {
      FlattenLengthByRows(a[1..], b[1..]);
    }
  }
}
