/**
 The sample geometry of `enhance_one_track`: pad the normalized signal to whole
 frames, lay it out as one row or as `batch_size` equal rows, run the spectral
 transform row by row, then flatten and cut back to the original length.

 The transform (STFT, power-law compression, the enhancement model, the inverse
 chain) is an abstract per-row function `transform`; the amplitude normalization
 is not part of this model.
 */
module Enhance {
  import opened Framing
  import opened BatchSize
  import opened Reshape

  /** The chunk limit the evaluation driver passes: 16 seconds at 16 kHz. */
  const DefaultCutLen: nat := 16000 * 16

  /** How the padded signal is laid out for the transform. */
  datatype Layout = SingleRow | Batched(batchSize: nat)
  {
    function RowCount(): nat
    {
      match this
      case SingleRow => 1
      case Batched(b) => b
    }
  }

  /**
   The ways the source fails: division by a zero chunk limit, a batch-size search
   that never exits, and a reshape whose row count does not divide the actual
   padded length.
   */
  datatype PipelineError =
    | ZeroChunkLength
    | BatchSearchDiverges(start: nat)
    | ReshapeMismatch(sampleCount: nat, batchSize: nat)

  datatype Outcome<T> = Ok(value: T) | Failed(error: PipelineError)

  /**
   Chooses the layout for a signal of `length` samples under chunk limit `cutLen`:
   a single row when the padded length fits, otherwise the least divisor of the
   frame unit at or above the number of chunks the limit calls for.
   */
  function PlanLayout(length: nat, cutLen: nat): (r: Outcome<Layout>)
    ensures r == Ok(SingleRow) <==> PaddedLength(length) <= cutLen
    ensures r == Failed(ZeroChunkLength) <==> cutLen == 0 < PaddedLength(length)
    ensures r.Failed? && r.error.BatchSearchDiverges?
            <==> 0 < cutLen < PaddedLength(length) && FrameUnit * cutLen < PaddedLength(length)
    ensures !(r.Failed? && r.error.ReshapeMismatch?)
    ensures r.Ok? && r.value.Batched? ==>
              && 0 < cutLen < PaddedLength(length)
              && var b := r.value.batchSize;
              && 2 <= b
              && DividesFrameUnit(b)
              && PaddedLength(length) % b == 0
              && SearchStart(PaddedLength(length), cutLen) <= b
              && forall k :: SearchStart(PaddedLength(length), cutLen) <= k < b ==> !DividesFrameUnit(k)
  {
    var padded := PaddedLength(length);
    if padded <= cutLen then Ok(SingleRow)
    else if cutLen == 0 then Failed(ZeroChunkLength)
    else
      var start := SearchStart(padded, cutLen);
      SearchStartBoundedIff(padded, cutLen);
      if start > FrameUnit then Failed(BatchSearchDiverges(start))
      else
        var b := LeastDivisorFrom(start);
        SearchStartAtLeastTwo(padded, cutLen);
        DivisorSplitsAlignedLength(padded, b);
        Ok(Batched(b))
  }

  /**
   The padding arithmetic and batch-size search of `enhance_one_track`, as
   statements, with the search loop run by `FindBatchSize`.
   */
  method PlanBatch(length: nat, cutLen: nat) returns (r: Outcome<Layout>)
    ensures r == PlanLayout(length, cutLen)
    ensures r.Ok? ==> PaddedLength(length) % r.value.RowCount() == 0
  {
    var frameNum := (length + FrameUnit - 1) / FrameUnit;
    var paddedLen := frameNum * FrameUnit;
    if paddedLen <= cutLen {
      return Ok(SingleRow);
    }
    if cutLen == 0 {
      return Failed(ZeroChunkLength);
    }
    var start := (paddedLen + cutLen - 1) / cutLen;
    if start > FrameUnit {
      return Failed(BatchSearchDiverges(start));
    }
    var b := FindBatchSize(start);
    r := Ok(Batched(b));
  }

  /**
   Pads `s` and lays it out for the transform. The reshape infers the row width
   from the ACTUAL padded signal, whose length differs from the padded length when
   the prefix slice was clamped.
   */
  function Prepare<T>(s: seq<T>, cutLen: nat): (r: Outcome<seq<seq<T>>>)
    ensures r.Ok? <==> PlanLayout(|s|, cutLen).Ok? && |Pad(s)| % PlanLayout(|s|, cutLen).value.RowCount() == 0
    ensures r.Ok? ==>
              && |r.value| == PlanLayout(|s|, cutLen).value.RowCount()
              && Uniform(r.value, |Pad(s)| / |r.value|)
    ensures r.Failed? && r.error.ReshapeMismatch? ==>
              && PlanLayout(|s|, cutLen) == Ok(Batched(r.error.batchSize))
              && r.error.sampleCount == |Pad(s)|
              && r.error.sampleCount % r.error.batchSize != 0
    ensures r.Failed? && !r.error.ReshapeMismatch? ==> PlanLayout(|s|, cutLen) == Failed(r.error)
  {
    var padded := Pad(s);
    var plan := PlanLayout(|s|, cutLen);
    if plan.Failed? then Failed(plan.error)
    else if plan.value.SingleRow? then Ok([padded])
    else
      var b := plan.value.batchSize;
      var reshaped := ReshapeRows(padded, b);
      if reshaped.None? then Failed(ReshapeMismatch(|padded|, b)) else Ok(reshaped.value)
  }

  /** Applies the transform to each row. */
  function MapRows<T>(transform: seq<T> -> seq<T>, rows: seq<seq<T>>): seq<seq<T>>
  {
    seq(|rows|, i requires 0 <= i < |rows| => transform(rows[i]))
  }

  /** `torch.flatten(rows)[:length]`: the first `length` samples, or all of them if fewer. */
  function Finalize<T>(rows: seq<seq<T>>, length: nat): (r: seq<T>)
    ensures length <= |Flatten(rows)| ==> |r| == length
    ensures |Flatten(rows)| < length ==> r == Flatten(rows)
    ensures forall i :: 0 <= i < |r| ==> r[i] == Flatten(rows)[i]
  {
    var flat := Flatten(rows);
    flat[..Min(length, |flat|)]
  }

  /** The whole geometry of `enhance_one_track`, with the spectral stage as `transform`. */
  function EnhanceTrack<T>(s: seq<T>, cutLen: nat, transform: seq<T> -> seq<T>): Outcome<seq<T>>
  {
    match Prepare(s, cutLen)
    case Failed(e) => Failed(e)
    case Ok(rows) => Ok(Finalize(MapRows(transform, rows), |s|))
  }

  /** Flattening the prepared grid gives back the padded signal, whose prefix is `s`. */
  lemma PrepareFlattensToPad<T>(s: seq<T>, cutLen: nat)
    requires Prepare(s, cutLen).Ok?
    ensures Flatten(Prepare(s, cutLen).value) == Pad(s)
    ensures Flatten(Prepare(s, cutLen).value)[..|s|] == s
  {
    var padded := Pad(s);
    if PlanLayout(|s|, cutLen).value.SingleRow? {
      assert Flatten([padded]) == padded + Flatten([padded][1..]);
    }
  }

  /** A padded length within the chunk limit keeps the signal as one padded row. */
  lemma ShortSignalSingleRow<T>(s: seq<T>, cutLen: nat)
    requires PaddedLength(|s|) <= cutLen
    ensures Prepare(s, cutLen) == Ok([Pad(s)])
  {
  }

  /**
   With a chunk limit of at least one frame, preparation fails exactly when the
   search would not terminate; a batched layout of `b` rows splits the padded
   length into `b` rows of `PaddedLength / b` samples with no remainder.
   */
  lemma PrepareGeometry<T>(s: seq<T>, cutLen: nat)
    requires cutLen >= FrameUnit
    ensures Prepare(s, cutLen).Ok? <==> PaddedLength(|s|) <= FrameUnit * cutLen
    ensures PlanLayout(|s|, cutLen).Ok? && PlanLayout(|s|, cutLen).value.Batched? ==>
              var b := PlanLayout(|s|, cutLen).value.batchSize;
              && Prepare(s, cutLen).Ok?
              && |Prepare(s, cutLen).value| == b
              && b * (PaddedLength(|s|) / b) == PaddedLength(|s|)
              && Uniform(Prepare(s, cutLen).value, PaddedLength(|s|) / b)
  {
    var plan := PlanLayout(|s|, cutLen);
    if plan.Ok? && plan.value.Batched? {
      LongSignalPadsExactly(s, cutLen);
      DivisorSplitsAlignedLength(PaddedLength(|s|), plan.value.batchSize);
    }
  }

  /** The transformed grid has as many rows as `rows`, each as long as its counterpart. */
  predicate SameShape<T>(out: seq<seq<T>>, rows: seq<seq<T>>)
  {
    |out| == |rows| && forall i :: 0 <= i < |out| ==> |out[i]| == |rows[i]|
  }

  /**
   The flatten-and-truncate guarantee: whatever the spectral stage does inside the rows, as
   long as it keeps their shape, flattening and truncating a grid laid out from the
   padded signal yields exactly `|s|` samples.
   */
  lemma {:induction false} FinalizeRestoresLength<T>(s: seq<T>, rows: seq<seq<T>>, out: seq<seq<T>>)
    requires Flatten(rows) == Pad(s)
    requires SameShape(out, rows)
    ensures |Finalize(out, |s|)| == |s|
  {
    FlattenLengthByRows(out, rows);
  }

  /** A length-preserving transform makes the output exactly as long as the input. */
  lemma {:induction false} EnhancePreservesLength<T>(s: seq<T>, cutLen: nat, transform: seq<T> -> seq<T>)
    requires forall x :: |transform(x)| == |x|
    requires EnhanceTrack(s, cutLen, transform).Ok?
    ensures |EnhanceTrack(s, cutLen, transform).value| == |s|
  {
    var rows := Prepare(s, cutLen).value;
    PrepareFlattensToPad(s, cutLen);
    FinalizeRestoresLength(s, rows, MapRows(transform, rows));
  }

  /** With the identity as transform, the pipeline returns its input unchanged. */
  lemma EnhanceIdentityRestores<T>(s: seq<T>, cutLen: nat, transform: seq<T> -> seq<T>)
    requires forall x :: transform(x) == x
    requires EnhanceTrack(s, cutLen, transform).Ok?
    ensures EnhanceTrack(s, cutLen, transform).value == s
  {
    var rows := Prepare(s, cutLen).value;
    assert MapRows(transform, rows) == rows;
    PrepareFlattensToPad(s, cutLen);
  }

  /** The worked layouts under the driver's chunk limit of 256000 samples. */
  lemma LayoutExamples()
    ensures PlanLayout(16000, DefaultCutLen) == Ok(SingleRow)
    ensures PlanLayout(300000, DefaultCutLen) == Ok(Batched(2))
    ensures PlanLayout(600000, DefaultCutLen) == Ok(Batched(4))
  {
    assert SearchStart(300000, DefaultCutLen) == 2;
    assert SearchStart(600000, DefaultCutLen) == 3;
    SearchExamples();
  }

  /** 300000 samples under the driver's limit become two rows of 150000 samples. */
  lemma TwoRowExample<T>(s: seq<T>)
    requires |s| == 300000
    ensures Prepare(s, DefaultCutLen).Ok?
    ensures |Prepare(s, DefaultCutLen).value| == 2
    ensures Uniform(Prepare(s, DefaultCutLen).value, 150000)
  {
    LayoutExamples();
    AlignedSignalUnpadded(s);
  }

  /**
   Under the driver's limit, 256050 samples pad to 256100 and split into two rows
   of 128050 samples: the batch size divides the padded length, yet each row ends
   half-way through a 100-sample frame.
   */
  lemma MisalignedRowsExample<T>(s: seq<T>)
    requires |s| == 256050
    ensures PlanLayout(|s|, DefaultCutLen) == Ok(Batched(2))
    ensures Prepare(s, DefaultCutLen).Ok?
    ensures |Prepare(s, DefaultCutLen).value| == 2
    ensures Uniform(Prepare(s, DefaultCutLen).value, 128050)
    ensures 128050 % FrameUnit == 50
  {
    assert PaddedLength(256050) == 256100;
    assert SearchStart(256100, DefaultCutLen) == 2;
    SearchExamples();
  }

  /**
   Under a chunk limit below one frame the clamped padding reaches the reshape:
   one sample pads to two, the search picks four rows, and the reshape fails.
   */
  lemma ClampedReshapeMismatch<T>(s: seq<T>)
    requires |s| == 1
    ensures Prepare(s, 30) == Failed(ReshapeMismatch(2, 4))
  {
    assert PaddedLength(1) == 100;
    assert SearchStart(100, 30) == 4;
    assert LeastDivisorFrom(4) == 4;
  }
}
