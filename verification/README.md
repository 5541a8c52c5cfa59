# Sample geometry of CMGAN's `enhance_one_track`

CMGAN enhances noisy speech by running a trained model on a compressed
spectrogram. Before the spectral stage, `enhance_one_track` adapts a mono signal
of any length to the model's batch shape. It pads the signal to a whole number
of 100-sample frames, using the signal's own prefix as padding. If the padded
length exceeds the chunk limit `cut_len`, it picks a batch size that divides 100
and reshapes the signal row-major into that many equal rows. After the spectral
stage it flattens the rows and cuts them back to the original length.

This project models that geometry in Dafny over an abstract sample type `T`.
The spectral stage is an abstract per-row function `transform`.

- `Framing` (`framing.dfy`): the frame unit (100), `frame_num`, `padded_len`,
  `padding_len`, and the content-repeat `Pad`, including Python's clamped prefix slice.
- `BatchSize` (`batch_size.dfy`): the batch-size search loop as a method, its
  reference definition `LeastDivisorFrom`, and when the loop terminates.
- `Reshape` (`reshape.dfy`): the row-major `Split` and `ReshapeRows`, which stand for
  `torch.reshape(noisy, (batch_size, -1))` at line 34. `ReshapeRows` fails when the
  batch size does not divide the length, or when the signal is empty. `Flatten` is
  `torch.flatten` at line 54. The module also proves the round trips in both directions.
- `Enhance` (`enhance.dfy`): the layout decision (`PlanLayout`, and `PlanBatch` with the
  loop), preparation of the grid (`Prepare`, lines 29-34), and the stand-in for the
  spectral stage of lines 37-51. That stand-in is `MapRows`, which applies one abstract
  `transform` to every row. `Finalize` is the flatten-and-truncate of line 54.
  `EnhanceTrack` composes them into the whole geometry of `enhance_one_track`, lines
  25-54, and the end-to-end length and identity theorems are stated about it.

The source's failure modes are values of `PipelineError`:
- `ZeroChunkLength`: Python's `ZeroDivisionError` when `cut_len == 0` and the padded length is positive.
- `BatchSearchDiverges`: the `while` loop that never exits when it starts above 100.
- `ReshapeMismatch`: torch's reshape error.

The padding slice `noisy[:, :padding_len]` is clamped by Python, so the padding never
wraps around the signal. A signal of 1 to 49 samples therefore pads to `2 * length`,
not to 100 samples (`ClampedPadDoubles`).

Choosing a batch size that divides 100 makes the reshape exact: the padded length
splits into equal rows with no remainder (`DivisorSplitsAlignedLength`). It does not
make each row a whole number of 100-sample frames. That happens exactly when the batch
size divides the frame count (`RowsFrameAlignedIff`). Under the driver's own limit of
256000, a 256050-sample track pads to 256100 samples. It is split into 2 rows of 128050
samples, and each row ends half-way through a frame (`MisalignedRowsExample`).

The reshape infers the row width from the actual tensor, so under a chunk limit
below 100 that clamped length can reach the reshape and fail
(`ClampedReshapeMismatch`). With any chunk limit of at least 100, including the
driver's 256000, it cannot (`PrepareGeometry`).

## Model

| member | source | states |
|---|---|---|
| Framing.FrameCount | src/evaluation_cpu.py:26 | `frame_num` is the ceiling of `length / 100`: the least frame count whose total covers `length` |
| Framing.PaddedLength | src/evaluation_cpu.py:27 | `padded_len` is a multiple of 100 with `length <= padded_len < length + 100` |
| Framing.PaddingLength | src/evaluation_cpu.py:28 | `padding_len` is below 100, brings `length` to a multiple of 100, and is 0 exactly when `length` already is one |
| Framing.Pad | src/evaluation_cpu.py:29 | the padded signal starts with `s`, each appended sample repeats the sample at the same offset from the start of `s`, and the appended part is `min(padding_len, length)` long |
| Framing.PaddedLengthIsLeast | src/evaluation_cpu.py:26-27 | no multiple of 100 that is at least `length` lies below `padded_len` |
| Framing.AlignedSignalUnpadded | src/evaluation_cpu.py:26-29 | a length already a multiple of 100 gets no padding and the signal is unchanged |
| Framing.PadLengthExactIff | src/evaluation_cpu.py:28-29 | the padded signal is exactly `padded_len` long iff `padding_len <= length`, iff the length is 0 or at least 50 |
| Framing.ClampedPadDoubles | src/evaluation_cpu.py:29 | when `length < padding_len` the clamped slice makes the padded signal `s + s`, of length `2 * length < padded_len` |
| Framing.LongSignalPadsExactly | src/evaluation_cpu.py:26-30 | if `padded_len > cut_len >= 100` the clamp cannot bite, so the padded signal is exactly `padded_len` long |
| Framing.PaddingExamples | src/evaluation_cpu.py:25-29 | 16000 samples need no padding; 16050 samples pad to 16100 with their own first 50 samples |
| BatchSize.SearchStart | src/evaluation_cpu.py:31 | the start value is the ceiling of `padded_len / cut_len`: the least row count whose rows of `cut_len` cover `padded_len` |
| BatchSize.LeastDivisorFrom | src/evaluation_cpu.py:31-33 | from a start in 1..100 the search stops at a divisor of 100 that is at least the start, at most 100, and below which no divisor lies |
| BatchSize.FindBatchSize | src/evaluation_cpu.py:31-33 | the `while 100 % batch_size != 0` loop terminates from any start in 1..100 and returns the least divisor of 100 not below the start |
| BatchSize.LeastDivisorUnique | src/evaluation_cpu.py:32-33 | any divisor of 100 that is at least the start, with no divisor between the start and it, is at most 100 and equals the one the loop finds |
| BatchSize.SearchSpinsAboveFrameUnit | src/evaluation_cpu.py:32-33 | for any batch size above 100, `100 % batch_size == 100`, so the loop condition stays true forever |
| BatchSize.SearchTerminatesIff | src/evaluation_cpu.py:31-33 | the loop has an exit value at or above its start iff the start is at most 100 |
| BatchSize.SearchStartBoundedIff | src/evaluation_cpu.py:30-31 | the start `ceil(padded_len / cut_len)` is at most 100 iff `padded_len <= 100 * cut_len` |
| BatchSize.SearchStartAtLeastTwo | src/evaluation_cpu.py:30-31 | on the chunking branch (`padded_len > cut_len`) the search starts at 2 or more |
| BatchSize.DivisorSplitsAlignedLength | src/evaluation_cpu.py:27-34 | a divisor of 100 divides every multiple of 100, so the reshape has exact rows with no remainder |
| BatchSize.RowsFrameAlignedIff | src/evaluation_cpu.py:27-34 | for a multiple of 100 split by a divisor `b` of 100, each row is a whole number of 100-sample frames iff `b` divides the frame count |
| BatchSize.SearchExamples | src/evaluation_cpu.py:31-33 | a start of 2 stays 2, a start of 3 becomes 4, a start of 6 becomes 10 |
| Reshape.Split | src/evaluation_cpu.py:34 | splitting `count * width` samples gives `count` rows of exactly `width` samples |
| Reshape.ReshapeRows | src/evaluation_cpu.py:34 | reshaping to `(count, -1)` succeeds iff the signal is non-empty and `count` divides its length. It then gives `count` rows of `length / count` samples whose concatenation is the input |
| Reshape.SplitRowIsBlock | src/evaluation_cpu.py:34 | row `i` of the row-major split is the block of samples `i * width` up to `(i + 1) * width` |
| Reshape.FlattenUniformLength | src/evaluation_cpu.py:54 | flattening `n` rows of `width` samples gives `n * width` samples |
| Reshape.FlattenSplit | src/evaluation_cpu.py:54 | flattening after the row-major split returns the signal unchanged |
| Reshape.SplitFlatten | src/evaluation_cpu.py:34 | splitting a flattened grid of uniform rows by its own geometry returns the grid |
| Reshape.FlattenLengthByRows | src/evaluation_cpu.py:54 | two grids with equal row lengths flatten to equal lengths |
| Enhance.PlanLayout | src/evaluation_cpu.py:25-33 | a single row iff `padded_len <= cut_len`; otherwise one of three outcomes. It is a zero-division failure iff `cut_len == 0`. It diverges iff `padded_len > 100 * cut_len`. Otherwise the batch size is at least 2, divides 100 and `padded_len`, and is the least such value at or above the start |
| Enhance.PlanBatch | src/evaluation_cpu.py:25-33 | the statement-level version of lines 25-33, running the search loop, yields the same layout, and its row count divides `padded_len` |
| Enhance.Prepare | src/evaluation_cpu.py:29-34 | preparation succeeds iff the layout succeeds and its row count divides the actual padded length. It then gives that many uniform rows. A reshape failure reports the actual padded length and a batch size that does not divide it |
| Enhance.Finalize | src/evaluation_cpu.py:54-55 | when the flattened rows hold at least `length` samples the output is exactly `length` long, the length line 55's commented-out assertion expects. When they hold fewer, Python's slice clamps and the output is all of them. Every output sample is the flattened sample at the same position |
| Enhance.PrepareFlattensToPad | src/evaluation_cpu.py:54 | flattening the prepared grid gives back the padded signal, and its first `length` samples are the input |
| Enhance.ShortSignalSingleRow | src/evaluation_cpu.py:30 | when `padded_len <= cut_len` no reshape happens: the grid is the padded signal as one row |
| Enhance.PrepareGeometry | src/evaluation_cpu.py:30-34 | with `cut_len >= 100`, preparation succeeds iff `padded_len <= 100 * cut_len`. A batched layout of `b` rows gives `b` rows of `padded_len / b` samples with no remainder |
| Enhance.FinalizeRestoresLength | src/evaluation_cpu.py:54-55 | for any grid that flattens to the padded signal, and any output grid of the same row count and row lengths, flatten-and-truncate yields exactly `length` samples |
| Enhance.EnhancePreservesLength | src/evaluation_cpu.py:54-55 | with a length-preserving per-row transform, a successful run outputs exactly `length` samples, the length the commented-out assertion checks |
| Enhance.EnhanceIdentityRestores | src/evaluation_cpu.py:54 | with the identity as transform, a successful run returns the input signal unchanged |
| Enhance.LayoutExamples | src/evaluation_cpu.py:30-33 | with `cut_len = 256000`, 16000 samples stay one row, 300000 samples give 2 rows, and 600000 samples (start 3) give 4 rows |
| Enhance.TwoRowExample | src/evaluation_cpu.py:30-34 | 300000 samples with `cut_len = 256000` become 2 rows of 150000 samples |
| Enhance.MisalignedRowsExample | src/evaluation_cpu.py:25-34 | with `cut_len = 256000`, 256050 samples give 2 rows of 128050 samples, and 128050 leaves 50 samples of a partial frame |
| Enhance.ClampedReshapeMismatch | src/evaluation_cpu.py:29-34 | a 1-sample signal with `cut_len = 30` pads to 2 samples, the search picks 4 rows, and the reshape fails |

## Left out

- Amplitude normalization `c = sqrt(L / sum(x^2))` and the final division by `c` (lines 21-23, 53). These are floating-point operations with a square root, and they divide by zero on silent input.
- STFT and ISTFT with a Hamming window, `power_compress` / `power_uncompress`, the permutes, and the enhancement model (lines 37-51). These are floating-point library calls and code that is not part of this model. `EnhanceTrack` takes them as one abstract per-row function. The end-to-end theorems assume only that this function preserves each row's length. Whether `torch.istft` actually preserves the row length depends on library internals that are not modelled. That assumption is least safe when a row is not a whole number of 100-sample frames (`MisalignedRowsExample`), because the hop is `n_fft // 4 = 100` (line 80).
- File input and output, the sample-rate assertion, the CUDA toggle, directory listing, checkpoint loading and argument parsing (lines 10, 15-19, 56-58, 63-96). These are plumbing.
- Multi-channel input. The model is single-channel, because a row-major reshape of `(channels, padded_len)` would interleave channels.
- A negative `cut_len`. `cutLen` is a `nat`. A negative value would need `np.ceil` of a negative quotient, Python's floored `%` with a negative divisor, and a reshape to a negative size. The driver never passes one.
- Enhance.PlanLayout: `np.ceil(length / 100)` and `np.ceil(padded_len / cut_len)` use floating-point division. The model uses exact integer ceilings, so it does not model rounding for lengths beyond 2^53.
