/**
 The padding stage: the length arithmetic that aligns a mono signal to whole frames of
 `FrameUnit` samples, and the content-repeat padding that fills the gap with the
 signal's own prefix (never with silence).
 */
module Framing {

  /** Number of samples per frame; the padded length is a multiple of it. */
  const FrameUnit: nat := 100

  function Min(a: nat, b: nat): nat
  {
    if a <= b then a else b
  }

  /** `frame_num`: the number of whole frames needed to cover `length` samples. */
  function FrameCount(length: nat): (r: nat)
    ensures length <= r * FrameUnit < length + FrameUnit
  {
    (length + FrameUnit - 1) / FrameUnit
  }

  /** `padded_len`: a multiple of the frame unit, at most one frame short of `length`'s successor. */
  function PaddedLength(length: nat): (r: nat)
    ensures r % FrameUnit == 0
    ensures length <= r < length + FrameUnit
  {
    FrameCount(length) * FrameUnit
  }

  /** `padding_len`: how many samples are missing to reach the next frame boundary. */
  function PaddingLength(length: nat): (r: nat)
    ensures r < FrameUnit
    ensures (length + r) % FrameUnit == 0
    ensures r == 0 <==> length % FrameUnit == 0
  {
    PaddedLength(length) - length
  }

  /**
   Extends `s` with its own first `PaddingLength(|s|)` samples. Python slicing
   clamps, so a signal shorter than its padding contributes only itself.
   */
  function Pad<T>(s: seq<T>): (r: seq<T>)
    ensures |r| == |s| + Min(PaddingLength(|s|), |s|)
    ensures r[..|s|] == s
    ensures forall i :: 0 <= i < |r| - |s| ==> r[|s| + i] == s[i]
  {
    s + s[..Min(PaddingLength(|s|), |s|)]
  }

  /** The padded length is the least multiple of the frame unit not below `length`. */
  lemma PaddedLengthIsLeast(length: nat, m: nat)
    requires m % FrameUnit == 0
    requires length <= m
    ensures PaddedLength(length) <= m
  {
  }

  /** A frame-aligned signal is not padded at all. */
  lemma AlignedSignalUnpadded<T>(s: seq<T>)
    requires |s| % FrameUnit == 0
    ensures PaddedLength(|s|) == |s|
    ensures Pad(s) == s
  {
    assert s[..0] == [];
  }

  /**
   The clamp of the prefix slice bites exactly for signals of 1 to 49 samples:
   otherwise the padded signal is exactly `PaddedLength` long.
   */
  lemma PadLengthExactIff<T>(s: seq<T>)
    ensures |Pad(s)| == PaddedLength(|s|) <==> PaddingLength(|s|) <= |s|
    ensures PaddingLength(|s|) <= |s| <==> (|s| == 0 || |s| >= FrameUnit / 2)
  {
    var n := |s|;
    if n >= FrameUnit {
      assert PaddingLength(n) < FrameUnit <= n;
    } else if n > 0 {
      assert PaddedLength(n) == FrameUnit;
    }
  }

  /** When the clamp bites, the padded signal is the signal twice over, `2 * length` long. */
  lemma ClampedPadDoubles<T>(s: seq<T>)
    requires |s| < PaddingLength(|s|)
    ensures Pad(s) == s + s
    ensures |Pad(s)| == 2 * |s| < PaddedLength(|s|)
  {
    assert s[..|s|] == s;
  }

  /**
   Once the padded length exceeds a chunk limit of at least one frame, the signal is
   longer than its padding, so the clamp never bites on the reshape path.
   */
  lemma LongSignalPadsExactly<T>(s: seq<T>, cutLen: nat)
    requires FrameUnit <= cutLen < PaddedLength(|s|)
    ensures PaddingLength(|s|) <= |s|
    ensures |Pad(s)| == PaddedLength(|s|)
  {
    PadLengthExactIff(s);
    if |s| < FrameUnit {
      PaddedLengthIsLeast(|s|, FrameUnit);
      assert false;
    }
  }

  /** Worked cases: 16000 samples are frame-aligned; 16050 samples gain their own first 50. */
  lemma PaddingExamples<T>(s: seq<T>)
    requires |s| == 16050
    ensures PaddingLength(16000) == 0
    ensures PaddingLength(16050) == 50
    ensures |Pad(s)| == 16100
    ensures Pad(s)[16050..] == s[..50]
  {
    assert PaddedLength(16050) == 16100;
  }
}
