/**
 The batch-size search: starting from the number of chunks the
 chunk limit calls for, count upwards until the count divides the frame unit.
 Because the padded length is a multiple of the frame unit, any such count also
 divides the padded length, which makes the later reshape exact.
 */
module BatchSize {
  import opened Framing

  /** `b` is a loop exit: a positive count that divides the frame unit. */
  predicate DividesFrameUnit(b: nat)
  {
    b > 0 && FrameUnit % b == 0
  }

  /** `ceil(padded_len / cut_len)`: the fewest rows of at most `cutLen` samples covering `paddedLen`. */
  function SearchStart(paddedLen: nat, cutLen: nat): (r: nat)
    requires cutLen > 0
    ensures paddedLen <= r * cutLen
    ensures r == 0 || (r - 1) * cutLen < paddedLen
  {
    (paddedLen + cutLen - 1) / cutLen
  }

  /**
   The value the search loop stops at when started from `start`: the least divisor
   of the frame unit that is not below `start`.
   */
  function LeastDivisorFrom(start: nat): (r: nat)
    requires 1 <= start <= FrameUnit
    ensures start <= r <= FrameUnit
    ensures DividesFrameUnit(r)
    ensures forall k :: start <= k < r ==> !DividesFrameUnit(k)
    decreases FrameUnit - start
  {
    if FrameUnit % start == 0 then start else LeastDivisorFrom(start + 1)
  }

  /** The search loop `while 100 % batch_size != 0: batch_size += 1`, run from `start`. */
  method FindBatchSize(start: nat) returns (b: nat)
    requires 1 <= start <= FrameUnit
    ensures DividesFrameUnit(b)
    ensures start <= b <= FrameUnit
    ensures forall k :: start <= k < b ==> !DividesFrameUnit(k)
    ensures b == LeastDivisorFrom(start)
  {
    b := start;
    while FrameUnit % b != 0
      invariant start <= b <= FrameUnit
      invariant forall k :: start <= k < b ==> !DividesFrameUnit(k)
      decreases FrameUnit - b
    {
      b := b + 1;
    }
    LeastDivisorUnique(start, b);
  }

  /** Any least divisor of the frame unit at or above `start` is the one the search finds. */
  lemma LeastDivisorUnique(start: nat, d: nat)
    requires 1 <= start <= d
    requires DividesFrameUnit(d)
    requires forall k :: start <= k < d ==> !DividesFrameUnit(k)
    ensures d <= FrameUnit
    ensures d == LeastDivisorFrom(start)
  {
    if d > FrameUnit {
      SearchSpinsAboveFrameUnit(d);
    }
  }

  /** Above the frame unit every remainder is the frame unit itself: the loop never exits. */
  lemma SearchSpinsAboveFrameUnit(b: nat)
    requires FrameUnit < b
    ensures FrameUnit % b == FrameUnit
    ensures !DividesFrameUnit(b)
  {
  }

  /** The search loop has an exit point exactly when it starts at or below the frame unit. */
  lemma SearchTerminatesIff(start: nat)
    requires start >= 1
    ensures (exists b :: start <= b && DividesFrameUnit(b)) <==> start <= FrameUnit
  {
    if start <= FrameUnit {
      assert DividesFrameUnit(FrameUnit);
    } else {
      forall b | start <= b
        ensures !DividesFrameUnit(b)
      {
        SearchSpinsAboveFrameUnit(b);
      }
    }
  }

  /** The search starts at or below the frame unit exactly when `paddedLen <= FrameUnit * cutLen`. */
  lemma SearchStartBoundedIff(paddedLen: nat, cutLen: nat)
    requires cutLen > 0
    ensures SearchStart(paddedLen, cutLen) <= FrameUnit <==> paddedLen <= FrameUnit * cutLen
  {
    var r := SearchStart(paddedLen, cutLen);
    if r > FrameUnit {
      assert (r - 1) * cutLen >= FrameUnit * cutLen;
    } else {
      assert r * cutLen <= FrameUnit * cutLen;
    }
  }

  /** Chunking only starts above the limit, so it always asks for at least two rows. */
  lemma SearchStartAtLeastTwo(paddedLen: nat, cutLen: nat)
    requires 0 < cutLen < paddedLen
    ensures SearchStart(paddedLen, cutLen) >= 2
  {
  }

  /** A divisor of the frame unit divides every frame-aligned length, with an exact row width. */
  lemma DivisorSplitsAlignedLength(paddedLen: nat, b: nat)
    requires paddedLen % FrameUnit == 0
    requires DividesFrameUnit(b)
    ensures paddedLen % b == 0
    ensures b * (paddedLen / b) == paddedLen
  {
    var q := FrameUnit / b;
    var f := paddedLen / FrameUnit;
    assert FrameUnit == b * q;
    assert paddedLen == FrameUnit * f;
    assert paddedLen == b * (q * f);
  }

  /** Multiplication by a natural number is monotone. */
  lemma MulMono(b: nat, u: nat, v: nat)
    requires u <= v
    ensures b * u <= b * v
  {
  }
  /** A product divided by one of its factors is the other. */
  lemma ExactQuotient(x: nat, b: nat, y: nat)
    requires b > 0
    requires x == b * y
    ensures x / b == y
  {
    if x / b < y {
      MulMono(b, x / b + 1, y);
    }
  }
  /** A positive factor cancels from both sides. */
  lemma CancelFactor(q: nat, x: nat, y: nat)
    requires q > 0
    requires q * x == q * y
    ensures x == y
  {
  }
  /** Products of three factors regrouped. */
  lemma MulAssoc(b: nat, q: nat, f: nat)
    ensures (b * q) * f == b * (q * f)
    ensures q * (b * f) == (b * q) * f
  {
  }
  /** A multiple of `b` leaves no remainder. */
  lemma MultipleHasNoRemainder(x: nat, b: nat, k: nat)
    requires b > 0
    requires x == b * k
    ensures x % b == 0
  {
    ExactQuotient(x, b, k);
  }
  /** With `b * q` the frame unit, `q * f` is a whole number of frames iff `b` divides `f`. */
  lemma ScaledMultipleIff(f: nat, b: nat, q: nat)
    requires b > 0 && b * q == FrameUnit
    ensures (q * f) % FrameUnit == 0 <==> f % b == 0
  {
    if f % b == 0 {
      ScaledMultipleOfFrames(f, b, q);
    }
    if (q * f) % FrameUnit == 0 {
      FramesOfScaledMultiple(f, b, q);
    }
  }
  /** One direction of `ScaledMultipleIff`. */
  lemma ScaledMultipleOfFrames(f: nat, b: nat, q: nat)
    requires b > 0 && b * q == FrameUnit
    requires f % b == 0
    ensures (q * f) % FrameUnit == 0
  {
    var k := f / b;
    assert f == b * k;
    MulAssoc(b, q, k);
    MultipleHasNoRemainder(q * f, FrameUnit, k);
  }
  /** The other direction of `ScaledMultipleIff`. */
  lemma FramesOfScaledMultiple(f: nat, b: nat, q: nat)
    requires b > 0 && b * q == FrameUnit
    requires (q * f) % FrameUnit == 0
    ensures f % b == 0
  {
    var k := (q * f) / FrameUnit;
    assert q * f == FrameUnit * k;
    MulAssoc(q, b, k);
    CancelFactor(q, f, b * k);
    MultipleHasNoRemainder(f, b, k);
  }
  /**
   The rows of a batched layout are whole frames exactly when the batch size
   divides the frame count; dividing the frame unit alone does not make them so.
   */
  lemma RowsFrameAlignedIff(paddedLen: nat, b: nat)
    requires paddedLen % FrameUnit == 0
    requires DividesFrameUnit(b)
    ensures (paddedLen / b) % FrameUnit == 0 <==> (paddedLen / FrameUnit) % b == 0
  {
    var f := paddedLen / FrameUnit;
    var q := FrameUnit / b;
    assert FrameUnit == b * q;
    assert paddedLen == FrameUnit * f;
    MulAssoc(b, q, f);
    ExactQuotient(paddedLen, b, q * f);
    ScaledMultipleIff(f, b, q);
  }

  /** The worked cases of the search: a start of 2 stays 2, a start of 3 is bumped to 4. */
  lemma SearchExamples()
    ensures LeastDivisorFrom(2) == 2
    ensures LeastDivisorFrom(3) == 4
    ensures LeastDivisorFrom(6) == 10
  {
    assert DividesFrameUnit(10);
  }
}
