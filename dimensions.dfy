/**
 * The square canvas side for a buffer of a given length:
 * int(ceil(sqrt(len / 3))), stated in exact integers as the least side n
 * whose n*n pixels of three bytes each hold every byte.
 */
module Dimensions {

  /**
   * calculate_dimensions. Counting up from an empty buffer, each extra
   * byte grows the least side by at most one.
   */
  function CalculateDimensions(dataLength: nat): (n: nat)
    ensures 3 * n * n >= dataLength
    ensures n == 0 || 3 * (n - 1) * (n - 1) < dataLength
    decreases dataLength
  {
    if dataLength == 0 then 0
    else
      var s := CalculateDimensions(dataLength - 1);
      if 3 * s * s >= dataLength then s
      else
        SuccessorSquare(s);
        s + 1
  }

  lemma SuccessorSquare(s: nat)
    ensures 3 * (s + 1) * (s + 1) == 3 * s * s + 6 * s + 3
  {
  }

  lemma SquareMonotone(a: nat, b: nat)
    requires a <= b
    ensures a * a <= b * b
    ensures 3 * a * a <= 3 * b * b
  {
    assert a * a <= a * b by {
      MulLeft(a, a, b);
    }
    assert a * b <= b * b by {
      MulLeft(b, a, b);
    }
  }

  lemma MulLeft(k: nat, a: nat, b: nat)
    requires a <= b
    ensures k * a <= k * b
  {
  }

  /** No smaller side holds the buffer: CalculateDimensions is the least such side. */
  lemma {:induction false} DimensionsLeast(dataLength: nat, m: nat)
    requires 3 * m * m >= dataLength
    ensures CalculateDimensions(dataLength) <= m
  {
    var n := CalculateDimensions(dataLength);
    if m < n {
      SquareMonotone(m, n - 1);
    }
  }

  /** Any side that holds the buffer and whose predecessor does not is the computed one. */
  lemma {:induction false} DimensionsUnique(dataLength: nat, n: nat)
    requires 3 * n * n >= dataLength
    requires n == 0 || 3 * (n - 1) * (n - 1) < dataLength
    ensures CalculateDimensions(dataLength) == n
  {
    var c := CalculateDimensions(dataLength);
    DimensionsLeast(dataLength, n);
    if c < n {
      SquareMonotone(c, n - 1);
    }
  }

  /** An empty buffer, and only an empty buffer, gives an empty canvas. */
  lemma EmptyIffZeroSide(dataLength: nat)
    ensures CalculateDimensions(dataLength) == 0 <==> dataLength == 0
  {
  }

  /** The sizes of the unit test: 0 -> 0, 9 -> 2, 27 -> 3, 100 -> 6. */
  lemma {:induction false} DimensionsExamples()
    ensures CalculateDimensions(0) == 0
    ensures CalculateDimensions(9) == 2
    ensures CalculateDimensions(27) == 3
    ensures CalculateDimensions(100) == 6
  {
    DimensionsUnique(9, 2);
    DimensionsUnique(27, 3);
    DimensionsUnique(100, 6);
  }
}
