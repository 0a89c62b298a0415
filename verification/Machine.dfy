/** The integer widths and divisions of the C++ sources that Dafny's unbounded
    integers would otherwise hide. */
module Machine {
  const U32: nat := 0x1_0000_0000

  type byte = x: int | 0 <= x < 256

  /** Conversion of an integer to `uint32_t`. */
  function ToU32(x: int): (r: nat)
    ensures r < U32
    ensures 0 <= x < U32 ==> r == x
  {
    x % U32
  }

  /** C++ integer division: truncation towards zero. */
  function TruncDiv(a: int, b: int): int
    requires b > 0
  {
    if a >= 0 then a / b else -(-a / b)
  }

  /** Division rounding towards plus infinity (FFmpeg's `AV_ROUND_UP`). */
  function CeilDiv(a: int, b: int): int
    requires b > 0
  {
    -(-a / b)
  }

  lemma DivBounds(a: int, d: int)
    requires d > 0
    ensures a / d * d <= a < a / d * d + d
  {
  }

  lemma MulMonotone(x: int, y: int, d: int)
    requires d >= 0 && x <= y
    ensures x * d <= y * d
  {
  }

  lemma DivMonotone(a: int, b: int, d: int)
    requires d > 0 && a <= b
    ensures a / d <= b / d
  {
    DivBounds(a, d);
    DivBounds(b, d);
    if b / d < a / d {
      MulMonotone(b / d + 1, a / d, d);
      assert false;
    }
  }

  /** The quotient is the only number whose multiple encloses `a` from below. */
  lemma DivUnique(a: int, d: int, q: int)
    requires d > 0
    requires q * d <= a < q * d + d
    ensures a / d == q
  {
    DivBounds(a, d);
    if a / d < q {
      MulMonotone(a / d + 1, q, d);
      assert false;
    }
    if q < a / d {
      MulMonotone(q + 1, a / d, d);
      assert false;
    }
  }
}

/** Optional values: FFmpeg's `AV_NOPTS_VALUE` and "no such segment". */
module Options {
  datatype Option<+T> = None | Some(value: T)
}
