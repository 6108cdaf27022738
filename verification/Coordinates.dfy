/** Mouse coordinates: from the browser's picture to the 0..65535 plane of absolute input. */
module Coordinates {
  import opened Common

  /** Unchecked 64-bit arithmetic. */
  function Wrap64(n: int): int {
    (n + 0x8000_0000_0000_0000) % 0x1_0000_0000_0000_0000 - 0x8000_0000_0000_0000
  }

  /** Division that truncates toward zero. */
  function Truncated(a: int, b: int): int
    requires b > 0
  {
    if a >= 0 then a / b else -(-a / b)
  }

  function Clamp(n: int, low: int, high: int): int {
    if n < low then low else if n > high then high else n
  }

  /** The pixel on the screen, from the coordinate times the screen's size. */
  function OnScreen(product: int, capture: int32): int
    requires capture > 0
  {
    Truncated(Wrap64(product), capture)
  }

  /** A pixel of the screen, on the plane. */
  function Normalized(pixel: int, size: int32): int {
    Clamp(if size <= 1 then 0 else Truncated(Wrap64(pixel * 65535), size - 1), 0, 65535)
  }

  function RescaleAndNormalize(coordinate: int32, capture: int32, size: int32): int {
    if capture <= 0 || size <= 0 then 0 else Normalized(OnScreen(coordinate * size, capture), size)
  }

  /** A coordinate inside the picture, on a screen of more than one pixel. */
  predicate Inside(coordinate: int32, capture: int32, size: int32) {
    0 <= coordinate < capture && size >= 2
  }

  // ---- Arithmetic ----

  lemma MulMonotone(a: int, b: int, c: int)
    requires a <= b && 0 <= c
    ensures a * c <= b * c
  {
  }

  lemma LessByProduct(a: int, b: int, c: int)
    requires a * c < b * c && 0 < c
    ensures a < b
  {
  }

  lemma DivBounds(a: int, c: int)
    requires 0 < c
    ensures a / c * c <= a < (a / c + 1) * c
  {
  }

  lemma DivLess(a: int, b: int, c: int)
    requires 0 <= a < b * c && 0 < c
    ensures 0 <= a / c < b
  {
    DivBounds(a, c);
    LessByProduct(a / c, b, c);
    LessByProduct(0, a / c + 1, c);
  }

  lemma DivMonotone(a: int, b: int, c: int)
    requires a <= b && 0 < c
    ensures a / c <= b / c
  {
    DivBounds(a, c);
    DivBounds(b, c);
    LessByProduct(a / c, b / c + 1, c);
  }

  lemma DivIs(a: int, c: int, q: int)
    requires 0 < c && q * c <= a < (q + 1) * c
    ensures a / c == q
  {
    DivBounds(a, c);
    LessByProduct(q, a / c + 1, c);
    LessByProduct(a / c, q + 1, c);
  }

  lemma DivShrinks(a: int, c: int)
    requires 0 <= a && 0 < c
    ensures 0 <= a / c <= a
  {
    MulMonotone(1, c, a + 1);
    DivLess(a, a + 1, c);
  }

  // ---- Inside the picture ----

  lemma OnScreenInside(product: int, capture: int32)
    requires 0 <= product < 0x4000_0000_0000_0000 && 0 < capture
    ensures OnScreen(product, capture) == product / capture
  {
  }

  lemma NormalizedInside(pixel: int, size: int32)
    requires 0 <= pixel < size && 2 <= size
    ensures 0 <= pixel * 65535 / (size - 1) <= 65535
    ensures Normalized(pixel, size) == pixel * 65535 / (size - 1)
  {
    DivLess(pixel * 65535, 65536, size - 1);
  }

  /** For a coordinate inside the picture nothing wraps, nothing is negative and the clamp does not act. */
  lemma InsideIsExact(coordinate: int32, capture: int32, size: int32)
    requires Inside(coordinate, capture, size)
    ensures var pixel := coordinate * size / capture;
            && 0 <= pixel < size
            && 0 <= pixel * 65535 / (size - 1) <= 65535
            && RescaleAndNormalize(coordinate, capture, size) == pixel * 65535 / (size - 1)
  {
    hide OnScreen, Normalized;
    MulMonotone(0, coordinate, size);
    MulMonotone(coordinate, capture - 1, size);
    MulMonotone(capture, 0x7FFF_FFFF, size);
    DivLess(coordinate * size, size, capture);
    OnScreenInside(coordinate * size, capture);
    NormalizedInside(coordinate * size / capture, size);
  }

  lemma AlwaysInRange(coordinate: int32, capture: int32, size: int32)
    ensures 0 <= RescaleAndNormalize(coordinate, capture, size) <= 65535
    ensures capture <= 0 || size <= 1 ==> RescaleAndNormalize(coordinate, capture, size) == 0
  {
  }

  lemma MonotoneInside(a: int32, b: int32, capture: int32, size: int32)
    requires Inside(a, capture, size) && Inside(b, capture, size) && a <= b
    ensures RescaleAndNormalize(a, capture, size) <= RescaleAndNormalize(b, capture, size)
  {
    hide RescaleAndNormalize;
    InsideIsExact(a, capture, size);
    InsideIsExact(b, capture, size);
    MulMonotone(0, a, size);
    MulMonotone(a, b, size);
    DivMonotone(a * size, b * size, capture);
    DivMonotone(a * size / capture * 65535, b * size / capture * 65535, size - 1);
  }

  lemma RealMul(d: real, t: real)
    requires 0.0 <= d < 1.0 && 0.0 < t
    ensures 0.0 <= d * t < t
  {
  }

  /** a / b in the integers, against the reals. */
  lemma DivError(a: int, b: int)
    requires 0 <= a && 0 < b
    ensures 0.0 <= a as real / b as real - (a / b) as real < 1.0
  {
    var q, r := a / b, a % b;
    assert a == q * b + r;
    assert a as real == (q as real) * (b as real) + r as real;
    assert a as real / b as real == q as real + r as real / b as real;
  }

  lemma RealDiv(x: real, t: real)
    requires 0.0 <= x < t
    ensures 0.0 <= x / 65535.0 < t / 65535.0
  {
  }

  lemma BackError(p: int, n: int, step: int)
    requires 0 < step && 0.0 <= (p * 65535) as real / step as real - n as real < 1.0
    ensures 0.0 <= p as real - n as real * step as real / 65535.0 < step as real / 65535.0
  {
    var t := step as real;
    var d := (p * 65535) as real / t - n as real;
    RealMul(d, t);
    assert d * t == (p * 65535) as real - n as real * t;
    assert (p * 65535) as real == p as real * 65535.0;
    RealDiv(d * t, t);
  }

  lemma ErrorsAdd(product: int, capture: int, step: int)
    requires 0 <= product && 0 < capture && 0 < step
    ensures var n := product / capture * 65535 / step;
            0.0 <= product as real / capture as real - n as real * step as real / 65535.0 < 1.0 + step as real / 65535.0
  {
    var p := product / capture;
    DivShrinks(product, capture);
    DivError(product, capture);
    DivError(p * 65535, step);
    BackError(p, p * 65535 / step, step);
  }

  /** Mapped back to pixels, the result falls short of the true position by less than a pixel and a plane step. */
  lemma RoundingError(coordinate: int32, capture: int32, size: int32)
    requires Inside(coordinate, capture, size)
    ensures var exact := (coordinate * size) as real / capture as real;
            var back := RescaleAndNormalize(coordinate, capture, size) as real * (size - 1) as real / 65535.0;
            0.0 <= exact - back < 1.0 + (size - 1) as real / 65535.0
  {
    hide RescaleAndNormalize;
    InsideIsExact(coordinate, capture, size);
    MulMonotone(0, coordinate, size);
    ErrorsAdd(coordinate * size, capture, size - 1);
  }

  // ---- A picture the size of the screen ----

  lemma SameSize(coordinate: int32, size: int32)
    requires 0 <= coordinate < size && size >= 2
    ensures RescaleAndNormalize(coordinate, size, size) == coordinate * 65535 / (size - 1)
  {
    hide RescaleAndNormalize;
    InsideIsExact(coordinate, size, size);
    DivIs(coordinate * size, size, coordinate);
  }

  lemma StepsApart(a: int, b: int, step: int)
    requires 0 <= a < b && 0 < step <= 65535
    ensures a * 65535 / step < b * 65535 / step
  {
    var q := a * 65535 / step;
    DivBounds(a * 65535, step);
    DivIs(a * 65535 + step, step, q + 1);
    DivMonotone(a * 65535 + step, b * 65535, step);
  }

  ghost predicate KeepsPixelsApart(size: int32) {
    forall a: int32, b: int32 | 0 <= a < b < size ::
      RescaleAndNormalize(a, size, size) < RescaleAndNormalize(b, size, size)
  }

  /**
    When the picture is the screen, different pixels stay different exactly when the plane is
    fine enough; both ends are always reached.
   */
  lemma SameSizeIsFaithful(size: int32)
    requires size >= 2
    ensures KeepsPixelsApart(size) <==> size <= 65536
    ensures RescaleAndNormalize(0, size, size) == 0 && RescaleAndNormalize(size - 1, size, size) == 65535
  {
    hide RescaleAndNormalize;
    SameSize(0, size);
    SameSize(1, size);
    SameSize(size - 1, size);
    DivIs((size - 1) * 65535, size - 1, 65535);
    DivIs(0, size - 1, 0);
    if size <= 65536 {
      forall a: int32, b: int32 | 0 <= a < b < size
        ensures RescaleAndNormalize(a, size, size) < RescaleAndNormalize(b, size, size)
      {
        SameSize(a, size);
        SameSize(b, size);
        StepsApart(a, b, size - 1);
      }
    } else {
      DivIs(65535, size - 1, 0);
      assert RescaleAndNormalize(0, size, size) == RescaleAndNormalize(1, size, size);
    }
  }

  // ---- Outside the picture ----

  /** The largest product, 65537 * 2^31, that still fits 64 bits when multiplied by 65535. */
  const LARGEST := 0x8000_8000_0000

  lemma NormalizedOutside(pixel: int, size: int32)
    requires 2 <= size && -LARGEST <= pixel <= LARGEST
    ensures pixel <= 0 ==> Normalized(pixel, size) == 0
    ensures pixel >= size ==> Normalized(pixel, size) == 65535
  {
    if pixel <= 0 {
      DivShrinks(-pixel * 65535, size - 1);
    } else if pixel >= size {
      DivIs((size - 1) * 65535, size - 1, 65535);
      DivMonotone((size - 1) * 65535, pixel * 65535, size - 1);
    }
  }

  lemma OnScreenOutside(product: int, capture: int32, size: int32)
    requires 0 < capture && -LARGEST <= product <= LARGEST
    ensures product < 0 ==> -LARGEST <= OnScreen(product, capture) <= 0
    ensures product >= size * capture >= 0 ==> size <= OnScreen(product, capture) <= LARGEST
  {
    if product < 0 {
      DivShrinks(-product, capture);
    } else if product >= size * capture >= 0 {
      DivShrinks(product, capture);
      DivIs(size * capture, capture, size);
      DivMonotone(size * capture, product, capture);
    }
  }

  lemma Product(coordinate: int32, capture: int32, size: int32) returns (product: int)
    requires 0 < capture && 2 <= size <= 65537
    ensures product == coordinate * size && -LARGEST <= product <= LARGEST
    ensures coordinate < 0 ==> product < 0
    ensures coordinate >= capture ==> product >= size * capture >= 0
  {
    product := coordinate * size;
    MulMonotone(coordinate, 0x7FFF_FFFF, size);
    MulMonotone(-0x8000_0000, coordinate, size);
    if coordinate < 0 {
      MulMonotone(coordinate, -1, size);
    } else if coordinate >= capture {
      MulMonotone(capture, coordinate, size);
      MulMonotone(0, capture, size);
    }
  }

  /** The edge of the plane that a coordinate outside the picture is beyond. */
  function Edge(coordinate: int32): int {
    if coordinate < 0 then 0 else 65535
  }

  lemma OutsideGoesToEdge(coordinate: int32, capture: int32, size: int32)
    requires 0 < capture && 2 <= size <= 65537 && !Inside(coordinate, capture, size)
    ensures RescaleAndNormalize(coordinate, capture, size) == Edge(coordinate)
  {
    hide OnScreen, Normalized;
    var product := Product(coordinate, capture, size);
    OnScreenOutside(product, capture, size);
    NormalizedOutside(OnScreen(product, capture), size);
  }

  lemma MonotoneUpTo65537(a: int32, b: int32, capture: int32, size: int32)
    requires a <= b && size <= 65537
    ensures RescaleAndNormalize(a, capture, size) <= RescaleAndNormalize(b, capture, size)
  {
    if capture > 0 && size >= 2 {
      hide OnScreen, Normalized;
      AlwaysInRange(a, capture, size);
      AlwaysInRange(b, capture, size);
      if !Inside(a, capture, size) {
        OutsideGoesToEdge(a, capture, size);
      }
      if !Inside(b, capture, size) {
        OutsideGoesToEdge(b, capture, size);
      }
      if Inside(a, capture, size) && Inside(b, capture, size) {
        MonotoneInside(a, b, capture, size);
      }
    }
  }

  /** The first multiple of `step` too large for 64 bits still has a 32-bit factor, and wraps to a negative number. */
  lemma FirstToWrap(step: int) returns (c: int)
    requires 65538 * 65535 <= step < 0x1_0000_0000_0000
    ensures 2 <= c <= 0x7FFF_FFFF && Wrap64(c * step) < 0
  {
    var q := 0x7FFF_FFFF_FFFF_FFFF / step;
    c := q + 1;
    DivBounds(0x7FFF_FFFF_FFFF_FFFF, step);
    MulMonotone(65538 * 65535, step, 0x7FFF_FFFF);
    LessByProduct(q, 0x7FFF_FFFF, step);
    LessByProduct(1, c, step);
    assert c * step == q * step + step;
  }

  /** On any larger screen some coordinate far to the right of a one-pixel picture lands on the left edge. */
  lemma LargerScreensWrap(size: int32) returns (c: int32)
    requires size >= 65538
    ensures 2 <= c && RescaleAndNormalize(c, 1, size) == 0 && RescaleAndNormalize(1, 1, size) == 65535
  {
    hide OnScreen, Normalized, Wrap64;
    var factor := FirstToWrap(size * 65535);
    c := factor;
    Factors(c, size);
    WrapsToZero(c * size, size);
    OnePixelRight(size);
  }

  lemma Factors(c: int32, size: int32)
    requires 0 <= c && 0 <= size
    ensures 0 <= c * size < 0x4000_0000_0000_0000 && c * size * 65535 == c * (size * 65535)
  {
    MulMonotone(c, 0x7FFF_FFFF, size);
    MulMonotone(0, c, size);
  }

  lemma WrapsToZero(pixel: int, size: int32)
    requires 0 <= pixel < 0x4000_0000_0000_0000 && size >= 2 && Wrap64(pixel * 65535) < 0
    ensures OnScreen(pixel, 1) == pixel && Normalized(pixel, size) == 0
  {
    OnScreenInside(pixel, 1);
    var w := Wrap64(pixel * 65535);
    DivShrinks(-w, size - 1);
  }

  lemma OnePixelRight(size: int32)
    requires size >= 2
    ensures RescaleAndNormalize(1, 1, size) == 65535
  {
    OnScreenInside(size, 1);
    DivIs((size - 1) * 65535, size - 1, 65535);
    DivMonotone((size - 1) * 65535, size * 65535, size - 1);
  }

  /** Every coordinate outside every picture lands on the edge it is beyond. */
  ghost predicate KeepsEdges(size: int32) {
    forall coordinate: int32, capture: int32 | 0 < capture && (coordinate < 0 || coordinate >= capture) ::
      RescaleAndNormalize(coordinate, capture, size) == Edge(coordinate)
  }

  /** Moving right never moves left, over all coordinates and pictures. */
  ghost predicate KeepsOrder(size: int32) {
    forall a: int32, b: int32, capture: int32 | a <= b ::
      RescaleAndNormalize(a, capture, size) <= RescaleAndNormalize(b, capture, size)
  }

  /** Exactly up to which screen size the unchecked product is harmless outside the picture. */
  lemma EdgesAndOrderKeptExactly(size: int32)
    ensures KeepsEdges(size) <==> 2 <= size <= 65537
    ensures KeepsOrder(size) <==> size <= 65537
  {
    hide RescaleAndNormalize;
    if size <= 65537 {
      forall a: int32, b: int32, capture: int32 | a <= b
        ensures RescaleAndNormalize(a, capture, size) <= RescaleAndNormalize(b, capture, size)
      {
        MonotoneUpTo65537(a, b, capture, size);
      }
      if size < 2 {
        assert RescaleAndNormalize(1, 1, size) != Edge(1) by {
          NoPlane(size);
        }
      } else {
        forall coordinate: int32, capture: int32 | 0 < capture && (coordinate < 0 || coordinate >= capture)
          ensures RescaleAndNormalize(coordinate, capture, size) == Edge(coordinate)
        {
          OutsideGoesToEdge(coordinate, capture, size);
        }
      }
    } else {
      var c := LargerScreensWrap(size);
      assert RescaleAndNormalize(c, 1, size) != Edge(c);
      assert RescaleAndNormalize(1, 1, size) > RescaleAndNormalize(c, 1, size);
    }
  }

  lemma NoPlane(size: int32)
    requires size < 2
    ensures RescaleAndNormalize(1, 1, size) == 0
  {
  }
}
