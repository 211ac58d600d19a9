/**
 * The arithmetic helpers of the progress-bar controller: clamping a tick
 * count to the bar's scale, converting between ticks and pixels of the
 * container, and turning a fill speed into the delay between two steps.
 *
 * Ticks and pixels are exact reals, so the conversions are exact; the
 * container width is a positive whole number of pixels.
 */
module Conversions {

  /** The bar's logical scale runs from 0 to MAX_TICKS ticks. */
  const MAX_TICKS: real := 100.0

  /** Clamps a tick count into [0, MAX_TICKS]; both ends are inclusive. */
  function CheckBounds(ticks: real): (r: real)
    ensures 0.0 <= r <= MAX_TICKS
    ensures 0.0 <= ticks <= MAX_TICKS ==> r == ticks
    ensures ticks < 0.0 ==> r == 0.0
    ensures MAX_TICKS < ticks ==> r == MAX_TICKS
  {
    if ticks <= 0.0 then 0.0
    else if ticks >= MAX_TICKS then MAX_TICKS
    else ticks
  }

  lemma CheckBoundsIdempotent(ticks: real)
    ensures CheckBounds(CheckBounds(ticks)) == CheckBounds(ticks)
  {
  }

  lemma CheckBoundsMonotone(a: real, b: real)
    requires a <= b
    ensures CheckBounds(a) <= CheckBounds(b)
  {
  }

  /** Pixels of the container per tick of the scale. */
  function PxPerTick(containerPx: int): (k: real)
    requires containerPx > 0
    ensures k > 0.0
  {
    containerPx as real / MAX_TICKS
  }

  /** The width, in pixels of the container, that a tick count stands for. */
  function TicksToPx(containerPx: int, ticks: real): (px: real)
    requires containerPx > 0
    ensures ticks == 0.0 ==> px == 0.0
    ensures ticks == MAX_TICKS ==> px == containerPx as real
    ensures 0.0 <= ticks <= MAX_TICKS ==> 0.0 <= px <= containerPx as real
    ensures ticks < MAX_TICKS ==> px < containerPx as real
  {
    var k := PxPerTick(containerPx);
    ScaleBounds(ticks, k, MAX_TICKS);
    ticks * k
  }

  /** The tick count that a width of the container stands for; the inverse of TicksToPx. */
  function PxToTicks(containerPx: int, px: real): (ticks: real)
    requires containerPx > 0
    ensures TicksToPx(containerPx, ticks) == px
    ensures 0.0 <= px <= containerPx as real ==> 0.0 <= ticks <= MAX_TICKS
  {
    var c := containerPx as real;
    var ticksPerPx := MAX_TICKS / c;
    assert ticksPerPx * PxPerTick(containerPx) == 1.0;
    assert (px * ticksPerPx) * PxPerTick(containerPx) == px * (ticksPerPx * PxPerTick(containerPx));
    ScaleBounds(px, ticksPerPx, c);
    px * ticksPerPx
  }

  /** For a positive factor k, scaling preserves a range [0, hi] and the order with hi. */
  lemma ScaleBounds(x: real, k: real, hi: real)
    requires k > 0.0
    ensures x == 0.0 ==> x * k == 0.0
    ensures 0.0 <= x ==> 0.0 <= x * k
    ensures x <= hi ==> x * k <= hi * k
    ensures x < hi ==> x * k < hi * k
  {
  }

  /** Converting ticks to pixels and back gives the tick count again. */
  lemma TicksPxRoundTrip(containerPx: int, ticks: real)
    requires containerPx > 0
    ensures PxToTicks(containerPx, TicksToPx(containerPx, ticks)) == ticks
  {
    var back := PxToTicks(containerPx, TicksToPx(containerPx, ticks));
    ScaleInjective(back, ticks, PxPerTick(containerPx));
  }

  lemma ScaleInjective(x: real, y: real, k: real)
    requires k > 0.0 && x * k == y * k
    ensures x == y
  {
    Distribute(x, y, k);
    if x < y {
      PositiveProduct(y - x, k);
    } else if x > y {
      PositiveProduct(x - y, k);
      Distribute(y, x, k);
    }
  }

  /**
   * What parseInt(x, 10) gives for a number x in the ordinary decimal
   * range: x truncated toward zero.
   */
  function Truncate(x: real): (n: int)
    ensures 0.0 <= x ==> 0 <= n && n as real <= x < n as real + 1.0
    ensures x < 0.0 ==> n <= 0 && n as real - 1.0 < x <= n as real
  {
    if x >= 0.0 then x.Floor else -((-x).Floor)
  }

  /**
   * The delay handed to setTimeout between two fill steps. A speed of zero
   * divides 1000 by zero; parseInt of the resulting infinity is NaN.
   */
  datatype Delay = Millis(ms: int) | NotANumber

  /** The number of pixels a bar moves per second at the given fill speed. */
  function PxPerSecond(containerPx: int, ticksPerSecond: real): real
    requires containerPx > 0
  {
    PxPerTick(containerPx) * ticksPerSecond
  }

  /**
   * Milliseconds per one-pixel step: 1000 / (pixels per tick * ticks per
   * second), truncated toward zero.
   */
  function FillSpeedToDelay(containerPx: int, ticksPerSecond: real): (d: Delay)
    requires containerPx > 0
    ensures d.NotANumber? <==> ticksPerSecond == 0.0
    ensures ticksPerSecond > 0.0 ==>
      var s := PxPerSecond(containerPx, ticksPerSecond);
      d.Millis? && 0 <= d.ms && d.ms as real * s <= 1000.0 < d.ms as real * s + s
    ensures ticksPerSecond < 0.0 ==>
      var s := PxPerSecond(containerPx, ticksPerSecond);
      d.Millis? && d.ms <= 0 && d.ms as real * s <= 1000.0 < d.ms as real * s - s
  {
    if ticksPerSecond == 0.0 then NotANumber
    else
      var s := PxPerSecond(containerPx, ticksPerSecond);
      SignOfSpeed(containerPx, ticksPerSecond);
      TruncatedQuotient(s);
      Millis(Truncate(1000.0 / s))
  }

  lemma SignOfSpeed(containerPx: int, ticksPerSecond: real)
    requires containerPx > 0
    ensures ticksPerSecond > 0.0 ==> PxPerSecond(containerPx, ticksPerSecond) > 0.0
    ensures ticksPerSecond < 0.0 ==> PxPerSecond(containerPx, ticksPerSecond) < 0.0
  {
    if ticksPerSecond > 0.0 {
      PositiveProduct(PxPerTick(containerPx), ticksPerSecond);
    } else if ticksPerSecond < 0.0 {
      NegativeProduct(PxPerTick(containerPx), ticksPerSecond);
    }
  }

  /** The sign and the bracket of 1000 / s truncated toward zero. */
  lemma TruncatedQuotient(s: real)
    requires s != 0.0
    ensures var n := Truncate(1000.0 / s);
      (s > 0.0 ==> 0 <= n && n as real * s <= 1000.0 < n as real * s + s) &&
      (s < 0.0 ==> n <= 0 && n as real * s <= 1000.0 < n as real * s - s)
  {
    var n := Truncate(1000.0 / s);
    if s > 0.0 {
      PositiveQuotient(s);
      QuotientLower(1000.0, s, n as real);
      QuotientUpper(1000.0, s, n as real);
    } else {
      NegativeQuotient(s);
      NegativeQuotientLower(1000.0, s, n as real);
      NegativeQuotientUpper(1000.0, s, n as real);
    }
  }

  /** For a positive s, lo <= a / s gives lo * s <= a. */
  lemma QuotientLower(a: real, s: real, lo: real)
    requires s > 0.0 && lo <= a / s
    ensures lo * s <= a
  {
    var q := a / s;
    QuotientTimesDivisor(a, s);
    NonnegativeProduct(q - lo, s);
    Distribute(q, lo, s);
  }

  /** For a positive s, a / s < lo + 1 gives a < lo * s + s. */
  lemma QuotientUpper(a: real, s: real, lo: real)
    requires s > 0.0 && a / s < lo + 1.0
    ensures a < lo * s + s
  {
    var q := a / s;
    var hi := lo + 1.0;
    QuotientTimesDivisor(a, s);
    PositiveProduct(hi - q, s);
    Distribute(hi, q, s);
    assert hi * s == lo * s + s;
  }

  /** For a negative s, a / s <= hi gives hi * s <= a. */
  lemma NegativeQuotientLower(a: real, s: real, hi: real)
    requires s < 0.0 && a / s <= hi
    ensures hi * s <= a
  {
    var q := a / s;
    QuotientTimesDivisor(a, s);
    NonpositiveProduct(hi - q, s);
    Distribute(hi, q, s);
  }

  /** For a negative s, hi - 1 < a / s gives a < hi * s - s. */
  lemma NegativeQuotientUpper(a: real, s: real, hi: real)
    requires s < 0.0 && hi - 1.0 < a / s
    ensures a < hi * s - s
  {
    var q := a / s;
    var lo := hi - 1.0;
    QuotientTimesDivisor(a, s);
    NegativeProduct(q - lo, s);
    Distribute(q, lo, s);
    assert lo * s == hi * s - s;
  }

  lemma NonpositiveProduct(x: real, y: real)
    requires x >= 0.0 && y < 0.0
    ensures x * y <= 0.0
  {
  }

  lemma PositiveProduct(x: real, y: real)
    requires x > 0.0 && y > 0.0
    ensures x * y > 0.0
  {
  }

  lemma NonnegativeProduct(x: real, y: real)
    requires x >= 0.0 && y > 0.0
    ensures x * y >= 0.0
  {
  }

  lemma NegativeProduct(k: real, x: real)
    requires k > 0.0 && x < 0.0
    ensures k * x < 0.0
  {
  }

  lemma PositiveQuotient(p: real)
    requires p > 0.0
    ensures 1000.0 / p > 0.0
  {
  }

  lemma NegativeQuotient(p: real)
    requires p < 0.0
    ensures 1000.0 / p < 0.0
  {
  }

  lemma Distribute(a: real, b: real, s: real)
    ensures (a - b) * s == a * s - b * s
  {
  }

  lemma QuotientTimesDivisor(a: real, s: real)
    requires s != 0.0
    ensures (a / s) * s == a
  {
  }
}
