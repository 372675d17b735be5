/**
  Synthetic trace timings: a table of span shapes in milliseconds, scaled to a requested
  duration with floor division, each offset and length rounded separately.
*/
module TraceTiming {
  import opened Common

  /** Root duration, then offset and length of the catalog, payment and database spans. */
  datatype Pattern = Pattern(
    base: nat,
    catalogAt: nat, catalogLength: nat,
    paymentAt: nat, paymentLength: nat,
    databaseAt: nat, databaseLength: nat)

  const PATTERNS: seq<Pattern> := [
    Pattern(200, 10, 60, 75, 80, 20, 28),
    Pattern(340, 12, 94, 110, 165, 28, 40),
    Pattern(120, 6, 42, 52, 50, 14, 18),
    Pattern(520, 18, 145, 178, 260, 47, 72),
    Pattern(290, 9, 125, 156, 112, 26, 68),
    Pattern(760, 20, 150, 190, 510, 40, 90)]

  datatype Span = Span(at: int, length: int)

  datatype Timing = Timing(root: Span, catalog: Span, payment: Span, database: Span)

  const NANOS := 1_000_000

  /** Floor division; the divisor is positive, so Dafny's division rounds down as well. */
  function Scale(value: nat, duration: int, base: nat): int
    requires base > 0
  {
    value * duration * NANOS / base
  }

  function PatternOf(sample: int): (p: Pattern)
    ensures p in PATTERNS
  {
    PATTERNS[sample % |PATTERNS|]
  }

  /** The samples go through the six rows in turn, also for negative indices. */
  lemma PatternsTakeTurns(sample: int)
    ensures PatternOf(sample + 6) == PatternOf(sample)
    ensures sample % 6 == 0 ==> PatternOf(sample) == Pattern(200, 10, 60, 75, 80, 20, 28)
    ensures sample % 6 == 1 ==> PatternOf(sample) == Pattern(340, 12, 94, 110, 165, 28, 40)
    ensures sample % 6 == 2 ==> PatternOf(sample) == Pattern(120, 6, 42, 52, 50, 14, 18)
    ensures sample % 6 == 3 ==> PatternOf(sample) == Pattern(520, 18, 145, 178, 260, 47, 72)
    ensures sample % 6 == 4 ==> PatternOf(sample) == Pattern(290, 9, 125, 156, 112, 26, 68)
    ensures sample % 6 == 5 ==> PatternOf(sample) == Pattern(760, 20, 150, 190, 510, 40, 90)
  {
  }

  /** A pattern scaled to a duration, in nanoseconds. */
  function Scaled(p: Pattern, duration: int): Timing
    requires p.base > 0
  {
    Timing(
      Span(0, duration * NANOS),
      Span(Scale(p.catalogAt, duration, p.base), Scale(p.catalogLength, duration, p.base)),
      Span(Scale(p.paymentAt, duration, p.base), Scale(p.paymentLength, duration, p.base)),
      Span(Scale(p.databaseAt, duration, p.base), Scale(p.databaseLength, duration, p.base)))
  }

  /** `None` keeps the pattern's own duration. */
  function Timings(sample: int, durationMs: Option<int>): Timing {
    var p := PatternOf(sample);
    Scaled(p, if durationMs.None? then p.base else durationMs.value)
  }

  predicate Inside(inner: Span, outer: Span) {
    outer.at <= inner.at && inner.at + inner.length <= outer.at + outer.length
  }

  predicate Contained(t: Timing) {
    && Inside(t.catalog, t.root) && Inside(t.payment, t.root) && Inside(t.database, t.catalog)
    && t.catalog.length >= 0 && t.payment.length >= 0 && t.database.length >= 0
  }

  /** Two floors of the same divisor never exceed the floor of the sum. */
  lemma FloorsAdd(a: int, b: int, d: nat)
    requires d > 0
    ensures a / d + b / d <= (a + b) / d
  {
    FloorBounds(a, d);
    FloorBounds(b, d);
    FloorBounds(a + b, d);
    var low, sum := a / d + b / d, (a + b) / d;
    Distribute(d, a / d, b / d);
    if sum < low {
      MultiplyMonotone(sum + 1, low, d);
      Distribute(d, sum, 1);
    }
  }

  lemma FloorBounds(a: int, d: nat)
    requires d > 0
    ensures d * (a / d) <= a < d * (a / d) + d
  {
  }

  /** `scaled` is `value` parts of `base` of the duration, rounded down to a nanosecond. */
  predicate RoundsDown(scaled: int, value: nat, duration: int, base: nat) {
    base * scaled <= value * duration * 1_000_000 < base * scaled + base
  }

  lemma ScaleRoundsDown(value: nat, duration: int, base: nat)
    requires base > 0
    ensures RoundsDown(Scale(value, duration, base), value, duration, base)
  {
    FloorBounds(value * duration * NANOS, base);
  }

  /** Every offset and every length is its share of the requested duration, rounded down. */
  lemma SpansAreProportional(p: Pattern, duration: int)
    requires p.base > 0
    ensures var t := Scaled(p, duration);
      && t.root == Span(0, duration * 1_000_000)
      && RoundsDown(t.catalog.at, p.catalogAt, duration, p.base)
      && RoundsDown(t.catalog.length, p.catalogLength, duration, p.base)
      && RoundsDown(t.payment.at, p.paymentAt, duration, p.base)
      && RoundsDown(t.payment.length, p.paymentLength, duration, p.base)
      && RoundsDown(t.database.at, p.databaseAt, duration, p.base)
      && RoundsDown(t.database.length, p.databaseLength, duration, p.base)
  {
    ScaleRoundsDown(p.catalogAt, duration, p.base);
    ScaleRoundsDown(p.catalogLength, duration, p.base);
    ScaleRoundsDown(p.paymentAt, duration, p.base);
    ScaleRoundsDown(p.paymentLength, duration, p.base);
    ScaleRoundsDown(p.databaseAt, duration, p.base);
    ScaleRoundsDown(p.databaseLength, duration, p.base);
  }

  lemma MultiplyMonotone(x: int, y: int, d: nat)
    requires x <= y
    ensures d * x <= d * y
  {
  }

  lemma FloorMonotone(a: int, b: int, d: nat)
    requires d > 0 && a <= b
    ensures a / d <= b / d
  {
    FloorBounds(a, d);
    FloorBounds(b, d);
    if b / d < a / d {
      MultiplyMonotone(b / d + 1, a / d, d);
    }
  }

  /** Scaling a span that ends within `bound` gives a span that ends within the scaled bound. */
  lemma ScaledEnd(at: nat, length: nat, bound: nat, duration: nat, base: nat)
    requires base > 0 && at + length <= bound
    ensures Scale(at, duration, base) + Scale(length, duration, base) <= Scale(bound, duration, base)
  {
    var a, b, c := at * duration * NANOS, length * duration * NANOS, bound * duration * NANOS;
    var unit := duration * NANOS;
    assert a == unit * at && b == unit * length && c == unit * bound;
    MultiplyMonotone(at + length, bound, unit);
    FloorsAdd(a, b, base);
    FloorMonotone(a + b, c, base);
  }

  lemma ScaleWhole(duration: int, base: nat)
    requires base > 0
    ensures Scale(base, duration, base) == duration * NANOS
  {
    assert base * duration * NANOS == base * (duration * NANOS);
    FloorBounds(base * (duration * NANOS), base);
    var q := base * (duration * NANOS) / base;
    if q < duration * NANOS {
      MultiplyMonotone(q + 1, duration * NANOS, base);
    }
    if q > duration * NANOS {
      MultiplyMonotone(duration * NANOS + 1, q, base);
    }
  }

  /** Scaling keeps the order of offsets. */
  lemma ScaledStart(x: nat, y: nat, duration: nat, base: nat)
    requires base > 0 && x <= y
    ensures 0 <= Scale(x, duration, base) <= Scale(y, duration, base)
  {
    var unit := duration * NANOS;
    assert x * duration * NANOS == unit * x && y * duration * NANOS == unit * y;
    MultiplyMonotone(x, y, unit);
    MultiplyMonotone(0, x, unit);
    FloorMonotone(unit * x, unit * y, base);
    FloorMonotone(0, unit * x, base);
  }

  lemma Distribute(d: int, a: int, b: int)
    ensures d * (a + b) == d * a + d * b
  {
  }

  /** `q` and `q'` round down to at most what `r` and `r'` round down to, for multiples of `d`. */
  lemma QuotientsNested(q: int, q': int, r: int, r': int, x: int, y: int, d: nat)
    requires d > 0 && d * q + d * q' <= x && x + d <= y && y < d * r + d * r' + 2 * d
    ensures q + q' <= r + r'
  {
    Distribute(d, q, q');
    Distribute(d, r, r');
    if r + r' < q + q' {
      MultiplyMonotone(r + r' + 1, q + q', d);
      Distribute(d, r + r', 1);
    }
  }

  /** One divisor of slack makes up for every rounding. */
  lemma FloorsNested(x: int, x': int, y: int, y': int, d: nat)
    requires d > 0 && x + x' + d <= y + y'
    ensures x / d + x' / d <= y / d + y' / d
  {
    FloorBounds(x, d);
    FloorBounds(x', d);
    FloorBounds(y, d);
    FloorBounds(y', d);
    QuotientsNested(x / d, x' / d, y / d, y' / d, x + x', y + y', d);
  }

  /** A span that ends at least a millisecond of the pattern before another still ends within
      it when both offsets and both lengths are rounded separately. */
  lemma NestedEnd(outerAt: nat, outerLength: nat, at: nat, length: nat, duration: nat, base: nat)
    requires base > 0 && at + length + 1 <= outerAt + outerLength && base <= duration * NANOS
    ensures Scale(at, duration, base) + Scale(length, duration, base)
            <= Scale(outerAt, duration, base) + Scale(outerLength, duration, base)
  {
    var unit := duration * NANOS;
    var a, l, oa, ol := unit * at, unit * length, unit * outerAt, unit * outerLength;
    assert at * duration * NANOS == a && length * duration * NANOS == l;
    assert outerAt * duration * NANOS == oa && outerLength * duration * NANOS == ol;
    MultiplyMonotone(at + length + 1, outerAt + outerLength, unit);
    FloorsNested(a, l, oa, ol, base);
  }

  lemma NegativeScale(value: nat, duration: int, base: nat)
    requires base > 0 && value > 0 && duration < 0
    ensures Scale(value, duration, base) < 0
  {
    assert value * duration * NANOS < 0 by {
      MultiplyMonotone(duration, -1, value);
    }
    FloorBounds(value * duration * NANOS, base);
  }

  /** Children within the root, and the database span within the catalog span with a
      millisecond to spare. */
  predicate Shaped(p: Pattern) {
    && p.base > 0
    && p.catalogAt + p.catalogLength <= p.base && p.paymentAt + p.paymentLength <= p.base
    && p.catalogAt <= p.databaseAt
    && p.databaseAt + p.databaseLength + 1 <= p.catalogAt + p.catalogLength
  }

  lemma ChildrenInRoot(p: Pattern, duration: nat)
    requires Shaped(p)
    ensures Inside(Scaled(p, duration).catalog, Scaled(p, duration).root)
    ensures Inside(Scaled(p, duration).payment, Scaled(p, duration).root)
  {
    ScaleWhole(duration, p.base);
    ScaledEnd(p.catalogAt, p.catalogLength, p.base, duration, p.base);
    ScaledEnd(p.paymentAt, p.paymentLength, p.base, duration, p.base);
    ScaledStart(0, p.catalogAt, duration, p.base);
    ScaledStart(0, p.paymentAt, duration, p.base);
  }

  lemma LengthsNotNegative(p: Pattern, duration: nat)
    requires p.base > 0
    ensures var t := Scaled(p, duration); t.catalog.length >= 0 && t.payment.length >= 0 && t.database.length >= 0
  {
    ScaledStart(0, p.catalogLength, duration, p.base);
    ScaledStart(0, p.paymentLength, duration, p.base);
    ScaledStart(0, p.databaseLength, duration, p.base);
  }

  lemma DatabaseInCatalog(p: Pattern, duration: nat)
    requires Shaped(p) && (duration > 0 ==> p.base <= duration * NANOS)
    ensures Inside(Scaled(p, duration).database, Scaled(p, duration).catalog)
  {
    ScaledStart(p.catalogAt, p.databaseAt, duration, p.base);
    if duration > 0 {
      NestedEnd(p.catalogAt, p.catalogLength, p.databaseAt, p.databaseLength, duration, p.base);
    }
  }

  /** For every well-shaped pattern, and every duration that leaves a nanosecond to each unit of
      the pattern: the scaled spans lie inside their parents exactly when the duration is not
      negative, although each offset and length is rounded down on its own. */
  lemma ShapedIsContained(p: Pattern, duration: int)
    requires Shaped(p) && (duration > 0 ==> p.base <= duration * NANOS)
    ensures Contained(Scaled(p, duration)) <==> duration >= 0
  {
    if duration < 0 {
      NegativeScale(p.catalogLength, duration, p.base);
    } else {
      ChildrenInRoot(p, duration);
      LengthsNotNegative(p, duration);
      DatabaseInCatalog(p, duration);
    }
  }

  /** Without the millisecond to spare the rounding can push the database span out: here it
      ends where the catalog span ends, and one nanosecond later once scaled. */
  lemma NoSlackBreaks()
    ensures var p := Pattern(3, 1, 1, 0, 0, 2, 0);
      && p.databaseAt + p.databaseLength == p.catalogAt + p.catalogLength <= p.base
      && !Contained(Scaled(p, 2))
  {
    assert 1 * 2 * NANOS / 3 == 666_666 && 2 * 2 * NANOS / 3 == 1_333_333;
  }

  /** And so can a duration with fewer nanoseconds than the pattern has units. */
  lemma CoarseDurationBreaks()
    ensures var p := Pattern(10_000_000, 9, 9, 0, 0, 10, 7); Shaped(p) && !Contained(Scaled(p, 1))
  {
    assert 9 * 1 * NANOS / 10_000_000 == 0 && 10 * 1 * NANOS / 10_000_000 == 1;
  }

  /** The table is well shaped, so every span lies inside its parent, for every sample index,
      exactly when the requested duration is not negative. */
  lemma SpansAreContained(sample: int, durationMs: Option<int>)
    ensures Contained(Timings(sample, durationMs)) <==> (durationMs.Some? ==> durationMs.value >= 0)
  {
    var p := PatternOf(sample);
    assert Shaped(p) && p.base <= NANOS;
    ShapedIsContained(p, if durationMs.None? then p.base else durationMs.value);
  }
}
