/** Points in time as whole nanoseconds since Go's zero time (1 January of year 1, UTC). */
module Instants {
  type Instant = int

  type Duration = int

  const SECOND: Duration := 1_000_000_000

  const MINUTE: Duration := 60 * SECOND

  const HOUR: Duration := 60 * MINUTE

  const DAY: Duration := 24 * HOUR

  /** Seconds from the zero time to 1 January 1970. */
  const UNIX_EPOCH := 62_135_596_800

  lemma MultipleApart(q: int, d: int)
    requires d > 0 && -d < q * d < d
    ensures q == 0
  {}

  lemma ModMultiple(q: int, d: int)
    requires d > 0
    ensures q * d % d == 0
  {
    var r, p := q * d % d, q * d / d;
    assert (q - p) * d == r;
    MultipleApart(q - p, d);
  }

  /** time.Time.Truncate: rounds down to a multiple of d since the zero time. */
  function Truncate(t: Instant, d: Duration): (r: Instant)
    ensures d > 0 ==> r <= t < r + d && Aligned(r, d)
  {
    if d <= 0 then t else
      ModMultiple(t / d, d);
      assert t - t % d == t / d * d;
      t - t % d
  }

  predicate Aligned(t: Instant, d: Duration) {
    d > 0 && t % d == 0
  }

  /** time.Time.Unix. */
  function Unix(t: Instant): int {
    t / SECOND - UNIX_EPOCH
  }

  lemma MultiplesInOrder(a: int, b: int, c: int)
    requires c > 0 && a * c < b * c
    ensures a < b
  {
    assert (b - a) * c > 0;
  }

  /** Two aligned instants less than one resolution apart are equal. */
  lemma AlignedGap(a: Instant, b: Instant, d: Duration)
    requires Aligned(a, d) && Aligned(b, d)
    requires -d < a - b < d
    ensures a == b
  {
    assert (a / d - b / d) * d == a - b;
    MultipleApart(a / d - b / d, d);
  }

  lemma TruncateUnique(t: Instant, s: Instant, d: Duration)
    requires Aligned(s, d) && s <= t < s + d
    ensures Truncate(t, d) == s
  {
    AlignedGap(Truncate(t, d), s, d);
  }

  lemma AlignedNeighbours(s: Instant, d: Duration)
    requires Aligned(s, d)
    ensures Aligned(s + d, d) && Aligned(s - d, d)
  {
    var q := s / d;
    assert s + d == (q + 1) * d && s - d == (q - 1) * d;
    ModMultiple(q + 1, d);
    ModMultiple(q - 1, d);
  }

  /** Aligned instants of one whole-second resolution stay apart, and in order, as Unix seconds. */
  lemma UnixOrder(a: Instant, b: Instant, d: Duration)
    requires Aligned(a, d) && Aligned(b, d) && d % SECOND == 0
    ensures Unix(a) == Unix(b) <==> a == b
    ensures Unix(a) < Unix(b) <==> a < b
  {
    if a < b && b - a < d {
      AlignedGap(a, b, d);
    }
    if b < a && a - b < d {
      AlignedGap(a, b, d);
    }
  }
}
