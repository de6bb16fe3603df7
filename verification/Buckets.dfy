/** Which of a track's peaks a range of the recording is drawn from
    (`bucketsOver` of `apps/desktop/src/waveformOutline.ts`). Times are exact reals. */
module Buckets {
  import opened Options
  import Timecode

  /** A sound track: its peaks, a minimum and a maximum for each bucket, when it has any. */
  datatype Track = Track(peaks: Option<seq<int>>, durationSeconds: real)

  /** A half-open run of buckets. */
  datatype BucketRange = BucketRange(from: int, to: int)

  function PeaksOf(track: Track): seq<int> {
    if track.peaks.Some? then track.peaks.value else []
  }

  function BucketCount(track: Track): nat {
    |PeaksOf(track)| / 2
  }

  function DurationNanos(track: Track): real {
    track.durationSeconds * Timecode.NANOS_PER_SECOND
  }

  function Ceiling(x: real): int {
    -((-x).Floor)
  }

  function Clamp(value: int, buckets: nat): int {
    if value < 0 then 0 else if value > buckets then buckets else value
  }

  /** How long one bucket lasts. */
  function PerBucket(track: Track): real
    requires BucketCount(track) > 0
  {
    DurationNanos(track) / BucketCount(track) as real
  }

  function BucketsOver(track: Track, fromNanos: real, toNanos: real): Option<BucketRange> {
    var buckets := BucketCount(track);
    if buckets == 0 || DurationNanos(track) <= 0.0 || toNanos <= fromNanos then None
    else
      PerBucketIsPositive(track);
      var from := Clamp((fromNanos / PerBucket(track)).Floor, buckets);
      var to := Clamp(Ceiling(toNanos / PerBucket(track)), buckets);
      if from >= to then None else Some(BucketRange(from, to))
  }

  lemma PerBucketIsPositive(track: Track)
    requires BucketCount(track) > 0 && DurationNanos(track) > 0.0
    ensures PerBucket(track) > 0.0
    ensures PerBucket(track) * BucketCount(track) as real == DurationNanos(track)
  {
    var n, d := BucketCount(track) as real, DurationNanos(track);
    assert d / n * n == d;
  }

  // ------------------------------------------------------------------------------
  // Boundaries
  // ------------------------------------------------------------------------------

  /** Rounding a boundary down and comparing it is comparing the time. */
  lemma FloorBelow(time: real, per: real, k: int)
    requires per > 0.0
    ensures (time / per).Floor <= k <==> time < per * (k + 1) as real
  {
    var quotient := time / per;
    assert quotient * per == time;
    if quotient < (k + 1) as real {
      Scaled(quotient, (k + 1) as real, per);
    } else {
      ScaledUp((k + 1) as real, quotient, per);
    }
  }

  lemma CeilingBeyond(time: real, per: real, k: int)
    requires per > 0.0
    ensures k < Ceiling(time / per) <==> per * k as real < time
  {
    var quotient := time / per;
    assert quotient * per == time;
    CeilingAbove(quotient, k);
    if (k as real) < quotient {
      Scaled(k as real, quotient, per);
    } else {
      ScaledUp(quotient, k as real, per);
    }
  }

  lemma Scaled(a: real, b: real, per: real)
    requires a < b && per > 0.0
    ensures per * a < per * b
  {
    assert per * (b - a) > 0.0;
  }

  lemma ScaledUp(a: real, b: real, per: real)
    requires a <= b && per > 0.0
    ensures per * a <= per * b
  {
    assert per * (b - a) >= 0.0;
  }

  lemma CeilingAbove(x: real, k: int)
    ensures k < Ceiling(x) <==> (k as real) < x
  {
    assert (-x).Floor as real <= -x < ((-x).Floor + 1) as real;
  }

  // ------------------------------------------------------------------------------
  // What is drawn
  // ------------------------------------------------------------------------------

  predicate Drawable(track: Track) {
    BucketCount(track) > 0 && DurationNanos(track) > 0.0
  }

  /** Bucket `b` of the track, `[b, b + 1)` buckets along it, overlaps the range. */
  predicate Overlaps(track: Track, fromNanos: real, toNanos: real, b: int)
    requires BucketCount(track) > 0
  {
    && 0 <= b < BucketCount(track)
    && PerBucket(track) * b as real < toNanos
    && fromNanos < PerBucket(track) * (b + 1) as real
  }

  predicate Within(range: Option<BucketRange>, b: int) {
    range.Some? && range.value.from <= b < range.value.to
  }

  /** The buckets drawn are exactly those that overlap the range. */
  lemma DrawnExactly(track: Track, fromNanos: real, toNanos: real, b: int)
    requires Drawable(track) && fromNanos < toNanos
    ensures Within(BucketsOver(track, fromNanos, toNanos), b) <==> Overlaps(track, fromNanos, toNanos, b)
  {
    PerBucketIsPositive(track);
    FloorBelow(fromNanos, PerBucket(track), b);
    CeilingBeyond(toNanos, PerBucket(track), b);
  }

  /** Said of the peaks and the seconds: bucket `b` of the track's n is drawn exactly when it begins before the
      range ends, and ends after it begins; each pair of peaks is a bucket, and all are equally long. */
  lemma DrawnSpelledOut(track: Track, fromNanos: real, toNanos: real, b: int, n: nat)
    requires n == |PeaksOf(track)| / 2 > 0 && track.durationSeconds > 0.0 && fromNanos < toNanos
    ensures Within(BucketsOver(track, fromNanos, toNanos), b)
       <==> && 0 <= b < n
            && b as real * (track.durationSeconds * 1000000000.0) < toNanos * n as real
            && fromNanos * n as real < (b + 1) as real * (track.durationSeconds * 1000000000.0)
  {
    DrawnExactly(track, fromNanos, toNanos, b);
    PerBucketIsPositive(track);
    var per, duration := PerBucket(track), DurationNanos(track);
    TimesCount(per, n as real, duration, b as real, toNanos);
    TimesCount(per, n as real, duration, (b + 1) as real, fromNanos);
  }

  /** Comparing so many buckets with a time, and so many durations with that many times. */
  lemma TimesCount(per: real, n: real, duration: real, k: real, time: real)
    requires n > 0.0 && per * n == duration
    ensures per * k < time <==> k * duration < time * n
    ensures time < per * k <==> time * n < k * duration
  {
    assert k * duration == n * (per * k);
    if per * k < time {
      Scaled(per * k, time, n);
    } else {
      ScaledUp(time, per * k, n);
    }
    if time < per * k {
      Scaled(time, per * k, n);
    } else {
      ScaledUp(per * k, time, n);
    }
  }

  /** There is something to draw exactly when there are peaks and the range overlaps them. */
  lemma DrawnWhenItOverlaps(track: Track, fromNanos: real, toNanos: real)
    ensures BucketsOver(track, fromNanos, toNanos).Some?
       <==> Drawable(track) && fromNanos < toNanos && fromNanos < DurationNanos(track) && 0.0 < toNanos
  {
    if Drawable(track) && fromNanos < toNanos {
      PerBucketIsPositive(track);
      var per, n := PerBucket(track), BucketCount(track);
      FloorBelow(fromNanos, per, n - 1);
      CeilingBeyond(toNanos, per, 0);
      FloorBelowCeiling(fromNanos, toNanos, per);
    }
  }

  lemma FloorBelowCeiling(a: real, b: real, per: real)
    requires per > 0.0 && a < b
    ensures (a / per).Floor < Ceiling(b / per)
  {
    FloorBelow(a, per, Ceiling(b / per) - 1);
    CeilingBeyond(b, per, Ceiling(b / per));
  }

  function Earliest(a: real, b: real): real { if a <= b then a else b }

  function Latest(a: real, b: real): real { if a <= b then b else a }

  lemma StartsJustBefore(track: Track, fromNanos: real, toNanos: real)
    requires BucketsOver(track, fromNanos, toNanos).Some?
    ensures var range, per := BucketsOver(track, fromNanos, toNanos).value, PerBucket(track);
            var first := Latest(fromNanos, 0.0);
            0 <= range.from && first - per < per * range.from as real <= first
  {
    var range, per := BucketsOver(track, fromNanos, toNanos).value, PerBucket(track);
    PerBucketIsPositive(track);
    FloorBelow(fromNanos, per, range.from);
    FloorBelow(fromNanos, per, range.from - 1);
    OneFurther(per, range.from);
    ScaledUp(0.0, range.from as real, per);
  }

  lemma EndsJustAfter(track: Track, fromNanos: real, toNanos: real)
    requires BucketsOver(track, fromNanos, toNanos).Some?
    ensures var range, per := BucketsOver(track, fromNanos, toNanos).value, PerBucket(track);
            var last := Earliest(toNanos, DurationNanos(track));
            range.to <= BucketCount(track) && last <= per * range.to as real < last + per
  {
    var range, per := BucketsOver(track, fromNanos, toNanos).value, PerBucket(track);
    PerBucketIsPositive(track);
    CeilingBeyond(toNanos, per, range.to);
    CeilingBeyond(toNanos, per, range.to - 1);
    OneFurther(per, range.to - 1);
    ScaledUp(range.to as real, BucketCount(track) as real, per);
  }

  /** What is drawn covers what it overlaps, and exceeds it by less than a bucket on either side. */
  lemma CoversAndNoMore(track: Track, fromNanos: real, toNanos: real)
    requires BucketsOver(track, fromNanos, toNanos).Some?
    ensures var range, per := BucketsOver(track, fromNanos, toNanos).value, PerBucket(track);
            var first, last := Latest(fromNanos, 0.0), Earliest(toNanos, DurationNanos(track));
            && 0 <= range.from < range.to <= BucketCount(track)
            && first - per < per * range.from as real <= first
            && last <= per * range.to as real < last + per
  {
    StartsJustBefore(track, fromNanos, toNanos);
    EndsJustAfter(track, fromNanos, toNanos);
  }

  lemma OneFurther(per: real, k: int)
    ensures per * (k + 1) as real == per * k as real + per
  {
    assert (k + 1) as real == k as real + 1.0;
  }

  predicate OnABoundary(track: Track, nanos: real)
    requires BucketCount(track) > 0
  {
    PerBucket(track) > 0.0 && ((nanos / PerBucket(track)).Floor) as real == nanos / PerBucket(track)
  }

  lemma Rounding(x: real)
    ensures Ceiling(x) == if x.Floor as real == x then x.Floor else x.Floor + 1
  {
    CeilingAbove(x, x.Floor);
    CeilingAbove(x, x.Floor + 1);
    CeilingAbove(x, x.Floor - 1);
  }

  /** Two ranges that abut join to the buckets of the two together, and share one bucket exactly when
      they meet inside it. */
  lemma AbuttingRangesJoin(track: Track, a: real, b: real, c: real)
    requires BucketsOver(track, a, b).Some? && BucketsOver(track, b, c).Some?
    ensures var one, other := BucketsOver(track, a, b).value, BucketsOver(track, b, c).value;
            && BucketsOver(track, a, c) == Some(BucketRange(one.from, other.to))
            && one.to - other.from == if OnABoundary(track, b) then 0 else 1
  {
    PerBucketIsPositive(track);
    var per, n := PerBucket(track), BucketCount(track);
    Rounding(b / per);
    DrawnWhenItOverlaps(track, a, b);
    DrawnWhenItOverlaps(track, b, c);
    DrawnWhenItOverlaps(track, a, c);
    FloorBelow(b, per, n - 1);
    FloorBelow(b, per, -1);
    CeilingBeyond(b, per, 0);
    CeilingBeyond(b, per, n);
  }
}
