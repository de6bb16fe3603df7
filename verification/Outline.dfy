/** A track's outline as an SVG path (`envelope` of `apps/desktop/src/waveformOutline.ts`). Heights are
    rounded to hundredths of the drawing's unit. */
module Outline {
  import opened Options
  import opened Decimal
  import opened Buckets

  const FULL_SCALE := 127
  const MIDDLE := 20.0

  /** A sample held to full scale. */
  function Held(sample: int): int {
    if sample > FULL_SCALE then FULL_SCALE else if sample < -FULL_SCALE then -FULL_SCALE else sample
  }

  /** Where a sample is drawn: upwards is towards zero. */
  function Y(sample: int): real {
    MIDDLE - Held(sample) as real / FULL_SCALE as real * MIDDLE
  }

  /** Two decimal places, as a number of hundredths; halves go up. */
  function Hundredths(value: real): int {
    (value * 100.0 + 0.5).Floor
  }

  function Height(sample: int): int {
    Hundredths(Y(sample))
  }

  // ------------------------------------------------------------------------------
  // Heights
  // ------------------------------------------------------------------------------

  lemma HeightIsExact(sample: int)
    ensures var exact := 2000.0 - 2000.0 * Held(sample) as real / 127.0;
            exact - 0.5 < Height(sample) as real <= exact + 0.5
  {
  }

  lemma HeldInScale(sample: int)
    ensures -127 <= Held(sample) <= 127 && (-127 <= sample <= 127 ==> Held(sample) == sample)
  {
  }

  lemma HeightInLane(sample: int)
    ensures 0 <= Height(sample) <= 4000
  {
    HeightIsExact(sample);
    HeldInScale(sample);
  }

  /** Louder is drawn strictly higher, up to full scale. */
  lemma LouderIsHigher(quiet: int, loud: int)
    requires -127 <= quiet < loud <= 127
    ensures Height(loud) < Height(quiet)
  {
    HeightIsExact(quiet);
    HeightIsExact(loud);
  }

  /** Full scale reaches the edges of the lane and silence is its middle, and nothing else is either. */
  lemma EdgesAndMiddle(sample: int)
    ensures Height(sample) == 0 <==> sample >= 127
    ensures Height(sample) == 4000 <==> sample <= -127
    ensures Height(sample) == 2000 <==> sample == 0
  {
    HeightIsExact(sample);
    HeldInScale(sample);
  }

  /** The sample nearest to a height. */
  function SampleAtHeight(height: int): int {
    ((2000 - height) as real * 127.0 / 2000.0 + 0.5).Floor
  }

  lemma HeightReadsBack(sample: int)
    ensures SampleAtHeight(Height(sample)) == Held(sample)
  {
    HeightIsExact(sample);
    var h, s := Height(sample) as real, Held(sample) as real;
    assert (2000.0 - h) * 127.0 / 2000.0 + 0.5 >= s;
    assert (2000.0 - h) * 127.0 / 2000.0 + 0.5 < s + 1.0;
  }

  // ------------------------------------------------------------------------------
  // The path
  // ------------------------------------------------------------------------------

  /** A number of hundredths in decimal, with no zeros at the end of its fraction. */
  function NumberText(hundredths: nat): string {
    var whole, part := hundredths / 100, hundredths % 100;
    if part == 0 then Text(whole)
    else if part % 10 == 0 then Text(whole) + "." + Pad(Text(part / 10), 1)
    else Text(whole) + "." + Pad(Text(part), 2)
  }

  /** What a bucket number reads of the peaks; beyond them it is silence. */
  function SampleAt(peaks: seq<int>, index: int): int {
    if 0 <= index < |peaks| then peaks[index] else 0
  }

  function PointText(x: nat, sample: int): string {
    HeightInLane(sample);
    Text(x) + "," + NumberText(Height(sample))
  }

  /** What is read for a run of buckets: a minimum and a maximum for each. */
  function Read(peaks: seq<int>, run: BucketRange): seq<int> {
    if run.to <= run.from then []
    else seq(2 * (run.to - run.from), i requires 0 <= i < 2 * (run.to - run.from) => SampleAt(peaks, 2 * run.from + i))
  }

  /** How a sample of bucket `x` is written as a point. */
  type Pen = (nat, int) -> string

  /** Left to right along the maxima. */
  function Top(pen: Pen, samples: seq<int>): seq<string> {
    seq(|samples| / 2, x requires 0 <= x < |samples| / 2 => pen(x, samples[2 * x + 1]))
  }

  function Bottom(pen: Pen, samples: seq<int>): seq<string> {
    seq(|samples| / 2, x requires 0 <= x < |samples| / 2 => pen(x, samples[2 * x]))
  }

  function Reversed<T>(s: seq<T>): (r: seq<T>)
    ensures |r| == |s| && forall i :: 0 <= i < |s| ==> r[i] == s[|s| - 1 - i]
  {
    seq(|s|, i requires 0 <= i < |s| => s[|s| - 1 - i])
  }

  function Join(items: seq<string>, between: string): string {
    if |items| == 0 then "" else if |items| == 1 then items[0] else items[0] + between + Join(items[1..], between)
  }

  function Path(top: seq<string>, bottom: seq<string>): string {
    "M" + Join(top, " L") + " L" + Join(bottom, " L") + " Z"
  }

  /** The run of buckets drawn: the one asked for, or the whole track. */
  function RangeOf(track: Track, range: Option<BucketRange>): BucketRange {
    if range.Some? then range.value else BucketRange(0, BucketCount(track))
  }

  function PathOf(pen: Pen, samples: seq<int>): string {
    Path(Top(pen, samples), Reversed(Bottom(pen, samples)))
  }

  function Drawing(pen: Pen, track: Track, range: Option<BucketRange>): Option<string> {
    var run := RangeOf(track, range);
    if run.to <= run.from then None else Some(PathOf(pen, Read(PeaksOf(track), run)))
  }

  function EnvelopeOf(track: Track, range: Option<BucketRange>): Option<string> {
    Drawing(PointText, track, range)
  }

  lemma ReadGrows(peaks: seq<int>, from: int, bucket: int)
    requires from <= bucket
    ensures |Read(peaks, BucketRange(from, bucket))| == 2 * (bucket - from)
    ensures Read(peaks, BucketRange(from, bucket + 1))
         == Read(peaks, BucketRange(from, bucket)) + [SampleAt(peaks, bucket * 2), SampleAt(peaks, bucket * 2 + 1)]
  {
  }

  lemma PointsGrow(pen: Pen, samples: seq<int>, after: seq<int>, x: nat, minimum: int, maximum: int)
    requires |samples| == 2 * x && after == samples + [minimum, maximum]
    ensures Top(pen, after) == Top(pen, samples) + [pen(x, maximum)]
    ensures Bottom(pen, after) == Bottom(pen, samples) + [pen(x, minimum)]
  {
  }

  lemma OneBucketMore(pen: Pen, peaks: seq<int>, from: int, bucket: int)
    requires from <= bucket
    ensures Top(pen, Read(peaks, BucketRange(from, bucket + 1)))
         == Top(pen, Read(peaks, BucketRange(from, bucket))) + [pen(bucket - from, SampleAt(peaks, bucket * 2 + 1))]
    ensures Bottom(pen, Read(peaks, BucketRange(from, bucket + 1)))
         == Bottom(pen, Read(peaks, BucketRange(from, bucket))) + [pen(bucket - from, SampleAt(peaks, bucket * 2))]
  {
    ReadGrows(peaks, from, bucket);
    PointsGrow(pen, Read(peaks, BucketRange(from, bucket)), Read(peaks, BucketRange(from, bucket + 1)), bucket - from,
               SampleAt(peaks, bucket * 2), SampleAt(peaks, bucket * 2 + 1));
  }

  method Envelope(track: Track, range: Option<BucketRange>) returns (path: Option<string>)
    ensures path == EnvelopeOf(track, range)
  {
    var peaks := PeaksOf(track);
    var whole := BucketRange(0, |peaks| / 2);
    var run := if range.Some? then range.value else whole;
    if run.to <= run.from {
      return None;
    }
    var top, bottom := Points(PointText, peaks, run);
    path := Some(Path(top, Reversed(bottom)));
  }

  /** The points of a run, as the loop over its buckets pushes them. */
  method Points(pen: Pen, peaks: seq<int>, run: BucketRange) returns (top: seq<string>, bottom: seq<string>)
    requires run.from <= run.to
    ensures top == Top(pen, Read(peaks, run)) && bottom == Bottom(pen, Read(peaks, run))
  {
    top, bottom := [], [];
    for bucket := run.from to run.to
      invariant top == Top(pen, Read(peaks, BucketRange(run.from, bucket)))
      invariant bottom == Bottom(pen, Read(peaks, BucketRange(run.from, bucket)))
    {
      var minimum, maximum := SampleAt(peaks, bucket * 2), SampleAt(peaks, bucket * 2 + 1);
      var x := bucket - run.from;
      OneBucketMore(pen, peaks, run.from, bucket);
      top := top + [pen(x, maximum)];
      bottom := bottom + [pen(x, minimum)];
    }
  }
}
