/** The peaks a drawn outline was made from can be read back from its path. */
module OutlineLaws {
  import opened Options
  import opened Cutting
  import opened Decimal
  import opened Buckets
  import opened Outline

  // ------------------------------------------------------------------------------
  // Numbers and points
  // ------------------------------------------------------------------------------

  /** The hundredths a decimal stands for. */
  function ReadNumber(s: string): nat {
    UpToInString(s, '.');
    var dot := UpTo(s, '.');
    Parse(s[..dot]) * 100 + (if |s| - dot == 2 then Parse(s[dot + 1..]) * 10 else if |s| - dot == 3 then Parse(s[dot + 1..]) else 0)
  }

  lemma TextIsDigits(n: nat, c: char)
    requires !IsDigit(c)
    ensures c !in Text(n)
  {
  }

  lemma FractionReads(whole: nat, fraction: string)
    requires |fraction| == 1 || |fraction| == 2
    ensures ReadNumber(Text(whole) + "." + fraction)
         == whole * 100 + if |fraction| == 1 then Parse(fraction) * 10 else Parse(fraction)
  {
    var s := Text(whole) + ("." + fraction);
    TextIsDigits(whole, '.');
    UpToFinds(Text(whole), '.', "." + fraction);
    TextParses(whole);
    assert s == Text(whole) + "." + fraction;
    assert s[..|Text(whole)|] == Text(whole) && s[|Text(whole)| + 1..] == fraction;
  }

  lemma WholeReads(whole: nat)
    ensures ReadNumber(Text(whole)) == whole * 100
  {
    TextIsDigits(whole, '.');
    UpToFinds(Text(whole), '.', "");
    TextParses(whole);
    assert Text(whole) + "" == Text(whole) && Text(whole)[..|Text(whole)|] == Text(whole);
  }

  lemma NumberReadsBack(hundredths: nat)
    ensures ReadNumber(NumberText(hundredths)) == hundredths
  {
    var whole, part := hundredths / 100, hundredths % 100;
    assert Pow10(1) == 10 && Pow10(2) == 100;
    WholeReads(whole);
    FixedWidth(part / 10, 1);
    FixedWidth(part, 2);
    FractionReads(whole, Pad(Text(part / 10), 1));
    FractionReads(whole, Pad(Text(part), 2));
  }

  /** Numbers are as short as they can be: nothing of a fraction is zeros at its end. */
  lemma NumbersAreShort(hundredths: nat)
    ensures var s := NumberText(hundredths);
            && |s| > 0
            && (hundredths % 100 == 0 ==> s == Text(hundredths / 100))
            && (hundredths % 100 != 0 ==> s[|s| - 1] != '0' && s[|s| - 1] != '.')
  {
    var part := hundredths % 100;
    assert Pow10(1) == 10 && Pow10(2) == 100;
    FixedWidth(part / 10, 1);
    FixedWidth(part, 2);
    LastDigitShows(Pad(Text(part / 10), 1));
    LastDigitShows(Pad(Text(part), 2));
  }

  lemma LastDigitShows(s: string)
    requires s != "" && IsNumber(s)
    ensures s[|s| - 1] == '0' <==> Parse(s) % 10 == 0
    ensures s[|s| - 1] != '.'
  {
  }

  /** Neither a space nor a comma. */
  predicate NoSpaceOrComma(s: string) {
    ' ' !in s && ',' !in s
  }

  lemma DigitsAreUnbroken(n: nat, width: nat)
    requires width > 0 && n < Pow10(width)
    ensures NoSpaceOrComma(Text(n)) && NoSpaceOrComma(Pad(Text(n), width))
  {
    TextIsDigits(n, ' ');
    TextIsDigits(n, ',');
    FixedWidth(n, width);
    NumbersAreDigits(Pad(Text(n), width));
  }

  lemma NumbersAreUnbroken(hundredths: nat)
    ensures NoSpaceOrComma(NumberText(hundredths))
  {
    var whole, part := hundredths / 100, hundredths % 100;
    assert Pow10(1) == 10 && Pow10(2) == 100;
    TextIsDigits(whole, ' ');
    TextIsDigits(whole, ',');
    DigitsAreUnbroken(part / 10, 1);
    DigitsAreUnbroken(part, 2);
  }

  /** The sample a point was drawn for. */
  function ReadPoint(s: string): int {
    UpToInString(s, ',');
    var comma := UpTo(s, ',');
    if comma == |s| then 0 else SampleAtHeight(ReadNumber(s[comma + 1..]))
  }

  /** And where along the outline it is. */
  function ReadX(s: string): nat {
    UpToInString(s, ',');
    Parse(s[..UpTo(s, ',')])
  }

  lemma PointReadsBack(x: nat, sample: int)
    ensures ReadPoint(PointText(x, sample)) == Held(sample) && ReadX(PointText(x, sample)) == x
  {
    HeightInLane(sample);
    var number := NumberText(Height(sample));
    var s := Text(x) + ("," + number);
    assert s == PointText(x, sample);
    TextIsDigits(x, ',');
    UpToFinds(Text(x), ',', "," + number);
    assert s[|Text(x)| + 1..] == number && s[..|Text(x)|] == Text(x);
    TextParses(x);
    NumberReadsBack(Height(sample));
    HeightReadsBack(sample);
  }

  lemma PointsHaveNoSpace(x: nat, sample: int)
    ensures ' ' !in PointText(x, sample)
  {
    HeightInLane(sample);
    TextIsDigits(x, ' ');
    NumbersAreUnbroken(Height(sample));
  }

  // ------------------------------------------------------------------------------
  // Words of a path
  // ------------------------------------------------------------------------------

  /** A string cut at its spaces. */
  function Words(s: string): (words: seq<string>)
    decreases |s|
  {
    UpToInString(s, ' ');
    var space := UpTo(s, ' ');
    if space == |s| then [s] else [s[..space]] + Words(s[space + 1..])
  }

  lemma OneWord(s: string)
    requires ' ' !in s
    ensures Words(s) == [s]
  {
    UpToFinds(s, ' ', "");
    assert s + "" == s;
  }

  lemma FirstWord(word: string, rest: string)
    requires ' ' !in word
    ensures Words(word + " " + rest) == [word] + Words(rest)
  {
    var s := word + (" " + rest);
    assert s == word + " " + rest;
    UpToFinds(word, ' ', " " + rest);
    assert s[..|word|] == word && s[|word| + 1..] == rest;
  }

  /** A letter in front of each point: the first is a move, and the others are lines. */
  function Lettered(first: char, points: seq<string>): seq<string> {
    seq(|points|, i requires 0 <= i < |points| => [if i == 0 then first else 'L'] + points[i])
  }

  predicate NoSpaces(points: seq<string>) {
    forall i :: 0 <= i < |points| ==> ' ' !in points[i]
  }

  lemma OnePoint(first: char, points: seq<string>, end: string)
    requires |points| == 1
    ensures [first] + Join(points, " L") + " " + end == ([first] + points[0]) + " " + end
    ensures Lettered(first, points) == [[first] + points[0]]
  {
  }

  lemma Regrouped(first: char, point: string, rest: string, end: string)
    ensures [first] + (point + " L" + rest) + " " + end == ([first] + point) + " " + (['L'] + rest + " " + end)
  {
  }

  lemma MorePoints(first: char, points: seq<string>, end: string)
    requires |points| > 1
    ensures [first] + Join(points, " L") + " " + end
         == ([first] + points[0]) + " " + (['L'] + Join(points[1..], " L") + " " + end)
  {
    Regrouped(first, points[0], Join(points[1..], " L"), end);
  }

  lemma LetteredSplits(first: char, points: seq<string>)
    requires |points| > 1
    ensures Lettered(first, points) == [[first] + points[0]] + Lettered('L', points[1..])
  {
  }

  lemma {:induction false} PathWords(first: char, points: seq<string>, end: string)
    requires first != ' ' && ' ' !in end && |points| > 0 && NoSpaces(points)
    ensures Words([first] + Join(points, " L") + " " + end) == Lettered(first, points) + [end]
    decreases |points|
  {
    var word := [first] + points[0];
    if |points| == 1 {
      OnePoint(first, points, end);
      OneWord(end);
      FirstWord(word, end);
    } else {
      MorePoints(first, points, end);
      LetteredSplits(first, points);
      PathWords('L', points[1..], end);
      FirstWord(word, ['L'] + Join(points[1..], " L") + " " + end);
    }
  }

  lemma {:induction false} JoinsJoin(a: seq<string>, b: seq<string>, between: string)
    requires |a| > 0 && |b| > 0
    ensures Join(a, between) + between + Join(b, between) == Join(a + b, between)
  {
    assert (a + b)[1..] == a[1..] + b;
    if |a| > 1 {
      JoinsJoin(a[1..], b, between);
      assert a[0] + between + Join(a[1..], between) + between + Join(b, between)
          == a[0] + between + (Join(a[1..], between) + between + Join(b, between));
    } else {
      assert a[1..] + b == b;
    }
  }

  // ------------------------------------------------------------------------------
  // Reading a path
  // ------------------------------------------------------------------------------

  /** A word of a path: a move or a line, to where along it, and to the height of which sample. */
  datatype Stroke = Stroke(letter: char, x: nat, sample: int)

  function ReadStroke(word: string): Stroke {
    if word == "" then Stroke(' ', 0, 0) else Stroke(word[0], ReadX(word[1..]), ReadPoint(word[1..]))
  }

  type Reader = string -> Stroke

  function StrokesOf(read: Reader, words: seq<string>): seq<Stroke> {
    if |words| == 0 then [] else seq(|words| - 1, i requires 0 <= i < |words| - 1 => read(words[i]))
  }

  /** The strokes of a path, all but the `Z` that closes it. */
  function Strokes(path: string): seq<Stroke> {
    StrokesOf(ReadStroke, Words(path))
  }

  /** A path that ends by closing itself. */
  predicate Closed(path: string) {
    |Words(path)| > 0 && Words(path)[|Words(path)| - 1] == "Z"
  }

  /** Which sample point `i` of an outline of `count` buckets is drawn for. */
  function SampleOfPoint(count: nat, i: nat): nat
    requires i < 2 * count
  {
    if i < count then 2 * i + 1 else 2 * (2 * count - 1 - i)
  }

  /** Forward along the top, and back along the bottom. */
  function XOfPoint(count: nat, i: nat): nat
    requires i < 2 * count
  {
    if i < count then i else 2 * count - 1 - i
  }

  /** The strokes of an outline: a move to the first maximum, lines over the others, and back over the minima. */
  function OutlineOf(samples: seq<int>): seq<Stroke>
    requires |samples| % 2 == 0
  {
    seq(|samples|, i requires 0 <= i < |samples| =>
      Stroke(if i == 0 then 'M' else 'L', XOfPoint(|samples| / 2, i), Held(samples[SampleOfPoint(|samples| / 2, i)])))
  }

  /** `pen` writes points that have no space in them and read back. */
  ghost predicate Legible(pen: Pen) {
    forall x, sample :: LegibleAt(pen, x, sample)
  }

  predicate LegibleAt(pen: Pen, x: nat, sample: int) {
    ' ' !in pen(x, sample) && ReadX(pen(x, sample)) == x && ReadPoint(pen(x, sample)) == Held(sample)
  }

  lemma PointsAreLegible()
    ensures Legible(PointText)
  {
    forall x, sample
      ensures LegibleAt(PointText, x, sample)
    {
      PointReadsBack(x, sample);
      PointsHaveNoSpace(x, sample);
    }
  }

  /** What a point has to be, to read back as the outline's. */
  predicate PointFor(point: string, x: nat, sample: int) {
    ' ' !in point && ReadX(point) == x && ReadPoint(point) == Held(sample)
  }

  lemma PointsOf(pen: Pen, samples: seq<int>, i: nat)
    requires |samples| % 2 == 0 && i < |samples| && Legible(pen)
    ensures |Top(pen, samples) + Reversed(Bottom(pen, samples))| == |samples|
    ensures PointFor((Top(pen, samples) + Reversed(Bottom(pen, samples)))[i], XOfPoint(|samples| / 2, i),
                     samples[SampleOfPoint(|samples| / 2, i)])
  {
    PointAt(pen, samples, i);
    assert LegibleAt(pen, XOfPoint(|samples| / 2, i), samples[SampleOfPoint(|samples| / 2, i)]);
  }

  lemma PointAt(pen: Pen, samples: seq<int>, i: nat)
    requires |samples| % 2 == 0 && i < |samples|
    ensures |Top(pen, samples) + Reversed(Bottom(pen, samples))| == |samples|
    ensures (Top(pen, samples) + Reversed(Bottom(pen, samples)))[i]
         == pen(XOfPoint(|samples| / 2, i), samples[SampleOfPoint(|samples| / 2, i)])
  {
  }

  lemma StrokeOfWord(points: seq<string>, i: nat)
    requires i < |points|
    ensures ReadStroke(Lettered('M', points)[i]) == Stroke(if i == 0 then 'M' else 'L', ReadX(points[i]), ReadPoint(points[i]))
  {
    assert Lettered('M', points)[i][1..] == points[i];
  }

  lemma WordsReadBack(points: seq<string>, samples: seq<int>)
    requires |samples| == |points| && |samples| % 2 == 0
    requires forall i :: 0 <= i < |points| ==>
               PointFor(points[i], XOfPoint(|samples| / 2, i), samples[SampleOfPoint(|samples| / 2, i)])
    ensures StrokesOf(ReadStroke, Lettered('M', points) + ["Z"]) == OutlineOf(samples)
  {
    var words := Lettered('M', points) + ["Z"];
    forall i | 0 <= i < |samples|
      ensures ReadStroke(words[i]) == OutlineOf(samples)[i]
    {
      StrokeOfWord(points, i);
      assert words[i] == Lettered('M', points)[i];
      assert PointFor(points[i], XOfPoint(|samples| / 2, i), samples[SampleOfPoint(|samples| / 2, i)]);
    }
  }

  /** A path reads back as the outline of the samples it was drawn for. */
  lemma PathReadsBack(pen: Pen, samples: seq<int>)
    requires |samples| % 2 == 0 && samples != [] && Legible(pen)
    ensures Strokes(PathOf(pen, samples)) == OutlineOf(samples) && Closed(PathOf(pen, samples))
  {
    var top, bottom := Top(pen, samples), Reversed(Bottom(pen, samples));
    var points := top + bottom;
    forall i | 0 <= i < |samples|
      ensures |points| == |samples| && PointFor(points[i], XOfPoint(|samples| / 2, i), samples[SampleOfPoint(|samples| / 2, i)])
    {
      PointsOf(pen, samples, i);
    }
    PathIsWords(top, bottom);
    WordsReadBack(points, samples);
  }

  lemma PathIsWords(top: seq<string>, bottom: seq<string>)
    requires |top| > 0 && |bottom| > 0 && NoSpaces(top + bottom)
    ensures Words(Path(top, bottom)) == Lettered('M', top + bottom) + ["Z"]
  {
    JoinsJoin(top, bottom, " L");
    assert "M" + Join(top, " L") + " L" + Join(bottom, " L") + " Z"
        == ['M'] + (Join(top, " L") + " L" + Join(bottom, " L")) + " " + "Z";
    PathWords('M', top + bottom, "Z");
  }

  /** Every outline reads back stroke for stroke: a move and then lines, forward from zero over the
      maxima of the run's buckets and back to zero over their minima, whatever the track and the run; and
      there is none exactly when the run has no bucket. */
  lemma OutlineReadsBack(track: Track, range: Option<BucketRange>)
    ensures EnvelopeOf(track, range).Some? <==> RangeOf(track, range).from < RangeOf(track, range).to
    ensures |Read(PeaksOf(track), RangeOf(track, range))| % 2 == 0
    ensures EnvelopeOf(track, range).Some? ==>
              && Strokes(EnvelopeOf(track, range).value) == OutlineOf(Read(PeaksOf(track), RangeOf(track, range)))
              && Closed(EnvelopeOf(track, range).value)
  {
    if RangeOf(track, range).from < RangeOf(track, range).to {
      EnvelopeIsPath(track, range);
      ReadInPairs(PeaksOf(track), RangeOf(track, range));
      DrawingReadsBack(Read(PeaksOf(track), RangeOf(track, range)));
    }
  }

  /** Where sample `i` of `count` buckets is among the points. */
  function PointOfSample(count: nat, i: nat): nat
    requires i < 2 * count
  {
    if i % 2 == 0 then 2 * count - 1 - i / 2 else i / 2
  }

  /** The peaks an outline was drawn from, bucket by bucket. */
  function PeaksOfStrokes(strokes: seq<Stroke>): seq<int> {
    var count := |strokes| / 2;
    seq(2 * count, i requires 0 <= i < 2 * count => strokes[PointOfSample(count, i)].sample)
  }

  function ReadPeaks(path: string): seq<int> {
    PeaksOfStrokes(Strokes(path))
  }

  /** Samples held to full scale. */
  function AllHeld(samples: seq<int>): seq<int> {
    seq(|samples|, i requires 0 <= i < |samples| => Held(samples[i]))
  }

  lemma PointsAndSamples(count: nat, i: nat)
    requires i < 2 * count
    ensures PointOfSample(count, i) < 2 * count && SampleOfPoint(count, PointOfSample(count, i)) == i
  {
  }

  lemma PeaksOfOutline(samples: seq<int>)
    requires |samples| % 2 == 0
    ensures PeaksOfStrokes(OutlineOf(samples)) == AllHeld(samples)
  {
    forall i | 0 <= i < |samples|
      ensures PeaksOfStrokes(OutlineOf(samples))[i] == AllHeld(samples)[i]
    {
      PointsAndSamples(|samples| / 2, i);
    }
  }

  /** So it reads back as the peaks it was drawn from, bucket for bucket, and silence where the run goes
      beyond the track. */
  lemma PeaksReadBack(track: Track, range: Option<BucketRange>)
    requires EnvelopeOf(track, range).Some?
    ensures ReadPeaks(EnvelopeOf(track, range).value) == AllHeld(Read(PeaksOf(track), RangeOf(track, range)))
  {
    OutlineReadsBack(track, range);
    PeaksOfOutline(Read(PeaksOf(track), RangeOf(track, range)));
  }

  lemma EnvelopeIsPath(track: Track, range: Option<BucketRange>)
    requires RangeOf(track, range).from < RangeOf(track, range).to
    ensures EnvelopeOf(track, range) == Some(PathOf(PointText, Read(PeaksOf(track), RangeOf(track, range))))
  {
  }

  lemma ReadInPairs(peaks: seq<int>, run: BucketRange)
    requires run.from < run.to
    ensures Read(peaks, run) != [] && |Read(peaks, run)| % 2 == 0
  {
  }

  lemma DrawingReadsBack(samples: seq<int>)
    requires |samples| % 2 == 0 && samples != []
    ensures Strokes(PathOf(PointText, samples)) == OutlineOf(samples) && Closed(PathOf(PointText, samples))
  {
    PointsAreLegible();
    PathReadsBack(PointText, samples);
  }

  predicate InScale(peaks: seq<int>) {
    forall i :: 0 <= i < |peaks| ==> -FULL_SCALE <= peaks[i] <= FULL_SCALE
  }

  /** A whole track's outline gives its peaks back unchanged. */
  lemma WholeTrackReadsBack(track: Track)
    requires BucketCount(track) > 0 && InScale(PeaksOf(track))
    ensures EnvelopeOf(track, None).Some?
    ensures ReadPeaks(EnvelopeOf(track, None).value) == PeaksOf(track)[..2 * BucketCount(track)]
  {
    PeaksReadBack(track, None);
    WholeIsRead(PeaksOf(track));
  }

  lemma WholeIsRead(peaks: seq<int>)
    requires InScale(peaks)
    ensures AllHeld(Read(peaks, BucketRange(0, |peaks| / 2))) == peaks[..2 * (|peaks| / 2)]
  {
    forall i | 0 <= i < 2 * (|peaks| / 2)
      ensures Held(SampleAt(peaks, i)) == peaks[i]
    {
      HeldInScale(peaks[i]);
    }
  }

  /** A part of a track is drawn as a track that is only that part, starting at zero. */
  lemma SliceIsRebased(track: Track, run: BucketRange)
    requires 0 <= run.from < run.to <= BucketCount(track)
    ensures EnvelopeOf(track, Some(run)) == EnvelopeOf(track.(peaks := Some(PeaksOf(track)[2 * run.from..2 * run.to])), None)
  {
    SliceIsDrawn(PointText, track, track.(peaks := Some(PeaksOf(track)[2 * run.from..2 * run.to])), run);
  }

  lemma SliceIsDrawn(pen: Pen, track: Track, part: Track, run: BucketRange)
    requires 0 <= run.from < run.to <= BucketCount(track)
    requires PeaksOf(part) == PeaksOf(track)[2 * run.from..2 * run.to]
    ensures Drawing(pen, track, Some(run)) == Drawing(pen, part, None)
  {
    SliceIsRead(PeaksOf(track), run);
    WholeRun(part, run.to - run.from);
    DrawnFromSamples(pen, track, Some(run), Read(PeaksOf(track), run));
    DrawnFromSamples(pen, part, None, Read(PeaksOf(track), run));
  }

  lemma DrawnFromSamples(pen: Pen, track: Track, range: Option<BucketRange>, samples: seq<int>)
    requires RangeOf(track, range).from < RangeOf(track, range).to
    requires samples == Read(PeaksOf(track), RangeOf(track, range))
    ensures Drawing(pen, track, range) == Some(PathOf(pen, samples))
  {
  }

  lemma WholeRun(track: Track, count: nat)
    requires |PeaksOf(track)| == 2 * count
    ensures RangeOf(track, None) == BucketRange(0, count)
  {
  }

  lemma SliceIsRead(peaks: seq<int>, run: BucketRange)
    requires 0 <= run.from < run.to <= |peaks| / 2
    ensures Read(peaks, run) == Read(peaks[2 * run.from..2 * run.to], BucketRange(0, run.to - run.from))
  {
    var part := peaks[2 * run.from..2 * run.to];
    forall i | 0 <= i < 2 * (run.to - run.from)
      ensures SampleAt(peaks, 2 * run.from + i) == SampleAt(part, i)
    {
    }
    assert |part| == 2 * (run.to - run.from);
    assert Read(part, BucketRange(0, run.to - run.from)) == part;
  }

  /** What a range of a recording is drawn as gives back the peaks of the buckets that overlap it. */
  lemma RangeReadsBack(track: Track, fromNanos: real, toNanos: real, b: int)
    requires BucketsOver(track, fromNanos, toNanos).Some? && Overlaps(track, fromNanos, toNanos, b)
    requires InScale(PeaksOf(track))
    ensures var run := BucketsOver(track, fromNanos, toNanos).value;
            && run.from <= b < run.to
            && EnvelopeOf(track, Some(run)).Some?
            && PeaksAt(ReadPeaks(EnvelopeOf(track, Some(run)).value), b - run.from) == PeaksAt(PeaksOf(track), b)
  {
    var run := BucketsOver(track, fromNanos, toNanos).value;
    DrawnExactly(track, fromNanos, toNanos, b);
    PeaksReadBack(track, Some(run));
    RunReadsBack(PeaksOf(track), run, b);
  }

  /** A bucket's minimum and maximum. */
  function PeaksAt(peaks: seq<int>, bucket: int): (int, int) {
    (SampleAt(peaks, 2 * bucket), SampleAt(peaks, 2 * bucket + 1))
  }

  lemma RunReadsBack(peaks: seq<int>, run: BucketRange, b: int)
    requires run.from <= b < run.to && InScale(peaks)
    ensures PeaksAt(AllHeld(Read(peaks, run)), b - run.from) == PeaksAt(peaks, b)
  {
  }
}
