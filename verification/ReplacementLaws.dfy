/** What a global replace that hides paths guarantees of the text as a whole. */
module ReplacementLaws {
  import opened PathScanner

  // ------------------------------------------------------------------------------
  // Which prefixes the output may still have
  // ------------------------------------------------------------------------------

  /** A prefix that begins in a pipe's name ends in it too: the name goes on to what ends it. */
  lemma PrefixEndsInPipe(m: string, rest: string, p: nat)
    requires Ended(rest) && p < |m|
    ensures DriveAt((m + rest)[p..]) ==> p + 3 <= |m|
    ensures ExtendedAt((m + rest)[p..]) ==> p + 4 <= |m|
  {
  }

  /** One piece of the output: a pipe, a rendering or a character copied, and the rest. */
  function Piece(f: Callback, text: string): string
    requires text != ""
  {
    if MatchLength(text) > 0 then f(text[..MatchLength(text)]) else [text[0]]
  }

  function Remaining(text: string): (rest: string)
    requires text != ""
    ensures |rest| < |text|
  {
    text[if MatchLength(text) > 0 then MatchLength(text) else 1..]
  }

  predicate PieceIsPipe(text: string)
    requires text != ""
  {
    MatchLength(text) > 0 && IsPipe(text[..MatchLength(text)])
  }

  lemma Pieces(f: Callback, text: string)
    requires Hides(f) && text != ""
    ensures ReplaceAll(f, text) == Piece(f, text) + ReplaceAll(f, Remaining(text))
    ensures |Piece(f, text)| > 0
    ensures MatchLength(text) > 0 ==> Ended(ReplaceAll(f, Remaining(text)))
  {
    if MatchLength(text) > 0 {
      MatchIsEnded(text);
      EndedIsCopied(f, Remaining(text));
    }
  }

  lemma OutputFurtherOn(f: Callback, text: string, p: nat)
    requires Hides(f) && text != "" && |Piece(f, text)| <= p <= |ReplaceAll(f, text)|
    ensures p - |Piece(f, text)| <= |ReplaceAll(f, Remaining(text))|
    ensures ReplaceAll(f, text)[p..] == ReplaceAll(f, Remaining(text))[p - |Piece(f, text)|..]
  {
    Pieces(f, text);
    FurtherOn(Piece(f, text), ReplaceAll(f, Remaining(text)), p);
  }

  lemma FurtherOn(head: string, rest: string, p: nat)
    requires |head| <= p <= |head + rest|
    ensures (head + rest)[p..] == rest[p - |head|..]
  {
  }

  /** The `n` characters at `p` of the output lie in the name of one pipe, copied. */
  predicate InOnePipe(f: Callback, text: string, p: nat, n: nat)
    decreases |text|
  {
    text != "" &&
    if p < |Piece(f, text)| then PieceIsPipe(text) && p + n <= |Piece(f, text)|
    else InOnePipe(f, Remaining(text), p - |Piece(f, text)|, n)
  }

  /** A match of a text, where it stands there and where in the output: `before` and `after` it in the
      one, `ahead` and `behind` it in the other. */
  datatype Found = Found(before: string, pipe: string, after: string, ahead: string, behind: string)

  /** A pipe is found there, and it is a match: the whole of what the scan finds in front of `after`. */
  predicate PipeFound(found: Found, text: string, o: string) {
    && IsPipe(found.pipe) && MatchLength(found.pipe + found.after) == |found.pipe|
    && text == found.before + (found.pipe + found.after)
    && o == found.ahead + (found.pipe + found.behind)
  }

  lemma FoundFurtherOn(found: Found, head: string, text: string, piece: string, o: string)
    requires PipeFound(found, text, o)
    ensures PipeFound(found.(before := head + found.before, ahead := piece + found.ahead), head + text, piece + o)
  {
    var rest, tail := found.pipe + found.after, found.pipe + found.behind;
    assert head + (found.before + rest) == (head + found.before) + rest;
    assert piece + (found.ahead + tail) == (piece + found.ahead) + tail;
  }

  lemma SplitsAtRemaining(text: string) returns (head: string)
    requires text != ""
    ensures text == head + Remaining(text)
    ensures PieceIsPipe(text) ==> head == text[..MatchLength(text)]
  {
    head := text[..|text| - |Remaining(text)|];
  }

  lemma PipeInFront(pipe: string, after: string, behind: string)
    requires IsPipe(pipe) && MatchLength(pipe + after) == |pipe|
    ensures PipeFound(Found("", pipe, after, "", behind), pipe + after, pipe + behind)
  {
    assert "" + (pipe + after) == pipe + after && "" + (pipe + behind) == pipe + behind;
  }

  lemma FoundInFront(f: Callback, text: string) returns (found: Found)
    requires Hides(f) && text != "" && PieceIsPipe(text)
    ensures PipeFound(found, text, ReplaceAll(f, text)) && found.ahead == "" && found.pipe == Piece(f, text)
  {
    Pieces(f, text);
    var head := SplitsAtRemaining(text);
    found := Found("", head, Remaining(text), "", ReplaceAll(f, Remaining(text)));
    PipeInFront(head, Remaining(text), ReplaceAll(f, Remaining(text)));
  }

  lemma FoundInRest(f: Callback, text: string, rest: Found) returns (found: Found)
    requires Hides(f) && text != "" && PipeFound(rest, Remaining(text), ReplaceAll(f, Remaining(text)))
    ensures PipeFound(found, text, ReplaceAll(f, text))
    ensures |found.ahead| == |Piece(f, text)| + |rest.ahead| && found.pipe == rest.pipe
  {
    Pieces(f, text);
    var head := SplitsAtRemaining(text);
    FoundFurtherOn(rest, head, Remaining(text), Piece(f, text), ReplaceAll(f, Remaining(text)));
    found := rest.(before := head + rest.before, ahead := Piece(f, text) + rest.ahead);
  }

  /** Which is one match of the text, and stands whole in the output around those characters. */
  lemma {:induction false} ThePipe(f: Callback, text: string, p: nat, n: nat) returns (found: Found)
    requires Hides(f) && InOnePipe(f, text, p, n)
    ensures PipeFound(found, text, ReplaceAll(f, text))
    ensures |found.ahead| <= p && p + n <= |found.ahead| + |found.pipe|
    decreases |text|
  {
    if p < |Piece(f, text)| {
      found := FoundInFront(f, text);
    } else {
      found := ThePipe(f, Remaining(text), p - |Piece(f, text)|, n);
      found := FoundInRest(f, text, found);
    }
  }

  /** Outside a pipe's name, a piece starts no drive prefix and no extended one, and a UNC prefix
      only where the text has four backslashes. */
  lemma PieceStartsNothing(f: Callback, text: string, p: nat)
    requires Hides(f) && text != "" && !PieceIsPipe(text) && p < |Piece(f, text)|
    ensures var o := ReplaceAll(f, text)[p..];
            && !DriveAt(o) && !ExtendedAt(o)
            && (UncAt(o) ==> FourBackslashesAt(text))
  {
    Pieces(f, text);
    if MatchLength(text) > 0 {
      assert Opaque(f(text[..MatchLength(text)]));
      ReplacedStartsNothing(Piece(f, text), ReplaceAll(f, Remaining(text)), p);
    } else {
      CopiedStartsNothing(f, text);
      assert ReplaceAll(f, text)[p..] == ReplaceAll(f, text);
    }
  }

  lemma PrefixInPiece(f: Callback, text: string, p: nat)
    requires Hides(f) && text != "" && p < |Piece(f, text)|
    ensures DriveAt(ReplaceAll(f, text)[p..]) ==> InOnePipe(f, text, p, 3)
    ensures ExtendedAt(ReplaceAll(f, text)[p..]) ==> InOnePipe(f, text, p, 4)
  {
    Pieces(f, text);
    if PieceIsPipe(text) {
      PrefixEndsInPipe(Piece(f, text), ReplaceAll(f, Remaining(text)), p);
    } else {
      PieceStartsNothing(f, text, p);
    }
  }

  /** Every drive-letter prefix and every extended prefix left in the output lies wholly inside the
      name of one pipe, copied as it stood. */
  lemma {:induction false} PrefixesStayInPipes(f: Callback, text: string, p: nat)
    requires Hides(f) && p <= |ReplaceAll(f, text)|
    ensures DriveAt(ReplaceAll(f, text)[p..]) ==> InOnePipe(f, text, p, 3)
    ensures ExtendedAt(ReplaceAll(f, text)[p..]) ==> InOnePipe(f, text, p, 4)
    decreases |text|
  {
    if text != "" {
      Pieces(f, text);
      var n, rest := |Piece(f, text)|, Remaining(text);
      if p < n {
        PrefixInPiece(f, text, p);
      } else {
        OutputFurtherOn(f, text, p);
        PrefixesStayInPipes(f, rest, p - n);
      }
    }
  }

  // ------------------------------------------------------------------------------
  // Word by word
  // ------------------------------------------------------------------------------

  predicate SpaceFirst(s: string) {
    s != "" && IsSpace(s[0])
  }

  lemma {:induction false} HostStopsAtSpace(a: string, b: string)
    requires SpaceFirst(b)
    ensures HostLength(a + b) == HostLength(a)
  {
    if a == "" {
      assert a + b == b;
    } else {
      assert (a + b)[1..] == a[1..] + b;
      HostStopsAtSpace(a[1..], b);
    }
  }

  lemma {:induction false} TailStopsAtSpace(a: string, b: string)
    requires SpaceFirst(b)
    ensures TailLength(a + b) == TailLength(a)
  {
    if a == "" {
      assert a + b == b;
    } else {
      assert (a + b)[1..] == a[1..] + b;
      TailStopsAtSpace(a[1..], b);
    }
  }

  lemma HostAtStopsAtSpace(a: string, b: string)
    requires SpaceFirst(b)
    ensures HostAt(a + b) <==> HostAt(a)
  {
    HostStopsAtSpace(a, b);
    var h := HostLength(a);
    assert (a + b)[h] == if h < |a| then a[h] else b[0];
  }

  lemma UncStopsAtSpace(a: string, b: string)
    requires |a| >= 2 && SpaceFirst(b)
    ensures UncAt(a + b) <==> UncAt(a)
    ensures HostLength((a + b)[2..]) == HostLength(a[2..])
  {
    assert (a + b)[2..] == a[2..] + b;
    HostStopsAtSpace(a[2..], b);
    HostAtStopsAtSpace(a[2..], b);
  }

  lemma PrefixStopsAtSpace(a: string, b: string)
    requires a != "" && SpaceFirst(b)
    ensures PrefixLength(a + b) == PrefixLength(a)
  {
    assert forall i :: 0 <= i < |a| ==> (a + b)[i] == a[i];
    assert (a + b)[|a|] == b[0];
    if |a| >= 2 {
      UncStopsAtSpace(a, b);
    }
  }

  lemma MatchStopsAtSpace(a: string, b: string)
    requires a != "" && SpaceFirst(b)
    ensures MatchLength(a + b) == MatchLength(a)
  {
    PrefixStopsAtSpace(a, b);
    var n := PrefixLength(a);
    assert (a + b)[n..] == a[n..] + b;
    TailStopsAtSpace(a[n..], b);
  }

  lemma SplitsAt(a: string, b: string, n: nat)
    requires n <= |a|
    ensures (a + b)[..n] == a[..n] && (a + b)[n..] == a[n..] + b
  {
  }

  lemma FirstPiece(f: Callback, a: string, b: string)
    requires a != "" && SpaceFirst(b)
    ensures Piece(f, a + b) == Piece(f, a) && Remaining(a + b) == Remaining(a) + b
  {
    MatchStopsAtSpace(a, b);
    SplitsAt(a, b, if MatchLength(a) > 0 then MatchLength(a) else 1);
  }

  lemma PieceByPiece(f: Callback, text: string)
    requires text != ""
    ensures ReplaceAll(f, text) == Piece(f, text) + ReplaceAll(f, Remaining(text))
  {
  }

  /** A text that begins with a match is the match and what follows it. */
  lemma FirstMatch(f: Callback, text: string) returns (m: string, rest: string)
    requires PrefixLength(text) > 0
    ensures text == m + rest && m != "" && |m| == MatchLength(text) && Ended(rest)
    ensures ReplaceAll(f, text) == f(m) + ReplaceAll(f, rest)
  {
    m, rest := text[..MatchLength(text)], text[MatchLength(text)..];
    MatchIsEnded(text);
  }

  lemma Glue(whole: string, piece: string, rest: string, more: string, left: string)
    requires whole == piece + (rest + more) && left == piece + rest
    ensures whole == left + more
  {
  }

  lemma WordStep(f: Callback, a: string, b: string, replaced: string)
    requires a != "" && SpaceFirst(b)
    requires ReplaceAll(f, Remaining(a) + b) == ReplaceAll(f, Remaining(a)) + replaced
    ensures ReplaceAll(f, a + b) == ReplaceAll(f, a) + replaced
  {
    PieceByPiece(f, a);
    PieceByPiece(f, a + b);
    FirstPiece(f, a, b);
    Glue(ReplaceAll(f, a + b), Piece(f, a), ReplaceAll(f, Remaining(a)), replaced, ReplaceAll(f, a));
  }

  /** Nothing reaches across whitespace: each side is replaced as if the other were not there. */
  lemma {:induction false} ReplacesWordByWord(f: Callback, a: string, b: string)
    requires SpaceFirst(b)
    ensures ReplaceAll(f, a + b) == ReplaceAll(f, a) + ReplaceAll(f, b)
    decreases |a|
  {
    if a == "" {
      Glue(ReplaceAll(f, b), "", "", ReplaceAll(f, b), "");
      assert a + b == b && ReplaceAll(f, a) == "";
    } else {
      ReplacesWordByWord(f, Remaining(a), b);
      WordStep(f, a, b, ReplaceAll(f, b));
    }
  }

  // ------------------------------------------------------------------------------
  // A path and the punctuation after it
  // ------------------------------------------------------------------------------

  lemma {:induction false} HostKept(a: string, b: string)
    requires HostLength(a) < |a|
    ensures HostLength(a + b) == HostLength(a)
  {
    if !IsSeparator(a[0]) && !IsSpace(a[0]) {
      assert (a + b)[1..] == a[1..] + b;
      HostKept(a[1..], b);
    }
  }

  lemma PrefixKept(a: string, b: string)
    requires PrefixLength(a) > 0
    ensures PrefixLength(a + b) == PrefixLength(a)
  {
    assert forall i :: 0 <= i < |a| ==> (a + b)[i] == a[i];
    if UncAt(a) {
      assert (a + b)[2..] == a[2..] + b;
      HostKept(a[2..], b);
    }
  }

  lemma {:induction false} TailJoins(a: string, b: string)
    requires TailLength(a) == |a|
    ensures TailLength(a + b) == |a| + TailLength(b)
  {
    if a == "" {
      assert a + b == b;
    } else {
      assert (a + b)[1..] == a[1..] + b;
      TailJoins(a[1..], b);
    }
  }

  lemma {:induction false} TailStops(a: string, rest: string)
    requires TailLength(a) == |a| && Ended(rest)
    ensures TailLength(a + rest) == |a|
  {
    if a == "" {
      assert a + rest == rest;
    } else {
      assert (a + rest)[1..] == a[1..] + rest;
      TailStops(a[1..], rest);
    }
  }

  /** A path that is all one match stays one match as its tail grows. */
  lemma MatchGrows(path: string, more: string)
    requires 0 < MatchLength(path) == |path| && TailLength(more) == |more|
    ensures MatchLength(path + more) == |path + more|
  {
    PrefixKept(path, more);
    SplitsAt(path, more, PrefixLength(path));
    TailJoins(path[PrefixLength(path)..], more);
  }
}
