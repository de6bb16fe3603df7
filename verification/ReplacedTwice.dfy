/** When what a global replace leaves can be taken for a path: exactly when the text has, at a place
    the scan copies, four backslashes and then a host, in which paths count as their renderings.

    The third and fourth backslashes begin a path; its rendering has no separator, so the first two
    then stand in front of a host. */
module ReplacedTwice {
  import opened PathScanner
  import opened ReplacementLaws

  // ------------------------------------------------------------------------------
  // Hosts in the output
  // ------------------------------------------------------------------------------

  /** A separator at the front of `s` that is in the output too: copied, or a pipe's. */
  predicate SeparatorLeft(s: string) {
    s != "" && IsSeparator(s[0]) && (MatchLength(s) > 0 ==> PieceIsPipe(s))
  }

  /** The output of `s` begins with a host and its separator, said of `s`. */
  predicate HostLeft(s: string)
    decreases |s|
  {
    s != "" &&
    if MatchLength(s) > 0 then !PieceIsPipe(s) && HostLeft(Remaining(s))
    else IsHost(s[0]) && (SeparatorLeft(s[1..]) || HostLeft(s[1..]))
  }

  predicate AllHost(s: string) {
    forall i :: 0 <= i < |s| ==> IsHost(s[i])
  }

  lemma {:induction false} TailIsSolid(s: string)
    ensures Solid(s[..TailLength(s)])
  {
    if s != "" && !Ends(s[0]) {
      TailIsSolid(s[1..]);
      assert s[..TailLength(s)] == [s[0]] + s[1..][..TailLength(s[1..])];
    }
  }

  lemma {:induction false} HostIsSolid(s: string)
    ensures Solid(s[..HostLength(s)])
  {
    if s != "" && IsHost(s[0]) {
      HostIsSolid(s[1..]);
      assert s[..HostLength(s)] == [s[0]] + s[1..][..HostLength(s[1..])];
    }
  }

  lemma PrefixIsSolid(s: string)
    ensures Solid(s[..PrefixLength(s)])
  {
    if PrefixLength(s) > 4 || UncAt(s) {
      var n := HostLength(s[2..]);
      HostIsSolid(s[2..]);
      assert s[..3 + n] == ['\\', '\\'] + s[2..][..n] + [s[2..][n]];
    }
  }

  /** A match has no white space in it. */
  lemma MatchIsSolid(s: string)
    requires MatchLength(s) > 0
    ensures Solid(s[..MatchLength(s)])
  {
    var n := PrefixLength(s);
    PrefixIsSolid(s);
    TailIsSolid(s[n..]);
    assert s[..MatchLength(s)] == s[..n] + s[n..][..TailLength(s[n..])];
  }

  /** So what stands in for one could all be a host. */
  lemma ReplacedIsHost(f: Callback, text: string)
    requires Hides(f) && AddsNoSpace(f) && text != "" && MatchLength(text) > 0 && !PieceIsPipe(text)
    ensures Opaque(Piece(f, text)) && AllHost(Piece(f, text))
  {
    MatchIsSolid(text);
    assert Opaque(f(text[..MatchLength(text)]));
    assert Solid(f(text[..MatchLength(text)]));
  }

  lemma {:induction false} HostThrough(r: string, rest: string)
    requires r != "" && AllHost(r)
    ensures HostAt(r + rest) <==> rest != "" && (IsSeparator(rest[0]) || HostAt(rest))
  {
    assert r + rest == [r[0]] + (r[1..] + rest);
    HostStep(r[0], r[1..] + rest);
    if |r| == 1 {
      assert r[1..] + rest == rest;
    } else {
      HostThrough(r[1..], rest);
    }
  }

  lemma SeparatorLeftExactly(f: Callback, s: string)
    requires Hides(f)
    ensures SeparatorLeft(s) <==> ReplaceAll(f, s) != "" && IsSeparator(ReplaceAll(f, s)[0])
  {
    if s != "" {
      Pieces(f, s);
      assert Piece(f, s)[0] == ReplaceAll(f, s)[0];
    }
  }

  lemma NoHostAtSeparator(o: string)
    requires o != "" && IsSeparator(o[0])
    ensures !HostAt(o)
  {
  }

  lemma {:induction false} HostLeftExactly(f: Callback, s: string)
    requires Hides(f) && AddsNoSpace(f)
    ensures HostLeft(s) <==> HostAt(ReplaceAll(f, s))
    decreases |s|
  {
    if s != "" {
      Pieces(f, s);
      var rest := ReplaceAll(f, Remaining(s));
      HostLeftExactly(f, Remaining(s));
      if PieceIsPipe(s) {
        NoHostAtSeparator(ReplaceAll(f, s));
      } else if MatchLength(s) > 0 {
        ReplacedIsHost(f, s);
        HostThrough(Piece(f, s), rest);
      } else {
        HostStep(s[0], rest);
        SeparatorLeftExactly(f, s[1..]);
      }
    }
  }

  // ------------------------------------------------------------------------------
  // Where a UNC prefix comes back
  // ------------------------------------------------------------------------------

  predicate RevivesHere(text: string) {
    FourBackslashesAt(text) && HostLeft(text[2..])
  }

  /** Somewhere the scan copies there are four backslashes, the last two the beginning of a host. */
  predicate Revives(text: string)
    decreases |text|
  {
    text != "" && (RevivesHere(text) || Revives(Remaining(text)))
  }

  /** The first two of four backslashes are copied. */
  lemma TwoAreCopied(f: Callback, text: string)
    requires FourBackslashesAt(text)
    ensures MatchLength(text) == 0
    ensures ReplaceAll(f, text) == ['\\'] + (['\\'] + ReplaceAll(f, text[2..]))
  {
    assert text[1..][1..] == text[2..];
    assert !UncAt(text) && !UncAt(text[1..]);
    assert MatchLength(text[1..]) == 0;
  }

  lemma RevivesHereExactly(f: Callback, text: string)
    requires Hides(f) && AddsNoSpace(f) && text != "" && MatchLength(text) == 0
    ensures RevivesHere(text) <==> UncAt(ReplaceAll(f, text))
  {
    CopiedStartsNothing(f, text);
    if FourBackslashesAt(text) {
      TwoAreCopied(f, text);
      HostLeftExactly(f, text[2..]);
      assert ReplaceAll(f, text)[2..] == ReplaceAll(f, text[2..]);
    }
  }

  /** A piece that is no pipe begins no prefix at any of its characters, unless a prefix comes back. */
  lemma PieceIsQuiet(f: Callback, text: string, p: nat)
    requires Hides(f) && AddsNoSpace(f) && text != "" && !PieceIsPipe(text) && !RevivesHere(text) && p < |Piece(f, text)|
    ensures p <= |ReplaceAll(f, text)| && PrefixLength(ReplaceAll(f, text)[p..]) == 0
  {
    Pieces(f, text);
    PieceStartsNothing(f, text, p);
    if MatchLength(text) == 0 {
      RevivesHereExactly(f, text);
      assert ReplaceAll(f, text)[p..] == ReplaceAll(f, text);
    } else {
      ReplacedStartsNothing(Piece(f, text), ReplaceAll(f, Remaining(text)), p);
    }
  }

  /** A UNC prefix begins at `p` of the output, outside every pipe's name. */
  predicate UncOutside(f: Callback, text: string, p: nat) {
    p <= |ReplaceAll(f, text)| && UncAt(ReplaceAll(f, text)[p..]) && !InOnePipe(f, text, p, 1)
  }

  lemma {:induction false} OutsideOnlyWhenRevived(f: Callback, text: string, p: nat)
    requires Hides(f) && AddsNoSpace(f) && UncOutside(f, text, p)
    ensures Revives(text)
    decreases |text|
  {
    Pieces(f, text);
    if p < |Piece(f, text)| {
      if !RevivesHere(text) {
        PieceIsQuiet(f, text, p);
      }
    } else {
      OutputFurtherOn(f, text, p);
      OutsideOnlyWhenRevived(f, Remaining(text), p - |Piece(f, text)|);
    }
  }

  lemma {:induction false} RevivedIsOutside(f: Callback, text: string) returns (p: nat)
    requires Hides(f) && AddsNoSpace(f) && Revives(text)
    ensures UncOutside(f, text, p)
    decreases |text|
  {
    Pieces(f, text);
    if RevivesHere(text) {
      TwoAreCopied(f, text);
      RevivesHereExactly(f, text);
      assert ReplaceAll(f, text)[0..] == ReplaceAll(f, text);
      p := 0;
    } else {
      p := RevivedIsOutside(f, Remaining(text));
      p := p + |Piece(f, text)|;
      OutputFurtherOn(f, text, p);
    }
  }

  /** A UNC prefix may run on past a quote, so it can leave the pipe it begins in; but every one of
      them begins in one, exactly when the text revives none. */
  lemma UncPrefixesBeginInPipes(f: Callback, text: string)
    requires Hides(f) && AddsNoSpace(f)
    ensures (forall p :: !UncOutside(f, text, p)) <==> !Revives(text)
  {
    forall p | UncOutside(f, text, p)
      ensures Revives(text)
    {
      OutsideOnlyWhenRevived(f, text, p);
    }
    if Revives(text) {
      var p := RevivedIsOutside(f, text);
    }
  }

  // ------------------------------------------------------------------------------
  // Replacing twice
  // ------------------------------------------------------------------------------

  lemma {:induction false} TailIsTail(s: string)
    ensures TailLength(s[..TailLength(s)]) == TailLength(s)
  {
    if s != "" && !Ends(s[0]) {
      TailIsTail(s[1..]);
      assert s[..TailLength(s)][1..] == s[1..][..TailLength(s[1..])];
    }
  }

  lemma PipePrefix(m: string)
    requires IsPipe(m)
    ensures PrefixLength(m) == 4
  {
    assert m[2..][1..] == m[3..];
    assert HostLength(m[3..]) == 0;
    assert HostLength(m[2..]) == 1;
  }

  /** A pipe followed by what ended it is matched again, as far as it goes. */
  lemma PipeMatchesAgain(text: string, rest: string)
    requires MatchLength(text) > 0 && IsPipe(text[..MatchLength(text)]) && Ended(rest)
    ensures MatchLength(text[..MatchLength(text)] + rest) == MatchLength(text)
  {
    var m := text[..MatchLength(text)];
    PipePrefix(text);
    PipePrefix(m + rest);
    TailIsTail(text[4..]);
    assert m[4..] == text[4..][..TailLength(text[4..])];
    TailStops(m[4..], rest);
    assert (m + rest)[4..] == m[4..] + rest;
  }

  predicate StartsNothing(o: string, p: nat, k: nat)
    requires p <= k <= |o|
    decreases k - p
  {
    p == k || (PrefixLength(o[p..]) == 0 && StartsNothing(o, p + 1, k))
  }

  lemma CopyStep(f: Callback, t: string)
    requires t != "" && PrefixLength(t) == 0
    ensures ReplaceAll(f, t) == [t[0]] + ReplaceAll(f, t[1..])
  {
  }

  /** What starts nothing is copied. */
  lemma {:induction false} CopiedThrough(f: Callback, o: string, p: nat, k: nat)
    requires p <= k <= |o| && StartsNothing(o, p, k)
    ensures ReplaceAll(f, o[p..]) == o[p..k] + ReplaceAll(f, o[k..])
    decreases k - p
  {
    if p < k {
      CopyStep(f, o[p..]);
      CopiedThrough(f, o, p + 1, k);
      DropOne(o, p, k, ReplaceAll(f, o[k..]));
    }
  }

  lemma DropOne(o: string, p: nat, k: nat, after: string)
    requires p < k <= |o|
    ensures o[p..][0] == o[p] && o[p..][1..] == o[p + 1..]
    ensures [o[p]] + (o[p + 1..k] + after) == o[p..k] + after
  {
  }

  lemma {:induction false} PieceStartsQuiet(f: Callback, text: string, p: nat)
    requires Hides(f) && AddsNoSpace(f) && text != "" && !PieceIsPipe(text) && !RevivesHere(text) && p <= |Piece(f, text)|
    ensures |Piece(f, text)| <= |ReplaceAll(f, text)| && StartsNothing(ReplaceAll(f, text), p, |Piece(f, text)|)
    decreases |Piece(f, text)| - p
  {
    Pieces(f, text);
    if p < |Piece(f, text)| {
      PieceIsQuiet(f, text, p);
      PieceStartsQuiet(f, text, p + 1);
    }
  }

  lemma PieceAgain(f: Callback, text: string)
    requires Hides(f) && AddsNoSpace(f) && text != "" && !RevivesHere(text)
    ensures ReplaceAll(f, ReplaceAll(f, text)) == Piece(f, text) + ReplaceAll(f, ReplaceAll(f, Remaining(text)))
  {
    Pieces(f, text);
    var piece, rest := Piece(f, text), ReplaceAll(f, Remaining(text));
    assert (piece + rest)[..|piece|] == piece && (piece + rest)[|piece|..] == rest;
    if PieceIsPipe(text) {
      PipeMatchesAgain(text, rest);
    } else {
      PieceStartsQuiet(f, text, 0);
      CopiedThrough(f, piece + rest, 0, |piece|);
      assert (piece + rest)[0..] == piece + rest;
    }
  }

  /** What comes back is replaced: it is no pipe, because a rendering follows its backslashes. */
  lemma RevivedIsReplaced(f: Callback, text: string)
    requires Hides(f) && AddsNoSpace(f) && RevivesHere(text)
    ensures ReplaceAll(f, ReplaceAll(f, text)) != ReplaceAll(f, text)
  {
    var o := ReplaceAll(f, text);
    TwoAreCopied(f, text);
    RevivesHereExactly(f, text);
    Pieces(f, text[2..]);
    ReplacedIsHost(f, text[2..]);
    assert o[3] == Piece(f, text[2..])[1];
    assert !IsPipe(o[..MatchLength(o)]);
    assert Opaque(f(o[..MatchLength(o)]));
    assert ReplaceAll(f, o)[0] == f(o[..MatchLength(o)])[0];
  }

  lemma SameFront(piece: string, a: string, b: string)
    ensures piece + a == piece + b <==> a == b
  {
    if piece + a == piece + b {
      assert a == (piece + a)[|piece|..] && b == (piece + b)[|piece|..];
    }
  }

  /** Replacing again changes nothing, exactly when the text revives no prefix. */
  lemma {:induction false} ReplacingTwice(f: Callback, text: string)
    requires Hides(f) && AddsNoSpace(f)
    ensures ReplaceAll(f, ReplaceAll(f, text)) == ReplaceAll(f, text) <==> !Revives(text)
    decreases |text|
  {
    if text != "" {
      if RevivesHere(text) {
        RevivedIsReplaced(f, text);
      } else {
        Pieces(f, text);
        PieceAgain(f, text);
        ReplacingTwice(f, Remaining(text));
        SameFront(Piece(f, text), ReplaceAll(f, ReplaceAll(f, Remaining(text))), ReplaceAll(f, Remaining(text)));
      }
    }
  }

  // ------------------------------------------------------------------------------
  // A condition that is easier to see
  // ------------------------------------------------------------------------------

  /** No four backslashes in a row anywhere. */
  predicate NoFourBackslashes(s: string) {
    s == "" || (!FourBackslashesAt(s) && NoFourBackslashes(s[1..]))
  }

  lemma {:induction false} NoFourFurtherOn(s: string, n: nat)
    requires NoFourBackslashes(s) && n <= |s|
    ensures NoFourBackslashes(s[n..])
  {
    if n > 0 {
      NoFourFurtherOn(s[1..], n - 1);
      assert s[1..][n - 1..] == s[n..];
    }
  }

  /** Text without four backslashes in a row revives nothing. */
  lemma {:induction false} NoFourReviveNothing(text: string)
    requires NoFourBackslashes(text)
    ensures !Revives(text)
    decreases |text|
  {
    if text != "" {
      NoFourFurtherOn(text, |text| - |Remaining(text)|);
      NoFourReviveNothing(Remaining(text));
    }
  }
}
