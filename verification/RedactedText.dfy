/** A text with each match of the scan replaced by its rendering
    (`redactPathsIn` of `apps/desktop/src/redactPath.ts`). */
module RedactedText {
  import opened PathScanner
  import opened RedactedPath
  import opened ReplacementLaws
  import opened ReplacedTwice

  predicate IsPunctuation(c: char) {
    c == '.' || c == ',' || c == ';' || c == ':' || c == '!' || c == '?' || c == ')' || c == ']' || c == '}'
  }

  /** Where the punctuation that ends the sentence begins. */
  function TrimmedLength(m: string): (n: nat)
    ensures n <= |m|
    ensures forall i :: n <= i < |m| ==> IsPunctuation(m[i])
    ensures n > 0 ==> !IsPunctuation(m[n - 1])
    decreases |m|
  {
    if m == "" || !IsPunctuation(m[|m| - 1]) then |m| else TrimmedLength(m[..|m| - 1])
  }

  function Replacement(m: string): string {
    if IsPipe(m) then m else RedactPath(m[..TrimmedLength(m)]) + m[TrimmedLength(m)..]
  }

  function RedactPathsIn(text: string): string {
    ReplaceAll(Replacement, text)
  }

  lemma EndingIs(m: string, n: nat)
    requires n <= |m| && forall i :: n <= i < |m| ==> IsPunctuation(m[i])
    ensures forall c :: c in m[n..] ==> IsPunctuation(c)
  {
  }

  lemma ReplacedIsOpaque(m: string)
    requires !IsPipe(m)
    ensures Opaque(Replacement(m))
  {
    var n := TrimmedLength(m);
    NoSeparatorSurvives(m[..n]);
    EndingIs(m, n);
    OpaqueThenPlain(RedactPath(m[..n]), m[n..]);
  }

  lemma OpaqueThenPlain(path: string, trailing: string)
    requires |path| >= 17 && forall c :: c in path ==> !IsSeparator(c)
    requires forall c :: c in trailing ==> IsPunctuation(c)
    ensures Opaque(path + trailing)
  {
    forall i | 0 <= i < |path + trailing|
      ensures !IsSeparator((path + trailing)[i])
    {
      assert (path + trailing)[i] in path || (path + trailing)[i] in trailing;
    }
  }

  lemma ReplacementHides()
    ensures Hides(Replacement)
  {
    forall m
      ensures if IsPipe(m) then Replacement(m) == m else Opaque(Replacement(m))
    {
      if !IsPipe(m) {
        ReplacedIsOpaque(m);
      }
    }
  }

  // ------------------------------------------------------------------------------
  // What no report can contain
  // ------------------------------------------------------------------------------

  lemma SolidParts(a: string, b: string)
    requires Solid(a + b)
    ensures Solid(a) && Solid(b)
  {
    assert forall i :: 0 <= i < |a| ==> a[i] == (a + b)[i];
    assert forall i :: 0 <= i < |b| ==> b[i] == (a + b)[|a| + i];
  }

  lemma HexIsSolid(digest: string)
    requires IsHex(digest)
    ensures Solid(digest)
  {
    assert forall i :: 0 <= i < |digest| ==> digest[i] in digest;
  }

  lemma SolidJoins(a: string, b: string)
    requires Solid(a) && Solid(b)
    ensures Solid(a + b)
  {
  }

  lemma FileNameIsSolid(path: string)
    requires Solid(path)
    ensures Solid(Sanitise(FileNameOf(path)))
  {
    var directories := FileNameIsLastComponent(path);
    SolidParts(directories, FileNameOf(path));
    SanitisedIsClean(FileNameOf(path));
  }

  lemma RenderingIsSolid(path: string)
    requires Solid(path)
    ensures Solid(RedactPath(path))
  {
    FileNameIsSolid(path);
    RenderingShape(path);
    HexIsSolid(DigestText(PathDigest(path)));
    SolidJoins(Sanitise(FileNameOf(path)), "#");
    SolidJoins(Sanitise(FileNameOf(path)) + "#", DigestText(PathDigest(path)));
  }

  lemma ReplacementIsSolid(m: string)
    requires Solid(m)
    ensures Solid(Replacement(m))
  {
    var n := TrimmedLength(m);
    assert m == m[..n] + m[n..];
    SolidParts(m[..n], m[n..]);
    RenderingIsSolid(m[..n]);
    SolidJoins(RedactPath(m[..n]), m[n..]);
  }

  lemma ReplacementAddsNoSpace()
    ensures AddsNoSpace(Replacement)
  {
    forall m | Solid(m)
      ensures Solid(Replacement(m))
    {
      ReplacementIsSolid(m);
    }
  }

  /** Every drive-letter prefix and every extended prefix that is left in redacted text lies wholly
      inside the name of one pipe, copied as it stood. */
  lemma OnlyPipesKeepPrefixes(text: string, p: nat)
    requires p <= |RedactPathsIn(text)|
    ensures DriveAt(RedactPathsIn(text)[p..]) ==> InOnePipe(Replacement, text, p, 3)
    ensures ExtendedAt(RedactPathsIn(text)[p..]) ==> InOnePipe(Replacement, text, p, 4)
  {
    ReplacementHides();
    PrefixesStayInPipes(Replacement, text, p);
  }

  /** And this is the pipe: a match of the text, in the output whole, with the prefix in it. */
  lemma ThePipeOfPrefix(text: string, p: nat, n: nat) returns (found: Found)
    requires p <= |RedactPathsIn(text)|
    requires (n == 3 && DriveAt(RedactPathsIn(text)[p..])) || (n == 4 && ExtendedAt(RedactPathsIn(text)[p..]))
    ensures PipeFound(found, text, RedactPathsIn(text))
    ensures |found.ahead| <= p && p + n <= |found.ahead| + |found.pipe|
  {
    ReplacementHides();
    OnlyPipesKeepPrefixes(text, p);
    found := ThePipe(Replacement, text, p, n);
  }

  /** So does the beginning of every UNC prefix, exactly when the text revives none. */
  lemma OnlyPipesBeginUncPrefixes(text: string)
    ensures (forall p :: !UncOutside(Replacement, text, p)) <==> !Revives(text)
  {
    ReplacementHides();
    ReplacementAddsNoSpace();
    UncPrefixesBeginInPipes(Replacement, text);
  }

  /** And then, and only then, redacting again finds nothing more to do. */
  lemma RedactedOnceIsRedacted(text: string)
    ensures RedactPathsIn(RedactPathsIn(text)) == RedactPathsIn(text) <==> !Revives(text)
  {
    ReplacementHides();
    ReplacementAddsNoSpace();
    ReplacingTwice(Replacement, text);
  }

  // ------------------------------------------------------------------------------
  // Sentences
  // ------------------------------------------------------------------------------

  lemma CopiesOne(c: char, s: string)
    requires PrefixLength([c] + s) == 0
    ensures RedactPathsIn([c] + s) == [c] + RedactPathsIn(s)
  {
  }

  /** A sentence is redacted word by word: whitespace stays, and every word between is redacted
      as if it stood alone. */
  lemma RedactsWordByWord(a: string, space: char, b: string)
    requires IsSpace(space)
    ensures RedactPathsIn(a + ([space] + b)) == RedactPathsIn(a) + ([space] + RedactPathsIn(b))
  {
    ReplacesWordByWord(Replacement, a, [space] + b);
    CopiesOne(space, b);
  }

  lemma {:induction false} PunctuationIsTail(stops: string)
    requires forall c :: c in stops ==> IsPunctuation(c)
    ensures TailLength(stops) == |stops|
  {
    if stops != "" {
      assert stops[0] in stops && forall c :: c in stops[1..] ==> c in stops;
      PunctuationIsTail(stops[1..]);
    }
  }

  lemma {:induction false} TrimsWhatFollows(path: string, stops: string)
    requires forall c :: c in stops ==> IsPunctuation(c)
    requires path != "" && !IsPunctuation(path[|path| - 1])
    ensures TrimmedLength(path + stops) == |path|
    decreases |stops|
  {
    if stops == "" {
      assert path + stops == path;
    } else {
      var n := |stops| - 1;
      assert stops[n] in stops && forall c :: c in stops[..n] ==> c in stops;
      assert (path + stops)[..|path| + n] == path + stops[..n];
      TrimsWhatFollows(path, stops[..n]);
    }
  }

  lemma StopsMakeNoPipe(path: string, stops: string)
    requires forall c :: c in stops ==> IsPunctuation(c)
    requires !IsPipe(path)
    ensures !IsPipe(path + stops)
  {
    if |path| <= 8 < |path + stops| {
      assert (path + stops)[8] in stops;
    }
  }

  /** The punctuation that ends a sentence is neither digested nor lost: a path that is all one match is
      rendered the same with it and without. */
  lemma PunctuationStaysOut(path: string, stops: string)
    requires 0 < MatchLength(path) == |path| && !IsPipe(path) && !IsPunctuation(path[|path| - 1])
    requires forall c :: c in stops ==> IsPunctuation(c)
    ensures RedactPathsIn(path + stops) == RedactPath(path) + stops
  {
    PunctuationIsTail(stops);
    MatchGrows(path, stops);
    TrimsWhatFollows(path, stops);
    StopsMakeNoPipe(path, stops);
    var all := path + stops;
    assert all[..|all|] == all && all[|all|..] == "";
    assert all[..|path|] == path && all[|path|..] == stops;
    assert Replacement(all) == RedactPath(path) + stops;
    assert RedactPathsIn(all) == Replacement(all) + RedactPathsIn("");
  }

  // ------------------------------------------------------------------------------
  // A prefix that comes back
  // ------------------------------------------------------------------------------

  /** A doubled backslash in front of a path that begins with one, and a quoted word after it that
      has a slash: what is left reads as a UNC path, and is redacted the second time round. */
  lemma AUncPrefixCanSurvive(text: string)
    requires text == "\\\\" + ("\\\\?\\a" + "\"b/")
    ensures UncAt(RedactPathsIn(text)) && RedactPathsIn(RedactPathsIn(text)) != RedactPathsIn(text)
  {
    ReplacementHides();
    ReplacementAddsNoSpace();
    RevivedByQuote(text);
    RevivesHereExactly(Replacement, text);
    RedactedOnceIsRedacted(text);
  }

  lemma RevivedByQuote(text: string)
    requires text == "\\\\" + ("\\\\?\\a" + "\"b/")
    ensures MatchLength(text) == 0 && RevivesHere(text) && Revives(text)
  {
    assert text[2..] == "\\\\?\\a" + "\"b/";
    PathThenQuote(text[2..]);
    TwoAreCopied(Replacement, text);
  }

  lemma PathThenQuote(s: string)
    requires s == "\\\\?\\a" + "\"b/"
    ensures HostLeft(s)
  {
    assert s[4..] == "a\"b/" && s[4..][1..] == "\"b/";
    assert TailLength(s[4..]) == 1;
    assert MatchLength(s) == 5 && !PieceIsPipe(s);
    assert Remaining(s) == "\"b/";
    QuoteThenSlash(Remaining(s));
  }

  lemma QuoteThenSlash(s: string)
    requires s == "\"b/"
    ensures HostLeft(s)
  {
    assert s[1..] == "b/" && s[1..][1..] == "/";
    assert SeparatorLeft(s[1..][1..]);
  }
}
