/** Which paths a sentence is rid of. A match ends at white space and at quoting characters, which a path
    may have inside it: what follows the first of them is read as if the path had ended there. */
module PathsInSentences {
  import opened Cutting
  import opened PathScanner
  import opened ReplacementLaws
  import opened RedactedPath
  import opened RedactedText
  import ReplacedTwice

  // ------------------------------------------------------------------------------
  // Paths that are redacted whole
  // ------------------------------------------------------------------------------

  /** Nothing in the path, behind what makes it absolute, ends a match. */
  predicate Unbroken(path: string) {
    forall i :: PrefixLength(path) <= i < |path| ==> !Ends(path[i])
  }

  lemma {:induction false} TailReaches(s: string)
    ensures TailLength(s) == |s| <==> forall i :: 0 <= i < |s| ==> !Ends(s[i])
  {
    if s != "" && !Ends(s[0]) {
      TailReaches(s[1..]);
      assert s == [s[0]] + s[1..];
    }
  }

  lemma UnbrokenExactly(path: string)
    requires PrefixLength(path) > 0
    ensures MatchLength(path) == |path| <==> Unbroken(path)
  {
    var n := PrefixLength(path);
    TailReaches(path[n..]);
    assert forall i :: n <= i < |path| ==> path[i] == path[n..][i - n];
    assert forall i :: 0 <= i < |path| - n ==> path[n..][i] == path[n + i];
  }

  lemma FirstHash(a: string, x: string, b: string, y: string)
    requires '#' !in a && '#' !in b && a + ("#" + x) == b + ("#" + y)
    ensures a == b && x == y
  {
    var s := a + ("#" + x);
    UpToFinds(a, '#', "#" + x);
    UpToFinds(b, '#', "#" + y);
    assert a == s[..|a|] && b == s[..|a|];
    assert x == s[|a| + 1..] && y == s[|a| + 1..];
  }

  /** A rendering can be told from whatever follows it. */
  lemma RenderingEnds(one: string, x: string, other: string, y: string)
    requires RedactPath(one) + x == RedactPath(other) + y
    ensures RedactPath(one) == RedactPath(other) && x == y
  {
    RenderingShape(one);
    RenderingShape(other);
    TakesApart(Sanitise(FileNameOf(one)), DigestText(PathDigest(one)), x,
               Sanitise(FileNameOf(other)), DigestText(PathDigest(other)), y);
  }

  lemma TakesApart(a: string, d: string, x: string, b: string, e: string, y: string)
    requires '#' !in a && '#' !in b && |d| == |e| && a + "#" + d + x == b + "#" + e + y
    ensures a + "#" + d == b + "#" + e && x == y
  {
    assert a + "#" + d + x == a + ("#" + (d + x)) && b + "#" + e + y == b + ("#" + (e + y));
    FirstHash(a, d + x, b, e + y);
    assert d == (d + x)[..|d|] && e == (e + y)[..|e|];
    assert x == (d + x)[|d|..] && y == (e + y)[|e|..];
  }

  lemma EndsIsCopied(s: string)
    requires Ended(s)
    ensures s != "" ==> RedactPathsIn(s) != "" && Ends(RedactPathsIn(s)[0])
    ensures s == "" ==> RedactPathsIn(s) == ""
  {
  }

  predicate AllPunctuation(s: string) {
    forall c :: c in s ==> IsPunctuation(c)
  }

  /** A path that begins a text, with the sentence's punctuation behind it, is redacted where it stands
      exactly when it has nothing in it that ends a match, is no pipe, and does not itself end in
      punctuation. */
  lemma RedactedWholeExactly(path: string, stops: string)
    requires PrefixLength(path) > 0 && AllPunctuation(stops)
    ensures RedactPathsIn(path + stops) == RedactPath(path) + stops
       <==> Unbroken(path) && !IsPipe(path) && !IsPunctuation(path[|path| - 1])
  {
    UnbrokenExactly(path);
    if Unbroken(path) && !IsPipe(path) && !IsPunctuation(path[|path| - 1]) {
      PunctuationStaysOut(path, stops);
    }
    if RedactPathsIn(path + stops) == RedactPath(path) + stops {
      MatchIsWhole(path, stops);
    }
  }

  /** What is redacted whole is one match, of which the punctuation behind the path is all that is trimmed. */
  lemma MatchIsWhole(path: string, stops: string)
    requires PrefixLength(path) > 0 && AllPunctuation(stops)
    requires RedactPathsIn(path + stops) == RedactPath(path) + stops
    ensures MatchLength(path) == |path| && !IsPipe(path) && !IsPunctuation(path[|path| - 1])
  {
    PrefixKept(path, stops);
    var m, rest := FirstMatch(Replacement, path + stops);
    NothingBehind(m, rest, path, stops);
    assert m + "" == m;
    OneMatch(path, stops);
  }

  lemma NothingBehind(m: string, rest: string, path: string, stops: string)
    requires m != "" && Ended(rest) && AllPunctuation(stops)
    requires Replacement(m) + RedactPathsIn(rest) == RedactPath(path) + stops
    ensures rest == "" && !IsPipe(m) && m[TrimmedLength(m)..] == stops
  {
    OnlyTrailing(m, RedactPathsIn(rest), path, stops);
    EndsIsCopied(rest);
    OnlyPunctuation(m[TrimmedLength(m)..], RedactPathsIn(rest), stops);
  }

  lemma OnlyTrailing(m: string, behind: string, path: string, stops: string)
    requires m != "" && Replacement(m) + behind == RedactPath(path) + stops
    ensures !IsPipe(m) && m[TrimmedLength(m)..] + behind == stops
  {
    NoPipe(m, behind, path, stops);
    var k := TrimmedLength(m);
    Regrouped(RedactPath(m[..k]), m[k..], behind);
    RenderingEnds(m[..k], m[k..] + behind, path, stops);
  }

  lemma Regrouped(a: string, b: string, c: string)
    ensures a + b + c == a + (b + c)
  {
  }

  lemma OneMatch(path: string, stops: string)
    requires PrefixLength(path) > 0 && PrefixLength(path + stops) == PrefixLength(path)
    requires MatchLength(path + stops) == |path + stops| && !IsPipe(path + stops)
    requires (path + stops)[TrimmedLength(path + stops)..] == stops
    ensures MatchLength(path) == |path| && !IsPipe(path) && !IsPunctuation(path[|path| - 1])
  {
    var all := path + stops;
    UnbrokenExactly(all);
    UnbrokenExactly(path);
    assert forall i :: 0 <= i < |path| ==> path[i] == all[i];
    assert TrimmedLength(all) == |path|;
  }

  lemma FrontOf(a: string, b: string)
    requires a != ""
    ensures a + b != "" && (a + b)[0] == a[0]
  {
  }

  /** A pipe is left as it is, and no rendering begins as one. */
  lemma NoPipe(m: string, behind: string, path: string, stops: string)
    requires m != "" && Replacement(m) + behind == RedactPath(path) + stops
    ensures !IsPipe(m)
  {
    NoSeparatorSurvives(path);
    FrontOf(RedactPath(path), stops);
    assert RedactPath(path)[0] in RedactPath(path);
    if IsPipe(m) {
      FrontOf(m, behind);
    }
  }

  /** Nothing that ends a match is punctuation. */
  lemma OnlyPunctuation(trailing: string, behind: string, stops: string)
    requires trailing + behind == stops && AllPunctuation(stops) && (behind != "" ==> Ends(behind[0]))
    ensures behind == "" && trailing == stops
  {
    if behind != "" {
      NotInside(trailing, behind, stops);
    }
  }

  lemma NotInside(trailing: string, behind: string, stops: string)
    requires trailing + behind == stops && behind != ""
    ensures behind[0] in stops
  {
    assert stops[|trailing|] == behind[0];
  }

  // ------------------------------------------------------------------------------
  // What is left of the others
  // ------------------------------------------------------------------------------

  /** A path goes on after something that ends a match, and what follows it is redacted on its own. */
  lemma CutShort(path: string, ending: char, rest: string)
    requires 0 < MatchLength(path) == |path| && Ends(ending)
    ensures RedactPathsIn(path + ([ending] + rest)) == Replacement(path) + ([ending] + RedactPathsIn(rest))
  {
    var all, more := path + ([ending] + rest), [ending] + rest;
    PrefixKept(path, more);
    SplitsAt(path, more, PrefixLength(path));
    TailStops(path[PrefixLength(path)..], more);
    SplitsAt(path, more, |path|);
    assert path[..|path|] == path && path[|path|..] + more == more;
    EndsStartsNothing(ending, rest);
    CopiesOne(ending, rest);
  }

  lemma EndsStartsNothing(ending: char, rest: string)
    requires Ends(ending)
    ensures PrefixLength([ending] + rest) == 0
  {
    assert ([ending] + rest)[0] == ending;
  }

  /** No path in a text but pipes. */
  predicate NothingToRedact(text: string)
    decreases |text|
  {
    text == "" || ((MatchLength(text) == 0 || PieceIsPipe(text)) && NothingToRedact(Remaining(text)))
  }

  /** A text is left as it is exactly when every match in it is a pipe. */
  lemma {:induction false} LeftAloneExactly(f: Callback, text: string)
    requires Hides(f)
    ensures ReplaceAll(f, text) == text <==> NothingToRedact(text)
    decreases |text|
  {
    if text != "" {
      Pieces(f, text);
      LeftAloneExactly(f, Remaining(text));
      var head := SplitsAtRemaining(text);
      if MatchLength(text) == 0 || PieceIsPipe(text) {
        assert Piece(f, text) == head;
        ReplacedTwice.SameFront(head, ReplaceAll(f, Remaining(text)), Remaining(text));
      } else {
        assert Opaque(Piece(f, text));
        SeparatorEarly(text);
        assert forall i :: 0 <= i < 3 ==> ReplaceAll(f, text)[i] == Piece(f, text)[i];
      }
    }
  }

  /** A match has a separator among its first three characters. */
  lemma SeparatorEarly(text: string)
    requires MatchLength(text) > 0
    ensures |text| >= 3 && (IsSeparator(text[0]) || IsSeparator(text[2]))
  {
  }

  /** Neither a colon nor two backslashes in a row: nothing that any path begins with. */
  predicate Plain(text: string) {
    && ':' !in text
    && forall i :: 0 <= i < |text| && text[i] == '\\' ==> i + 1 == |text| || text[i + 1] != '\\'
  }

  lemma {:induction false} PlainHasNothing(text: string)
    requires Plain(text)
    ensures NothingToRedact(text)
    decreases |text|
  {
    if text != "" {
      assert |text| > 1 ==> text[1] in text;
      assert MatchLength(text) == 0;
      assert forall i :: 0 <= i < |text| - 1 ==> text[1..][i] == text[i + 1];
      PlainHasNothing(text[1..]);
    }
  }

  /** So what follows the end of a match stands in the report as it was, directories and all. */
  lemma RestStays(path: string, ending: char, rest: string)
    requires 0 < MatchLength(path) == |path| && Ends(ending) && NothingToRedact(rest)
    ensures RedactPathsIn(path + ([ending] + rest)) == Replacement(path) + ([ending] + rest)
  {
    CutShort(path, ending, rest);
    ReplacementHides();
    LeftAloneExactly(Replacement, rest);
  }

  predicate Separated(s: string) {
    exists i :: 0 <= i < |s| && IsSeparator(s[i])
  }

  lemma SeparatedJoins(a: string, b: string)
    ensures Separated(a + b) <==> Separated(a) || Separated(b)
  {
    assert forall i :: 0 <= i < |a| ==> (a + b)[i] == a[i];
    assert forall i :: 0 <= i < |b| ==> (a + b)[|a| + i] == b[i];
    assert forall i :: |a| <= i < |a + b| ==> (a + b)[i] == b[i - |a|];
  }

  /** A path that goes on after something that ends a match, into other directories. */
  predicate Broken(path: string, ending: char, rest: string) {
    && DriveAt(path) && (forall i :: 3 <= i < |path| ==> !Ends(path[i])) && !IsPunctuation(path[|path| - 1])
    && Ends(ending)
    && Plain(rest) && Separated(rest)
  }

  /** Only what is in front of it is redacted, and the directories behind it stay. */
  lemma BrokenIsCutShort(path: string, ending: char, rest: string)
    requires Broken(path, ending, rest)
    ensures RedactPathsIn(path + ([ending] + rest)) == RedactPath(path) + ([ending] + rest)
    ensures Separated(RedactPathsIn(path + ([ending] + rest)))
  {
    PlainHasNothing(rest);
    RedactedOnItsOwn(path);
    RestStays(path, ending, rest);
    SeparatedJoins([ending], rest);
    SeparatedJoins(RedactPath(path), [ending] + rest);
  }

  lemma RedactedOnItsOwn(path: string)
    requires DriveAt(path) && (forall i :: 3 <= i < |path| ==> !Ends(path[i])) && !IsPunctuation(path[|path| - 1])
    ensures MatchLength(path) == |path| && Replacement(path) == RedactPath(path)
  {
    UnbrokenExactly(path);
    assert path[..|path|] == path && path[|path|..] == "";
  }

  /** As the path of a program of somebody whose account has a space in its name,
      `C:\Users\Al Smith\AppData\clipped-recorder.exe`. */
  lemma AnAccountWithASpace(account: string, rest: string)
    requires account == "C:\\Users\\Al" && rest == "Smith\\AppData\\clipped-recorder.exe"
    ensures Broken(account, ' ', rest)
  {
    SpelledPlainly(rest);
    assert IsSeparator(rest[5]);
    Unended(account);
  }

  lemma Unended(account: string)
    requires account == "C:\\Users\\Al"
    ensures DriveAt(account) && !IsPunctuation(account[|account| - 1])
    ensures forall i :: 3 <= i < |account| ==> !Ends(account[i])
  {
  }

  lemma SpelledPlainly(rest: string)
    requires rest == "Smith\\AppData\\clipped-recorder.exe"
    ensures Plain(rest)
  {
    assert forall i :: 0 <= i < |rest| && rest[i] == '\\' ==> i == 5 || i == 13;
  }

  // ------------------------------------------------------------------------------
  // Whether a directory can be left
  // ------------------------------------------------------------------------------

  /** A separator stands in the text outside every path but a pipe's. */
  predicate SeparatorCopied(text: string)
    decreases |text|
  {
    text != "" &&
    (PieceIsPipe(text) || (MatchLength(text) == 0 && IsSeparator(text[0])) || SeparatorCopied(Remaining(text)))
  }

  /** The output has a separator, and so a directory can be read off it, exactly when the scan copies
      one: behind the end of a match, in a relative path, or in a pipe. */
  lemma {:induction false} SeparatorsLeftExactly(f: Callback, text: string)
    requires Hides(f)
    ensures Separated(ReplaceAll(f, text)) <==> SeparatorCopied(text)
    decreases |text|
  {
    if text != "" {
      Pieces(f, text);
      SeparatedJoins(Piece(f, text), ReplaceAll(f, Remaining(text)));
      SeparatorsLeftExactly(f, Remaining(text));
      PieceSeparated(f, text);
    }
  }

  lemma PieceSeparated(f: Callback, text: string)
    requires Hides(f) && text != ""
    ensures Separated(Piece(f, text)) <==> PieceIsPipe(text) || (MatchLength(text) == 0 && IsSeparator(text[0]))
  {
    if PieceIsPipe(text) {
      assert IsSeparator(Piece(f, text)[0]);
    } else if MatchLength(text) > 0 {
      assert Opaque(Piece(f, text));
    } else if IsSeparator(text[0]) {
      assert IsSeparator(Piece(f, text)[0]);
    }
  }

  /** No directory component survives redaction exactly when no separator stands outside the paths. */
  lemma NoDirectoryLeftExactly(text: string)
    ensures !Separated(RedactPathsIn(text)) <==> !SeparatorCopied(text)
  {
    ReplacementHides();
    SeparatorsLeftExactly(Replacement, text);
  }
}
