/** Which texts are paths, character by character: what begins one, what ends one, what is left alone. */
module PathsSpelledOut {
  import opened PathScanner
  import opened ReplacementLaws
  import opened RedactedPath
  import opened RedactedText
  import opened PathsInSentences

  predicate Slash(c: char) {
    c == '\\' || c == '/'
  }

  /** The white space and the line ends of ECMAScript. */
  predicate White(c: char) {
    || 9 <= c as int <= 13 || c == ' ' || c as int == 0xa0 || c as int == 0xfeff
    || c as int == 0x1680 || (0x2000 <= c as int <= 0x200a) || c as int == 0x2028 || c as int == 0x2029
    || c as int == 0x202f || c as int == 0x205f || c as int == 0x3000
  }

  /** White space, and what is put round a path in a sentence. */
  predicate Ending(c: char) {
    White(c) || c == '"' || c == '\'' || c == '<' || c == '>' || c == '|'
  }

  /** What ends a sentence, or a bracket in one. */
  predicate Stop(c: char) {
    c == '.' || c == ',' || c == ';' || c == ':' || c == '!' || c == '?' || c == ')' || c == ']' || c == '}'
  }

  /** Nothing in it ends a path. */
  predicate Unended(t: string) {
    forall i :: 0 <= i < |t| ==> !Ending(t[i])
  }

  /** Nor does it stop with a sentence. */
  predicate Tail(t: string) {
    Unended(t) && (t != "" ==> !Stop(t[|t| - 1]))
  }

  predicate Letter(c: char) {
    'a' <= c <= 'z' || 'A' <= c <= 'Z'
  }

  // ------------------------------------------------------------------------------
  // The same, as the scanner has it
  // ------------------------------------------------------------------------------

  lemma SameCharacters(c: char)
    ensures Ends(c) <==> Ending(c)
    ensures IsSpace(c) <==> White(c)
    ensures IsPunctuation(c) <==> Stop(c)
  {
  }

  /** A path with a prefix, and a tail that does not end it, is rendered whole. */
  lemma RenderedWhole(path: string, n: nat)
    requires 0 < n == PrefixLength(path) && n <= |path| && !IsPipe(path)
    requires Tail(path[n..]) && (path[n..] == "" ==> !Stop(path[n - 1]))
    ensures RedactPathsIn(path) == RedactPath(path)
  {
    forall i | n <= i < |path|
      ensures !Ends(path[i])
    {
      SameCharacters(path[i]);
      assert path[i] == path[n..][i - n];
    }
    SameCharacters(path[|path| - 1]);
    assert path[n..] != "" ==> path[|path| - 1] == path[n..][|path[n..]| - 1];
    RedactedWholeExactly(path, "");
    assert path + "" == path && RedactPath(path) + "" == RedactPath(path);
  }

  // ------------------------------------------------------------------------------
  // What begins a path
  // ------------------------------------------------------------------------------

  predicate BeginsWith(o: string, c: char, slash: char) {
    |o| >= 3 && o[0] == c && o[1] == ':' && o[2] == slash
  }

  /** A letter, a colon and a slash of either kind begin a path, and no other character does. */
  lemma DrivesSpelledOut(c: char, slash: char, t: string)
    requires Slash(slash) && Tail(t) && (t != "" ==> t[0] != '\\')
    ensures RedactPathsIn([c, ':', slash] + t)
         == if Letter(c) then RedactPath([c, ':', slash] + t) else [c, ':', slash] + RedactPathsIn(t)
    ensures BeginsWith(RedactPathsIn([c, ':', slash] + t), c, slash) <==> !Letter(c)
  {
    if Letter(c) {
      DriveIsRendered(c, slash, t);
    } else {
      ThreeCopied(c, slash, t);
    }
  }

  lemma DriveIsRendered(c: char, slash: char, t: string)
    requires Letter(c) && Slash(slash) && Tail(t)
    ensures RedactPathsIn([c, ':', slash] + t) == RedactPath([c, ':', slash] + t)
    ensures !BeginsWith(RedactPathsIn([c, ':', slash] + t), c, slash)
  {
    var path := [c, ':', slash] + t;
    assert path[3..] == t;
    RenderedWhole(path, 3);
    NoSeparatorSurvives(path);
    NotInFront(RedactPath(path), c, slash);
  }

  lemma NotInFront(o: string, c: char, slash: char)
    requires |o| >= 17 && Slash(slash) && forall x :: x in o ==> !IsSeparator(x)
    ensures !BeginsWith(o, c, slash)
  {
    assert o[2] in o;
  }

  lemma SlashIsCopied(slash: char, t: string)
    requires Slash(slash) && (t != "" ==> t[0] != '\\')
    ensures RedactPathsIn([slash] + t) == [slash] + RedactPathsIn(t)
  {
    assert |[slash] + t| >= 2 ==> ([slash] + t)[1] == t[0];
    CopiesOne(slash, t);
  }

  lemma ColonIsCopied(rest: string)
    ensures RedactPathsIn([':'] + rest) == [':'] + RedactPathsIn(rest)
  {
    CopiesOne(':', rest);
  }

  lemma BeforeColonIsCopied(c: char, rest: string)
    requires !Letter(c)
    ensures RedactPathsIn([c] + ([':'] + rest)) == [c] + RedactPathsIn([':'] + rest)
  {
    CopiesOne(c, [':'] + rest);
  }

  lemma Regroups(c: char, slash: char, t: string)
    ensures [c, ':', slash] + t == [c] + ([':'] + ([slash] + t))
  {
  }

  lemma ThreeCopied(c: char, slash: char, t: string)
    requires Slash(slash) && !Letter(c) && (t != "" ==> t[0] != '\\')
    ensures RedactPathsIn([c, ':', slash] + t) == [c, ':', slash] + RedactPathsIn(t)
  {
    Regroups(c, slash, t);
    BeforeColonIsCopied(c, [slash] + t);
    ColonIsCopied([slash] + t);
    SlashIsCopied(slash, t);
    Regroups(c, slash, RedactPathsIn(t));
  }

  /** Two backslashes, a question mark and a slash of either kind begin one. */
  lemma ExtendedSpelledOut(slash: char, t: string)
    requires Slash(slash) && Tail(t)
    ensures RedactPathsIn(['\\', '\\', '?', slash] + t) == RedactPath(['\\', '\\', '?', slash] + t)
  {
    var path := ['\\', '\\', '?', slash] + t;
    assert path[4..] == t;
    RenderedWhole(path, 4);
  }

  /** Characters of a share's or a device's host. */
  predicate Host(host: string) {
    host != "" && forall i :: 0 <= i < |host| ==> !Slash(host[i]) && !White(host[i])
  }

  /** `pipe` in any case, and a slash of either kind. */
  predicate PipeName(t: string) {
    |t| >= 5 && t[0] in "pP" && t[1] in "iI" && t[2] in "pP" && t[3] in "eE" && Slash(t[4])
  }

  function Share(host: string, slash: char, t: string): string {
    ['\\', '\\'] + (host + ([slash] + t))
  }

  /** Two backslashes, a host and a slash of either kind begin one too, and it is left as it is exactly when
      it is a pipe. */
  lemma SharesSpelledOut(host: string, slash: char, t: string)
    requires Host(host) && Slash(slash) && Tail(t)
    ensures RedactPathsIn(Share(host, slash, t))
         == if host == "." && PipeName(t) then Share(host, slash, t) else RedactPath(Share(host, slash, t))
  {
    var path := Share(host, slash, t);
    ShareBegins(host, slash, t);
    PipesExactly(host, slash, t);
    if IsPipe(path) {
      UnendedIsOneMatch(path, t);
      PipeIsLeft(path);
    } else {
      RenderedWhole(path, PrefixLength(path));
    }
  }

  lemma PipeIsLeft(path: string)
    requires 0 < MatchLength(path) == |path| && IsPipe(path)
    ensures RedactPathsIn(path) == path
  {
    var m, rest := FirstMatch(Replacement, path);
    assert rest == "" && m + "" == m;
  }

  /** The recorder's pipes are left alone, whatever their names, and whatever they end in. */
  lemma PipesSpelledOut(slash: char, t: string)
    requires Slash(slash) && PipeName(t) && Unended(t)
    ensures RedactPathsIn(Share(".", slash, t)) == Share(".", slash, t)
  {
    ShareBegins(".", slash, t);
    PipesExactly(".", slash, t);
    UnendedIsOneMatch(Share(".", slash, t), t);
    PipeIsLeft(Share(".", slash, t));
  }

  lemma {:induction false} HostSpelledOut(host: string, slash: char, t: string)
    requires (forall i :: 0 <= i < |host| ==> !Slash(host[i]) && !White(host[i])) && Slash(slash)
    ensures HostLength(host + ([slash] + t)) == |host|
  {
    if host == "" {
      assert host + ([slash] + t) == [slash] + t;
    } else {
      SameCharacters(host[0]);
      assert (host + ([slash] + t))[1..] == host[1..] + ([slash] + t);
      HostSpelledOut(host[1..], slash, t);
    }
  }

  lemma ShareBegins(host: string, slash: char, t: string)
    requires Host(host) && Slash(slash)
    ensures PrefixLength(Share(host, slash, t)) == 3 + |host|
    ensures Share(host, slash, t)[3 + |host|..] == t && Share(host, slash, t)[2 + |host|] == slash
  {
    var path, rest := Share(host, slash, t), host + ([slash] + t);
    HostSpelledOut(host, slash, t);
    assert path[2..] == rest && rest[|host|] == slash;
    assert HostAt(rest) && UncAt(path);
    assert path[2] == host[0] && (if |host| > 1 then path[3] == host[1] else path[3] == slash);
    assert path[0] == '\\' && !DriveAt(path);
  }

  lemma PipesExactly(host: string, slash: char, t: string)
    requires Host(host) && Slash(slash)
    ensures IsPipe(Share(host, slash, t)) <==> host == "." && PipeName(t)
  {
    var path := Share(host, slash, t);
    assert path[2] == host[0];
    assert |host| > 1 ==> path[3] == host[1];
    if host == "." {
      assert forall i :: 0 <= i < |t| ==> path[4 + i] == t[i];
    }
  }

  lemma UnendedIsOneMatch(path: string, t: string)
    requires 0 < PrefixLength(path) <= |path| && path[PrefixLength(path)..] == t && Unended(t)
    ensures MatchLength(path) == |path|
  {
    forall i | PrefixLength(path) <= i < |path|
      ensures !Ends(path[i])
    {
      SameCharacters(path[i]);
      assert path[i] == t[i - PrefixLength(path)];
    }
    UnbrokenExactly(path);
  }

  // ------------------------------------------------------------------------------
  // What ends one
  // ------------------------------------------------------------------------------

  /** A drive path that ends with none of what ends a path or a sentence. */
  predicate DrivePath(p: string) {
    |p| > 3 && Letter(p[0]) && p[1] == ':' && Slash(p[2]) && Tail(p[3..])
  }

  lemma DrivePathBegins(p: string, more: string)
    requires DrivePath(p)
    ensures PrefixLength(p + more) == 3 && !IsPipe(p + more)
  {
  }

  lemma DrivePathIsWhole(p: string)
    requires DrivePath(p)
    ensures MatchLength(p) == |p| && Replacement(p) == RedactPath(p) && !IsPunctuation(p[|p| - 1])
  {
    assert p[3..][|p| - 4] == p[|p| - 1];
    SameCharacters(p[|p| - 1]);
    UnendedIsOneMatch(p, p[3..]);
    assert p[..|p|] == p && p[|p|..] == "";
  }

  /** White space, a quote, an angle bracket or a bar ends a path, and nothing else does. */
  lemma EndingsSpelledOut(p: string, c: char, q: string)
    requires DrivePath(p) && Tail(q) && q != ""
    ensures RedactPathsIn(p + ([c] + q)) == if Ending(c) then RedactPath(p) + ([c] + RedactPathsIn(q)) else RedactPath(p + ([c] + q))
  {
    SameCharacters(c);
    if Ending(c) {
      DrivePathIsWhole(p);
      CutShort(p, c, q);
    } else {
      var path := p + ([c] + q);
      TailsJoin(p[3..], c, q);
      DrivePathBegins(p, [c] + q);
      assert path[3..] == p[3..] + ([c] + q);
      RenderedWhole(path, 3);
    }
  }

  lemma TailsJoin(t: string, c: char, q: string)
    requires Unended(t) && !Ending(c) && Tail(q) && q != ""
    ensures Tail(t + ([c] + q))
  {
  }

  /** The punctuation that is kept out of a path is this, and no other. */
  lemma StopsSpelledOut(p: string, c: char)
    requires DrivePath(p) && !Ending(c)
    ensures RedactPathsIn(p + [c]) == if Stop(c) then RedactPath(p) + [c] else RedactPath(p + [c])
  {
    SameCharacters(c);
    if Stop(c) {
      DrivePathIsWhole(p);
      PunctuationStaysOut(p, [c]);
    } else {
      var path := p + [c];
      DrivePathBegins(p, [c]);
      assert path[3..] == p[3..] + [c];
      RenderedWhole(path, 3);
    }
  }

  /** Any white space keeps what is on either side of it apart. */
  lemma WhiteKeepsApart(a: string, white: char, b: string)
    requires White(white)
    ensures RedactPathsIn(a + ([white] + b)) == RedactPathsIn(a) + ([white] + RedactPathsIn(b))
  {
    SameCharacters(white);
    RedactsWordByWord(a, white, b);
  }
}
