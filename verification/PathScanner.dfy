/** Scanning a text for what looks like an absolute path, and putting something in its place: the
    regular expressions of `apps/desktop/src/redactPath.ts`, written out as what they match, and
    the global replace they are used in.

    The alternatives need no backtracking: a host stops at the separator that has to follow it.
    Text is a sequence of Unicode scalar values; a lone surrogate is not part of this model. */
module PathScanner {
  predicate IsSeparator(c: char) {
    c == '\\' || c == '/'
  }

  predicate IsLetter(c: char) {
    'A' <= c <= 'Z' || 'a' <= c <= 'z'
  }

  /** `\s` */
  predicate IsSpace(c: char) {
    var n := c as int;
    0x9 <= n <= 0xd || n == 0x20 || n == 0xa0 || n == 0x1680 || 0x2000 <= n <= 0x200a
    || n == 0x2028 || n == 0x2029 || n == 0x202f || n == 0x205f || n == 0x3000 || n == 0xfeff
  }

  /** What ends a match: white space, quotes, angle brackets and bars. */
  predicate Ends(c: char) {
    IsSpace(c) || c == '"' || c == '\'' || c == '<' || c == '>' || c == '|'
  }

  // ------------------------------------------------------------------------------
  // What `ABSOLUTE_PATH` matches at the start of a text
  // ------------------------------------------------------------------------------

  predicate DriveAt(s: string) {
    |s| >= 3 && IsLetter(s[0]) && s[1] == ':' && IsSeparator(s[2])
  }

  predicate ExtendedAt(s: string) {
    |s| >= 4 && s[0] == '\\' && s[1] == '\\' && s[2] == '?' && IsSeparator(s[3])
  }

  function HostLength(s: string): (n: nat)
    ensures n <= |s|
  {
    if s == "" || IsSeparator(s[0]) || IsSpace(s[0]) then 0 else 1 + HostLength(s[1..])
  }

  predicate HostAt(s: string) {
    0 < HostLength(s) < |s| && IsSeparator(s[HostLength(s)])
  }

  predicate UncAt(s: string) {
    |s| >= 2 && s[0] == '\\' && s[1] == '\\' && HostAt(s[2..])
  }

  /** The length of the prefix that makes a path absolute, or zero. */
  function PrefixLength(s: string): (n: nat)
    ensures n <= |s|
  {
    if DriveAt(s) then 3
    else if ExtendedAt(s) then 4
    else if UncAt(s) then 3 + HostLength(s[2..])
    else 0
  }

  function TailLength(s: string): (n: nat)
    ensures n <= |s|
    ensures n < |s| ==> Ends(s[n])
  {
    if s == "" || Ends(s[0]) then 0 else 1 + TailLength(s[1..])
  }

  function MatchLength(s: string): (n: nat)
    ensures n <= |s|
    ensures n > 0 <==> PrefixLength(s) > 0
  {
    var n := PrefixLength(s);
    if n == 0 then 0 else n + TailLength(s[n..])
  }

  lemma {:induction false} TailGoesOn(s: string, i: nat)
    requires i < TailLength(s)
    ensures !Ends(s[i])
  {
    if i > 0 {
      TailGoesOn(s[1..], i - 1);
    }
  }

  /** A match begins where one of the three prefixes stands, and goes on behind it to the first character
      that ends one, or to the end of the text. */
  lemma MatchReaches(s: string, n: nat)
    ensures n == MatchLength(s) > 0
       <==> 0 < PrefixLength(s) <= n <= |s|
            && (forall i :: PrefixLength(s) <= i < n ==> !Ends(s[i])) && (n < |s| ==> Ends(s[n]))
  {
    var p := PrefixLength(s);
    if p > 0 {
      var m := MatchLength(s);
      forall i | p <= i < m
        ensures !Ends(s[i])
      {
        TailGoesOn(s[p..], i - p);
      }
      assert m < |s| ==> Ends(s[p..][m - p]);
    }
  }

  // ------------------------------------------------------------------------------
  // What replaces a match
  // ------------------------------------------------------------------------------

  predicate IsPipe(m: string) {
    && |m| >= 9
    && m[0] == '\\' && m[1] == '\\' && m[2] == '.' && IsSeparator(m[3])
    && (m[4] == 'p' || m[4] == 'P') && (m[5] == 'i' || m[5] == 'I')
    && (m[6] == 'p' || m[6] == 'P') && (m[7] == 'e' || m[7] == 'E')
    && IsSeparator(m[8])
  }

  type Callback = string -> string

  /** A global replace: copy up to the leftmost match, replace it, go on after it. */
  function ReplaceAll(f: Callback, text: string): string
    decreases |text|
  {
    if text == "" then ""
    else
      var n := MatchLength(text);
      if n > 0 then f(text[..n]) + ReplaceAll(f, text[n..])
      else [text[0]] + ReplaceAll(f, text[1..])
  }

  /** Whatever stands in for a path: too long to be passed over, and no separator in it. */
  predicate Opaque(r: string) {
    |r| >= 17 && forall i :: 0 <= i < |r| ==> !IsSeparator(r[i])
  }

  /** A callback that leaves a pipe alone and hides everything else. */
  ghost predicate Hides(f: Callback) {
    forall m :: if IsPipe(m) then f(m) == m else Opaque(f(m))
  }

  /** No white space. */
  predicate Solid(s: string) {
    forall i :: 0 <= i < |s| ==> !IsSpace(s[i])
  }

  /** A callback that puts no white space in what has none. */
  ghost predicate AddsNoSpace(f: Callback) {
    forall m :: Solid(m) ==> Solid(f(m))
  }

  // ------------------------------------------------------------------------------
  // What the output can begin with
  // ------------------------------------------------------------------------------

  /** Text that follows a match: nothing, or what ended it. */
  predicate Ended(s: string) {
    s == "" || Ends(s[0])
  }

  lemma MatchIsEnded(s: string)
    requires MatchLength(s) > 0
    ensures Ended(s[MatchLength(s)..])
  {
  }

  lemma EndedIsCopied(f: Callback, s: string)
    requires Hides(f) && Ended(s)
    ensures Ended(ReplaceAll(f, s))
  {
  }

  /** A separator at the front of the output was at the front of the text. */
  lemma SeparatorWasThere(f: Callback, s: string)
    requires Hides(f) && ReplaceAll(f, s) != "" && IsSeparator(ReplaceAll(f, s)[0])
    ensures s != "" && s[0] == ReplaceAll(f, s)[0]
    ensures MatchLength(s) > 0 ==> IsPipe(s[..MatchLength(s)])
  {
  }

  /** So was one in second place, and what stands before it. */
  lemma SecondSeparatorWasThere(f: Callback, s: string)
    requires Hides(f) && |ReplaceAll(f, s)| >= 2 && !IsSeparator(ReplaceAll(f, s)[0]) && IsSeparator(ReplaceAll(f, s)[1])
    ensures |s| >= 2 && s[0] == ReplaceAll(f, s)[0] && s[1] == ReplaceAll(f, s)[1]
  {
    var n := MatchLength(s);
    var m := s[..n];
    assert IsPipe(m) || Opaque(f(m));
    if n == 0 {
      SeparatorWasThere(f, s[1..]);
    }
  }

  lemma DriveWasThere(f: Callback, c: char, s: string)
    requires Hides(f) && DriveAt([c] + ReplaceAll(f, s))
    ensures DriveAt([c] + s)
  {
    SecondSeparatorWasThere(f, s);
  }

  lemma ExtendedWasThere(f: Callback, c: char, s: string)
    requires Hides(f) && ExtendedAt([c] + ReplaceAll(f, s))
    ensures ExtendedAt([c] + s)
  {
    SeparatorWasThere(f, s);
    if MatchLength(s) == 0 {
      SecondSeparatorWasThere(f, s[1..]);
    }
  }

  predicate IsHost(c: char) {
    !IsSeparator(c) && !IsSpace(c)
  }

  /** A host goes on until a separator. */
  lemma HostStep(c: char, s: string)
    ensures HostAt([c] + s) <==> IsHost(c) && s != "" && (IsSeparator(s[0]) || HostAt(s))
  {
    var n := HostLength(s);
    assert ([c] + s)[1..] == s;
    assert HostLength([c] + s) == if IsHost(c) then 1 + n else 0;
    assert n < |s| ==> ([c] + s)[1 + n] == s[n];
  }

  /** A host in the output, unless the text there began with a backslash, was in the text. */
  lemma {:induction false} HostWasThere(f: Callback, s: string)
    requires Hides(f) && HostAt(ReplaceAll(f, s)) && (s == "" || s[0] != '\\')
    ensures HostAt(s)
    decreases |s|
  {
    if MatchLength(s) > 0 {
      assert DriveAt(s);
      HostStep(s[0], s[1..]);
      HostStep(s[1], s[2..]);
      assert s == [s[0]] + s[1..] && s[1..] == [s[1]] + s[2..];
    } else {
      HostInGapWasThere(f, s);
      assert s == [s[0]] + s[1..];
      HostStep(s[0], ReplaceAll(f, s[1..]));
      HostStep(s[0], s[1..]);
      if s[1..] != "" && !IsSeparator(s[1]) {
        HostWasThere(f, s[1..]);
      }
    }
  }

  /** What follows a character of a host in the output follows it in the text, or is host too. */
  lemma HostInGapWasThere(f: Callback, s: string)
    requires Hides(f) && s != "" && MatchLength(s) == 0 && HostAt(ReplaceAll(f, s))
    ensures |s| >= 2
    ensures IsSeparator(s[1]) || HostAt(ReplaceAll(f, s[1..]))
  {
    var o := ReplaceAll(f, s[1..]);
    HostStep(s[0], o);
    if IsSeparator(o[0]) {
      SeparatorWasThere(f, s[1..]);
    }
  }

  // ------------------------------------------------------------------------------
  // Which prefixes survive
  // ------------------------------------------------------------------------------

  predicate FourBackslashesAt(s: string) {
    |s| >= 4 && s[0] == '\\' && s[1] == '\\' && s[2] == '\\' && s[3] == '\\'
  }

  lemma HostStarts(s: string)
    requires HostAt(s)
    ensures IsHost(s[0])
  {
  }

  lemma PipeStarts(f: Callback, s: string)
    requires Hides(f) && MatchLength(s) > 0 && IsPipe(s[..MatchLength(s)])
    ensures |ReplaceAll(f, s)| >= 2 && ReplaceAll(f, s)[1] == '\\'
  {
  }

  lemma UncBackslashesWereThere(f: Callback, c: char, s: string)
    requires Hides(f) && UncAt([c] + ReplaceAll(f, s))
    ensures c == '\\' && s != "" && s[0] == '\\' && MatchLength(s) == 0
    ensures HostAt(ReplaceAll(f, s[1..]))
  {
    var o := ReplaceAll(f, s);
    assert ([c] + o)[2..] == o[1..];
    HostStarts(o[1..]);
    SeparatorWasThere(f, s);
    if MatchLength(s) > 0 {
      PipeStarts(f, s);
    }
  }

  /** A backslash that turned into part of a host was the first of two. */
  lemma HostBehindBackslash(f: Callback, s: string)
    requires Hides(f) && s != "" && s[0] == '\\' && HostAt(ReplaceAll(f, s))
    ensures |s| >= 2 && s[1] == '\\'
  {
  }

  lemma UncWasThere(f: Callback, c: char, s: string)
    requires Hides(f) && UncAt([c] + ReplaceAll(f, s))
    ensures UncAt([c] + s) || FourBackslashesAt([c] + s)
  {
    UncBackslashesWereThere(f, c, s);
    assert ([c] + s)[2..] == s[1..];
    if |s| >= 2 && s[1] == '\\' {
      HostBehindBackslash(f, s[1..]);
    } else {
      HostWasThere(f, s[1..]);
    }
  }

  /** A character the scan copies starts no prefix in the output that it did not start in the text. */
  lemma CopiedStartsNothing(f: Callback, text: string)
    requires Hides(f) && text != "" && MatchLength(text) == 0
    ensures !DriveAt(ReplaceAll(f, text)) && !ExtendedAt(ReplaceAll(f, text))
    ensures UncAt(ReplaceAll(f, text)) ==> FourBackslashesAt(text)
  {
    var c, s := text[0], text[1..];
    assert text == [c] + s && ReplaceAll(f, text) == [c] + ReplaceAll(f, s);
    if DriveAt(ReplaceAll(f, text)) {
      DriveWasThere(f, c, s);
    }
    if ExtendedAt(ReplaceAll(f, text)) {
      ExtendedWasThere(f, c, s);
    }
    if UncAt(ReplaceAll(f, text)) {
      UncWasThere(f, c, s);
    }
  }

  /** Nor does any character of what stands in for a path. */
  lemma ReplacedStartsNothing(r: string, rest: string, p: nat)
    requires Opaque(r) && Ended(rest) && p < |r|
    ensures PrefixLength((r + rest)[p..]) == 0
  {
  }
}
