/** What equal digests say of two paths, and what they do not (`redactPath` of
    `apps/desktop/src/redactPath.ts`). */
module SharedDigests {
  import opened Decimal
  import opened Fnv
  import opened PathScanner
  import opened RedactedPath

  // ------------------------------------------------------------------------------
  // One name in two directories
  // ------------------------------------------------------------------------------

  /** Nothing, or something that ends with a separator. */
  predicate IsDirectory(s: string) {
    s == "" || IsSeparator(s[|s| - 1])
  }

  lemma {:induction false} NameAfterDirectory(directory: string, name: string)
    requires IsDirectory(directory)
    ensures FileNameOf(directory + name) == FileNameOf(name)
    decreases |name|
  {
    if name == "" {
      assert directory + name == directory;
    } else {
      var path := directory + name;
      assert path[|path| - 1] == name[|name| - 1] && path[..|path| - 1] == directory + name[..|name| - 1];
      NameAfterDirectory(directory, name[..|name| - 1]);
    }
  }

  lemma DigestOfFile(directory: string, name: string)
    ensures PathDigest(directory + name) == Fold(PathDigest(directory), Utf8(name))
  {
    Utf8Joins(directory, name);
    FoldJoins(OFFSET_BASIS, Utf8(directory), Utf8(name));
  }

  /** Two files that share a name stay apart exactly when their directories' digests do, whichever
      separators the directories are written with. */
  lemma SharedNameStaysApartExactly(one: string, other: string, name: string)
    requires IsDirectory(one) && IsDirectory(other)
    ensures RedactPath(one + name) != RedactPath(other + name) <==> PathDigest(one) != PathDigest(other)
  {
    NameAfterDirectory(one, name);
    NameAfterDirectory(other, name);
    DigestOfFile(one, name);
    DigestOfFile(other, name);
    FoldFits(OFFSET_BASIS, Utf8(one));
    FoldFits(OFFSET_BASIS, Utf8(other));
    CommonEndingCancels(PathDigest(one), PathDigest(other), Utf8(name));
    RenderedAlike(one + name, other + name);
  }

  // ------------------------------------------------------------------------------
  // Two directories with one digest
  // ------------------------------------------------------------------------------

  /** There are more paths than digests. */
  lemma {:induction false} Pigeonhole(digests: seq<nat>, bound: nat) returns (i: nat, j: nat)
    requires |digests| > bound && forall k :: 0 <= k < |digests| ==> digests[k] < bound
    ensures i < j < |digests| && digests[i] == digests[j]
    decreases bound
  {
    assert digests[0] < bound;
    var last: nat := bound - 1;
    if a, b :| 0 <= a < b < |digests| && digests[a] == last && digests[b] == last {
      return a, b;
    }
    if a :| 0 <= a < |digests| && digests[a] == last {
      var rest := digests[..a] + digests[a + 1..];
      assert forall k :: 0 <= k < |rest| ==> rest[k] == digests[if k < a then k else k + 1];
      i, j := Pigeonhole(rest, last);
      i, j := if i < a then i else i + 1, if j < a then j else j + 1;
    } else {
      i, j := Pigeonhole(digests, last);
    }
  }

  /** Wherever a path may start, two different directories there give every file name one rendering. */
  lemma SomeDirectoriesRenderAlike(start: string, separator: char, name: string) returns (one: string, other: string)
    requires IsSeparator(separator)
    ensures one != other && RedactPath(start + one + [separator] + name) == RedactPath(start + other + [separator] + name)
  {
    var digests := seq(STATES + 1, i requires 0 <= i < STATES + 1 => PathDigest(start + Text(i) + [separator]));
    forall k | 0 <= k < |digests|
      ensures digests[k] < STATES
    {
      FoldFits(OFFSET_BASIS, Utf8(start + Text(k) + [separator]));
    }
    var i, j := Pigeonhole(digests, STATES);
    one, other := Text(i), Text(j);
    TextParses(i);
    TextParses(j);
    SharedNameStaysApartExactly(start + one + [separator], start + other + [separator], name);
  }
}
