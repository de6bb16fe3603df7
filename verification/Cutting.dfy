/** Where a string is cut: at the first of a character. */
module Cutting {

  /** How many characters there are before the first `mark`. */
  function UpTo(s: string, mark: char): nat {
    if s == "" || s[0] == mark then 0 else 1 + UpTo(s[1..], mark)
  }

  lemma {:induction false} UpToInString(s: string, mark: char)
    ensures UpTo(s, mark) <= |s|
  {
    if !(s == "" || s[0] == mark) {
      UpToInString(s[1..], mark);
    }
  }

  lemma {:induction false} UpToFinds(s: string, mark: char, rest: string)
    requires mark !in s && (rest == "" || rest[0] == mark)
    ensures UpTo(s + rest, mark) == |s|
  {
    if s == "" {
      assert s + rest == rest;
    } else {
      assert s[0] in s && forall c :: c in s[1..] ==> c in s;
      assert (s + rest)[1..] == s[1..] + rest;
      UpToFinds(s[1..], mark, rest);
    }
  }
}
