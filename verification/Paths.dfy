/** Windows paths as the recorder takes them apart: a drive or a share, a root, and the parts after them. */
module Paths {
  import opened Options

  datatype Part = Up | Named(name: string)

  /** Either of the first two may be missing: `C:clips` has a drive and no root, `\clips` a root and no drive. */
  datatype Path = Path(drive: Option<string>, rooted: bool, parts: seq<Part>)

  /** A path is absolute when it has both. */
  predicate Absolute(path: Path) {
    path.drive.Some? && path.rooted
  }

  /** A path with a drive takes the place of what it is joined to, absolute or not; one with a root keeps
      the other's drive; any other goes behind it. */
  function Join(path: Path, other: Path): Path {
    if other.drive.Some? then other
    else if other.rooted then other.(drive := path.drive)
    else path.(parts := path.parts + other.parts)
  }

  function Child(path: Path, name: string): Path {
    path.(parts := path.parts + [Named(name)])
  }

  /** Everything but the last part; nothing is above a root. */
  function Parent(path: Path): Option<Path> {
    if path.parts == [] then None else Some(path.(parts := path.parts[..|path.parts| - 1]))
  }

  function FileName(path: Path): Option<string> {
    if path.parts == [] then None
    else
      match path.parts[|path.parts| - 1]
      case Up => None
      case Named(name) => Some(name)
  }

  /** Where a name's last full stop is, or -1. */
  function LastDot(name: string): int {
    if name == "" then -1
    else if name[|name| - 1] == '.' then |name| - 1
    else LastDot(name[..|name| - 1])
  }

  lemma {:induction false} LastDotInName(name: string)
    ensures -1 <= LastDot(name) < |name|
    ensures LastDot(name) >= 0 ==> name[LastDot(name)] == '.'
    ensures forall i :: LastDot(name) < i < |name| ==> name[i] != '.'
  {
    if name != "" && name[|name| - 1] != '.' {
      LastDotInName(name[..|name| - 1]);
    }
  }

  /** What follows the last full stop; a name that only starts with one has no extension. */
  function Extension(name: string): Option<string> {
    LastDotInName(name);
    if LastDot(name) <= 0 then None else Some(name[LastDot(name) + 1..])
  }

  function Lower(c: char): char {
    if 'A' <= c <= 'Z' then c + 32 as char else c
  }

  predicate SameIgnoringCase(a: string, b: string) {
    |a| == |b| && forall i :: 0 <= i < |a| ==> Lower(a[i]) == Lower(b[i])
  }

  lemma ChildNames(path: Path, name: string)
    ensures FileName(Child(path, name)) == Some(name) && Parent(Child(path, name)) == Some(path)
  {
  }
}
