/** Paths as `pathlib` sees them: a sequence of components, outermost first. An absolute path
    starts with the empty component that stands for the root `/`; the empty sequence is `.`. */
module Paths {
  import opened Wrappers
  import opened Strings

  type Path = seq<string>

  /** `p.name`. */
  function Name(p: Path): string
  {
    if p == [] then "" else p[|p| - 1]
  }

  /** `p.parent`. */
  function Parent(p: Path): Path
  {
    if p == [] then [] else p[..|p| - 1]
  }

  /** `p / name`. */
  function Child(p: Path, name: string): (r: Path)
    ensures Parent(r) == p && Name(r) == name
  {
    p + [name]
  }

  /** `p` lies strictly below `dir`. */
  predicate Below(p: Path, dir: Path)
  {
    |dir| < |p| && p[..|dir|] == dir
  }

  /** `name.rfind('.')`. */
  function LastDot(s: string): (i: int)
    ensures -1 <= i < |s|
    ensures i >= 0 ==> s[i] == '.'
    ensures forall j :: i < j < |s| ==> s[j] != '.'
  {
    if s == [] then -1
    else
      var r := LastDot(s[1..]);
      if r >= 0 then r + 1 else if s[0] == '.' then 0 else -1
  }

  /** `PurePath.suffix`: from the last dot, unless that dot leads or ends the name. */
  function SuffixOf(name: string): string
  {
    var i := LastDot(name);
    if 0 < i < |name| - 1 then name[i..] else ""
  }

  /** `PurePath.stem`: the name without its suffix. */
  function StemOf(name: string): string
  {
    var i := LastDot(name);
    if 0 < i < |name| - 1 then name[..i] else name
  }

  function Stem(p: Path): string { StemOf(Name(p)) }

  function Suffix(p: Path): string { SuffixOf(Name(p)) }

  /** `p.with_name(n)`. */
  function WithName(p: Path, n: string): Path
  {
    Parent(p) + [n]
  }

  /** `p.with_stem(s)`. */
  function WithStem(p: Path, s: string): Path
  {
    WithName(p, s + Suffix(p))
  }

  /** `p.with_suffix(suf)`. */
  function WithSuffix(p: Path, suf: string): Path
  {
    WithName(p, Stem(p) + suf)
  }

  /** A name is its stem followed by its suffix, and a non-empty name has a non-empty stem. */
  lemma StemSuffixSplit(name: string)
    ensures StemOf(name) + SuffixOf(name) == name
    ensures name != "" ==> StemOf(name) != ""
  {
  }

  /** Appending a one-dot suffix to a non-empty stem can be undone by `stem` and `suffix`. */
  lemma StemOfSuffixed(s: string, suf: string)
    requires s != "" && |suf| >= 2 && suf[0] == '.' && '.' !in suf[1..]
    ensures StemOf(s + suf) == s && SuffixOf(s + suf) == suf
  {
    var n := s + suf;
    assert n[|s|] == '.';
    assert n[|s| + 1..] == suf[1..];
    var i := LastDot(n);
    assert i == |s|;
    assert n[..i] == s;
    assert n[i..] == suf;
  }

  /** `Path(text)` on a POSIX system: split at `/`, dropping empty and `.` components. */
  function ParsePath(text: string): Path
  {
    var pieces := Split(text, '/');
    if |text| > 0 && text[0] == '/' then [""] + Normalize(pieces) else Normalize(pieces)
  }

  function Normalize(pieces: seq<string>): (r: seq<string>)
    ensures forall i :: 0 <= i < |r| ==> r[i] != "" && r[i] != "."
  {
    if pieces == [] then []
    else if pieces[0] == "" || pieces[0] == "." then Normalize(pieces[1..])
    else [pieces[0]] + Normalize(pieces[1..])
  }

  /** An argument typed `str | Path`: a string, a path, or a value of some other type. */
  datatype PathArg = PathText(text: string) | PathValue(path: Path) | OtherValue

  /** `Path(a)` for a string, `a` for a path, nothing for anything else. */
  function AsPath(a: PathArg): Option<Path>
  {
    match a
    case PathText(t) => Some(ParsePath(t))
    case PathValue(p) => Some(p)
    case OtherValue => None
  }
}
