/** The directory trees the file finders walk, and the walk they share: list a directory with
    `glob("*")`, descend into each subdirectory while the depth allows it, and yield each file
    the filter accepts, in listing order. */
module DirTree {
  import opened Wrappers
  import opened Paths

  /** The twelve video suffixes every finder uses. */
  const VideoFormats: set<string> :=
    {".mp4", ".mkv", ".avi", ".mov", ".wmv", ".flv", ".webm", ".m4v", ".mpeg", ".mpg", ".3gp", ".3g2"}

  /** A directory listing: files and subdirectories with their own listings. */
  datatype Entry = FileEntry(name: string) | DirEntry(name: string, children: seq<Entry>)

  /** What a walk yields: files whose suffix is listed and, when stems are given, whose stem
      equals or starts with one of them. */
  datatype Filter = Filter(suffixes: set<string>, stems: Option<set<string>>)

  predicate Accepts(f: Filter, name: string)
  {
    SuffixOf(name) in f.suffixes &&
    (f.stems.None? || StemOf(name) in f.stems.value || exists s :: s in f.stems.value && s <= StemOf(name))
  }

  /** Testing the stem for membership adds nothing to the prefix test. */
  lemma AcceptsByPrefix(f: Filter, name: string)
    ensures Accepts(f, name) <==>
      SuffixOf(name) in f.suffixes &&
      (f.stems.None? || exists s :: s in f.stems.value && s <= StemOf(name))
  {
    if f.stems.Some? && StemOf(name) in f.stems.value {
      assert StemOf(name) <= StemOf(name);
    }
  }

  /** The depth a subdirectory is walked with, or `None` when it is not walked: `-1` stays
      unlimited, a positive depth goes down by one, anything else stops. */
  function Descend(deep: int): Option<int>
  {
    if deep == -1 then Some(-1) else if deep > 0 then Some(deep - 1) else None
  }

  /** The walk: each entry in turn, a file yielded when `top` accepts it, a subdirectory walked
      with the descended depth and `nested` as its filter at every level below. */
  function Walk(dir: Path, children: seq<Entry>, deep: int, top: Filter, nested: Filter): seq<Path>
    decreases children
  {
    if children == [] then []
    else
      var here := match children[0]
        case FileEntry(n) => if Accepts(top, n) then [dir + [n]] else []
        case DirEntry(n, sub) =>
          match Descend(deep)
          case None => []
          case Some(d) => Walk(dir + [n], sub, d, nested, nested);
      here + Walk(dir, children[1..], deep, top, nested)
  }

  /** `rel` leads from the listing `children` to a file, through subdirectories. */
  ghost predicate FileAt(children: seq<Entry>, rel: seq<string>)
    decreases children
  {
    children != [] && |rel| >= 1 &&
    ((children[0].name == rel[0] &&
      match children[0]
      case FileEntry(_) => |rel| == 1
      case DirEntry(_, sub) => |rel| > 1 && FileAt(sub, rel[1..]))
     || FileAt(children[1..], rel))
  }

  /** A file `rel` steps below the walked directory is in reach of depth `deep`. */
  predicate Within(rel: seq<string>, deep: int)
  {
    deep == -1 || |rel| <= (if deep > 0 then deep + 1 else 1)
  }

  /** The walk yields exactly the files below `dir` that are in reach of the depth and accepted
      by `top` directly inside `dir` and by `nested` further down. */
  lemma {:induction false} WalkMembers(dir: Path, children: seq<Entry>, deep: int, top: Filter, nested: Filter, p: Path)
    ensures p in Walk(dir, children, deep, top, nested) <==>
      |p| > |dir| && p[..|dir|] == dir && FileAt(children, p[|dir|..]) && Within(p[|dir|..], deep) &&
      Accepts(if |p| == |dir| + 1 then top else nested, p[|p| - 1])
    decreases children
  {
    if children != [] {
      var rest := Walk(dir, children[1..], deep, top, nested);
      WalkMembers(dir, children[1..], deep, top, nested, p);
      match children[0]
      case FileEntry(n) =>
        if p == dir + [n] {
          assert p[..|dir|] == dir && p[|dir|..] == [n];
        }
        if |p| > |dir| && p[..|dir|] == dir && children[0].name == p[|dir|..][0] && |p[|dir|..]| == 1 {
          assert p == dir + [n];
        }
      case DirEntry(n, sub) =>
        if |p| > |dir| + 1 {
          var rel := p[|dir|..];
          assert p[|dir| + 1..] == rel[1..];
          if p[..|dir|] == dir && p[|dir|] == n {
            assert p[..|dir| + 1] == dir + [n];
          }
          if p[..|dir| + 1] == dir + [n] {
            assert p[..|dir|] == dir && rel[0] == n;
          }
        }
        match Descend(deep)
        case None =>
        case Some(d) =>
          WalkMembers(dir + [n], sub, d, nested, nested, p);
    }
  }
}
