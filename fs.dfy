/** The part of the file system the program touches: a map from paths to nodes, with the
    POSIX behaviour of `mkdir`, `unlink`, `rmdir`, `rename` and opening a file for writing.
    Each operation is given as a function from the old map to the new map or to the error
    Python raises, and the `FileSystem` class applies it in place. */
module Fs {
  import opened Wrappers
  import opened Paths

  datatype Node = File(content: string) | Dir | Special

  /** The `OSError` subclasses the modelled calls raise. */
  datatype OsError =
    | FileNotFound
    | FileExists
    | NotADirectory
    | IsADirectory
    | DirectoryNotEmpty
    | InvalidArgument
    | Unsupported

  /** `p.exists()`; the empty path is the working directory, which always exists. */
  predicate ExistsIn(m: map<Path, Node>, p: Path)
  {
    p == [] || p in m
  }

  /** `p.is_dir()`. */
  predicate IsDirIn(m: map<Path, Node>, p: Path)
  {
    p == [] || (p in m && m[p].Dir?)
  }

  /** `p.is_file()`. */
  predicate IsFileIn(m: map<Path, Node>, p: Path)
  {
    p in m && m[p].File?
  }

  /** Every entry hangs off an existing directory. */
  ghost predicate WellFormed(m: map<Path, Node>)
  {
    [] !in m && forall p :: p in m ==> IsDirIn(m, Parent(p))
  }

  /** `d` has an entry directly inside it. */
  predicate HasChild(m: map<Path, Node>, d: Path)
  {
    exists p :: p in m && |p| > 0 && Parent(p) == d
  }

  /** The entries directly inside a folder. */
  function ChildrenOf(m: map<Path, Node>, d: Path): set<Path>
  {
    set q | q in m && |q| > 0 && Parent(q) == d
  }

  // ---- the operations, as functions of the old map ----

  /** Some proper ancestor of `p` exists and is not a directory. */
  predicate UnderNonDir(m: map<Path, Node>, p: Path)
  {
    exists k :: 0 < k < |p| && p[..k] in m && !m[p[..k]].Dir?
  }

  /** What POSIX reports for a path whose folder cannot be reached: `ENOTDIR` when an
      ancestor is not a directory, `ENOENT` otherwise. */
  function Unreachable(m: map<Path, Node>, p: Path): OsError
  {
    if UnderNonDir(m, p) then NotADirectory else FileNotFound
  }

  /** Below a regular file nothing can be reached: reading a path there, or writing one whose
      folder is missing, reports `NotADirectory`. */
  lemma BelowFileUnreachable(m: map<Path, Node>, f: Path, rest: Path, content: string)
    requires f in m && !m[f].Dir? && |f| > 0 && |rest| > 0 && f + rest !in m
    ensures Unreachable(m, f + rest) == NotADirectory
    ensures ReadResult(m, f + rest) == Err(NotADirectory)
    ensures !ExistsIn(m, Parent(f + rest)) ==> WriteResult(m, f + rest, content) == Err(NotADirectory)
  {
    assert (f + rest)[..|f|] == f;
  }

  /** `p.mkdir(parents=parents, exist_ok=exist_ok)`, following `pathlib`: try `os.mkdir`;
      on a missing parent create the parents first when asked to; an existing path is
      accepted only when `exist_ok` holds and it is a directory. */
  function MkdirResult(m: map<Path, Node>, p: Path, parents: bool, existOk: bool): Result<map<Path, Node>, OsError>
    decreases |p|
  {
    if ExistsIn(m, p) then
      (if existOk && IsDirIn(m, p) then Ok(m) else Err(FileExists))
    else if IsDirIn(m, Parent(p)) then Ok(m[p := Dir])
    else if ExistsIn(m, Parent(p)) then Err(NotADirectory)
    else if !parents then Err(Unreachable(m, p))
    else
      match MkdirResult(m, Parent(p), true, true)
      case Err(e) => Err(e)
      case Ok(m') => Ok(m'[p := Dir])
  }

  /** `p.unlink()`: removes anything but a directory. */
  function UnlinkResult(m: map<Path, Node>, p: Path): Result<map<Path, Node>, OsError>
  {
    if p !in m then Err(Unreachable(m, p))
    else if m[p].Dir? then Err(IsADirectory)
    else Ok(m - {p})
  }

  /** `p.rmdir()`: removes an empty directory. */
  function RmdirResult(m: map<Path, Node>, p: Path): Result<map<Path, Node>, OsError>
  {
    if p == [] then Err(InvalidArgument)
    else if p !in m then Err(Unreachable(m, p))
    else if !m[p].Dir? then Err(NotADirectory)
    else if HasChild(m, p) then Err(DirectoryNotEmpty)
    else Ok(m - {p})
  }

  /** `src.rename(dst)` for a source that is not a directory: the target is replaced when it
      is not a directory. */
  function RenameResult(m: map<Path, Node>, src: Path, dst: Path): Result<map<Path, Node>, OsError>
  {
    if src !in m then Err(Unreachable(m, src))
    else if m[src].Dir? then Err(Unsupported)
    else if dst == [] || IsDirIn(m, dst) then Err(IsADirectory)
    else if !ExistsIn(m, Parent(dst)) then Err(Unreachable(m, dst))
    else if !IsDirIn(m, Parent(dst)) then Err(NotADirectory)
    else Ok((m - {src})[dst := m[src]])
  }

  /** `open(p, "w")` followed by writing `content`. */
  function WriteResult(m: map<Path, Node>, p: Path, content: string): Result<map<Path, Node>, OsError>
  {
    if IsDirIn(m, p) then Err(IsADirectory)
    else if !ExistsIn(m, Parent(p)) then Err(Unreachable(m, p))
    else if !IsDirIn(m, Parent(p)) then Err(NotADirectory)
    else if p in m && m[p].Special? then Ok(m)
    else Ok(m[p := File(content)])
  }

  /** `open(p).read()`. */
  function ReadResult(m: map<Path, Node>, p: Path): Result<string, OsError>
  {
    if !ExistsIn(m, p) then Err(Unreachable(m, p))
    else if IsDirIn(m, p) then Err(IsADirectory)
    else if m[p].Special? then Err(Unsupported)
    else Ok(m[p].content)
  }

  // ---- each operation keeps the file system well formed ----

  /** Adding a directory under an existing directory keeps the map well formed. */
  lemma AddDirKeepsWellFormed(m: map<Path, Node>, p: Path)
    requires WellFormed(m) && p != [] && p !in m && IsDirIn(m, Parent(p))
    ensures WellFormed(m[p := Dir])
  {
    var m' := m[p := Dir];
    forall q | q in m' ensures IsDirIn(m', Parent(q)) {
      if q != p {
        assert IsDirIn(m, Parent(q));
      }
    }
  }

  lemma {:induction false} MkdirKeepsWellFormed(m: map<Path, Node>, p: Path, parents: bool, existOk: bool)
    requires WellFormed(m)
    ensures MkdirResult(m, p, parents, existOk).Ok? ==>
      var m' := MkdirResult(m, p, parents, existOk).value;
      WellFormed(m') && IsDirIn(m', p) && m.Keys <= m'.Keys &&
      (forall q :: q in m ==> m'[q] == m[q]) &&
      (forall q :: q in m' && q !in m ==> m'[q] == Dir && |q| <= |p| && q == p[..|q|])
    decreases |p|
  {
    if ExistsIn(m, p) {
    } else if IsDirIn(m, Parent(p)) {
      AddDirKeepsWellFormed(m, p);
      assert p[..|p|] == p;
    } else if !ExistsIn(m, Parent(p)) && parents {
      var pp := Parent(p);
      MkdirKeepsWellFormed(m, pp, true, true);
      if MkdirResult(m, pp, true, true).Ok? {
        var m1 := MkdirResult(m, pp, true, true).value;
        assert p !in m1;
        AddDirKeepsWellFormed(m1, p);
        var m' := m1[p := Dir];
        assert MkdirResult(m, p, parents, existOk) == Ok(m');
        forall q | q in m' && q !in m
          ensures m'[q] == Dir && |q| <= |p| && q == p[..|q|]
        {
          if q != p {
            assert q == pp[..|q|];
            assert pp[..|q|] == p[..|q|];
          } else {
            assert p[..|p|] == p;
          }
        }
      }
    }
  }

  /** A successful `mkdir` leaves `p` a directory, keeps every entry, and adds only
      directories at `p` and its ancestors. */
  lemma {:induction false} MkdirAdds(m: map<Path, Node>, p: Path, parents: bool, existOk: bool)
    ensures MkdirResult(m, p, parents, existOk).Ok? ==>
      var m' := MkdirResult(m, p, parents, existOk).value;
      IsDirIn(m', p) && (forall q :: q in m ==> q in m' && m'[q] == m[q]) &&
      (forall q :: q in m' && q !in m ==> m'[q] == Dir && (q == p || Below(p, q)))
    decreases |p|
  {
    if !ExistsIn(m, p) && !IsDirIn(m, Parent(p)) && !ExistsIn(m, Parent(p)) && parents {
      var pp := Parent(p);
      MkdirAdds(m, pp, true, true);
      if MkdirResult(m, pp, true, true).Ok? {
        var m1 := MkdirResult(m, pp, true, true).value;
        forall q | q in m1 && q !in m ensures Below(p, q) {
          assert q == pp || Below(pp, q);
          assert pp == p[..|pp|];
        }
      }
    }
  }

  /** In a well-formed map every proper ancestor of an entry is a directory entry. */
  lemma {:induction false} AncestorIsDir(m: map<Path, Node>, q: Path, k: nat)
    requires WellFormed(m) && q in m && 0 < k < |q|
    ensures q[..k] in m && m[q[..k]].Dir?
    decreases |q| - k
  {
    var p := Parent(q);
    assert IsDirIn(m, p) && p == q[..|q| - 1];
    if k < |q| - 1 {
      AncestorIsDir(m, p, k);
      assert p[..k] == q[..k];
    }
  }

  lemma UnlinkKeepsWellFormed(m: map<Path, Node>, p: Path)
    requires WellFormed(m)
    ensures UnlinkResult(m, p).Ok? ==> WellFormed(UnlinkResult(m, p).value)
  {
  }

  lemma RmdirKeepsWellFormed(m: map<Path, Node>, p: Path)
    requires WellFormed(m)
    ensures RmdirResult(m, p).Ok? ==> WellFormed(RmdirResult(m, p).value)
  {
    if RmdirResult(m, p).Ok? {
      var m' := m - {p};
      forall q | q in m' ensures IsDirIn(m', Parent(q)) {
        assert Parent(q) != p by { assert !HasChild(m, p); }
      }
    }
  }

  lemma RenameKeepsWellFormed(m: map<Path, Node>, src: Path, dst: Path)
    requires WellFormed(m)
    ensures RenameResult(m, src, dst).Ok? ==> WellFormed(RenameResult(m, src, dst).value)
  {
  }

  /** A successful rename carries the source's node to the target and leaves no source behind. */
  lemma RenameMoves(m: map<Path, Node>, src: Path, dst: Path)
    ensures RenameResult(m, src, dst).Ok? ==>
      src in m && !m[src].Dir? && dst in RenameResult(m, src, dst).value &&
      RenameResult(m, src, dst).value[dst] == m[src] &&
      (dst != src ==> src !in RenameResult(m, src, dst).value)
  {
  }

  /** A rename changes no entry but its source and its target. */
  lemma RenameFrame(m: map<Path, Node>, src: Path, dst: Path)
    ensures var m' := if RenameResult(m, src, dst).Ok? then RenameResult(m, src, dst).value else m;
      forall x :: x != src && x != dst ==> (x in m' <==> x in m) && (x in m ==> m'[x] == m[x])
  {
  }

  /** A rename, whether it succeeds or raises, keeps every directory. */
  lemma RenameKeepsDirs(m: map<Path, Node>, src: Path, dst: Path)
    ensures var m' := if RenameResult(m, src, dst).Ok? then RenameResult(m, src, dst).value else m;
      forall x :: x in m && m[x].Dir? ==> x in m' && m'[x] == Dir
  {
  }

  lemma WriteKeepsWellFormed(m: map<Path, Node>, p: Path, content: string)
    requires WellFormed(m)
    ensures WriteResult(m, p, content).Ok? ==> WellFormed(WriteResult(m, p, content).value)
  {
  }

  // ---- runs of operations that stop at the first exception ----

  /** The state reached by a run of operations, and how the run ended. */
  datatype Run = Run(entries: map<Path, Node>, outcome: Outcome<OsError>)

  /** Writes each `(path, content)` in turn; the first failure ends the run. */
  function WriteAll(m: map<Path, Node>, writes: seq<(Path, string)>): Run
    decreases |writes|
  {
    if writes == [] then Run(m, Pass)
    else match WriteResult(m, writes[0].0, writes[0].1)
      case Err(e) => Run(m, Fail(e))
      case Ok(m1) => WriteAll(m1, writes[1..])
  }

  /** A run of writes is its first write, then the run of the rest when that write
      succeeded. */
  lemma WriteAllFirst(m: map<Path, Node>, m1: map<Path, Node>, writes: seq<(Path, string)>,
                      rest: seq<(Path, string)>, r: Outcome<OsError>)
    requires writes != [] && writes[1..] == rest
    requires var res := WriteResult(m, writes[0].0, writes[0].1);
      (r.Pass? <==> res.Ok?) && (res.Ok? ==> m1 == res.value) && (res.Err? ==> r == Fail(res.error) && m1 == m)
    ensures r.Pass? ==> WriteAll(m, writes) == WriteAll(m1, rest)
    ensures r.Fail? ==> WriteAll(m, writes) == Run(m1, r)
  {
  }

  /** Unlinks each path in turn; the first failure ends the run. */
  function UnlinkAll(m: map<Path, Node>, paths: seq<Path>): Run
    decreases |paths|
  {
    if paths == [] then Run(m, Pass)
    else match UnlinkResult(m, paths[0])
      case Err(e) => Run(m, Fail(e))
      case Ok(m1) => UnlinkAll(m1, paths[1..])
  }

  /** A successful run of unlinks removes exactly the listed paths and changes nothing else. */
  lemma {:induction false} UnlinkAllEffect(m: map<Path, Node>, paths: seq<Path>)
    ensures var run := UnlinkAll(m, paths);
      run.outcome.Pass? ==> run.entries == m - set a | 0 <= a < |paths| :: paths[a]
    decreases |paths|
  {
    if paths != [] {
      var res := UnlinkResult(m, paths[0]);
      if res.Ok? {
        UnlinkAllEffect(res.value, paths[1..]);
        var gone := set a | 0 <= a < |paths| :: paths[a];
        var rest := set a | 0 <= a < |paths[1..]| :: paths[1..][a];
        assert gone == {paths[0]} + rest by {
          forall q | q in gone ensures q in {paths[0]} + rest {
            var a :| 0 <= a < |paths| && paths[a] == q;
            if a > 0 { assert paths[1..][a - 1] == q; }
          }
        }
        assert (m - {paths[0]}) - rest == m - gone;
      }
    }
  }

  /** The file system, updated in place by the operations above. */
  class FileSystem {
    var entries: map<Path, Node>

    ghost predicate Valid()
      reads this
    {
      WellFormed(entries)
    }

    constructor (initial: map<Path, Node>)
      requires WellFormed(initial)
      ensures Valid() && entries == initial
    {
      entries := initial;
    }

    function Exists(p: Path): bool reads this { ExistsIn(entries, p) }

    function IsDir(p: Path): bool reads this { IsDirIn(entries, p) }

    function IsFile(p: Path): bool reads this { IsFileIn(entries, p) }

    /** Applies an operation's result: the new map on success, nothing on failure. */
    method Apply(res: Result<map<Path, Node>, OsError>) returns (r: Outcome<OsError>)
      requires res.Ok? ==> WellFormed(res.value)
      requires Valid()
      modifies this
      ensures Valid()
      ensures r.Pass? <==> res.Ok?
      ensures r.Fail? ==> r.error == res.error && entries == old(entries)
      ensures res.Ok? ==> entries == res.value
    {
      match res
      case Ok(m) => entries := m; r := Pass;
      case Err(e) => r := Fail(e);
    }

    method Mkdir(p: Path, parents: bool, existOk: bool) returns (r: Outcome<OsError>)
      requires Valid()
      modifies this
      ensures Valid()
      ensures var res := MkdirResult(old(entries), p, parents, existOk);
        (r.Pass? <==> res.Ok?) && (res.Ok? ==> entries == res.value) &&
        (res.Err? ==> r == Fail(res.error) && entries == old(entries))
    {
      MkdirKeepsWellFormed(entries, p, parents, existOk);
      r := Apply(MkdirResult(entries, p, parents, existOk));
    }

    method Unlink(p: Path) returns (r: Outcome<OsError>)
      requires Valid()
      modifies this
      ensures Valid()
      ensures var res := UnlinkResult(old(entries), p);
        (r.Pass? <==> res.Ok?) && (res.Ok? ==> entries == res.value) &&
        (res.Err? ==> r == Fail(res.error) && entries == old(entries))
    {
      UnlinkKeepsWellFormed(entries, p);
      r := Apply(UnlinkResult(entries, p));
    }

    method Rmdir(p: Path) returns (r: Outcome<OsError>)
      requires Valid()
      modifies this
      ensures Valid()
      ensures var res := RmdirResult(old(entries), p);
        (r.Pass? <==> res.Ok?) && (res.Ok? ==> entries == res.value) &&
        (res.Err? ==> r == Fail(res.error) && entries == old(entries))
    {
      RmdirKeepsWellFormed(entries, p);
      r := Apply(RmdirResult(entries, p));
    }

    method Rename(src: Path, dst: Path) returns (r: Outcome<OsError>)
      requires Valid()
      modifies this
      ensures Valid()
      ensures var res := RenameResult(old(entries), src, dst);
        (r.Pass? <==> res.Ok?) && (res.Ok? ==> entries == res.value) &&
        (res.Err? ==> r == Fail(res.error) && entries == old(entries))
    {
      RenameKeepsWellFormed(entries, src, dst);
      r := Apply(RenameResult(entries, src, dst));
    }

    method Write(p: Path, content: string) returns (r: Outcome<OsError>)
      requires Valid()
      modifies this
      ensures Valid()
      ensures var res := WriteResult(old(entries), p, content);
        (r.Pass? <==> res.Ok?) && (res.Ok? ==> entries == res.value) &&
        (res.Err? ==> r == Fail(res.error) && entries == old(entries))
    {
      WriteKeepsWellFormed(entries, p, content);
      r := Apply(WriteResult(entries, p, content));
    }
  }
}
