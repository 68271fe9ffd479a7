/** A video and the names of its artifacts (`pellipop/Video.py`): the reduced and final stems,
    the integer frame rate read from `r_frame_rate`, the constructor's argument checks, and the
    renaming of the extracted images, audio, transcript and CSV files to the final stem. */
module Videos {
  import opened Wrappers
  import opened Strings
  import opened Paths
  import opened Fs

  /** What the modelled code raises: an `OSError` from the file system, or a Python error. */
  datatype Fault =
    | Os(error: OsError)
    | ValueError
    | IndexError
    | ZeroDivisionError
    | AttributeError
    | KeyError
    | TypeError
    | AssertionError(failed: ArgError)

  /** The `Video.__init__` assertions, in the order they are checked. */
  datatype ArgError = NotAPath | NotAFile | DoesNotExist | BadReduce | BadOffset | BadParentsInName

  function Min(a: int, b: int): int
  {
    if a <= b then a else b
  }

  /** A Python slice bound: a negative bound counts from the end, and bounds are clamped. */
  function Clamp(i: int, n: nat): (j: nat)
    ensures j <= n
    ensures 0 <= i <= n ==> j == i
  {
    if i < 0 then (if i + n < 0 then 0 else i + n) else if i > n then n else i
  }

  /** `s[start:stop]`, with `None` as an omitted stop. */
  function PySlice<T>(s: seq<T>, start: int, stop: Option<int>): seq<T>
  {
    var lo := Clamp(start, |s|);
    var hi := match stop case None => |s| case Some(e) => Clamp(e, |s|);
    if lo < hi then s[lo..hi] else []
  }

  // ---- reduced and final stems ----

  /** `get_reduce` on a stem: cut `reduce` characters from `offset` unless both are at their
      defaults. */
  function GetReduce(stem: string, reduce: int, offset: int): string
  {
    if reduce != -1 || offset != 0 then
      var o := Min(offset, |stem| - 1);
      var e := if reduce != -1 then Some(Min(reduce + o, |stem| - 1)) else None;
      PySlice(stem, o, e)
    else stem
  }

  /** For the arguments the constructor accepts, the reduced stem is the stem itself at the
      defaults, and otherwise the window starting at the clamped offset, at most `reduce` long
      and never reaching the last character when `reduce` is given. */
  lemma GetReduceWindow(stem: string, reduce: int, offset: int)
    requires reduce >= -1 && offset >= 0
    ensures reduce == -1 && offset == 0 ==> GetReduce(stem, reduce, offset) == stem
    ensures stem == [] ==> GetReduce(stem, reduce, offset) == []
    ensures stem != [] && (reduce != -1 || offset != 0) ==>
      var o := Min(offset, |stem| - 1);
      var e := if reduce == -1 then |stem| else Min(reduce + o, |stem| - 1);
      o <= e <= |stem| && (reduce != -1 ==> e < |stem|) && GetReduce(stem, reduce, offset) == stem[o..e]
    ensures reduce != -1 ==> |GetReduce(stem, reduce, offset)| <= reduce
  {
  }

  /** The directory names `get_parents` never uses. */
  const Excluded: set<string> := {".", "..", "", "C:", "D:", "E:"}

  /** The names of `p.parents`, nearest first, without the excluded ones. */
  function NearParents(p: Path): seq<string>
    decreases |p|
  {
    if |p| <= 1 then []
    else
      var d := p[..|p| - 1];
      (if Name(d) in Excluded then [] else [Name(d)]) + NearParents(d)
  }

  /** The components of `dirs` that are not excluded, in path order. */
  function Usable(dirs: seq<string>): (r: seq<string>)
    ensures forall i :: 0 <= i < |r| ==> r[i] !in Excluded
  {
    if dirs == [] then []
    else Usable(dirs[..|dirs| - 1]) + (if dirs[|dirs| - 1] in Excluded then [] else [dirs[|dirs| - 1]])
  }

  /** `p.parents` lists the directory components from the nearest outwards. */
  lemma {:induction false} NearParentsReversed(p: Path)
    requires p != []
    ensures NearParents(p) == Reverse(Usable(p[..|p| - 1]))
    decreases |p|
  {
    if |p| > 1 {
      var d := p[..|p| - 1];
      NearParentsReversed(d);
      assert d[..|d| - 1] == p[..|p| - 2];
      var u := Usable(d[..|d| - 1]);
      var last := if Name(d) in Excluded then [] else [Name(d)];
      assert Usable(d) == u + last;
      assert Reverse(u + last) == last + Reverse(u) by {
        var a, b := Reverse(u + last), last + Reverse(u);
        assert |a| == |b|;
        forall i | 0 <= i < |a| ensures a[i] == b[i] {
          if |last| == 1 && i > 0 {
            assert a[i] == (u + last)[|u| - i];
          }
        }
      }
    } else {
      assert p[..0] == [];
    }
  }

  /** The directory names `get_parents` puts in front of the stem: the nearest
      `parentsInName` of them, outermost first. */
  function ChosenParents(p: Path, parentsInName: int): seq<string>
  {
    var near := NearParents(p);
    Reverse(PySlice(near, 0, Some(Min(parentsInName, |near|))))
  }

  /** The chosen names are the innermost `k` usable directory names, in path order. */
  lemma ChosenParentsInnermost(p: Path, parentsInName: int)
    requires p != [] && parentsInName >= 0
    ensures var u := Usable(p[..|p| - 1]);
      ChosenParents(p, parentsInName) == u[|u| - Min(parentsInName, |u|)..]
  {
    var u := Usable(p[..|p| - 1]);
    NearParentsReversed(p);
    var near := NearParents(p);
    var k := Min(parentsInName, |u|);
    assert PySlice(near, 0, Some(k)) == near[..k];
    var chosen := Reverse(near[..k]);
    assert |chosen| == |u[|u| - k..]|;
    forall i | 0 <= i < k ensures chosen[i] == u[|u| - k..][i] {
      assert chosen[i] == near[..k][k - 1 - i] == near[k - 1 - i];
      assert near[k - 1 - i] == u[|u| - k + i];
    }
    assert chosen == u[|u| - k..];
  }

  /** `get_parents`: the final stem, with up to `parentsInName` directory names in front. */
  function FinalStemOf(p: Path, reduce: int, offset: int, parentsInName: int): string
  {
    var reduced := GetReduce(Stem(p), reduce, offset);
    if parentsInName == 0 then reduced
    else
      var chosen := ChosenParents(p, parentsInName);
      if chosen == [] then reduced else Join("_", chosen + [reduced])
  }

  /** The final stem is the reduced stem when no directory name is asked for or none is
      usable; otherwise the innermost `k` usable directory names, in path order, are joined to
      it with underscores. */
  lemma FinalStemChoice(p: Path, reduce: int, offset: int, parentsInName: int)
    requires p != [] && parentsInName >= 0
    ensures var u := Usable(p[..|p| - 1]);
      var reduced := GetReduce(Stem(p), reduce, offset);
      var k := Min(parentsInName, |u|);
      FinalStemOf(p, reduce, offset, parentsInName) ==
        if k == 0 then reduced else Join("_", u[|u| - k..] + [reduced])
  {
    ChosenParentsInnermost(p, parentsInName);
  }

  /** One more directory name at the end adds it to the usable names unless it is excluded. */
  lemma UsableSnoc(d: seq<string>, x: string)
    ensures Usable(d + [x]) == Usable(d) + (if x in Excluded then [] else [x])
  {
    assert (d + [x])[..|d|] == d;
  }

  lemma DummyVideoUsable()
    ensures Usable(["", "home", "pellipop", "tv_show", "season1"]) == ["home", "pellipop", "tv_show", "season1"]
  {
    assert "" in Excluded;
    assert "home" !in Excluded && "pellipop" !in Excluded;
    assert "tv_show" !in Excluded && "season1" !in Excluded;
    UsableSkipsRoot("", "home", "pellipop", "tv_show", "season1");
  }

  /** An excluded root followed by four usable names leaves those four. */
  lemma UsableSkipsRoot(a: string, b: string, c: string, d: string, e: string)
    requires a in Excluded && b !in Excluded && c !in Excluded && d !in Excluded && e !in Excluded
    ensures Usable([a, b, c, d, e]) == [b, c, d, e]
  {
    UsableSnoc([], a);
    assert [] + [a] == [a];
    UsableSnoc([a], b);
    assert [a] + [b] == [a, b];
    UsableSnoc([a, b], c);
    assert [a, b] + [c] == [a, b, c];
    UsableSnoc([a, b, c], d);
    assert [a, b, c] + [d] == [a, b, c, d];
    UsableSnoc([a, b, c, d], e);
    assert [a, b, c, d] + [e] == [a, b, c, d, e];
  }

  /** The default `DummyVideo` path with two directory names. */
  lemma DummyStem(p: Path)
    requires p == ["", "home", "pellipop", "tv_show", "season1", "episode3.mp4"]
    ensures Stem(p) == "episode3"
  {
    StemOfSuffixed("episode3", ".mp4");
    assert "episode3" + ".mp4" == "episode3.mp4";
  }

  lemma DummyJoin()
    ensures Join("_", ["tv_show", "season1"] + ["episode3"]) == "tv_show_season1_episode3"
  {
    assert ["tv_show", "season1"] + ["episode3"] == ["tv_show", "season1", "episode3"];
    assert ["tv_show", "season1", "episode3"][1..] == ["season1", "episode3"];
    assert ["season1", "episode3"][1..] == ["episode3"];
  }

  lemma DummyChosen(p: Path)
    requires p == ["", "home", "pellipop", "tv_show", "season1", "episode3.mp4"]
    ensures ChosenParents(p, 2) == ["tv_show", "season1"]
  {
    var d: Path := ["", "home", "pellipop", "tv_show", "season1"];
    assert p[..|p| - 1] == d;
    DummyVideoUsable();
    ChosenParentsInnermost(p, 2);
  }

  lemma DummyVideoFinalStem(p: Path)
    requires p == ["", "home", "pellipop", "tv_show", "season1", "episode3.mp4"]
    ensures FinalStemOf(p, -1, 0, 2) == "tv_show_season1_episode3"
  {
    var chosen, reduced := ChosenParents(p, 2), GetReduce(Stem(p), -1, 0);
    assert FinalStemOf(p, -1, 0, 2) == Join("_", chosen + [reduced]) by {
      assert chosen != [] by { DummyChosen(p); }
    }
    assert chosen + [reduced] == ["tv_show", "season1"] + ["episode3"] by {
      DummyChosen(p);
      DummyStem(p);
    }
    DummyJoin();
  }

  // ---- the frame rate ----

  /** `int(r.split("/")[0]) // int(r.split("/")[1])`, raising as Python does, left to right. */
  function FrameRate(rate: string): Result<int, Fault>
  {
    var parts := Split(rate, '/');
    match ParseInt(parts[0])
    case None => Err(ValueError)
    case Some(num) =>
      if |parts| < 2 then Err(IndexError)
      else match ParseInt(parts[1])
        case None => Err(ValueError)
        case Some(den) => if den == 0 then Err(ZeroDivisionError) else Ok(FloorDiv(num, den))
  }

  lemma NoSlashInNumber(i: int)
    ensures '/' !in IntToString(i)
  {
    NatToStringRoundTrip(if i < 0 then -i else i);
  }

  /** A rate written `num/den` gives the floor of the quotient, or a division error. */
  lemma FrameRateOf(num: int, den: int)
    ensures FrameRate(IntToString(num) + "/" + IntToString(den)) ==
      if den == 0 then Err(ZeroDivisionError) else Ok(FloorDiv(num, den))
  {
    var a, b := IntToString(num), IntToString(den);
    NoSlashInNumber(num);
    NoSlashInNumber(den);
    assert a + "/" + b == a + ['/'] + b;
    SplitFirst(a, b, '/');
    SplitFree(b, '/');
    IntToStringRoundTrip(num);
    IntToStringRoundTrip(den);
  }

  /** A rate without a slash is an `IndexError` once its numerator parses. */
  lemma FrameRateWithoutSlash(rate: string)
    requires '/' !in rate && ParseInt(rate).Some?
    ensures FrameRate(rate) == Err(IndexError)
  {
    SplitFree(rate, '/');
  }

  // ---- the probe's answer ----

  /** One stream of the probe's JSON answer: its fields, as text. */
  type Stream = map<string, string>

  /** The numbers `get_info` reads from the two streams. */
  datatype Info = Info(width: int, height: int, fps: int, channels: int, rate: int)

  /** `int(stream[key])`: a missing key is a `KeyError`, and a value `int` refuses is a
      `ValueError`. */
  function IntField(s: Stream, key: string): Result<int, Fault>
  {
    if key !in s then Err(KeyError)
    else match ParseInt(s[key])
      case None => Err(ValueError)
      case Some(n) => Ok(n)
  }

  /** `get_info` on the first video stream and the first audio stream the probe lists (`None`
      when it lists none, and subscripting `None` is a `TypeError`), reading the fields in the
      order of the source. */
  function GetInfo(video: Option<Stream>, audio: Option<Stream>): Result<Info, Fault>
  {
    if video.None? then Err(TypeError)
    else if "duration" !in video.value then Err(KeyError)
    else
      var w, h := IntField(video.value, "width"), IntField(video.value, "height");
      if w.Err? then Err(w.error)
      else if h.Err? then Err(h.error)
      else if "r_frame_rate" !in video.value then Err(KeyError)
      else
        var fps := FrameRate(video.value["r_frame_rate"]);
        if fps.Err? then Err(fps.error)
        else if audio.None? then Err(TypeError)
        else
          var c, r := IntField(audio.value, "channels"), IntField(audio.value, "sample_rate");
          if c.Err? then Err(c.error)
          else if r.Err? then Err(r.error)
          else Ok(Info(w.value, h.value, fps.value, c.value, r.value))
  }

  /** Every field `get_info` reads from the video stream is present and parses. */
  predicate VideoFieldsRead(v: Stream)
  {
    "duration" in v && IntField(v, "width").Ok? && IntField(v, "height").Ok? &&
    "r_frame_rate" in v && FrameRate(v["r_frame_rate"]).Ok?
  }

  /** The probe's answer is read exactly when both streams are there and every field is
      present and parses; the frame rate is then that of `r_frame_rate`. */
  lemma GetInfoOk(video: Option<Stream>, audio: Option<Stream>)
    ensures GetInfo(video, audio).Ok? <==>
      video.Some? && audio.Some? && VideoFieldsRead(video.value) &&
      IntField(audio.value, "channels").Ok? && IntField(audio.value, "sample_rate").Ok?
    ensures GetInfo(video, audio).Ok? ==>
      GetInfo(video, audio).value.fps == FrameRate(video.value["r_frame_rate"]).value &&
      GetInfo(video, audio).value.width == IntField(video.value, "width").value &&
      GetInfo(video, audio).value.height == IntField(video.value, "height").value
  {
  }

  /** A file without a video stream, and a readable video stream without an audio stream,
      raise `TypeError`; a video stream without a duration raises `KeyError`. */
  lemma GetInfoRaises(video: Option<Stream>, audio: Option<Stream>)
    ensures video.None? ==> GetInfo(video, audio) == Err(TypeError)
    ensures video.Some? && "duration" !in video.value ==> GetInfo(video, audio) == Err(KeyError)
    ensures video.Some? && audio.None? && VideoFieldsRead(video.value) ==> GetInfo(video, audio) == Err(TypeError)
  {
  }

  // ---- construction ----

  /** The `Video.__init__` assertions: the path must be a `Path` naming a regular file, and the
      three numbers must be in range. */
  function VideoArgsCheck(m: map<Path, Node>, isPathObject: bool, path: Path, reduce: int, offset: int,
                          parentsInName: int): Outcome<ArgError>
  {
    if !isPathObject then Fail(NotAPath)
    else if !IsFileIn(m, path) then Fail(NotAFile)
    else if !ExistsIn(m, path) then Fail(DoesNotExist)
    else if reduce < -1 then Fail(BadReduce)
    else if offset < 0 then Fail(BadOffset)
    else if parentsInName < 0 then Fail(BadParentsInName)
    else Pass
  }

  /** Construction is accepted exactly for a regular file and in-range numbers; the existence
      assertion can never be the one that fails, since `is_file` is checked first. */
  lemma VideoArgsAccepted(m: map<Path, Node>, isPathObject: bool, path: Path, reduce: int, offset: int,
                          parentsInName: int)
    ensures VideoArgsCheck(m, isPathObject, path, reduce, offset, parentsInName) == Pass <==>
      isPathObject && IsFileIn(m, path) && reduce >= -1 && offset >= 0 && parentsInName >= 0
    ensures VideoArgsCheck(m, isPathObject, path, reduce, offset, parentsInName) != Fail(DoesNotExist)
  {
  }

  // ---- renaming ----

  /** `p.with_stem(s)`, which raises `ValueError` for a path without a name or an empty or
      invalid new name. */
  function WithStemChecked(p: Path, s: string): (r: Result<Path, Fault>)
    ensures r.Ok? ==> Parent(r.value) == Parent(p) && Name(r.value) == s + Suffix(p)
  {
    var n := s + Suffix(p);
    if Name(p) == "" || n == "" || n == "." || '/' in n then Err(ValueError) else Ok(WithName(p, n))
  }

  /** The state after a rename and the path it returned, or what it raised. */
  datatype Renamed = Renamed(entries: map<Path, Node>, result: Result<Path, Fault>)

  /** `rename_to_final(p, ...)` on the file system `m`, where `dest` is the new folder when
      both folders were passed. */
  function RenameToFinalSpec(m: map<Path, Node>, p: Path, stem: string, final: string, dest: Option<Path>): Renamed
  {
    if final == stem then Renamed(m, Ok(p))
    else match WithStemChecked(p, PyReplace(Stem(p), stem, final))
      case Err(f) => Renamed(m, Err(f))
      case Ok(q) =>
        match RenameResult(m, p, q)
        case Err(e) => Renamed(m, Err(Os(e)))
        case Ok(m1) =>
          match dest
          case None => Renamed(m1, Ok(q))
          case Some(d) =>
            var t := Child(d, Name(q));
            match RenameResult(m1, q, t)
            case Err(e) => Renamed(m1, Err(Os(e)))
            case Ok(m2) => Renamed(m2, Ok(t))
  }

  /** The name an artifact gets: its stem with every occurrence of the video's stem replaced by
      the final stem, and its suffix kept. */
  function FinalName(p: Path, stem: string, final: string): string
  {
    PyReplace(Stem(p), stem, final) + Suffix(p)
  }

  /** A successful `rename_to_final` leaves the file's node under the returned path, which has
      the final name and sits in the new folder when one was given; nothing changes when the
      final stem is the stem. */
  lemma RenameToFinalMoves(m: map<Path, Node>, p: Path, stem: string, final: string, dest: Option<Path>)
    ensures final == stem ==> RenameToFinalSpec(m, p, stem, final, dest) == Renamed(m, Ok(p))
    ensures var s := RenameToFinalSpec(m, p, stem, final, dest);
      final != stem && s.result.Ok? ==>
        p in m && !m[p].Dir? && s.result.value in s.entries && s.entries[s.result.value] == m[p] &&
        (s.result.value != p ==> p !in s.entries) &&
        Name(s.result.value) == FinalName(p, stem, final) &&
        Parent(s.result.value) == (if dest.Some? then dest.value else Parent(p))
    ensures var s := RenameToFinalSpec(m, p, stem, final, dest);
      final != stem && dest.Some? && s.result.Ok? ==> s.result.value == Child(dest.value, FinalName(p, stem, final))
  {
    if final != stem {
      var w := WithStemChecked(p, PyReplace(Stem(p), stem, final));
      if w.Ok? {
        var q := w.value;
        assert Name(q) == FinalName(p, stem, final);
        RenameMoves(m, p, q);
        if RenameResult(m, p, q).Ok? && dest.Some? {
          var m1 := RenameResult(m, p, q).value;
          var t := Child(dest.value, Name(q));
          RenameMoves(m1, q, t);
        }
      }
    }
  }

  /** The paths a `rename_to_final` of `p` may change: `p` itself, its renamed sibling, and
      its place in the new folder when one is given. */
  function RenameTouched(p: Path, stem: string, final: string, dest: Option<Path>): set<Path>
  {
    var n := FinalName(p, stem, final);
    if dest.Some? then {p, Child(Parent(p), n), Child(dest.value, n)} else {p, Child(Parent(p), n)}
  }

  /** `rename_to_final`, whether it succeeds or raises, changes no entry outside the paths it
      touches. */
  lemma RenameToFinalFrame(m: map<Path, Node>, p: Path, stem: string, final: string, dest: Option<Path>)
    ensures var s := RenameToFinalSpec(m, p, stem, final, dest);
      forall x :: x !in RenameTouched(p, stem, final, dest) ==> (x in s.entries <==> x in m) && (x in m ==> s.entries[x] == m[x])
  {
    if final != stem {
      var w := WithStemChecked(p, PyReplace(Stem(p), stem, final));
      if w.Ok? {
        var q := w.value;
        assert q == Child(Parent(p), FinalName(p, stem, final));
        RenameFrame(m, p, q);
        if RenameResult(m, p, q).Ok? && dest.Some? {
          RenameFrame(RenameResult(m, p, q).value, q, Child(dest.value, Name(q)));
        }
      }
    }
  }

  /** A rename batch: the state reached and the new paths, or what was raised. */
  datatype Batch = Batch(entries: map<Path, Node>, result: Result<seq<Path>, Fault>)

  /** The list comprehension of `rename_to_final_images`: each image in turn is renamed into
      `dest`; the first exception ends it. */
  function RenameAllSpec(m: map<Path, Node>, imgs: seq<Path>, stem: string, final: string, dest: Path): Batch
    decreases |imgs|
  {
    if imgs == [] then Batch(m, Ok([]))
    else
      var s := RenameToFinalSpec(m, imgs[0], stem, final, Some(dest));
      match s.result
      case Err(f) => Batch(s.entries, Err(f))
      case Ok(q) => Prepend([q], RenameAllSpec(s.entries, imgs[1..], stem, final, dest))
  }

  /** Puts `done` in front of a batch's paths. */
  function Prepend(done: seq<Path>, b: Batch): Batch
  {
    match b.result
    case Err(_) => b
    case Ok(qs) => Batch(b.entries, Ok(done + qs))
  }

  /** One step of a batch: the first rename, then the rest from the state it left. */
  lemma RenameAllStep(m: map<Path, Node>, imgs: seq<Path>, stem: string, final: string, dest: Path)
    requires imgs != []
    ensures var s := RenameToFinalSpec(m, imgs[0], stem, final, Some(dest));
      RenameAllSpec(m, imgs, stem, final, dest) ==
        if s.result.Err? then Batch(s.entries, Err(s.result.error))
        else Prepend([s.result.value], RenameAllSpec(s.entries, imgs[1..], stem, final, dest))
  {
  }

  lemma PrependTwice(a: seq<Path>, b: seq<Path>, x: Batch)
    ensures Prepend(a, Prepend(b, x)) == Prepend(a + b, x)
  {
    if x.result.Ok? {
      assert a + (b + x.result.value) == (a + b) + x.result.value;
    }
  }

  /** `qs` holds each of `imgs`, in order, in `dest` under its final name. */
  predicate FinalPaths(qs: seq<Path>, imgs: seq<Path>, stem: string, final: string, dest: Path)
  {
    |qs| == |imgs| && forall k :: 0 <= k < |imgs| ==> qs[k] == Child(dest, FinalName(imgs[k], stem, final))
  }

  /** A successful batch keeps the images' count and order, and puts each one in `dest` under
      its final name. */
  lemma {:induction false} RenameAllShape(m: map<Path, Node>, imgs: seq<Path>, stem: string, final: string, dest: Path)
    requires final != stem
    ensures RenameAllSpec(m, imgs, stem, final, dest).result.Ok? ==>
      FinalPaths(RenameAllSpec(m, imgs, stem, final, dest).result.value, imgs, stem, final, dest)
    decreases |imgs|
  {
    if imgs != [] {
      RenameAllStep(m, imgs, stem, final, dest);
      var s := RenameToFinalSpec(m, imgs[0], stem, final, Some(dest));
      if s.result.Ok? {
        RenameToFinalMoves(m, imgs[0], stem, final, Some(dest));
        var rest := RenameAllSpec(s.entries, imgs[1..], stem, final, dest);
        if rest.result.Ok? {
          RenameAllShape(s.entries, imgs[1..], stem, final, dest);
          FinalPathsCons(s.result.value, rest.result.value, imgs, stem, final, dest);
        }
      }
    }
  }

  /** The final path of the first image in front of those of the others. */
  lemma FinalPathsCons(q: Path, qs: seq<Path>, imgs: seq<Path>, stem: string, final: string, dest: Path)
    requires imgs != [] && q == Child(dest, FinalName(imgs[0], stem, final))
    requires FinalPaths(qs, imgs[1..], stem, final, dest)
    ensures FinalPaths([q] + qs, imgs, stem, final, dest)
  {
    var r := [q] + qs;
    forall k | 0 <= k < |imgs| ensures r[k] == Child(dest, FinalName(imgs[k], stem, final)) {
      if k > 0 {
        assert r[k] == qs[k - 1];
        assert imgs[1..][k - 1] == imgs[k];
      }
    }
  }

  /** No two images' renames touch a common path. */
  predicate SeparateRenames(imgs: seq<Path>, stem: string, final: string, dest: Path)
  {
    forall j, k :: 0 <= j < k < |imgs| ==>
      RenameTouched(imgs[j], stem, final, Some(dest)) !! RenameTouched(imgs[k], stem, final, Some(dest))
  }

  /** `x` lies outside every image's rename footprint. */
  predicate Untouched(x: Path, imgs: seq<Path>, stem: string, final: string, dest: Path)
  {
    forall k :: 0 <= k < |imgs| ==> x !in RenameTouched(imgs[k], stem, final, Some(dest))
  }

  /** `rename_to_final`, whether it succeeds or raises, keeps every directory. */
  lemma RenameToFinalKeepsDirs(m: map<Path, Node>, p: Path, stem: string, final: string, dest: Option<Path>)
    ensures var s := RenameToFinalSpec(m, p, stem, final, dest);
      forall x :: x in m && m[x].Dir? ==> x in s.entries && s.entries[x] == Dir
  {
    if final != stem {
      var w := WithStemChecked(p, PyReplace(Stem(p), stem, final));
      if w.Ok? {
        RenameKeepsDirs(m, p, w.value);
        if RenameResult(m, p, w.value).Ok? && dest.Some? {
          RenameKeepsDirs(RenameResult(m, p, w.value).value, w.value, Child(dest.value, Name(w.value)));
        }
      }
    }
  }

  /** A batch, whether it succeeds or raises, keeps every directory. */
  lemma {:induction false} RenameAllKeepsDirs(m: map<Path, Node>, imgs: seq<Path>, stem: string, final: string, dest: Path)
    ensures var b := RenameAllSpec(m, imgs, stem, final, dest);
      forall x :: x in m && m[x].Dir? ==> x in b.entries && b.entries[x] == Dir
    decreases |imgs|
  {
    if imgs != [] {
      RenameAllStep(m, imgs, stem, final, dest);
      var s := RenameToFinalSpec(m, imgs[0], stem, final, Some(dest));
      RenameToFinalKeepsDirs(m, imgs[0], stem, final, Some(dest));
      RenameAllKeepsDirs(s.entries, imgs[1..], stem, final, dest);
    }
  }

  /** The tail of a separate batch is separate, and stays clear of the first image's
      footprint. */
  lemma SeparateTail(imgs: seq<Path>, stem: string, final: string, dest: Path)
    requires imgs != [] && SeparateRenames(imgs, stem, final, dest)
    ensures SeparateRenames(imgs[1..], stem, final, dest)
    ensures forall x :: x in RenameTouched(imgs[0], stem, final, Some(dest)) ==> Untouched(x, imgs[1..], stem, final, dest)
  {
    var tail := imgs[1..];
    forall j, k | 0 <= j < k < |tail|
      ensures RenameTouched(tail[j], stem, final, Some(dest)) !! RenameTouched(tail[k], stem, final, Some(dest))
    {
      assert tail[j] == imgs[j + 1] && tail[k] == imgs[k + 1];
    }
    forall x, k | x in RenameTouched(imgs[0], stem, final, Some(dest)) && 0 <= k < |tail|
      ensures x !in RenameTouched(tail[k], stem, final, Some(dest))
    {
      assert tail[k] == imgs[k + 1];
    }
  }

  /** A path outside every footprint is outside the first one and those of the rest. */
  lemma UntouchedTail(x: Path, imgs: seq<Path>, stem: string, final: string, dest: Path)
    requires imgs != [] && Untouched(x, imgs, stem, final, dest)
    ensures x !in RenameTouched(imgs[0], stem, final, Some(dest))
    ensures Untouched(x, imgs[1..], stem, final, dest)
  {
    forall k | 0 <= k < |imgs[1..]| ensures x !in RenameTouched(imgs[1..][k], stem, final, Some(dest)) {
      assert imgs[1..][k] == imgs[k + 1];
    }
  }

  /** A batch, whether it succeeds or raises, changes no entry outside the images' footprints. */
  lemma {:induction false} RenameAllFrame(m: map<Path, Node>, imgs: seq<Path>, stem: string, final: string, dest: Path)
    ensures var b := RenameAllSpec(m, imgs, stem, final, dest);
      forall x :: Untouched(x, imgs, stem, final, dest) ==> (x in b.entries <==> x in m) && (x in m ==> b.entries[x] == m[x])
    decreases |imgs|
  {
    if imgs != [] {
      RenameAllStep(m, imgs, stem, final, dest);
      var s := RenameToFinalSpec(m, imgs[0], stem, final, Some(dest));
      RenameToFinalFrame(m, imgs[0], stem, final, Some(dest));
      RenameAllFrame(s.entries, imgs[1..], stem, final, dest);
      forall x | Untouched(x, imgs, stem, final, dest)
        ensures x !in RenameTouched(imgs[0], stem, final, Some(dest)) && Untouched(x, imgs[1..], stem, final, dest)
      {
        UntouchedTail(x, imgs, stem, final, dest);
      }
    }
  }

  /** A successful batch whose renames touch separate paths leaves under each new path the
      node its image held before. */
  lemma {:induction false} RenameAllMoves(m: map<Path, Node>, imgs: seq<Path>, stem: string, final: string, dest: Path)
    requires final != stem
    requires SeparateRenames(imgs, stem, final, dest)
    ensures var b := RenameAllSpec(m, imgs, stem, final, dest);
      b.result.Ok? ==> (|b.result.value| == |imgs| &&
        forall k :: 0 <= k < |imgs| ==>
          imgs[k] in m && !m[imgs[k]].Dir? && b.result.value[k] in b.entries && b.entries[b.result.value[k]] == m[imgs[k]])
    decreases |imgs|
  {
    if imgs != [] {
      RenameAllStep(m, imgs, stem, final, dest);
      var s := RenameToFinalSpec(m, imgs[0], stem, final, Some(dest));
      var b := RenameAllSpec(m, imgs, stem, final, dest);
      if s.result.Ok? && b.result.Ok? {
        var tail := imgs[1..];
        var rest := RenameAllSpec(s.entries, tail, stem, final, dest);
        var q := s.result.value;
        assert b.entries == rest.entries && b.result.value == [q] + rest.result.value;
        SeparateTail(imgs, stem, final, dest);
        RenameAllMoves(s.entries, tail, stem, final, dest);
        assert imgs[0] in m && !m[imgs[0]].Dir? && q in b.entries && b.entries[q] == m[imgs[0]] by {
          RenameToFinalMoves(m, imgs[0], stem, final, Some(dest));
          assert q in RenameTouched(imgs[0], stem, final, Some(dest));
          RenameAllFrame(s.entries, tail, stem, final, dest);
        }
        forall k | 1 <= k < |imgs|
          ensures imgs[k] in m && !m[imgs[k]].Dir? && rest.result.value[k - 1] in b.entries &&
            b.entries[rest.result.value[k - 1]] == m[imgs[k]]
        {
          assert tail[k - 1] == imgs[k];
          assert imgs[k] !in RenameTouched(imgs[0], stem, final, Some(dest)) by {
            assert imgs[k] in RenameTouched(imgs[k], stem, final, Some(dest));
          }
          RenameToFinalFrame(m, imgs[0], stem, final, Some(dest));
        }
      }
    }
  }

  /** The image artifacts and the state after `rename_to_final_images`. */
  datatype ImagesState = ImagesState(entries: map<Path, Node>, imageFolder: Option<Path>, images: seq<Path>,
                                     outcome: Outcome<Fault>)

  /** The folder the images move to: a sibling of the old one named after the final stem. */
  function NewImageFolder(folder: Path, final: string): Path
  {
    Child(Parent(folder), Replace(final, " ", "_"))
  }

  /** `rename_to_final_images`: the field `image_folder` is updated before `mkdir`, the field
      `images` only after every image is renamed, and the old folder is removed last. */
  function RenameToFinalImagesSpec(m: map<Path, Node>, folder: Option<Path>, images: seq<Path>,
                                   stem: string, final: string): ImagesState
  {
    if final == stem then ImagesState(m, folder, images, Pass)
    else if folder.None? then ImagesState(m, folder, images, Fail(AttributeError))
    else
      var nf := NewImageFolder(folder.value, final);
      match MkdirResult(m, nf, true, true)
      case Err(e) => ImagesState(m, Some(nf), images, Fail(Os(e)))
      case Ok(m1) =>
        var b := RenameAllSpec(m1, images, stem, final, nf);
        match b.result
        case Err(f) => ImagesState(b.entries, Some(nf), images, Fail(f))
        case Ok(qs) =>
          match RmdirResult(b.entries, folder.value)
          case Err(e) => ImagesState(b.entries, Some(nf), qs, Fail(Os(e)))
          case Ok(m2) => ImagesState(m2, Some(nf), qs, Pass)
  }

  /** After a successful `rename_to_final_images` with a new final stem, the images keep their
      count and order, each lies in the new folder under its final name, and the old folder is
      gone. */
  lemma RenameToFinalImagesEffect(m: map<Path, Node>, folder: Option<Path>, images: seq<Path>,
                                  stem: string, final: string)
    ensures final == stem ==> RenameToFinalImagesSpec(m, folder, images, stem, final) == ImagesState(m, folder, images, Pass)
    ensures final != stem && RenameToFinalImagesSpec(m, folder, images, stem, final).outcome.Pass? ==>
      folder.Some? &&
      RenameToFinalImagesSpec(m, folder, images, stem, final).imageFolder == Some(NewImageFolder(folder.value, final)) &&
      |RenameToFinalImagesSpec(m, folder, images, stem, final).images| == |images| &&
      (forall k :: 0 <= k < |images| ==>
        RenameToFinalImagesSpec(m, folder, images, stem, final).images[k] ==
          Child(NewImageFolder(folder.value, final), FinalName(images[k], stem, final))) &&
      folder.value !in RenameToFinalImagesSpec(m, folder, images, stem, final).entries
  {
    if final != stem && folder.Some? {
      var nf := NewImageFolder(folder.value, final);
      if MkdirResult(m, nf, true, true).Ok? {
        RenameAllShape(MkdirResult(m, nf, true, true).value, images, stem, final, nf);
      }
    }
  }

  /** The state `rename_to_final_images` leaves with a new final stem: the old one when `mkdir`
      raises, otherwise that of the batch, less the old folder when it could be removed. */
  lemma ImagesEntries(m: map<Path, Node>, folder: Path, images: seq<Path>, stem: string, final: string)
    requires final != stem
    ensures var st := RenameToFinalImagesSpec(m, Some(folder), images, stem, final);
      var mk := MkdirResult(m, NewImageFolder(folder, final), true, true);
      (mk.Err? ==> st.entries == m && st.outcome.Fail?) &&
      (mk.Ok? ==>
        var b := RenameAllSpec(mk.value, images, stem, final, NewImageFolder(folder, final));
        (st.entries == b.entries || st.entries == b.entries - {folder}) &&
        (st.outcome.Pass? ==>
          b.result.Ok? && st.images == b.result.value && st.entries == b.entries - {folder} && !HasChild(b.entries, folder)))
  {
    var nf := NewImageFolder(folder, final);
    var st := RenameToFinalImagesSpec(m, Some(folder), images, stem, final);
    match MkdirResult(m, nf, true, true)
    case Err(_) =>
    case Ok(m1) =>
      var b := RenameAllSpec(m1, images, stem, final, nf);
      match b.result
      case Err(_) => assert st.entries == b.entries;
      case Ok(qs) =>
        match RmdirResult(b.entries, folder)
        case Err(_) => assert st.entries == b.entries;
        case Ok(m2) => assert st.entries == b.entries - {folder};
  }

  /** `rename_to_final_images`, whether it succeeds or raises, changes no entry outside the
      images' footprints, the old folder, and the new folder with the ancestors `mkdir` may
      create. */
  lemma RenameToFinalImagesFrame(m: map<Path, Node>, folder: Path, images: seq<Path>, stem: string, final: string)
    ensures var st := RenameToFinalImagesSpec(m, Some(folder), images, stem, final);
      var nf := NewImageFolder(folder, final);
      forall x :: x != folder && x != nf && !Below(nf, x) && Untouched(x, images, stem, final, nf) ==>
        (x in st.entries <==> x in m) && (x in m ==> st.entries[x] == m[x])
  {
    if final != stem {
      var nf := NewImageFolder(folder, final);
      var st := RenameToFinalImagesSpec(m, Some(folder), images, stem, final);
      ImagesEntries(m, folder, images, stem, final);
      MkdirAdds(m, nf, true, true);
      var mk := MkdirResult(m, nf, true, true);
      if mk.Ok? {
        RenameAllFrame(mk.value, images, stem, final, nf);
      }
    }
  }

  /** After a successful `rename_to_final_images` whose renames touch separate paths, each
      image's old node lies under its new path, and the new folder is a directory. */
  lemma RenameToFinalImagesMoves(m: map<Path, Node>, folder: Path, images: seq<Path>, stem: string, final: string)
    requires final != stem
    requires SeparateRenames(images, stem, final, NewImageFolder(folder, final))
    ensures var st := RenameToFinalImagesSpec(m, Some(folder), images, stem, final);
      st.outcome.Pass? ==>
        (images != [] ==> IsDirIn(st.entries, NewImageFolder(folder, final))) && |st.images| == |images| &&
        forall k :: 0 <= k < |images| ==> images[k] in m && st.images[k] in st.entries && st.entries[st.images[k]] == m[images[k]]
  {
    var nf := NewImageFolder(folder, final);
    var st := RenameToFinalImagesSpec(m, Some(folder), images, stem, final);
    ImagesEntries(m, folder, images, stem, final);
    if st.outcome.Pass? {
      MkdirAdds(m, nf, true, true);
      var m1 := MkdirResult(m, nf, true, true).value;
      var b := RenameAllSpec(m1, images, stem, final, nf);
      RenameAllMoves(m1, images, stem, final, nf);
      RenameAllShape(m1, images, stem, final, nf);
      RenameAllKeepsDirs(m1, images, stem, final, nf);
      ImagesLand(m, m1, b.entries, st.entries, images, b.result.value, folder, nf);
    }
  }

  /** The last steps of `rename_to_final_images`, on plain maps: `mkdir` took `m` to `m1`, the
      renames took `m1` to `renamed` and put each image under `qs` in `nf`, and removing the old
      folder gave `out`. */
  lemma ImagesLand(m: map<Path, Node>, m1: map<Path, Node>, renamed: map<Path, Node>, out: map<Path, Node>,
                   images: seq<Path>, qs: seq<Path>, folder: Path, nf: Path)
    requires forall q :: q in m ==> q in m1 && m1[q] == m[q]
    requires forall q :: q in m1 && q !in m ==> m1[q] == Dir
    requires IsDirIn(m1, nf) && nf != [] && |nf| >= |folder|
    requires forall x :: x in m1 && m1[x].Dir? ==> x in renamed && renamed[x] == Dir
    requires |qs| == |images|
    requires forall k :: 0 <= k < |images| ==>
      images[k] in m1 && !m1[images[k]].Dir? && qs[k] in renamed && renamed[qs[k]] == m1[images[k]]
    requires forall k :: 0 <= k < |qs| ==> |qs[k]| > 0 && Parent(qs[k]) == nf
    requires out == renamed - {folder} && !HasChild(renamed, folder)
    ensures images != [] ==> IsDirIn(out, nf)
    ensures forall k :: 0 <= k < |images| ==> images[k] in m && qs[k] in out && out[qs[k]] == m[images[k]]
  {
    if images != [] {
      assert nf != folder by {
        assert qs[0] in renamed && |qs[0]| > 0 && Parent(qs[0]) == nf;
      }
    }
    forall k | 0 <= k < |images| ensures images[k] in m && qs[k] in out && out[qs[k]] == m[images[k]] {
      assert |qs[k]| == |nf| + 1;
    }
  }

  /** The artifact fields of a video. */
  datatype Artifacts = Artifacts(imageFolder: Option<Path>, images: seq<Path>, audio: Option<Path>,
                                 json: Option<Path>, text: Option<Path>, csv: Option<Path>)

  /** The artifacts and the state after `final_names`, and how it ended. */
  datatype NamesState = NamesState(entries: map<Path, Node>, artifacts: Artifacts, outcome: Outcome<Fault>)

  /** The artifacts that are single files, in the order `final_names` renames them. */
  datatype FileField = AudioFile | JsonFile | TextFile | CsvFile

  const FileFields: seq<FileField> := [AudioFile, JsonFile, TextFile, CsvFile]

  function FieldOf(a: Artifacts, f: FileField): Option<Path>
  {
    match f
    case AudioFile => a.audio
    case JsonFile => a.json
    case TextFile => a.text
    case CsvFile => a.csv
  }

  function WithField(a: Artifacts, f: FileField, v: Option<Path>): (r: Artifacts)
    ensures FieldOf(r, f) == v
    ensures forall g :: g != f ==> FieldOf(r, g) == FieldOf(a, g)
    ensures r.images == a.images && r.imageFolder == a.imageFolder
  {
    match f
    case AudioFile => a.(audio := v)
    case JsonFile => a.(json := v)
    case TextFile => a.(text := v)
    case CsvFile => a.(csv := v)
  }

  /** `if self.f: self.f = self.rename_to_final(self.f)`: the field keeps its old value when
      the rename raises. */
  function FieldStep(m: map<Path, Node>, a: Artifacts, f: FileField, stem: string, final: string): NamesState
  {
    match FieldOf(a, f)
    case None => NamesState(m, a, Pass)
    case Some(p) =>
      var s := RenameToFinalSpec(m, p, stem, final, None);
      match s.result
      case Err(e) => NamesState(s.entries, a, Fail(e))
      case Ok(q) => NamesState(s.entries, WithField(a, f, Some(q)), Pass)
  }

  /** The file fields renamed in turn; the first exception ends `final_names`. */
  function FieldsSpec(m: map<Path, Node>, a: Artifacts, fields: seq<FileField>, stem: string, final: string): NamesState
    decreases |fields|
  {
    if fields == [] then NamesState(m, a, Pass)
    else
      var st := FieldStep(m, a, fields[0], stem, final);
      if st.outcome.Fail? then st else FieldsSpec(st.entries, st.artifacts, fields[1..], stem, final)
  }

  /** `final_names`: the images (when there are any), then each set file artifact in turn. */
  function FinalNamesSpec(m: map<Path, Node>, a: Artifacts, stem: string, final: string): NamesState
  {
    var imgs := if a.images != [] then RenameToFinalImagesSpec(m, a.imageFolder, a.images, stem, final)
      else ImagesState(m, a.imageFolder, a.images, Pass);
    var a1 := a.(imageFolder := imgs.imageFolder, images := imgs.images);
    if imgs.outcome.Fail? then NamesState(imgs.entries, a1, imgs.outcome)
    else FieldsSpec(imgs.entries, a1, FileFields, stem, final)
  }

  predicate Distinct(fields: seq<FileField>)
  {
    forall i, j :: 0 <= i < j < |fields| ==> fields[i] != fields[j]
  }

  /** What renaming the file fields does to one field `g`: an unset field stays unset, a field
      not listed stays as it was, and after a successful pass with a new final stem a listed set
      field names a file with the final name in the same folder. The images are never touched,
      and nothing changes when the final stem is the stem. */
  lemma {:induction false} FieldsEffect(m: map<Path, Node>, a: Artifacts, fields: seq<FileField>, stem: string,
                                        final: string, g: FileField)
    requires Distinct(fields)
    ensures FieldsSpec(m, a, fields, stem, final).artifacts.images == a.images
    ensures FieldsSpec(m, a, fields, stem, final).artifacts.imageFolder == a.imageFolder
    ensures FieldOf(a, g).None? ==> FieldOf(FieldsSpec(m, a, fields, stem, final).artifacts, g).None?
    ensures g !in fields ==> FieldOf(FieldsSpec(m, a, fields, stem, final).artifacts, g) == FieldOf(a, g)
    ensures final != stem && FieldsSpec(m, a, fields, stem, final).outcome.Pass? && g in fields && FieldOf(a, g).Some? ==>
      RenamedTo(FieldOf(a, g).value, FieldOf(FieldsSpec(m, a, fields, stem, final).artifacts, g), stem, final)
    ensures final == stem ==> FieldsSpec(m, a, fields, stem, final) == NamesState(m, a, Pass)
    decreases |fields|
  {
    if fields != [] {
      var f := fields[0];
      var st := FieldStep(m, a, f, stem, final);
      FieldStepEffect(m, a, f, stem, final, g);
      if st.outcome.Pass? {
        DistinctTail(fields, g);
        FieldsEffect(st.entries, st.artifacts, fields[1..], stem, final, g);
      }
    }
  }

  /** One field renamed: the images and every other field stay as they were, an unset field is
      skipped, and on success with a new final stem the field names its file's new path. */
  lemma FieldStepEffect(m: map<Path, Node>, a: Artifacts, f: FileField, stem: string, final: string, g: FileField)
    ensures var st := FieldStep(m, a, f, stem, final);
      st.artifacts.images == a.images && st.artifacts.imageFolder == a.imageFolder &&
      (FieldOf(a, g).None? ==> FieldOf(st.artifacts, g).None?) &&
      (g != f ==> FieldOf(st.artifacts, g) == FieldOf(a, g)) &&
      (final != stem && st.outcome.Pass? && g == f && FieldOf(a, g).Some? ==>
        RenamedTo(FieldOf(a, g).value, FieldOf(st.artifacts, g), stem, final)) &&
      (final == stem ==> st == NamesState(m, a, Pass))
  {
    if FieldOf(a, f).Some? {
      RenameToFinalMoves(m, FieldOf(a, f).value, stem, final, None);
    }
  }

  /** The tail of a list of distinct fields is distinct, and holds every field but the
      first. */
  lemma DistinctTail(fields: seq<FileField>, g: FileField)
    requires Distinct(fields) && fields != []
    ensures Distinct(fields[1..])
    ensures g == fields[0] ==> g !in fields[1..]
    ensures g != fields[0] && g in fields ==> g in fields[1..]
  {
    forall i, j | 0 <= i < j < |fields[1..]| ensures fields[1..][i] != fields[1..][j] {
      assert fields[1..][i] == fields[i + 1] && fields[1..][j] == fields[j + 1];
    }
    if g == fields[0] {
      forall j | 0 <= j < |fields[1..]| ensures fields[1..][j] != g {
        assert fields[1..][j] == fields[j + 1];
      }
    } else if g in fields {
      var i :| 0 <= i < |fields| && fields[i] == g;
      assert fields[1..][i - 1] == g;
    }
  }

  predicate RenamedTo(p: Path, q: Option<Path>, stem: string, final: string)
  {
    q.Some? && Name(q.value) == FinalName(p, stem, final) && Parent(q.value) == Parent(p)
  }

  /** `final_names` touches only the artifacts that are set; when it succeeds with a new final
      stem, every set file artifact names a file with the final name in its own folder; and it
      does nothing at all when the final stem is the stem. */
  lemma FinalNamesEffect(m: map<Path, Node>, a: Artifacts, stem: string, final: string, g: FileField)
    ensures a.images == [] ==>
      FinalNamesSpec(m, a, stem, final).artifacts.images == [] &&
      FinalNamesSpec(m, a, stem, final).artifacts.imageFolder == a.imageFolder
    ensures FieldOf(a, g).None? ==> FieldOf(FinalNamesSpec(m, a, stem, final).artifacts, g).None?
    ensures final != stem && FinalNamesSpec(m, a, stem, final).outcome.Pass? && FieldOf(a, g).Some? ==>
      RenamedTo(FieldOf(a, g).value, FieldOf(FinalNamesSpec(m, a, stem, final).artifacts, g), stem, final)
    ensures final == stem ==> FinalNamesSpec(m, a, stem, final) == NamesState(m, a, Pass)
  {
    var imgs := if a.images != [] then RenameToFinalImagesSpec(m, a.imageFolder, a.images, stem, final)
      else ImagesState(m, a.imageFolder, a.images, Pass);
    var a1 := a.(imageFolder := imgs.imageFolder, images := imgs.images);
    assert FieldOf(a1, g) == FieldOf(a, g);
    RenameToFinalImagesEffect(m, a.imageFolder, a.images, stem, final);
    if imgs.outcome.Pass? {
      assert Distinct(FileFields);
      assert g in FileFields by {
        match g
        case AudioFile => assert FileFields[0] == g;
        case JsonFile => assert FileFields[1] == g;
        case TextFile => assert FileFields[2] == g;
        case CsvFile => assert FileFields[3] == g;
      }
      FieldsEffect(imgs.entries, a1, FileFields, stem, final, g);
    }
  }

  /** A stem after text free of its first character is replaced there, once. */
  lemma ReplaceAtEnd(pre: string, stem: string, val: string)
    requires stem != [] && stem[0] !in pre
    ensures PyReplace(pre + stem, stem, val) == pre + val
  {
    ReplaceSkips(pre, stem, stem, val);
    PyReplaceWhole(stem, val);
  }

  /** Renaming is not idempotent: when the final stem ends with the stem after a prefix that
      cannot start it, a second `final_names` replaces the stem again inside the already final
      name, so `b.wav` of a video with stem `b` and final stem `a_b` becomes `a_b.wav` and then
      `a_a_b.wav` (by `RenameToFinalMoves`, the renamed file carries the final name). */
  lemma FinalNamesNotIdempotent(pre: string, suf: string, stem: string, final: string)
    requires stem != [] && pre != [] && stem[0] !in pre && final == pre + stem
    requires |suf| >= 2 && suf[0] == '.' && '.' !in suf[1..]
    ensures FinalName([stem + suf], stem, final) == final + suf
    ensures FinalName([final + suf], stem, final) == pre + final + suf != final + suf
  {
    assert FinalName([stem + suf], stem, final) == final + suf by {
      var e: string := [];
      assert e + stem == stem;
      FinalNameAtEnd(e, suf, stem, final);
    }
    assert FinalName([final + suf], stem, final) == pre + final + suf by {
      assert final + suf == pre + stem + suf;
      FinalNameAtEnd(pre, suf, stem, final);
    }
    assert |pre + final + suf| != |final + suf|;
  }

  /** The final name of a file `pre + stem + suf` whose stem occurs only at the end of its
      stem puts the final stem in its place and keeps the suffix. */
  lemma FinalNameAtEnd(pre: string, suf: string, stem: string, final: string)
    requires stem != [] && stem[0] !in pre
    requires |suf| >= 2 && suf[0] == '.' && '.' !in suf[1..]
    ensures FinalName([pre + stem + suf], stem, final) == pre + final + suf
  {
    StemOfSuffixed(pre + stem, suf);
    ReplaceAtEnd(pre, stem, final);
  }

  // ---- the video object ----

  class Video {
    var path: Path
    var reduce: int
    var offset: int
    var parentsInName: int
    var images: seq<Path>
    var imageFolder: Option<Path>
    var audio: Option<Path>
    var json: Option<Path>
    var text: Option<Path>
    var csv: Option<Path>
    var fps: Option<int>

    /** `ABC_Video.__init__`: no artifact yet and no stream information. */
    constructor (path: Path, reduce: int, offset: int, parentsInName: int)
      ensures this.path == path && this.reduce == reduce && this.offset == offset
      ensures this.parentsInName == parentsInName
      ensures Outputs() == Artifacts(None, [], None, None, None, None) && fps == None
    {
      this.path := path;
      this.reduce := reduce;
      this.offset := offset;
      this.parentsInName := parentsInName;
      images := [];
      imageFolder := None;
      audio := None;
      json := None;
      text := None;
      csv := None;
      fps := None;
    }

    function VideoStem(): string
      reads this
    {
      Stem(path)
    }

    function FinalStem(): string
      reads this
    {
      FinalStemOf(path, reduce, offset, parentsInName)
    }

    function Outputs(): Artifacts
      reads this
    {
      Artifacts(imageFolder, images, audio, json, text, csv)
    }

    /** `rename_to_final(p, old_folder, new_folder)`. */
    method RenameToFinal(fs: FileSystem, p: Path, oldFolder: Option<Path>, newFolder: Option<Path>)
      returns (r: Result<Path, Fault>)
      requires fs.Valid()
      modifies fs
      ensures fs.Valid()
      ensures Renamed(fs.entries, r) ==
        RenameToFinalSpec(old(fs.entries), p, VideoStem(), FinalStem(),
                          if oldFolder.Some? && newFolder.Some? then newFolder else None)
    {
      var stem, final := VideoStem(), FinalStem();
      if final == stem {
        return Ok(p);
      }
      var target := WithStemChecked(p, PyReplace(Stem(p), stem, final));
      if target.Err? {
        return Err(target.error);
      }
      var q := target.value;
      var o := fs.Rename(p, q);
      if o.Fail? {
        return Err(Os(o.error));
      }
      if oldFolder.Some? && newFolder.Some? {
        var t := Child(newFolder.value, Name(q));
        o := fs.Rename(q, t);
        if o.Fail? {
          return Err(Os(o.error));
        }
        return Ok(t);
      }
      return Ok(q);
    }

    /** The list comprehension of `rename_to_final_images`, which moves every image into
        `newFolder` under its final name. */
    method RenameImagesInto(fs: FileSystem, oldFolder: Path, newFolder: Path) returns (r: Result<seq<Path>, Fault>)
      requires fs.Valid()
      modifies fs
      ensures fs.Valid()
      ensures Batch(fs.entries, r) == RenameAllSpec(old(fs.entries), images, VideoStem(), FinalStem(), newFolder)
    {
      var stem, final := VideoStem(), FinalStem();
      ghost var goal := RenameAllSpec(fs.entries, images, stem, final, newFolder);
      var renamed: seq<Path> := [];
      var i := 0;
      assert images[i..] == images;
      assert Prepend([], goal) == goal by { if goal.result.Ok? { assert [] + goal.result.value == goal.result.value; } }
      while i < |images|
        invariant 0 <= i <= |images|
        invariant fs.Valid()
        invariant Prepend(renamed, RenameAllSpec(fs.entries, images[i..], stem, final, newFolder)) == goal
      {
        ghost var before := fs.entries;
        assert images[i..][1..] == images[i + 1..];
        var q := RenameToFinal(fs, images[i], Some(oldFolder), Some(newFolder));
        RenameAllStep(before, images[i..], stem, final, newFolder);
        if q.Err? {
          return Err(q.error);
        }
        PrependTwice(renamed, [q.value], RenameAllSpec(fs.entries, images[i + 1..], stem, final, newFolder));
        renamed := renamed + [q.value];
        i := i + 1;
      }
      assert images[i..] == [];
      assert renamed + [] == renamed;
      return Ok(renamed);
    }

    /** `rename_to_final_images()`. */
    method RenameToFinalImages(fs: FileSystem) returns (r: Outcome<Fault>)
      requires fs.Valid()
      modifies this, fs
      ensures fs.Valid()
      ensures path == old(path) && reduce == old(reduce) && offset == old(offset)
      ensures parentsInName == old(parentsInName) && fps == old(fps)
      ensures audio == old(audio) && json == old(json) && text == old(text) && csv == old(csv)
      ensures ImagesState(fs.entries, imageFolder, images, r) ==
        RenameToFinalImagesSpec(old(fs.entries), old(imageFolder), old(images), VideoStem(), FinalStem())
    {
      var stem, final := VideoStem(), FinalStem();
      if final == stem {
        return Pass;
      }
      if imageFolder.None? {
        return Fail(AttributeError);
      }
      var oldFolder := imageFolder.value;
      var nf := NewImageFolder(oldFolder, final);
      imageFolder := Some(nf);
      var o := fs.Mkdir(nf, true, true);
      if o.Fail? {
        return Fail(Os(o.error));
      }
      var renamed := RenameImagesInto(fs, oldFolder, nf);
      if renamed.Err? {
        return Fail(renamed.error);
      }
      images := renamed.value;
      o := fs.Rmdir(oldFolder);
      if o.Fail? {
        return Fail(Os(o.error));
      }
      return Pass;
    }

    /** `if self.f: self.f = self.rename_to_final(self.f)` for one file artifact. */
    method RenameFileField(fs: FileSystem, f: FileField) returns (r: Outcome<Fault>)
      requires fs.Valid()
      modifies this, fs
      ensures fs.Valid()
      ensures path == old(path) && reduce == old(reduce) && offset == old(offset)
      ensures parentsInName == old(parentsInName) && fps == old(fps)
      ensures NamesState(fs.entries, Outputs(), r) ==
        FieldStep(old(fs.entries), old(Outputs()), f, VideoStem(), FinalStem())
    {
      var current := FieldOf(Outputs(), f);
      if current.None? {
        return Pass;
      }
      var q := RenameToFinal(fs, current.value, None, None);
      if q.Err? {
        return Fail(q.error);
      }
      match f {
        case AudioFile => audio := Some(q.value);
        case JsonFile => json := Some(q.value);
        case TextFile => text := Some(q.value);
        case CsvFile => csv := Some(q.value);
      }
      return Pass;
    }

    /** `final_names()`. */
    method FinalNames(fs: FileSystem) returns (r: Outcome<Fault>)
      requires fs.Valid()
      modifies this, fs
      ensures fs.Valid()
      ensures path == old(path) && reduce == old(reduce) && offset == old(offset)
      ensures parentsInName == old(parentsInName) && fps == old(fps)
      ensures NamesState(fs.entries, Outputs(), r) ==
        FinalNamesSpec(old(fs.entries), old(Outputs()), VideoStem(), FinalStem())
    {
      if images != [] {
        r := RenameToFinalImages(fs);
        if r.Fail? {
          return;
        }
      }
      ghost var stem, final := VideoStem(), FinalStem();
      ghost var goal := FinalNamesSpec(old(fs.entries), old(Outputs()), stem, final);
      assert goal == FieldsSpec(fs.entries, Outputs(), FileFields, stem, final);
      r := RenameFileField(fs, AudioFile);
      if r.Fail? {
        return;
      }
      assert goal == FieldsSpec(fs.entries, Outputs(), FileFields[1..], stem, final);
      r := RenameFileField(fs, JsonFile);
      if r.Fail? {
        return;
      }
      assert goal == FieldsSpec(fs.entries, Outputs(), FileFields[2..], stem, final) by {
        assert FileFields[1..][1..] == FileFields[2..];
      }
      r := RenameFileField(fs, TextFile);
      if r.Fail? {
        return;
      }
      assert goal == FieldsSpec(fs.entries, Outputs(), FileFields[3..], stem, final) by {
        assert FileFields[2..][1..] == FileFields[3..];
      }
      r := RenameFileField(fs, CsvFile);
      if r.Fail? {
        return;
      }
      assert FileFields[3..][1..] == [];
      return Pass;
    }
  }

  /** `Video(path, reduce, offset, parents_in_name)`: the assertions, then `get_info` on the
      streams the probe lists; the video keeps the frame rate. */
  method NewVideo(fs: FileSystem, isPathObject: bool, path: Path, reduce: int, offset: int, parentsInName: int,
                  video: Option<Stream>, audio: Option<Stream>)
    returns (r: Result<Video, Fault>)
    ensures VideoArgsCheck(fs.entries, isPathObject, path, reduce, offset, parentsInName).Fail? ==>
      r == Err(AssertionError(VideoArgsCheck(fs.entries, isPathObject, path, reduce, offset, parentsInName).error))
    ensures VideoArgsCheck(fs.entries, isPathObject, path, reduce, offset, parentsInName).Pass? ==>
      (r.Ok? <==> GetInfo(video, audio).Ok?) &&
      (r.Err? ==> r.error == GetInfo(video, audio).error)
    ensures r.Ok? ==>
      fresh(r.value) && r.value.path == path && r.value.reduce == reduce &&
      r.value.offset == offset && r.value.parentsInName == parentsInName &&
      r.value.Outputs() == Artifacts(None, [], None, None, None, None) &&
      r.value.fps == Some(GetInfo(video, audio).value.fps)
  {
    var check := VideoArgsCheck(fs.entries, isPathObject, path, reduce, offset, parentsInName);
    if check.Fail? {
      return Err(AssertionError(check.error));
    }
    var info := GetInfo(video, audio);
    if info.Err? {
      return Err(info.error);
    }
    var v := new Video(path, reduce, offset, parentsInName);
    v.fps := Some(info.value.fps);
    return Ok(v);
  }
}
