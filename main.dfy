/** `pellipop/main.py`: the video finder, the checks `Pellipop.launch` makes before any
    extraction, the argument checks of the two duplicate passes, and the frame loop of
    `save_frame_range_sec`. `format_time` and `format_fime_span` are in `TimeCode`, and the
    duplicate passes themselves are in `Dedup`. */
module Pellipop {
  import opened Wrappers
  import opened Paths
  import opened Fs
  import opened DirTree
  import opened TimeCode
  import Dedup

  // ---- discovery ----

  /** `list(file_finder(path, deep))`: subdirectories are walked with `deep` counted down, and
      only videos are yielded. */
  function FileFinder(path: Path, listing: seq<Entry>, deep: int): seq<Path>
  {
    Walk(path, listing, deep, Filter(VideoFormats, None), Filter(VideoFormats, None))
  }

  /** `how_many_files(path, deep)`. */
  function HowManyFiles(path: Path, listing: seq<Entry>, deep: int): nat
  {
    |FileFinder(path, listing, deep)|
  }

  /** The finder yields exactly the videos below the path in reach of the depth: every level
      for `-1`, `k` levels of subdirectories for `k > 0`, and the path's own files otherwise. */
  lemma FileFinderYields(path: Path, listing: seq<Entry>, deep: int, p: Path)
    ensures p in FileFinder(path, listing, deep) <==>
      |p| > |path| && p[..|path|] == path && FileAt(listing, p[|path|..]) &&
      (deep == -1 || |p| <= |path| + (if deep > 0 then deep + 1 else 1)) &&
      SuffixOf(p[|p| - 1]) in VideoFormats
  {
    WalkMembers(path, listing, deep, Filter(VideoFormats, None), Filter(VideoFormats, None), p);
  }

  // ---- argument checks ----

  /** The exceptions raised here. */
  datatype Fault = TypeError | Os(error: OsError) | ZeroDivisionError | ValueError

  function Lift(o: Outcome<OsError>): (r: Outcome<Fault>)
    ensures r.Pass? <==> o.Pass?
    ensures o.Fail? ==> r == Fail(Os(o.error))
  {
    match o
    case Pass => Pass
    case Fail(e) => Fail(Os(e))
  }

  /** `Pellipop.del_duplicates(input_path)`: a `TypeError` for an argument that is neither a
      string nor a path, otherwise the global pass over the frames the folder lists. */
  method DelDuplicates<H(==)>(fs: FileSystem, input: PathArg, imgs: seq<Dedup.Image<H>>)
    returns (r: Outcome<Fault>, count: Option<nat>)
    requires fs.Valid()
    modifies fs
    ensures fs.Valid()
    ensures AsPath(input).None? ==> r == Fail(TypeError) && count.None? && fs.entries == old(fs.entries)
    ensures AsPath(input).Some? ==>
      var run := UnlinkAll(old(fs.entries), Dedup.Victims(AsPath(input).value, imgs, Dedup.Dups(imgs)));
      fs.entries == run.entries && r == Lift(run.outcome) &&
      count == if r.Pass? then Some(|Dedup.Dups(imgs)|) else None
  {
    if AsPath(input).None? {
      return Fail(TypeError), None;
    }
    var o;
    o, count := Dedup.DeleteDuplicates(fs, AsPath(input).value, imgs);
    r := Lift(o);
  }

  /** `Pellipop.duplicateless_folder_seq(input_path, output_path)`: the input argument is
      checked, then the output argument, then the streaming pass runs. */
  method DuplicatelessFolderSeq<H(==)>(fs: FileSystem, input: PathArg, output: PathArg, imgs: seq<Dedup.Image<H>>,
                                       noneDiffers: bool)
    returns (r: Outcome<Fault>)
    requires fs.Valid()
    modifies fs
    ensures fs.Valid()
    ensures (AsPath(input).None? || AsPath(output).None?) ==> r == Fail(TypeError) && fs.entries == old(fs.entries)
    ensures AsPath(input).Some? && AsPath(output).Some? ==>
      var run := Dedup.SeqPass(old(fs.entries), AsPath(output).value, imgs, noneDiffers);
      fs.entries == run.entries && r == Lift(run.outcome)
  {
    if AsPath(input).None? || AsPath(output).None? {
      return Fail(TypeError);
    }
    var o := Dedup.DuplicatelessFolderSeq(fs, AsPath(output).value, imgs, noneDiffers);
    r := Lift(o);
  }

  // ---- the checks of `launch` ----

  /** A state reached by a step, and how the step ended. */
  datatype Checked = Checked(entries: map<Path, Node>, outcome: Outcome<Fault>)

  /** The folder checks at the start of `Pellipop.launch`, as a function of the old map. */
  function LaunchChecksSpec(m: map<Path, Node>, input: Path, output: Path): Checked
  {
    if !ExistsIn(m, input) then Checked(m, Fail(Os(FileNotFound)))
    else if !IsDirIn(m, input) then Checked(m, Fail(Os(NotADirectory)))
    else
      var made := if ExistsIn(m, output) then Ok(m) else MkdirResult(m, output, true, false);
      match made
      case Err(e) => Checked(m, Fail(Os(e)))
      case Ok(m1) =>
        if IsFileIn(m1, output) then Checked(m1, Fail(Os(NotADirectory))) else Checked(m1, Pass)
  }

  method LaunchChecks(fs: FileSystem, input: Path, output: Path) returns (r: Outcome<Fault>)
    requires fs.Valid()
    modifies fs
    ensures fs.Valid()
    ensures Checked(fs.entries, r) == LaunchChecksSpec(old(fs.entries), input, output)
  {
    if !fs.Exists(input) {
      return Fail(Os(FileNotFound));
    }
    if !fs.IsDir(input) {
      return Fail(Os(NotADirectory));
    }
    if !fs.Exists(output) {
      var o := fs.Mkdir(output, true, false);
      if o.Fail? {
        return Fail(Os(o.error));
      }
    }
    if fs.IsFile(output) {
      return Fail(Os(NotADirectory));
    }
    r := Pass;
  }

  /** The checks pass exactly when the input is a directory and the output either exists as
      something other than a regular file or can be created; a failed check changes nothing,
      and only a missing output is created, as a directory, with nothing else changed. */
  lemma LaunchChecksEffect(m: map<Path, Node>, input: Path, output: Path)
    requires WellFormed(m)
    ensures var c := LaunchChecksSpec(m, input, output);
      (c.outcome.Pass? <==>
        IsDirIn(m, input) &&
        (if ExistsIn(m, output) then !IsFileIn(m, output) else MkdirResult(m, output, true, false).Ok?)) &&
      (!ExistsIn(m, input) ==> c.outcome == Fail(Os(FileNotFound))) &&
      (ExistsIn(m, input) && !IsDirIn(m, input) ==> c.outcome == Fail(Os(NotADirectory))) &&
      (c.outcome.Fail? || ExistsIn(m, output) ==> c.entries == m) &&
      (c.outcome.Pass? ==>
        WellFormed(c.entries) && IsDirIn(c.entries, input) && ExistsIn(c.entries, output) &&
        !IsFileIn(c.entries, output) && (forall q :: q in m ==> q in c.entries && c.entries[q] == m[q]) &&
        (!ExistsIn(m, output) ==> IsDirIn(c.entries, output)))
  {
    MkdirKeepsWellFormed(m, output, true, false);
  }

  // ---- the frame loop ----

  /** `range(start, stop, step)` for a positive step. */
  function Range(start: nat, stop: nat, step: nat): seq<nat>
    requires step > 0
    decreases if start < stop then stop - start else 0
  {
    if start >= stop then [] else [start] + Range(start + step, stop, step)
  }

  /** The range holds `start`, `start + step`, … and stops at the first one past `stop`. */
  lemma {:induction false} RangeShape(start: nat, stop: nat, step: nat)
    requires step > 0
    ensures forall k :: 0 <= k < |Range(start, stop, step)| ==>
      Range(start, stop, step)[k] == start + k * step && Range(start, stop, step)[k] < stop
    ensures start + |Range(start, stop, step)| * step >= stop
    decreases if start < stop then stop - start else 0
  {
    if start < stop {
      RangeShape(start + step, stop, step);
      var r := Range(start, stop, step);
      var rest := Range(start + step, stop, step);
      forall k | 0 <= k < |r| ensures r[k] == start + k * step && r[k] < stop {
        if k > 0 {
          assert r[k] == rest[k - 1];
          assert (k - 1) * step + step == k * step;
        }
      }
      assert |r| * step == |rest| * step + step;
    }
  }

  /** The frames the loop visits until a read fails: the longest readable prefix. */
  function Taken(indices: seq<nat>, canRead: nat -> bool): (r: seq<nat>)
    ensures |r| <= |indices| && r == indices[..|r|]
    ensures forall k :: 0 <= k < |r| ==> canRead(r[k])
    ensures |r| < |indices| ==> !canRead(indices[|r|])
  {
    if indices == [] || !canRead(indices[0]) then []
    else [indices[0]] + Taken(indices[1..], canRead)
  }

  /** The file name of frame `i`: its time code `format_time(i, fps)`. */
  function FrameNamer(fps: nat): nat -> string
    requires fps > 0
  {
    (i: nat) => FormatTime(i, fps)
  }

  /** The image each visited frame is written to, named by `name` (`FrameNamer(fps)` in a
      run). */
  function FrameWrites(folder: Path, name: nat -> string, taken: seq<nat>, frame: nat -> string): (w: seq<(Path, string)>)
    ensures |w| == |taken|
    ensures forall k :: 0 <= k < |taken| ==> w[k] == (folder + [name(taken[k])], frame(taken[k]))
  {
    if taken == [] then []
    else [(folder + [name(taken[0])], frame(taken[0]))] + FrameWrites(folder, name, taken[1..], frame)
  }

  /** `cv2.imwrite` on each `(path, content)`: a write that fails returns `False`, is reported
      and changes nothing, and the loop goes on. */
  function WriteEach(m: map<Path, Node>, writes: seq<(Path, string)>): map<Path, Node>
    decreases |writes|
  {
    if writes == [] then m
    else
      var m1 := match WriteResult(m, writes[0].0, writes[0].1)
        case Ok(m1) => m1
        case Err(_) => m;
      WriteEach(m1, writes[1..])
  }

  /** A path no write names keeps what it was. */
  lemma {:induction false} WriteEachOthers(m: map<Path, Node>, writes: seq<(Path, string)>, q: Path)
    requires forall a :: 0 <= a < |writes| ==> writes[a].0 != q
    ensures q in WriteEach(m, writes) <==> q in m
    ensures q in m ==> WriteEach(m, writes)[q] == m[q]
    decreases |writes|
  {
    if writes != [] {
      var m1 := match WriteResult(m, writes[0].0, writes[0].1) case Ok(m1) => m1 case Err(_) => m;
      assert writes[0].0 != q;
      assert forall a :: 0 <= a < |writes[1..]| ==> writes[1..][a] == writes[a + 1];
      WriteEachOthers(m1, writes[1..], q);
    }
  }

  /** Writes into a folder that is not there all fail and change nothing. */
  lemma {:induction false} WriteEachNoFolder(m: map<Path, Node>, folder: Path, writes: seq<(Path, string)>)
    requires forall a :: 0 <= a < |writes| ==> |writes[a].0| > 0 && Parent(writes[a].0) == folder
    requires folder != [] && folder !in m
    ensures WriteEach(m, writes) == m
    decreases |writes|
  {
    if writes != [] {
      assert WriteResult(m, writes[0].0, writes[0].1).Err?;
      assert forall a :: 0 <= a < |writes[1..]| ==> writes[1..][a] == writes[a + 1];
      WriteEachNoFolder(m, folder, writes[1..]);
    }
  }

  /** Among writes of distinct names into a directory, the one at `a` leaves its content at its
      path when that path was free or a regular file. */
  lemma {:induction false} WriteEachWrites(m: map<Path, Node>, folder: Path, writes: seq<(Path, string)>, a: nat)
    requires forall b :: 0 <= b < |writes| ==> |writes[b].0| > 0 && Parent(writes[b].0) == folder
    requires forall b, c :: 0 <= b < c < |writes| ==> writes[b].0 != writes[c].0
    requires IsDirIn(m, folder) && a < |writes|
    requires writes[a].0 !in m || m[writes[a].0].File?
    ensures writes[a].0 in WriteEach(m, writes) && WriteEach(m, writes)[writes[a].0] == File(writes[a].1)
    decreases |writes|
  {
    var p, c := writes[0].0, writes[0].1;
    var rest := writes[1..];
    var m1 := match WriteResult(m, p, c) case Ok(m1) => m1 case Err(_) => m;
    assert WriteEach(m, writes) == WriteEach(m1, rest);
    assert forall b :: 0 <= b < |rest| ==> rest[b] == writes[b + 1];
    if a == 0 {
      assert m1 == m[p := File(c)];
      WriteEachOthers(m1, rest, p);
    } else {
      assert p != folder by { assert |p| == |folder| + 1; }
      assert IsDirIn(m1, folder);
      assert writes[a].0 != p;
      WriteEachWrites(m1, folder, rest, a - 1);
    }
  }

  /** The frames a run visits: the readable prefix of `range(0, frameCount, step)`. */
  function Visited(frameCount: nat, step: nat, canRead: nat -> bool): seq<nat>
    requires step > 0
  {
    Taken(Range(0, frameCount, step), canRead)
  }

  /** `save_frame_range_sec` as a function of the old map: the frame rate and the step
      `int(fps / freq)` are given as integers. */
  function SaveFramesSpec(m: map<Path, Node>, isOpened: bool, fps: nat, frameCount: nat, step: int,
                          folder: Path, canRead: nat -> bool, frame: nat -> string): Checked
  {
    if !isOpened then Checked(m, Pass)
    else if fps == 0 then Checked(m, Fail(ZeroDivisionError))
    else if step == 0 then Checked(m, Fail(ValueError))
    else if step < 0 then Checked(m, Pass)
    else Checked(WriteEach(m, FrameWrites(folder, FrameNamer(fps), Visited(frameCount, step, canRead), frame)), Pass)
  }

  /** `save_frame_range_sec(video_path, step_sec, output_folder)`: `isOpened` is
      `video.isOpened()`, `canRead(i)` whether reading frame `i` succeeds and `frame(i)` the
      encoded image. */
  method SaveFrameRangeSec(fs: FileSystem, isOpened: bool, fps: nat, frameCount: nat, step: int,
                           folder: Path, canRead: nat -> bool, frame: nat -> string)
    returns (r: Outcome<Fault>)
    requires fs.Valid()
    modifies fs
    ensures fs.Valid()
    ensures Checked(fs.entries, r) == SaveFramesSpec(old(fs.entries), isOpened, fps, frameCount, step, folder, canRead, frame)
  {
    if !isOpened {
      return Pass;
    }
    if fps == 0 {
      return Fail(ZeroDivisionError);
    }
    if step == 0 {
      return Fail(ValueError);
    }
    if step < 0 {
      // a range from 0 with a negative step is empty
      return Pass;
    }
    SaveFrames(fs, FrameNamer(fps), frameCount, step, folder, canRead, frame);
    r := Pass;
  }

  /** The loop of `save_frame_range_sec`: frames `0, step, 2 * step, …` below `frameCount` are
      read and written, frame `i` to `folder + [name(i)]`, until the first read that fails. */
  method SaveFrames(fs: FileSystem, name: nat -> string, frameCount: nat, step: nat, folder: Path,
                    canRead: nat -> bool, frame: nat -> string)
    requires fs.Valid() && step > 0
    modifies fs
    ensures fs.Valid()
    ensures fs.entries == WriteEach(old(fs.entries), FrameWrites(folder, name, Visited(frameCount, step, canRead), frame))
  {
    SaveFromWrites(fs.entries, folder, name, 0, frameCount, step, canRead, frame);
    ghost var goal := SaveFrom(fs.entries, folder, name, 0, frameCount, step, canRead, frame);
    var i: nat := 0;
    while i < frameCount
      invariant fs.Valid()
      invariant SaveFrom(fs.entries, folder, name, i, frameCount, step, canRead, frame) == goal
      decreases frameCount - i
    {
      if !canRead(i) {
        break;
      }
      var written := fs.Write(folder + [name(i)], frame(i));
      i := i + step;
    }
  }

  /** The loop of `save_frame_range_sec` from frame `i` on, one frame at a time: a failed
      write leaves the files as they were. */
  function SaveFrom(m: map<Path, Node>, folder: Path, name: nat -> string, i: nat, frameCount: nat, step: nat,
                    canRead: nat -> bool, frame: nat -> string): map<Path, Node>
    requires step > 0
    decreases if i < frameCount then frameCount - i else 0
  {
    if i >= frameCount || !canRead(i) then m
    else
      var m1 := match WriteResult(m, folder + [name(i)], frame(i))
        case Ok(m1) => m1
        case Err(_) => m;
      SaveFrom(m1, folder, name, i + step, frameCount, step, canRead, frame)
  }

  /** Running the loop from `i` performs the writes of the readable prefix of the range from
      `i`, in order. */
  lemma {:induction false} SaveFromWrites(m: map<Path, Node>, folder: Path, name: nat -> string, i: nat, frameCount: nat,
                                          step: nat, canRead: nat -> bool, frame: nat -> string)
    requires step > 0
    ensures SaveFrom(m, folder, name, i, frameCount, step, canRead, frame) ==
      WriteEach(m, FrameWrites(folder, name, Taken(Range(i, frameCount, step), canRead), frame))
    decreases if i < frameCount then frameCount - i else 0
  {
    if i >= frameCount || !canRead(i) {
      VisitStop(folder, name, i, frameCount, step, canRead, frame);
    } else {
      var w := FrameWrites(folder, name, Taken(Range(i, frameCount, step), canRead), frame);
      VisitStep(w, folder, name, i, frameCount, step, canRead, frame);
      var m1 := match WriteResult(m, folder + [name(i)], frame(i))
        case Ok(m1) => m1
        case Err(_) => m;
      SaveFromWrites(m1, folder, name, i + step, frameCount, step, canRead, frame);
      WriteEachFirst(m, m1, w, w[1..]);
    }
  }

  /** Writing the first of a list of writes, then the rest, is writing them all. */
  lemma WriteEachFirst(m: map<Path, Node>, m1: map<Path, Node>, writes: seq<(Path, string)>, rest: seq<(Path, string)>)
    requires writes != [] && writes[1..] == rest
    requires WriteResult(m, writes[0].0, writes[0].1).Ok? ==> m1 == WriteResult(m, writes[0].0, writes[0].1).value
    requires WriteResult(m, writes[0].0, writes[0].1).Err? ==> m1 == m
    ensures WriteEach(m, writes) == WriteEach(m1, rest)
  {
  }

  /** A readable frame in range is written first, then the rest of the range. */
  lemma VisitStep(w: seq<(Path, string)>, folder: Path, name: nat -> string, i: nat, frameCount: nat, step: nat,
                  canRead: nat -> bool, frame: nat -> string)
    requires step > 0 && i < frameCount && canRead(i)
    requires w == FrameWrites(folder, name, Taken(Range(i, frameCount, step), canRead), frame)
    ensures w != [] && w[0] == (folder + [name(i)], frame(i))
    ensures w[1..] == FrameWrites(folder, name, Taken(Range(i + step, frameCount, step), canRead), frame)
  {
    var next := Taken(Range(i + step, frameCount, step), canRead);
    assert Range(i, frameCount, step) == [i] + Range(i + step, frameCount, step);
    assert ([i] + Range(i + step, frameCount, step))[1..] == Range(i + step, frameCount, step);
    assert Taken(Range(i, frameCount, step), canRead) == [i] + next;
    assert ([i] + next)[1..] == next;
    var rest := FrameWrites(folder, name, next, frame);
    assert ([(folder + [name(i)], frame(i))] + rest)[1..] == rest;
  }

  /** Past the frame count, or at an unreadable frame, nothing more is written. */
  lemma VisitStop(folder: Path, name: nat -> string, i: nat, frameCount: nat, step: nat, canRead: nat -> bool,
                  frame: nat -> string)
    requires step > 0
    requires i >= frameCount || !canRead(i)
    ensures FrameWrites(folder, name, Taken(Range(i, frameCount, step), canRead), frame) == []
  {
  }

  /** The visited frames are `0, step, 2 * step, …`, all below the frame count and readable;
      when the range was cut short, the next frame could not be read. */
  lemma VisitedFrames(frameCount: nat, step: nat, canRead: nat -> bool)
    requires step > 0
    ensures forall k :: 0 <= k < |Visited(frameCount, step, canRead)| ==>
      Visited(frameCount, step, canRead)[k] == k * step && Visited(frameCount, step, canRead)[k] < frameCount &&
      canRead(Visited(frameCount, step, canRead)[k])
    ensures |Visited(frameCount, step, canRead)| * step < frameCount ==>
      !canRead(|Visited(frameCount, step, canRead)| * step)
  {
    RangeShape(0, frameCount, step);
    var r := Range(0, frameCount, step);
    var v := Visited(frameCount, step, canRead);
    if |v| * step < frameCount {
      assert |v| != |r|;
    }
  }

  lemma MulMonotone(a: nat, b: nat, step: nat)
    requires a < b && step > 0
    ensures a * step < b * step
  {
    assert b * step == a * step + (b - a) * step;
  }

  /** Each visited frame gets its own file name. */
  lemma VisitedNamesDistinct(folder: Path, fps: nat, frameCount: nat, step: nat, canRead: nat -> bool, frame: nat -> string)
    requires fps > 0 && step > 0
    ensures forall a, b :: 0 <= a < b < |Visited(frameCount, step, canRead)| ==>
      FrameWrites(folder, FrameNamer(fps), Visited(frameCount, step, canRead), frame)[a].0 !=
      FrameWrites(folder, FrameNamer(fps), Visited(frameCount, step, canRead), frame)[b].0
  {
    var v := Visited(frameCount, step, canRead);
    var w := FrameWrites(folder, FrameNamer(fps), v, frame);
    VisitedFrames(frameCount, step, canRead);
    forall a, b | 0 <= a < b < |v| ensures w[a].0 != w[b].0 {
      MulMonotone(a, b, step);
      FormatTimeInjective(v[a], v[b], fps);
      assert w[a].0[|folder|] == FormatTime(v[a], fps) && w[b].0[|folder|] == FormatTime(v[b], fps);
    }
  }

  /** A run writes nothing but the visited frames' files. */
  lemma SaveFramesOthers(m: map<Path, Node>, fps: nat, frameCount: nat, step: nat,
                         folder: Path, canRead: nat -> bool, frame: nat -> string, q: Path)
    requires fps > 0 && step > 0
    requires forall k :: 0 <= k < |Visited(frameCount, step, canRead)| ==>
      q != folder + [FormatTime(Visited(frameCount, step, canRead)[k], fps)]
    ensures q in SaveFramesSpec(m, true, fps, frameCount, step, folder, canRead, frame).entries <==> q in m
    ensures q in m ==> SaveFramesSpec(m, true, fps, frameCount, step, folder, canRead, frame).entries[q] == m[q]
  {
    var w := FrameWrites(folder, FrameNamer(fps), Visited(frameCount, step, canRead), frame);
    WriteEachOthers(m, w, q);
  }

  /** When the output folder is a directory, each visited frame is written to its time-coded
      file, unless a directory or a special file already has that name. */
  lemma SaveFramesWrites(m: map<Path, Node>, fps: nat, frameCount: nat, step: nat,
                         folder: Path, canRead: nat -> bool, frame: nat -> string, k: nat)
    requires fps > 0 && step > 0 && IsDirIn(m, folder)
    requires k < |Visited(frameCount, step, canRead)|
    requires var p := folder + [FormatTime(Visited(frameCount, step, canRead)[k], fps)];
      p !in m || m[p].File?
    ensures var p := folder + [FormatTime(Visited(frameCount, step, canRead)[k], fps)];
      var m' := SaveFramesSpec(m, true, fps, frameCount, step, folder, canRead, frame).entries;
      p in m' && m'[p] == File(frame(Visited(frameCount, step, canRead)[k]))
  {
    var v := Visited(frameCount, step, canRead);
    var w := FrameWrites(folder, FrameNamer(fps), v, frame);
    VisitedNamesDistinct(folder, fps, frameCount, step, canRead, frame);
    FrameWritesInFolder(folder, FrameNamer(fps), v, frame);
    WriteEachWrites(m, folder, w, k);
  }

  /** Every frame is written directly inside the output folder. */
  lemma FrameWritesInFolder(folder: Path, name: nat -> string, taken: seq<nat>, frame: nat -> string)
    ensures forall b :: 0 <= b < |FrameWrites(folder, name, taken, frame)| ==>
      |FrameWrites(folder, name, taken, frame)[b].0| > 0 && Parent(FrameWrites(folder, name, taken, frame)[b].0) == folder
  {
    var w := FrameWrites(folder, name, taken, frame);
    forall b | 0 <= b < |w| ensures |w[b].0| > 0 && Parent(w[b].0) == folder {
      assert w[b].0 == Child(folder, name(taken[b]));
    }
  }

  /** Every write fails when the output folder is missing, and the failures are ignored. */
  lemma SaveFramesNoFolder(m: map<Path, Node>, fps: nat, frameCount: nat, step: nat,
                           folder: Path, canRead: nat -> bool, frame: nat -> string)
    requires fps > 0 && step > 0 && folder != [] && folder !in m
    ensures SaveFramesSpec(m, true, fps, frameCount, step, folder, canRead, frame) == Checked(m, Pass)
  {
    WriteEachNoFolder(m, folder, FrameWrites(folder, FrameNamer(fps), Visited(frameCount, step, canRead), frame));
  }
}
