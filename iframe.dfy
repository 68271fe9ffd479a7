/** `i-frame_test/i-frame_test.py`: the ffmpeg command is built as a template with
    `$`-placeholders, extended clause by clause according to the frame mode and the audio
    flag, then filled in by four chained `str.replace` calls; before the run the output folder
    is emptied of its files, or created. */
module IFrame {
  import opened Wrappers
  import opened Strings
  import opened Paths
  import opened Fs

  // ---- templates ----

  /** The four placeholders. */
  datatype Placeholder = OutputFolder | FileStem | Freq | VideoPath

  function Token(h: Placeholder): (t: string)
    ensures |t| >= 3 && t[0] == '$' && '$' !in t[1..]
  {
    match h
    case OutputFolder => "$OUTPUT_FOLDER"
    case FileStem => "$FILE_STEM"
    case Freq => "$FREQ"
    case VideoPath => "$VIDEO_PATH"
  }

  /** A template: literal text and placeholders. */
  datatype Piece = Text(text: string) | Hole(hole: Placeholder)

  function Render(ps: seq<Piece>): string
  {
    if ps == [] then ""
    else (match ps[0] case Text(t) => t case Hole(h) => Token(h)) + Render(ps[1..])
  }

  lemma {:induction false} RenderAppend(a: seq<Piece>, b: seq<Piece>)
    ensures Render(a + b) == Render(a) + Render(b)
  {
    if a != [] {
      assert (a + b)[1..] == a[1..] + b;
      RenderAppend(a[1..], b);
    } else {
      assert a + b == b;
    }
  }

  /** No literal text holds a `$`. */
  predicate TextsFree(ps: seq<Piece>)
  {
    forall k :: 0 <= k < |ps| && ps[k].Text? ==> '$' !in ps[k].text
  }

  /** Fills every occurrence of one placeholder with a value. */
  function Bind(ps: seq<Piece>, h: Placeholder, v: string): (r: seq<Piece>)
    ensures |r| == |ps|
    ensures forall k :: 0 <= k < |ps| ==> r[k] == if ps[k] == Hole(h) then Text(v) else ps[k]
  {
    if ps == [] then [] else [if ps[0] == Hole(h) then Text(v) else ps[0]] + Bind(ps[1..], h, v)
  }

  /** A placeholder does not start where another one does. */
  lemma TokensDiffer(h: Placeholder, g: Placeholder, rest: string)
    requires h != g
    ensures !(Token(h) <= Token(g) + rest)
  {
    var a, b := Token(h), Token(g);
    assert a[1] != b[1] || a[2] != b[2];
    assert (b + rest)[1] == b[1] && (b + rest)[2] == b[2];
    PrefixAgrees(a, b + rest);
  }

  /** A prefix agrees with the sequence on its second and third characters. */
  lemma PrefixAgrees(a: string, c: string)
    requires |a| >= 3
    ensures a <= c ==> a[1] == c[1] && a[2] == c[2]
  {
  }

  /** Replacing one placeholder skips over another one. */
  lemma ReplaceOtherToken(h: Placeholder, g: Placeholder, rest: string, v: string)
    requires h != g
    ensures Replace(Token(g) + rest, Token(h), v) == Token(g) + Replace(rest, Token(h), v)
  {
    TokensDiffer(h, g, rest);
    ReplacePastHead(Token(g), rest, Token(h), v);
  }

  /** A head that the pattern does not start at, and whose tail is free of the pattern's first
      character, passes through `Replace` untouched. */
  lemma ReplacePastHead(t: string, rest: string, pat: string, v: string)
    requires |t| > 0 && |pat| > 0 && pat[0] !in t[1..] && !(pat <= t + rest)
    ensures Replace(t + rest, pat, v) == t + Replace(rest, pat, v)
  {
    var s := t + rest;
    if |s| < |pat| {
      assert Replace(rest, pat, v) == rest;
    } else {
      assert Replace(s, pat, v) == [s[0]] + Replace(s[1..], pat, v);
      assert s[1..] == t[1..] + rest;
      ReplaceSkips(t[1..], rest, pat, v);
      calc {
        [s[0]] + Replace(s[1..], pat, v);
        [t[0]] + (t[1..] + Replace(rest, pat, v));
        ([t[0]] + t[1..]) + Replace(rest, pat, v);
        { assert [t[0]] + t[1..] == t; }
        t + Replace(rest, pat, v);
      }
    }
  }

  /** `str.replace` of a placeholder's token on a rendered template is binding that
      placeholder, when no literal text holds a `$`. */
  lemma {:induction false} ReplaceBind(ps: seq<Piece>, h: Placeholder, v: string)
    requires TextsFree(ps)
    ensures Replace(Render(ps), Token(h), v) == Render(Bind(ps, h, v))
  {
    if ps != [] {
      var rest := Render(ps[1..]);
      assert TextsFree(ps[1..]) by {
        forall k | 0 <= k < |ps[1..]| && ps[1..][k].Text? ensures '$' !in ps[1..][k].text {
          assert ps[1..][k] == ps[k + 1];
        }
      }
      ReplaceBind(ps[1..], h, v);
      assert Bind(ps, h, v)[1..] == Bind(ps[1..], h, v);
      match ps[0]
      case Text(t) =>
        assert '$' !in t by { assert ps[0].Text?; }
        ReplaceSkips(t, rest, Token(h), v);
      case Hole(g) =>
        if g == h {
          var s := Token(h) + rest;
          assert Token(h) <= s;
          assert s[|Token(h)|..] == rest;
        } else {
          ReplaceOtherToken(h, g, rest, v);
        }
    }
  }

  // ---- the template of each mode ----

  const Prefix: string := "ffmpeg -hide_banner " + "-loglevel panic " + "-nostdin -y "
  const IFramePart: string := "-skip_frame nokey "
  const VfrPart: string := "-fps_mode vfr -frame_pts true "
  const ConstFreqPart: seq<Piece> := [Text("-r "), Hole(Freq), Text(" ")]
  const InputPart: seq<Piece> := [Text("-i "), Hole(VideoPath), Text(" ")]
  const FramesPart: seq<Piece> := [Hole(OutputFolder), Text("/"), Hole(FileStem), Text("_%d.jpg ")]
  const AudioPart: seq<Piece> := [Text("-acodec copy -vn "), Hole(OutputFolder), Text("/"), Hole(FileStem), Text(".aac ")]

  /** The template of a frame mode and an audio flag, clause by clause. */
  function TemplatePieces(mode: string, audio: bool): seq<Piece>
  {
    [Text(Prefix)] + (if mode == "i-frame" then [Text(IFramePart)] else []) + InputPart +
    (if mode == "const_freq" then ConstFreqPart else if mode == "i-frame" then [Text(VfrPart)] else []) +
    FramesPart + (if audio then AudioPart else [])
  }

  /** The values the placeholders are filled with. */
  datatype Values = Values(outputFolder: string, fileStem: string, freq: string, videoPath: string)

  predicate ValuesFree(v: Values)
  {
    '$' !in v.outputFolder && '$' !in v.fileStem && '$' !in v.freq && '$' !in v.videoPath
  }

  /** The template with every placeholder filled in. */
  function BindAll(ps: seq<Piece>, v: Values): seq<Piece>
  {
    Bind(Bind(Bind(Bind(ps, OutputFolder, v.outputFolder), FileStem, v.fileStem), Freq, v.freq), VideoPath, v.videoPath)
  }

  lemma RenderInput()
    ensures Render(InputPart) == "-i $VIDEO_PATH "
  {
    assert InputPart[1..][1..][1..] == [];
  }

  lemma RenderConstFreq()
    ensures Render(ConstFreqPart) == "-r $FREQ "
  {
    assert ConstFreqPart[1..][1..][1..] == [];
  }

  lemma RenderFrames()
    ensures Render(FramesPart) == "$OUTPUT_FOLDER/$FILE_STEM_%d.jpg "
  {
    assert FramesPart[1..][1..][1..][1..] == [];
  }

  lemma RenderAudio()
    ensures Render(AudioPart) == "-acodec copy -vn $OUTPUT_FOLDER/$FILE_STEM.aac "
  {
    assert AudioPart[1..][1..][1..][1..][1..] == [];
  }

  lemma RenderText(t: string)
    ensures Render([Text(t)]) == t
  {
    assert [Text(t)][1..] == [];
  }

  /** Builds the template the way the script does, with `+=` on a string. */
  method BuildTemplate(mode: string, audio: bool) returns (base: string)
    ensures base == Render(TemplatePieces(mode, audio))
  {
    base := "ffmpeg -hide_banner " + "-loglevel panic " + "-nostdin -y ";
    ghost var pieces := [Text(Prefix)];
    RenderText(Prefix);
    assert base == Render(pieces);
    ghost var part: seq<Piece> := if mode == "i-frame" then [Text(IFramePart)] else [];
    if mode == "i-frame" {
      base := base + "-skip_frame nokey ";
      RenderText(IFramePart);
    }
    RenderAppend(pieces, part);
    pieces := pieces + part;
    assert base == Render(pieces);
    base := base + "-i $VIDEO_PATH ";
    RenderInput();
    RenderAppend(pieces, InputPart);
    pieces := pieces + InputPart;
    assert base == Render(pieces);
    part := if mode == "const_freq" then ConstFreqPart else if mode == "i-frame" then [Text(VfrPart)] else [];
    if mode == "const_freq" {
      base := base + "-r $FREQ ";
      RenderConstFreq();
    } else if mode == "i-frame" {
      base := base + "-fps_mode vfr -frame_pts true ";
      RenderText(VfrPart);
    }
    RenderAppend(pieces, part);
    pieces := pieces + part;
    assert base == Render(pieces);
    base := base + "$OUTPUT_FOLDER/$FILE_STEM_%d.jpg ";
    RenderFrames();
    RenderAppend(pieces, FramesPart);
    pieces := pieces + FramesPart;
    assert base == Render(pieces);
    part := if audio then AudioPart else [];
    if audio {
      base := base + "-acodec copy -vn $OUTPUT_FOLDER/$FILE_STEM.aac ";
      RenderAudio();
    }
    RenderAppend(pieces, part);
    pieces := pieces + part;
    assert base == Render(pieces);
  }

  /** The template and the command: the placeholders are replaced in order, each at every
      occurrence; with values free of `$`, the command is the template with every placeholder
      filled in and no placeholder is left. */
  method BuildCommand(mode: string, audio: bool, v: Values) returns (command: string)
    ensures ValuesFree(v) ==> command == Render(BindAll(TemplatePieces(mode, audio), v))
    ensures ValuesFree(v) ==> '$' !in command
  {
    var base := BuildTemplate(mode, audio);
    command := Replace(Replace(Replace(Replace(base, Token(OutputFolder), v.outputFolder),
      Token(FileStem), v.fileStem), Token(Freq), v.freq), Token(VideoPath), v.videoPath);
    if ValuesFree(v) {
      TemplateFree(mode, audio);
      FillTemplate(TemplatePieces(mode, audio), v);
    }
  }

  /** Filling the four placeholders in turn on a `$`-free template leaves no `$`. */
  lemma FillTemplate(ps: seq<Piece>, v: Values)
    requires TextsFree(ps) && ValuesFree(v)
    ensures Replace(Replace(Replace(Replace(Render(ps), Token(OutputFolder), v.outputFolder),
      Token(FileStem), v.fileStem), Token(Freq), v.freq), Token(VideoPath), v.videoPath) == Render(BindAll(ps, v))
    ensures '$' !in Render(BindAll(ps, v))
  {
    var p1 := Bind(ps, OutputFolder, v.outputFolder);
    var p2 := Bind(p1, FileStem, v.fileStem);
    var p3 := Bind(p2, Freq, v.freq);
    var p4 := Bind(p3, VideoPath, v.videoPath);
    ReplaceBind(ps, OutputFolder, v.outputFolder);
    BindKeepsFree(ps, OutputFolder, v.outputFolder);
    ReplaceBind(p1, FileStem, v.fileStem);
    BindKeepsFree(p1, FileStem, v.fileStem);
    ReplaceBind(p2, Freq, v.freq);
    BindKeepsFree(p2, Freq, v.freq);
    ReplaceBind(p3, VideoPath, v.videoPath);
    BindKeepsFree(p3, VideoPath, v.videoPath);
    forall k | 0 <= k < |p4| ensures p4[k].Text? {
      assert p3[k] != Hole(VideoPath) ==> p3[k].Text?;
    }
    NoDollarRendered(p4);
  }

  lemma BindKeepsFree(ps: seq<Piece>, h: Placeholder, v: string)
    requires TextsFree(ps) && '$' !in v
    ensures TextsFree(Bind(ps, h, v))
  {
  }

  lemma TextFree(t: string)
    requires '$' !in t
    ensures TextsFree([Text(t)])
  {
    assert forall k :: 0 <= k < 1 ==> [Text(t)][k] == Text(t);
  }

  lemma TextsFreeAppend(a: seq<Piece>, b: seq<Piece>)
    requires TextsFree(a) && TextsFree(b)
    ensures TextsFree(a + b)
  {
    forall k | 0 <= k < |a + b| && (a + b)[k].Text? ensures '$' !in (a + b)[k].text {
      if k >= |a| {
        assert (a + b)[k] == b[k - |a|];
      }
    }
  }

  lemma {:induction false} NoDollarRendered(ps: seq<Piece>)
    requires forall k :: 0 <= k < |ps| ==> ps[k].Text? && '$' !in ps[k].text
    ensures '$' !in Render(ps)
  {
    if ps != [] {
      assert forall k :: 0 <= k < |ps[1..]| ==> ps[1..][k] == ps[k + 1];
      NoDollarRendered(ps[1..]);
    }
  }

  /** The literal text of every template is free of `$`. */
  lemma TemplateFree(mode: string, audio: bool)
    ensures TextsFree(TemplatePieces(mode, audio))
  {
    var pre := [Text(Prefix)] + (if mode == "i-frame" then [Text(IFramePart)] else []) + InputPart;
    var mid := if mode == "const_freq" then ConstFreqPart else if mode == "i-frame" then [Text(VfrPart)] else [];
    var tail := if audio then AudioPart else [];
    LiteralsFree();
    PartsFree();
    TextFree(Prefix);
    TextFree(IFramePart);
    TextFree(VfrPart);
    TextsFreeAppend([Text(Prefix)], if mode == "i-frame" then [Text(IFramePart)] else []);
    TextsFreeAppend([Text(Prefix)] + (if mode == "i-frame" then [Text(IFramePart)] else []), InputPart);
    assert TextsFree(mid);
    TextsFreeAppend(pre, mid);
    TextsFreeAppend(pre + mid, FramesPart);
    assert TextsFree(tail);
    TextsFreeAppend(pre + mid + FramesPart, tail);
  }

  /** The ffmpeg prefix and the two mode-specific literals hold no `$`. */
  lemma LiteralsFree()
    ensures '$' !in Prefix && '$' !in IFramePart && '$' !in VfrPart
  {
    assert '$' !in "ffmpeg -hide_banner " && '$' !in "-loglevel panic " && '$' !in "-nostdin -y ";
  }

  /** The clauses made of several pieces hold no `$` in their literal text. */
  lemma PartsFree()
    ensures TextsFree(InputPart) && TextsFree(ConstFreqPart) && TextsFree(FramesPart) && TextsFree(AudioPart)
  {
  }

  /** What each mode puts in the template: the ffmpeg prefix first; the keyframe filter only
      in i-frame mode, right before the input clause; after the input, the frequency only in
      `const_freq` mode and the variable frame rate only in i-frame mode; the video path and
      the frame pattern always. */
  lemma TemplateClauses(mode: string, audio: bool)
    ensures TemplatePieces(mode, audio)[0] == Text(Prefix)
    ensures TemplatePieces(mode, audio)[1] == (if mode == "i-frame" then Text(IFramePart) else Text("-i "))
    ensures Text(IFramePart) in TemplatePieces(mode, audio) <==> mode == "i-frame"
    ensures Hole(Freq) in TemplatePieces(mode, audio) <==> mode == "const_freq"
    ensures Text(VfrPart) in TemplatePieces(mode, audio) <==> mode == "i-frame"
    ensures Hole(VideoPath) in TemplatePieces(mode, audio) && Hole(FileStem) in TemplatePieces(mode, audio)
  {
    var tail := FramesPart + (if audio then AudioPart else []);
    TailClauses(audio);
    var head := TemplateHead(mode);
    assert TemplatePieces(mode, audio) == head + tail;
    assert (head + tail)[0] == head[0] && (head + tail)[1] == head[1];
    assert Hole(FileStem) in head + tail by { assert (head + tail)[|head| + 2] == tail[2]; }
    assert Hole(VideoPath) in head + tail by { assert (head + tail)[|head| - 1 - (if mode == "i-frame" then 2 else if mode == "const_freq" then 4 else 1)] == Hole(VideoPath); }
  }

  /** The clauses after the input part: none of them is mode-specific, and the frame pattern
      names the file stem. */
  lemma TailClauses(audio: bool)
    ensures var tail := FramesPart + (if audio then AudioPart else []);
      Text(IFramePart) !in tail && Hole(Freq) !in tail && Text(VfrPart) !in tail &&
      |tail| > 2 && tail[2] == Hole(FileStem)
  {
  }

  /** The template up to and including the mode's clause after the input. */
  function TemplateHead(mode: string): (head: seq<Piece>)
    ensures head == [Text(Prefix)] + (if mode == "i-frame" then [Text(IFramePart)] else []) + InputPart +
      (if mode == "const_freq" then ConstFreqPart else if mode == "i-frame" then [Text(VfrPart)] else [])
    ensures Text(IFramePart) in head <==> mode == "i-frame"
    ensures Hole(Freq) in head <==> mode == "const_freq"
    ensures Text(VfrPart) in head <==> mode == "i-frame"
    ensures |head| >= 4 && head[0] == Text(Prefix) && head[1] == (if mode == "i-frame" then Text(IFramePart) else Text("-i "))
    ensures head[|head| - 1 - (if mode == "i-frame" then 2 else if mode == "const_freq" then 4 else 1)] == Hole(VideoPath)
  {
    if mode == "i-frame" then [Text(Prefix), Text(IFramePart), Text("-i "), Hole(VideoPath), Text(" "), Text(VfrPart)]
    else if mode == "const_freq" then [Text(Prefix), Text("-i "), Hole(VideoPath), Text(" "), Text("-r "), Hole(Freq), Text(" ")]
    else [Text(Prefix), Text("-i "), Hole(VideoPath), Text(" ")]
  }

  /** The audio clause closes the template exactly when audio is asked for. */
  lemma TemplateAudio(mode: string, audio: bool)
    ensures audio <==>
      (|TemplatePieces(mode, audio)| >= 5 &&
       TemplatePieces(mode, audio)[|TemplatePieces(mode, audio)| - 5..] == AudioPart)
  {
    var ps := TemplatePieces(mode, audio);
    var pre := [Text(Prefix)] + (if mode == "i-frame" then [Text(IFramePart)] else []) + InputPart +
      (if mode == "const_freq" then ConstFreqPart else if mode == "i-frame" then [Text(VfrPart)] else []);
    if audio {
      assert ps == (pre + FramesPart) + AudioPart;
    } else {
      assert ps == pre + FramesPart;
      assert ps[|ps| - 5..][4] == ps[|ps| - 1] == Text("_%d.jpg ");
    }
  }

  // ---- the output folder ----

  /** A folder just created under an existing folder has nothing below it. */
  lemma NothingBelowNewFolder(m: map<Path, Node>, output: Path)
    requires WellFormed(m) && !ExistsIn(m, output) && MkdirResult(m, output, false, false).Ok?
    ensures forall q :: q in MkdirResult(m, output, false, false).value ==> !Below(q, output)
  {
    forall q | q in MkdirResult(m, output, false, false).value ensures !Below(q, output) {
      if Below(q, output) && q in m {
        AncestorIsDir(m, q, |output|);
      }
    }
  }

  /** An entry below a folder hangs off an entry directly inside that folder. */
  lemma ChildAncestor(m: map<Path, Node>, q: Path, output: Path)
    requires WellFormed(m)
    ensures q in m && Below(q, output) ==>
      q[..|output| + 1] in m && |q[..|output| + 1]| > 0 && Parent(q[..|output| + 1]) == output
  {
    if q in m && Below(q, output) {
      var c := q[..|output| + 1];
      assert c[..|output|] == output;
      if |q| > |output| + 1 {
        AncestorIsDir(m, q, |output| + 1);
      } else {
        assert c == q;
      }
    }
  }

  /** Once every entry directly inside a folder is gone, nothing is left below it. */
  lemma NothingBelowEmptied(start: map<Path, Node>, output: Path)
    requires WellFormed(start - ChildrenOf(start, output))
    ensures forall q :: q in start - ChildrenOf(start, output) ==> !Below(q, output)
  {
    var m := start - ChildrenOf(start, output);
    forall q | q in m ensures !Below(q, output) {
      ChildAncestor(m, q, output);
    }
  }

  /** The reset before the run: an existing output folder has each entry unlinked in the order
      `iterdir` gives them, and a missing one is created. */
  method ResetOutputFolder(fs: FileSystem, output: Path) returns (r: Outcome<OsError>)
    requires fs.Valid()
    modifies fs
    ensures fs.Valid()
    ensures !ExistsIn(old(fs.entries), output) ==>
      (r.Pass? <==> MkdirResult(old(fs.entries), output, false, false).Ok?) &&
      (r.Pass? ==> fs.entries == MkdirResult(old(fs.entries), output, false, false).value) &&
      (r.Fail? ==> fs.entries == old(fs.entries))
    ensures ExistsIn(old(fs.entries), output) && !IsDirIn(old(fs.entries), output) ==>
      r == Fail(NotADirectory) && fs.entries == old(fs.entries)
    ensures IsDirIn(old(fs.entries), output) ==>
      (r.Pass? <==> forall q :: q in ChildrenOf(old(fs.entries), output) ==> !old(fs.entries)[q].Dir?) &&
      (r.Pass? ==> fs.entries == old(fs.entries) - ChildrenOf(old(fs.entries), output)) &&
      (r.Fail? ==> r.error == IsADirectory)
    ensures IsDirIn(old(fs.entries), output) && r.Fail? ==>
      fs.entries.Keys <= old(fs.entries).Keys &&
      (forall q :: q in fs.entries ==> fs.entries[q] == old(fs.entries)[q]) &&
      (forall q :: q in old(fs.entries) && q !in fs.entries ==>
        q in ChildrenOf(old(fs.entries), output) && !old(fs.entries)[q].Dir?) &&
      (exists q :: q in ChildrenOf(old(fs.entries), output) && q in fs.entries && old(fs.entries)[q].Dir?)
    ensures r.Pass? ==> IsDirIn(fs.entries, output) && forall q :: q in fs.entries ==> !Below(q, output)
  {
    if !fs.Exists(output) {
      r := fs.Mkdir(output, false, false);
      if r.Pass? {
        NothingBelowNewFolder(old(fs.entries), output);
      }
      return;
    }
    if !fs.IsDir(output) {
      return Fail(NotADirectory);
    }
    ghost var start := fs.entries;
    var pending := ChildrenOf(fs.entries, output);
    while pending != {}
      invariant fs.Valid()
      invariant pending <= ChildrenOf(start, output)
      invariant fs.entries == start - (ChildrenOf(start, output) - pending)
      invariant forall q :: q in ChildrenOf(start, output) - pending ==> !start[q].Dir?
      decreases |pending|
    {
      var c :| c in pending;
      r := fs.Unlink(c);
      if r.Fail? {
        assert c in fs.entries && start[c].Dir?;
        return;
      }
      pending := pending - {c};
    }
    r := Pass;
    assert ChildrenOf(start, output) - pending == ChildrenOf(start, output);
    NothingBelowEmptied(start, output);
  }
}
