/** `pellipop/speech_to_text/whisperMode.py`: clearing the transcript folder, naming each
    transcript, writing what the Whisper client answered, and the dispatch of `main`. The
    client itself is external: its answer for each audio file is the parameter `responses`. */
module WhisperMode {
  import opened Wrappers
  import opened Paths
  import opened Fs

  // ---- rm_tree ----

  /** The regular files strictly below a path. */
  function FilesBelow(m: map<Path, Node>, p: Path): set<Path>
  {
    set q | q in m && Below(q, p) && m[q].File?
  }

  /** Everything strictly below a path: what is left for `rm_tree` to visit. */
  ghost function Under(m: map<Path, Node>, p: Path): set<Path>
  {
    set q | q in m && Below(q, p)
  }

  /** `rm_tree(pth)`: a missing path is created with its parents; otherwise every regular
      file at any depth below it is unlinked, and the directories are kept. */
  function RmTreeResult(m: map<Path, Node>, p: Path): Run
  {
    if !ExistsIn(m, p) then
      match MkdirResult(m, p, true, false)
      case Err(e) => Run(m, Fail(e))
      case Ok(m') => Run(m', Pass)
    else Run(m - FilesBelow(m, p), Pass)
  }

  /** The files below `p` that `rm_tree` has already removed once the children of `p` still
      to visit are `pending`. */
  ghost function Cleared(m: map<Path, Node>, p: Path, pending: set<Path>): set<Path>
  {
    set q | q in m && m[q].File? && Below(q, p) && q[..|p| + 1] !in pending
  }

  /** Before any child is visited, nothing is cleared. */
  lemma ClearedNone(m: map<Path, Node>, p: Path)
    requires WellFormed(m)
    ensures Cleared(m, p, ChildrenOf(m, p)) == {}
  {
    forall q | q in m && Below(q, p) ensures q[..|p| + 1] in ChildrenOf(m, p) {
      if |q| > |p| + 1 {
        AncestorIsDir(m, q, |p| + 1);
      } else {
        assert q[..|p| + 1] == q;
      }
      assert Parent(q[..|p| + 1]) == p;
    }
  }

  /** Visiting a child that is a regular file clears that file. */
  lemma ClearedFile(m: map<Path, Node>, p: Path, pending: set<Path>, c: Path)
    requires WellFormed(m) && c in pending && pending <= ChildrenOf(m, p) && c in m && m[c].File?
    ensures Cleared(m, p, pending - {c}) == Cleared(m, p, pending) + {c}
  {
    assert |c| == |p| + 1 && c[..|p|] == p && c[..|p| + 1] == c;
    forall q | q in Cleared(m, p, pending - {c}) ensures q in Cleared(m, p, pending) || q == c {
      if q[..|p| + 1] == c {
        if |q| > |p| + 1 {
          AncestorIsDir(m, q, |p| + 1);
        }
        assert q == q[..|p| + 1];
      }
    }
    assert c in Cleared(m, p, pending - {c});
  }

  /** Visiting a child that is not a regular file clears the files below it. */
  lemma ClearedDir(m: map<Path, Node>, p: Path, pending: set<Path>, c: Path)
    requires c in pending && pending <= ChildrenOf(m, p) && c in m && !m[c].File?
    ensures Cleared(m, p, pending - {c}) == Cleared(m, p, pending) + FilesBelow(m, c)
  {
    assert |c| == |p| + 1 && c[..|p|] == p;
    forall q | q in FilesBelow(m, c) ensures q in Cleared(m, p, pending - {c}) {
      assert q[..|p| + 1] == c;
    }
    forall q | q in Cleared(m, p, pending - {c}) ensures q in Cleared(m, p, pending) || q in FilesBelow(m, c) {
      if q[..|p| + 1] == c {
        assert q != c;
        assert q[..|c|] == c;
      }
    }
  }

  /** Below a child still to visit, nothing has been cleared yet. */
  lemma PendingUntouched(m: map<Path, Node>, p: Path, pending: set<Path>, c: Path)
    requires c in pending && pending <= ChildrenOf(m, p)
    ensures FilesBelow(m - Cleared(m, p, pending), c) == FilesBelow(m, c)
    ensures c in m && c !in Cleared(m, p, pending)
  {
    assert |c| == |p| + 1 && c[..|p|] == p && c[..|p| + 1] == c;
    forall q | q in FilesBelow(m, c) ensures q !in Cleared(m, p, pending) {
      assert q[..|p| + 1] == c;
    }
  }

  /** Once every child is visited, every file below is cleared. */
  lemma ClearedAll(m: map<Path, Node>, p: Path)
    requires ExistsIn(m, p)
    ensures m - Cleared(m, p, {}) == RmTreeResult(m, p).entries
  {
    assert Cleared(m, p, {}) == FilesBelow(m, p);
  }

  /** Unlinking a pending child that is a regular file moves it to the cleared files. */
  lemma StepFile(m: map<Path, Node>, p: Path, pending: set<Path>, c: Path)
    requires WellFormed(m) && c in pending && pending <= ChildrenOf(m, p)
    requires IsFileIn(m - Cleared(m, p, pending), c)
    ensures (m - Cleared(m, p, pending)) - {c} == m - Cleared(m, p, pending - {c})
  {
    PendingUntouched(m, p, pending, c);
    ClearedFile(m, p, pending, c);
  }

  /** Clearing below a pending child that is not a regular file moves the files below it to
      the cleared files; what is left below it is less than what was left below its folder. */
  lemma StepDir(m: map<Path, Node>, p: Path, pending: set<Path>, c: Path)
    requires c in pending && pending <= ChildrenOf(m, p)
    requires !IsFileIn(m - Cleared(m, p, pending), c)
    ensures c in m - Cleared(m, p, pending)
    ensures var now := m - Cleared(m, p, pending);
      now - FilesBelow(now, c) == m - Cleared(m, p, pending - {c})
    ensures Under(m - Cleared(m, p, pending), c) < Under(m, p)
  {
    PendingUntouched(m, p, pending, c);
    ClearedDir(m, p, pending, c);
    var now := m - Cleared(m, p, pending);
    assert |c| == |p| + 1 && c[..|p|] == p;
    forall q | q in Under(now, c) ensures q in Under(m, p) {
      assert q[..|p|] == p;
    }
    assert c in Under(m, p) && c !in Under(now, c);
  }

  /** `rm_tree(pth)`, visiting the entries of each folder in the order `glob` gives them. */
  method RmTree(fs: FileSystem, pth: Path) returns (r: Outcome<OsError>)
    requires fs.Valid()
    modifies fs
    ensures fs.Valid()
    ensures Run(fs.entries, r) == RmTreeResult(old(fs.entries), pth)
    decreases Under(fs.entries, pth)
  {
    if !fs.Exists(pth) {
      r := fs.Mkdir(pth, true, false);
      return;
    }
    ghost var start := fs.entries;
    var pending := ChildrenOf(fs.entries, pth);
    ClearedNone(start, pth);
    while pending != {}
      invariant fs.Valid()
      invariant pending <= ChildrenOf(start, pth)
      invariant fs.entries == start - Cleared(start, pth, pending)
      decreases |pending|
    {
      var child :| child in pending;
      if fs.IsFile(child) {
        StepFile(start, pth, pending, child);
        r := fs.Unlink(child);
      } else {
        StepDir(start, pth, pending, child);
        r := RmTree(fs, child);
      }
      pending := pending - {child};
    }
    ClearedAll(start, pth);
    r := Pass;
  }

  /** On a missing path `rm_tree` leaves an empty directory, or raises and changes nothing;
      on an existing one no regular file is left at any depth below it, everything else it
      held is kept, and nothing outside it changes. */
  lemma RmTreeEffect(m: map<Path, Node>, p: Path)
    requires WellFormed(m)
    ensures var run := RmTreeResult(m, p);
      !ExistsIn(m, p) ==>
        (run.outcome.Pass? <==> MkdirResult(m, p, true, false).Ok?) &&
        (run.outcome.Pass? ==> IsDirIn(run.entries, p) && forall q :: q in run.entries ==> !Below(q, p)) &&
        (run.outcome.Fail? ==> run.entries == m)
    ensures var run := RmTreeResult(m, p);
      ExistsIn(m, p) ==>
        run.outcome == Pass &&
        (forall q :: q in run.entries && Below(q, p) ==> !run.entries[q].File?) &&
        (forall q :: q in m && !(Below(q, p) && m[q].File?) ==> q in run.entries && run.entries[q] == m[q]) &&
        (forall q :: q in run.entries ==> q in m)
  {
    if !ExistsIn(m, p) {
      MkdirKeepsWellFormed(m, p, true, false);
      var res := MkdirResult(m, p, true, false);
      if res.Ok? {
        forall q | q in res.value ensures !Below(q, p) {
          if q in m && Below(q, p) {
            AncestorIsDir(m, q, |p|);
          }
        }
      }
    }
  }

  // ---- transcripts ----

  /** The modes of the Whisper client: `Mode.text`, and the others, which answer JSON. */
  datatype Mode = TextMode | OtherMode

  /** `text_path / audio.with_suffix(ext).name`, with `.txt` in text mode and `.json`
      otherwise. */
  function TranscriptOf(textPath: Path, audio: Path, mode: Mode): Path
  {
    textPath + [Name(WithSuffix(audio, if mode == TextMode then ".txt" else ".json"))]
  }

  /** A name `glob("*.wav")` matches. */
  predicate IsWav(name: string)
  {
    |name| >= 4 && name[|name| - 4..] == ".wav"
  }

  /** What `audio_path.glob("*.wav")` finds: the entries directly inside the folder whose
      name ends in `.wav`. */
  function WavAudios(m: map<Path, Node>, folder: Path): set<Path>
  {
    set q | q in ChildrenOf(m, folder) && IsWav(Name(q))
  }

  /** Each transcript sits directly in the text folder; for an audio file named `x.wav` it is
      named `x.txt` in text mode and `x.json` otherwise. */
  lemma TranscriptNaming(textPath: Path, audio: Path, mode: Mode, x: string)
    requires Name(audio) == x + ".wav" && x != ""
    ensures Parent(TranscriptOf(textPath, audio, mode)) == textPath
    ensures Name(TranscriptOf(textPath, audio, mode)) == x + (if mode == TextMode then ".txt" else ".json")
    ensures StemOf(Name(TranscriptOf(textPath, audio, mode))) == x
  {
    var ext := if mode == TextMode then ".txt" else ".json";
    StemOfSuffixed(x, ".wav");
    StemOfSuffixed(x, ext);
  }

  /** Two audio files of one folder, each named with something before `.wav`, get distinct
      transcripts. */
  lemma TranscriptsDistinct(textPath: Path, a: Path, b: Path, mode: Mode)
    requires |a| > 0 && |b| > 0 && Parent(a) == Parent(b) && a != b
    requires IsWav(Name(a)) && IsWav(Name(b)) && |Name(a)| > 4 && |Name(b)| > 4
    ensures TranscriptOf(textPath, a, mode) != TranscriptOf(textPath, b, mode)
  {
    var x, y := Name(a)[..|Name(a)| - 4], Name(b)[..|Name(b)| - 4];
    var ext := if mode == TextMode then ".txt" else ".json";
    assert Name(a) == x + ".wav" && Name(b) == y + ".wav";
    assert a == Parent(a) + [Name(a)] && b == Parent(b) + [Name(b)];
    assert x != y;
    TranscriptNaming(textPath, a, mode, x);
    TranscriptNaming(textPath, b, mode, y);
    assert (x + ext)[..|x|] == x && (y + ext)[..|y|] == y;
    assert |x + ext| != |y + ext| || x + ext != y + ext;
  }

  /** What the client answered, as `get_result_with_mode` returns it: a dict (its JSON text),
      a string, or a value of another type. */
  datatype Response = Dict(json: string) | Str(text: string) | OtherType

  /** How a step of the transcription ended abnormally: `sys.exit` with a code, a
      `TypeError`, a failed `assert`, a `JSONDecodeError`, or an `OSError`. */
  datatype Failure = Exit(code: int) | TypeError | AssertionError | JsonDecodeError | Os(error: OsError)

  /** The file system after a step, and how the step ended. */
  datatype Step = Step(entries: map<Path, Node>, outcome: Outcome<Failure>)

  /** `toText(config, audio, text)` once the client has answered: a missing audio file exits
      with status 1; otherwise the transcript is opened for writing, which truncates it, and
      then a dict is dumped as JSON, a string written as it is, and anything else raises
      `TypeError` with the file left empty. */
  function ToTextResult(m: map<Path, Node>, audio: Path, text: Path, res: Response): Step
  {
    if !ExistsIn(m, audio) then Step(m, Fail(Exit(1)))
    else
      match WriteResult(m, text, "")
      case Err(e) => Step(m, Fail(Os(e)))
      case Ok(m1) =>
        match res
        case Dict(j) => Step(WriteResult(m1, text, j).value, Pass)
        case Str(t) => Step(WriteResult(m1, text, t).value, Pass)
        case OtherType => Step(m1, Fail(TypeError))
  }

  /** The transcript ends up holding the dict's JSON or the string, or is left empty when the
      answer is of another type, which raises `TypeError`; nothing else changes. A missing
      audio file, or a transcript that cannot be opened, changes nothing. */
  lemma ToTextDispatch(m: map<Path, Node>, audio: Path, text: Path, res: Response)
    ensures !ExistsIn(m, audio) ==> ToTextResult(m, audio, text, res) == Step(m, Fail(Exit(1)))
    ensures ExistsIn(m, audio) && WriteResult(m, text, "").Err? ==>
      ToTextResult(m, audio, text, res) == Step(m, Fail(Os(WriteResult(m, text, "").error)))
    ensures ExistsIn(m, audio) && WriteResult(m, text, "").Ok? && !(text in m && m[text].Special?) ==>
      ToTextResult(m, audio, text, res) ==
        match res
        case Dict(j) => Step(m[text := File(j)], Pass)
        case Str(t) => Step(m[text := File(t)], Pass)
        case OtherType => Step(m[text := File("")], Fail(TypeError))
    ensures ToTextResult(m, audio, text, res).outcome.Pass? <==>
      ExistsIn(m, audio) && WriteResult(m, text, "").Ok? && !res.OtherType?
  {
    if ExistsIn(m, audio) && WriteResult(m, text, "").Ok? {
      var m1 := WriteResult(m, text, "").value;
      if !(text in m && m[text].Special?) {
        assert m1 == m[text := File("")];
      }
    }
  }

  /** `toText`, with the client's answer given. */
  method ToText(fs: FileSystem, audio: Path, text: Path, res: Response) returns (r: Outcome<Failure>)
    requires fs.Valid()
    modifies fs
    ensures fs.Valid()
    ensures Step(fs.entries, r) == ToTextResult(old(fs.entries), audio, text, res)
  {
    if !fs.Exists(audio) {
      return Fail(Exit(1));
    }
    var truncated := fs.Write(text, "");
    if truncated.Fail? {
      return Fail(Os(truncated.error));
    }
    match res
    case Dict(j) =>
      var _ := fs.Write(text, j);
      r := Pass;
    case Str(t) =>
      var _ := fs.Write(text, t);
      r := Pass;
    case OtherType =>
      r := Fail(TypeError);
  }

  // ---- toTextFolder ----

  /** What a transcript holds once written. */
  function Content(res: Response): string
  {
    match res
    case Dict(j) => j
    case Str(t) => t
    case OtherType => ""
  }

  /** The transcript is in place: it holds what the client answered, or it is a special file
      such as a pipe, which writing leaves as it was. */
  predicate Transcribed(m: map<Path, Node>, text: Path, res: Response)
  {
    text in m && (m[text].Special? || m[text] == File(Content(res)))
  }

  /** No other name `glob("*.wav")` can match in the audio folder shares the audio file's
      transcript. */
  ghost predicate SoleTranscript(audioPath: Path, textPath: Path, mode: Mode, a: Path)
  {
    forall b {:trigger TranscriptOf(textPath, b, mode)} :: (|b| > 0 && Parent(b) == audioPath && IsWav(Name(b)) &&
                 TranscriptOf(textPath, b, mode) == TranscriptOf(textPath, a, mode)) ==> b == a
  }

  /** Only the names `.wav` and `.wav.wav` share a transcript: any other audio file has one
      of its own. */
  lemma SoleTranscriptHolds(audioPath: Path, textPath: Path, mode: Mode, a: Path, x: string)
    requires |a| > 0 && Parent(a) == audioPath && Name(a) == x + ".wav" && x != "" && x != ".wav"
    ensures SoleTranscript(audioPath, textPath, mode, a)
  {
    forall b | |b| > 0 && Parent(b) == audioPath && IsWav(Name(b)) && b != a
      ensures TranscriptOf(textPath, b, mode) != TranscriptOf(textPath, a, mode)
    {
      if |Name(b)| > 4 {
        TranscriptsDistinct(textPath, a, b, mode);
      } else {
        BareWavTranscript(textPath, a, b, mode, x);
      }
    }
  }

  /** The file named just `.wav` shares no transcript with one named `x.wav`, unless `x` is
      `.wav`. */
  lemma BareWavTranscript(textPath: Path, a: Path, b: Path, mode: Mode, x: string)
    requires Name(a) == x + ".wav" && x != "" && x != ".wav"
    requires IsWav(Name(b)) && |Name(b)| <= 4
    ensures TranscriptOf(textPath, b, mode) != TranscriptOf(textPath, a, mode)
  {
    var ext := if mode == TextMode then ".txt" else ".json";
    TranscriptNaming(textPath, a, mode, x);
    assert Name(b) == ".wav";
    assert LastDot(Name(b)) == 0;
    assert Name(TranscriptOf(textPath, b, mode)) == ".wav" + ext;
    assert (x + ext)[..|x|] == x && (".wav" + ext)[..4] == ".wav";
    assert |x + ext| != |".wav" + ext| || x + ext != ".wav" + ext;
  }

  /** `toText` changes the transcript and nothing else, creates nothing else, and on success
      leaves the transcript in place. */
  lemma ToTextFrame(m: map<Path, Node>, audio: Path, text: Path, res: Response)
    ensures var m' := ToTextResult(m, audio, text, res).entries;
      m.Keys <= m'.Keys && m'.Keys <= m.Keys + {text} &&
      (forall q :: q in m && q != text ==> m'[q] == m[q]) &&
      (ToTextResult(m, audio, text, res).outcome.Pass? ==> Transcribed(m', text, res))
  {
    ToTextDispatch(m, audio, text, res);
  }

  /** `toText` on each audio file of `order` in turn, until the first exception. */
  function TranscribeRun(m: map<Path, Node>, textPath: Path, mode: Mode, responses: Path -> Response,
                         order: seq<Path>): Step
    decreases |order|
  {
    if order == [] then Step(m, Pass)
    else
      var st := ToTextResult(m, order[0], TranscriptOf(textPath, order[0], mode), responses(order[0]));
      if st.outcome.Fail? then st
      else TranscribeRun(st.entries, textPath, mode, responses, order[1..])
  }

  /** One more audio file at the end of the run is one more `toText` on its result. */
  lemma {:induction false} TranscribeRunAppend(m: map<Path, Node>, textPath: Path, mode: Mode,
                                               responses: Path -> Response, order: seq<Path>, a: Path)
    ensures var run := TranscribeRun(m, textPath, mode, responses, order);
      TranscribeRun(m, textPath, mode, responses, order + [a]) ==
        if run.outcome.Fail? then run
        else ToTextResult(run.entries, a, TranscriptOf(textPath, a, mode), responses(a))
    decreases |order|
  {
    if order == [] {
      assert [a][1..] == [];
    } else {
      assert (order + [a])[0] == order[0] && (order + [a])[1..] == order[1..] + [a];
      var st := ToTextResult(m, order[0], TranscriptOf(textPath, order[0], mode), responses(order[0]));
      if st.outcome.Pass? {
        TranscribeRunAppend(st.entries, textPath, mode, responses, order[1..], a);
      }
    }
  }

  /** The transcripts a run writes. */
  function TranscriptsOf(textPath: Path, mode: Mode, order: seq<Path>): set<Path>
  {
    set a | a in order :: TranscriptOf(textPath, a, mode)
  }

  /** The transcripts of a set of audio files. */
  function TranscriptSet(textPath: Path, mode: Mode, audios: set<Path>): set<Path>
  {
    set a | a in audios :: TranscriptOf(textPath, a, mode)
  }

  /** A transcript's name ends in `.txt` or `.json`, never in `.wav`. */
  lemma TranscriptNotWav(textPath: Path, a: Path, mode: Mode)
    ensures !IsWav(Name(TranscriptOf(textPath, a, mode)))
  {
    var ext := if mode == TextMode then ".txt" else ".json";
    var n := Stem(a) + ext;
    var w := WithSuffix(a, ext);
    assert w == Parent(a) + [n] && Name(w) == n;
    assert Name(TranscriptOf(textPath, a, mode)) == n;
    assert n[|n| - 4..] == ext[|ext| - 4..];
    assert ext[|ext| - 4..] != ".wav";
  }

  /** A run adds no `*.wav` entry to any folder: it only writes transcripts. */
  lemma TranscribeRunWavs(m: map<Path, Node>, audioPath: Path, textPath: Path, mode: Mode,
                          responses: Path -> Response, order: seq<Path>)
    ensures WavAudios(TranscribeRun(m, textPath, mode, responses, order).entries, audioPath) == WavAudios(m, audioPath)
  {
    var m' := TranscribeRun(m, textPath, mode, responses, order).entries;
    TranscribeRunFrame(m, textPath, mode, responses, order);
    forall q | q in WavAudios(m', audioPath) ensures q in m {
      if q !in m {
        var a :| a in order && q == TranscriptOf(textPath, a, mode);
        TranscriptNotWav(textPath, a, mode);
      }
    }
  }

  /** A run creates or changes only the transcripts of its audio files, and removes
      nothing. */
  lemma TranscribeRunFrame(m: map<Path, Node>, textPath: Path, mode: Mode,
                           responses: Path -> Response, order: seq<Path>)
    ensures var run := TranscribeRun(m, textPath, mode, responses, order);
      m.Keys <= run.entries.Keys &&
      (forall q :: q in m && q !in TranscriptsOf(textPath, mode, order) ==> run.entries[q] == m[q]) &&
      (forall q :: q in run.entries && q !in m ==> q in TranscriptsOf(textPath, mode, order))
  {
    TranscribeRunKeeps(m, textPath, mode, responses, order);
    TranscribeRunCreates(m, textPath, mode, responses, order);
  }

  /** A run removes nothing, and leaves every entry but its transcripts as it was. */
  lemma {:induction false} TranscribeRunKeeps(m: map<Path, Node>, textPath: Path, mode: Mode,
                                              responses: Path -> Response, order: seq<Path>)
    ensures var run := TranscribeRun(m, textPath, mode, responses, order);
      forall q :: q in m ==> q in run.entries && (q !in TranscriptsOf(textPath, mode, order) ==> run.entries[q] == m[q])
    decreases |order|
  {
    if order != [] {
      var a0, rest := order[0], order[1..];
      var t0 := TranscriptOf(textPath, a0, mode);
      var st := ToTextResult(m, a0, t0, responses(a0));
      ToTextFrame(m, a0, t0, responses(a0));
      if st.outcome.Pass? {
        TranscribeRunKeeps(st.entries, textPath, mode, responses, rest);
        TranscriptsOfCons(textPath, mode, order);
      }
    }
  }

  /** Every entry a run creates is one of its transcripts. */
  lemma {:induction false} TranscribeRunCreates(m: map<Path, Node>, textPath: Path, mode: Mode,
                                                responses: Path -> Response, order: seq<Path>)
    ensures var run := TranscribeRun(m, textPath, mode, responses, order);
      forall q :: q in run.entries && q !in m ==> q in TranscriptsOf(textPath, mode, order)
    decreases |order|
  {
    if order != [] {
      var a0, rest := order[0], order[1..];
      var t0 := TranscriptOf(textPath, a0, mode);
      var st := ToTextResult(m, a0, t0, responses(a0));
      ToTextFrame(m, a0, t0, responses(a0));
      if st.outcome.Pass? {
        TranscribeRunCreates(st.entries, textPath, mode, responses, rest);
        TranscriptsOfCons(textPath, mode, order);
      }
    }
  }

  /** The transcripts of a run are those of its first audio file and of the rest. */
  lemma TranscriptsOfCons(textPath: Path, mode: Mode, order: seq<Path>)
    requires order != []
    ensures TranscriptsOf(textPath, mode, order) ==
      {TranscriptOf(textPath, order[0], mode)} + TranscriptsOf(textPath, mode, order[1..])
  {
    assert order == [order[0]] + order[1..];
  }

  /** When a run ends normally, no answer was of another type. */
  lemma {:induction false} TranscribeRunTyped(m: map<Path, Node>, textPath: Path, mode: Mode,
                                              responses: Path -> Response, order: seq<Path>)
    ensures TranscribeRun(m, textPath, mode, responses, order).outcome.Pass? ==>
      forall a :: a in order ==> !responses(a).OtherType?
    decreases |order|
  {
    if order != [] {
      var a0, rest := order[0], order[1..];
      assert order == [a0] + rest;
      var t0 := TranscriptOf(textPath, a0, mode);
      var st := ToTextResult(m, a0, t0, responses(a0));
      if st.outcome.Pass? {
        TranscribeRunTyped(st.entries, textPath, mode, responses, rest);
        PassIsTyped(m, a0, t0, responses(a0));
      }
    }
  }

  /** When a run ends normally, every audio file with a transcript of its own has that
      transcript in place. */
  lemma {:induction false} TranscribeRunWrites(m: map<Path, Node>, audioPath: Path, textPath: Path, mode: Mode,
                                               responses: Path -> Response, order: seq<Path>, a: Path)
    requires forall b :: b in order ==> |b| > 0 && Parent(b) == audioPath && IsWav(Name(b))
    requires a in order && SoleTranscript(audioPath, textPath, mode, a)
    ensures var run := TranscribeRun(m, textPath, mode, responses, order);
      run.outcome.Pass? ==> Transcribed(run.entries, TranscriptOf(textPath, a, mode), responses(a))
    decreases |order|
  {
    var a0, rest := order[0], order[1..];
    assert order == [a0] + rest;
    var st := ToTextResult(m, a0, TranscriptOf(textPath, a0, mode), responses(a0));
    if st.outcome.Pass? {
      if a in rest {
        TranscribeRunWrites(st.entries, audioPath, textPath, mode, responses, rest, a);
      } else {
        SoleStaysWritten(m, audioPath, textPath, mode, responses, a0, rest);
      }
    }
  }

  /** `toText` fails on an answer of another type. */
  lemma PassIsTyped(m: map<Path, Node>, audio: Path, text: Path, res: Response)
    ensures ToTextResult(m, audio, text, res).outcome.Pass? ==> !res.OtherType?
  {
    ToTextDispatch(m, audio, text, res);
  }

  /** The transcript of the first audio file of a run, when it has a transcript of its own and
      is not visited again, is left in place by the rest of the run. */
  lemma SoleStaysWritten(m: map<Path, Node>, audioPath: Path, textPath: Path, mode: Mode,
                         responses: Path -> Response, a0: Path, rest: seq<Path>)
    requires forall a :: a in rest ==> |a| > 0 && Parent(a) == audioPath && IsWav(Name(a))
    requires SoleTranscript(audioPath, textPath, mode, a0) && a0 !in rest
    requires ToTextResult(m, a0, TranscriptOf(textPath, a0, mode), responses(a0)).outcome.Pass?
    ensures var st := ToTextResult(m, a0, TranscriptOf(textPath, a0, mode), responses(a0));
      Transcribed(TranscribeRun(st.entries, textPath, mode, responses, rest).entries,
                  TranscriptOf(textPath, a0, mode), responses(a0))
  {
    var t0 := TranscriptOf(textPath, a0, mode);
    var st := ToTextResult(m, a0, t0, responses(a0));
    ToTextFrame(m, a0, t0, responses(a0));
    TranscribeRunFrame(st.entries, textPath, mode, responses, rest);
    assert t0 !in TranscriptsOf(textPath, mode, rest) by {
      forall t | t in TranscriptsOf(textPath, mode, rest) ensures t != t0 {
        var b :| b in rest && t == TranscriptOf(textPath, b, mode);
        assert |b| > 0 && Parent(b) == audioPath && IsWav(Name(b));
      }
    }
  }

  /** The loop of `toTextFolder`: each audio file found goes through `toText`, in the order
      `glob` gives them, until the first exception; `order` is the order they were visited
      in. */
  method TranscribeEach(fs: FileSystem, textPath: Path, mode: Mode, responses: Path -> Response, audios: set<Path>)
    returns (r: Outcome<Failure>, ghost order: seq<Path>)
    requires fs.Valid()
    modifies fs
    ensures fs.Valid()
    ensures forall a :: a in order ==> a in audios
    ensures r.Pass? ==> forall a :: a in audios ==> a in order
    ensures Step(fs.entries, r) == TranscribeRun(old(fs.entries), textPath, mode, responses, order)
  {
    ghost var base := fs.entries;
    var pending := audios;
    order := [];
    while pending != {}
      invariant fs.Valid()
      invariant pending <= audios
      invariant forall a :: a in order <==> a in audios && a !in pending
      invariant TranscribeRun(base, textPath, mode, responses, order) == Step(fs.entries, Pass)
      decreases |pending|
    {
      var audio :| audio in pending;
      TranscribeRunAppend(base, textPath, mode, responses, order, audio);
      r := ToText(fs, audio, TranscriptOf(textPath, audio, mode), responses(audio));
      order := order + [audio];
      if r.Fail? {
        return;
      }
      pending := pending - {audio};
    }
    r := Pass;
  }

  /** `toTextFolder(config, audio_path, text_path, mode=mode)`: a missing audio folder exits
      with status 1, a missing text folder is created with its parents, and each `*.wav` entry
      of the audio folder goes through `toText`. */
  method ToTextFolder(fs: FileSystem, audioPath: Path, textPath: Path, mode: Mode, responses: Path -> Response)
    returns (r: Outcome<Failure>)
    requires fs.Valid()
    modifies fs
    ensures fs.Valid()
    ensures !ExistsIn(old(fs.entries), audioPath) ==> r == Fail(Exit(1)) && fs.entries == old(fs.entries)
    ensures old(fs.entries).Keys <= fs.entries.Keys
    ensures forall q :: q in old(fs.entries) && Parent(q) != textPath ==> fs.entries[q] == old(fs.entries)[q]
    ensures forall q :: q in fs.entries && q !in old(fs.entries) ==> q <= textPath || Parent(q) == textPath
    ensures r.Pass? ==> forall a :: a in WavAudios(old(fs.entries), audioPath) ==> !responses(a).OtherType?
    ensures r.Pass? ==> forall a :: a in WavAudios(old(fs.entries), audioPath) && SoleTranscript(audioPath, textPath, mode, a) ==>
      Transcribed(fs.entries, TranscriptOf(textPath, a, mode), responses(a))
    ensures forall a :: a in WavAudios(fs.entries, audioPath) ==>
      a in WavAudios(old(fs.entries), audioPath) || a == textPath || Below(textPath, a)
    ensures forall q :: q in old(fs.entries) && q !in TranscriptSet(textPath, mode, WavAudios(fs.entries, audioPath)) ==>
      fs.entries[q] == old(fs.entries)[q]
    ensures forall q :: q in fs.entries && q !in old(fs.entries) ==>
      q == textPath || Below(textPath, q) || q in TranscriptSet(textPath, mode, WavAudios(fs.entries, audioPath))
  {
    if !fs.Exists(audioPath) {
      return Fail(Exit(1));
    }
    if !fs.Exists(textPath) {
      MkdirKeepsWellFormed(fs.entries, textPath, true, false);
      MkdirAdds(fs.entries, textPath, true, false);
      var made := fs.Mkdir(textPath, true, false);
      if made.Fail? {
        return Fail(Os(made.error));
      }
    }
    ghost var base := fs.entries;
    assert WavAudios(old(fs.entries), audioPath) <= WavAudios(base, audioPath);
    ghost var order;
    r, order := TranscribeEach(fs, textPath, mode, responses, WavAudios(fs.entries, audioPath));
    FolderRun(base, audioPath, textPath, mode, responses, order);
  }

  /** A run over audio files of the audio folder keeps its `*.wav` entries, removes nothing,
      creates or changes only their transcripts, directly in the text folder, and when it ends
      normally has written the transcript of each audio file that has one of its own. */
  lemma FolderRun(m: map<Path, Node>, audioPath: Path, textPath: Path, mode: Mode, responses: Path -> Response,
                  order: seq<Path>)
    requires forall a :: a in order ==> a in WavAudios(m, audioPath)
    ensures var run := TranscribeRun(m, textPath, mode, responses, order);
      WavAudios(run.entries, audioPath) == WavAudios(m, audioPath) &&
      m.Keys <= run.entries.Keys &&
      (forall q :: q in m && q !in TranscriptSet(textPath, mode, WavAudios(m, audioPath)) ==> run.entries[q] == m[q]) &&
      (forall q :: q in m && Parent(q) != textPath ==> run.entries[q] == m[q]) &&
      (forall q :: q in run.entries && q !in m ==>
        Parent(q) == textPath && q in TranscriptSet(textPath, mode, WavAudios(m, audioPath)))
    ensures var run := TranscribeRun(m, textPath, mode, responses, order);
      run.outcome.Pass? ==> forall a :: a in order ==>
        (!responses(a).OtherType? &&
         (SoleTranscript(audioPath, textPath, mode, a) ==> Transcribed(run.entries, TranscriptOf(textPath, a, mode), responses(a))))
  {
    TranscribeRunFrame(m, textPath, mode, responses, order);
    TranscribeRunTyped(m, textPath, mode, responses, order);
    TranscribeRunWavs(m, audioPath, textPath, mode, responses, order);
    assert TranscriptsOf(textPath, mode, order) <= TranscriptSet(textPath, mode, WavAudios(m, audioPath));
    forall a | a in order && SoleTranscript(audioPath, textPath, mode, a)
      ensures TranscribeRun(m, textPath, mode, responses, order).outcome.Pass? ==>
        Transcribed(TranscribeRun(m, textPath, mode, responses, order).entries, TranscriptOf(textPath, a, mode), responses(a))
    {
      TranscribeRunWrites(m, audioPath, textPath, mode, responses, order, a);
    }
    forall q | q in TranscriptsOf(textPath, mode, order) ensures Parent(q) == textPath {
      var a :| a in order && q == TranscriptOf(textPath, a, mode);
    }
  }

  // ---- main ----

  /** The `config_data` argument of `main`: a string naming a file, a path, a dict, or a
      value of another type. */
  datatype ConfigArg<C> = ConfigText(text: string) | ConfigFile(path: Path) | ConfigDict(config: C) | ConfigOther

  /** A configuration file: it must exist (the `assert`), then it is read and parsed. */
  function LoadConfigFile<C>(m: map<Path, Node>, p: Path, load: string -> Option<C>): Result<C, Failure>
  {
    if !ExistsIn(m, p) then Err(AssertionError)
    else
      match ReadResult(m, p)
      case Err(e) => Err(Os(e))
      case Ok(text) =>
        match load(text)
        case None => Err(JsonDecodeError)
        case Some(c) => Ok(c)
  }

  /** The dispatch on the type of `config_data`. */
  function LoadConfig<C>(m: map<Path, Node>, config: ConfigArg<C>, load: string -> Option<C>): Result<C, Failure>
  {
    match config
    case ConfigText(t) => LoadConfigFile(m, ParsePath(t), load)
    case ConfigFile(p) => LoadConfigFile(m, p, load)
    case ConfigDict(c) => Ok(c)
    case ConfigOther => Err(TypeError)
  }

  /** A string is read as the path it names, a dict is taken as it is, any other type raises
      `TypeError`; a path must exist, must be a regular file, and must hold JSON. */
  lemma LoadConfigDispatch<C>(m: map<Path, Node>, config: ConfigArg<C>, load: string -> Option<C>)
    ensures config.ConfigText? ==> LoadConfig(m, config, load) == LoadConfig(m, ConfigFile(ParsePath(config.text)), load)
    ensures config.ConfigDict? ==> LoadConfig(m, config, load) == Ok(config.config)
    ensures config.ConfigOther? ==> LoadConfig(m, config, load) == Err(TypeError)
    ensures config.ConfigFile? && !ExistsIn(m, config.path) ==> LoadConfig(m, config, load) == Err(AssertionError)
    ensures config.ConfigFile? && IsDirIn(m, config.path) ==> LoadConfig(m, config, load) == Err(Os(IsADirectory))
    ensures config.ConfigFile? && config.path != [] ==>
      (LoadConfig(m, config, load).Ok? <==> IsFileIn(m, config.path) && load(m[config.path].content).Some?)
    ensures config.ConfigFile? && LoadConfig(m, config, load).Ok? ==>
      Some(LoadConfig(m, config, load).value) == load(m[config.path].content)
  {
    if config.ConfigFile? && config.path != [] && IsFileIn(m, config.path) {
      assert ReadResult(m, config.path) == Ok(m[config.path].content);
    }
  }

  /** `if not audio_path.exists(): audio_path.mkdir(parents=True)`. */
  function PrepareAudio(m: map<Path, Node>, audioPath: Path): Result<map<Path, Node>, OsError>
  {
    if ExistsIn(m, audioPath) then Ok(m) else MkdirResult(m, audioPath, true, false)
  }

  /** `main(config_data, audio_path, text_path, folder=False)` once the client has answered:
      the configuration is loaded, a missing audio path is created as a folder, `text_path`
      goes through `rm_tree`, and then `toText` writes the transcript to `text_path`. */
  function MainSingleResult<C>(m: map<Path, Node>, config: ConfigArg<C>, load: string -> Option<C>,
                               audioPath: Path, textPath: Path, res: Response): Step
  {
    match LoadConfig(m, config, load)
    case Err(e) => Step(m, Fail(e))
    case Ok(_) =>
      match PrepareAudio(m, audioPath)
      case Err(e) => Step(m, Fail(Os(e)))
      case Ok(m1) =>
        var cleared := RmTreeResult(m1, textPath);
        if cleared.outcome.Fail? then Step(m1, Fail(Os(cleared.outcome.error)))
        else ToTextResult(cleared.entries, audioPath, textPath, res)
  }

  /** With `folder=False` and a transcript that does not exist yet, `rm_tree` creates a
      directory at the transcript's path, and `toText` then fails to open it for writing,
      whatever the client answered. */
  lemma MainSingleBlocked<C>(m: map<Path, Node>, config: C, load: string -> Option<C>,
                             audioPath: Path, textPath: Path, res: Response)
    requires IsFileIn(m, audioPath) && !ExistsIn(m, textPath) && IsDirIn(m, Parent(textPath))
    ensures MainSingleResult(m, ConfigDict(config), load, audioPath, textPath, res) == Step(m[textPath := Dir], Fail(Os(IsADirectory)))
  {
    var m1 := m[textPath := Dir];
    assert RmTreeResult(m, textPath) == Run(m1, Pass);
    assert ExistsIn(m1, audioPath) && IsDirIn(m1, textPath);
  }

  /** The evident intent for `folder=False`: the transcript is a file, so only the folder mode
      clears `text_path` with `rm_tree`. */
  function MainSingleIntended<C>(m: map<Path, Node>, config: ConfigArg<C>, load: string -> Option<C>,
                                 audioPath: Path, textPath: Path, res: Response): Step
  {
    match LoadConfig(m, config, load)
    case Err(e) => Step(m, Fail(e))
    case Ok(_) =>
      match PrepareAudio(m, audioPath)
      case Err(e) => Step(m, Fail(Os(e)))
      case Ok(m1) => ToTextResult(m1, audioPath, textPath, res)
  }

  /** With the intended order, a transcript that does not exist yet is written with what the
      client answered, and a regular file already there is replaced. */
  lemma MainSingleIntendedWrites<C>(m: map<Path, Node>, config: C, load: string -> Option<C>,
                                    audioPath: Path, textPath: Path, res: Response)
    requires WellFormed(m)
    requires IsFileIn(m, audioPath) && (!ExistsIn(m, textPath) || IsFileIn(m, textPath)) && IsDirIn(m, Parent(textPath))
    requires !res.OtherType?
    ensures MainSingleIntended(m, ConfigDict(config), load, audioPath, textPath, res) == Step(m[textPath := File(Content(res))], Pass)
  {
    assert WriteResult(m, textPath, "") == Ok(m[textPath := File("")]);
    ToTextDispatch(m, audioPath, textPath, res);
  }

  /** `rm_tree` on the text folder followed by a pass of `toTextFolder` that changed only
      transcripts: every regular file left below the text folder is a transcript, and nothing
      outside it changed. */
  lemma ClearedThenTranscribed(prepared: map<Path, Node>, before: map<Path, Node>, after: map<Path, Node>,
                               audioPath: Path, textPath: Path, mode: Mode)
    requires WellFormed(prepared)
    requires RmTreeResult(prepared, textPath) == Run(before, Pass)
    requires before.Keys <= after.Keys
    requires forall q :: q in before && Parent(q) != textPath ==> after[q] == before[q]
    requires forall q :: q in before && q !in TranscriptSet(textPath, mode, WavAudios(after, audioPath)) ==>
      after[q] == before[q]
    requires forall q :: q in after && q !in before ==>
      q == textPath || Below(textPath, q) || q in TranscriptSet(textPath, mode, WavAudios(after, audioPath))
    ensures forall q :: q in after && Below(q, textPath) && after[q].File? ==>
      q in TranscriptSet(textPath, mode, WavAudios(after, audioPath))
    ensures forall q :: q in prepared && !Below(q, textPath) ==> q in after && after[q] == prepared[q]
  {
    RmTreeEffect(prepared, textPath);
    MkdirAdds(prepared, textPath, true, false);
    forall q | q in after && Below(q, textPath) && after[q].File?
      ensures q in TranscriptSet(textPath, mode, WavAudios(after, audioPath))
    {
      if q in before {
        assert ExistsIn(prepared, textPath) && !before[q].File?;
      }
    }
  }

  /** `main(config_data, audio_path, text_path, mode=mode, folder=folder)`, with the client's
      answer for each audio file given. */
  method WhisperMain<C>(fs: FileSystem, config: ConfigArg<C>, load: string -> Option<C>, audioPath: Path, textPath: Path,
                        mode: Mode, folder: bool, responses: Path -> Response)
    returns (r: Outcome<Failure>)
    requires fs.Valid()
    modifies fs
    ensures fs.Valid()
    ensures LoadConfig(old(fs.entries), config, load).Err? ==>
      r == Fail(LoadConfig(old(fs.entries), config, load).error) && fs.entries == old(fs.entries)
    ensures !folder ==>
      Step(fs.entries, r) == MainSingleResult(old(fs.entries), config, load, audioPath, textPath, responses(audioPath))
    ensures folder && r.Pass? ==>
      forall a :: a in WavAudios(old(fs.entries), audioPath) && !Below(a, textPath) ==>
        !responses(a).OtherType? &&
        (SoleTranscript(audioPath, textPath, mode, a) ==> Transcribed(fs.entries, TranscriptOf(textPath, a, mode), responses(a)))
    ensures folder && r.Pass? ==>
      forall q :: q in fs.entries && Below(q, textPath) && fs.entries[q].File? ==>
        q in TranscriptSet(textPath, mode, WavAudios(fs.entries, audioPath))
    ensures folder ==>
      forall q :: q in old(fs.entries) && !Below(q, textPath) ==> q in fs.entries && fs.entries[q] == old(fs.entries)[q]
  {
    var loaded := LoadConfig(fs.entries, config, load);
    if loaded.Err? {
      return Fail(loaded.error);
    }
    ghost var start := fs.entries;
    if !fs.Exists(audioPath) {
      MkdirKeepsWellFormed(fs.entries, audioPath, true, false);
      MkdirAdds(fs.entries, audioPath, true, false);
      var made := fs.Mkdir(audioPath, true, false);
      if made.Fail? {
        return Fail(Os(made.error));
      }
    }
    ghost var prepared := fs.entries;
    assert PrepareAudio(start, audioPath) == Ok(prepared);
    var cleared := RmTree(fs, textPath);
    if cleared.Fail? {
      return Fail(Os(cleared.error));
    }
    if folder {
      ghost var before := fs.entries;
      RmTreeEffect(prepared, textPath);
      if !ExistsIn(prepared, textPath) {
        MkdirKeepsWellFormed(prepared, textPath, true, false);
      }
      forall a | a in WavAudios(start, audioPath) && !Below(a, textPath)
        ensures a in WavAudios(before, audioPath)
      {
        assert a in prepared && a in before;
      }
      r := ToTextFolder(fs, audioPath, textPath, mode, responses);
      ClearedThenTranscribed(prepared, before, fs.entries, audioPath, textPath, mode);
    } else {
      r := ToText(fs, audioPath, textPath, responses(audioPath));
    }
  }
}
