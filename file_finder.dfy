/** `pellipop/file_finder.py`: the file finder with argument normalisation, a `FileType` per
    kind of artifact, an optional set of stem prefixes, and its `how_many_files`. */
module FileFinder {
  import opened Wrappers
  import opened Strings
  import opened Paths
  import opened DirTree

  /** The members of the `FileType` enumeration. */
  datatype FileType = Video | Image | Audio | Text | Csv | Json

  /** Each member's value: the suffixes of that kind of file. */
  function Formats(t: FileType): set<string>
  {
    match t
    case Video => VideoFormats
    case Image => {".jpg"}
    case Audio => {".wav", ".aac", ".mp3"}
    case Text => {".txt"}
    case Csv => {".csv"}
    case Json => {".json"}
  }

  /** `FileType[name]`. */
  function TypeNamed(name: string): Option<FileType>
  {
    if name == "video" then Some(Video)
    else if name == "image" then Some(Image)
    else if name == "audio" then Some(Audio)
    else if name == "text" then Some(Text)
    else if name == "csv" then Some(Csv)
    else if name == "json" then Some(Json)
    else None
  }

  /** The `deep` argument: an `int`, a `str`, or anything else. */
  datatype DeepArg = DeepInt(value: int) | DeepText(text: string) | DeepOther

  /** The `file_type` argument: a `FileType`, a `str`, or anything else. */
  datatype TypeArg = TypeValue(fileType: FileType) | TypeName(name: string) | TypeOther

  /** The three `ValueError`s the finder raises. */
  datatype FinderError = InvalidPath | InvalidDeep | InvalidFormat

  function DeepOf(deep: DeepArg): Option<int>
  {
    match deep
    case DeepInt(d) => Some(d)
    case DeepText(t) => ParseInt(t)
    case DeepOther => None
  }

  function TypeOf(fileType: TypeArg): Option<FileType>
  {
    match fileType
    case TypeValue(t) => Some(t)
    case TypeName(n) => TypeNamed(n)
    case TypeOther => None
  }

  /** `list(file_finder(path, deep=deep, file_type=fileType, only_stems=onlyStems))`, where
      `listing` is what `glob("*")` finds under the path: the arguments are checked in order,
      then the walk passes the file type and the stems down unchanged. */
  function FileFinder(path: PathArg, listing: seq<Entry>, deep: DeepArg, fileType: TypeArg,
                      onlyStems: Option<set<string>>): Result<seq<Path>, FinderError>
  {
    if AsPath(path).None? then Err(InvalidPath)
    else if DeepOf(deep).None? then Err(InvalidDeep)
    else if TypeOf(fileType).None? then Err(InvalidFormat)
    else
      var f := Filter(Formats(TypeOf(fileType).value), onlyStems);
      Ok(Walk(AsPath(path).value, listing, DeepOf(deep).value, f, f))
  }

  /** The finder raises for a path that is neither a string nor a path, then for a depth that is
      not an integer or a numeral, then for a file type that is neither a member nor a member's
      name, and otherwise succeeds. */
  lemma FileFinderChecks(path: PathArg, listing: seq<Entry>, deep: DeepArg, fileType: TypeArg,
                         onlyStems: Option<set<string>>)
    ensures path.OtherValue? ==> FileFinder(path, listing, deep, fileType, onlyStems) == Err(InvalidPath)
    ensures !path.OtherValue? && (deep.DeepOther? || (deep.DeepText? && ParseInt(deep.text).None?))
      ==> FileFinder(path, listing, deep, fileType, onlyStems) == Err(InvalidDeep)
    ensures !path.OtherValue? && DeepOf(deep).Some? &&
      (fileType.TypeOther? || (fileType.TypeName? && fileType.name !in {"video", "image", "audio", "text", "csv", "json"}))
      ==> FileFinder(path, listing, deep, fileType, onlyStems) == Err(InvalidFormat)
    ensures FileFinder(path, listing, deep, fileType, onlyStems).Ok? <==>
      !path.OtherValue? && DeepOf(deep).Some? && TypeOf(fileType).Some?
  {
  }

  /** What the finder yields: exactly the files below the path, in reach of the depth, whose
      suffix belongs to the file type and, when stems are given, whose stem starts with one of
      them. */
  lemma FileFinderYields(path: Path, listing: seq<Entry>, deep: int, t: FileType, onlyStems: Option<set<string>>, p: Path)
    ensures FileFinder(PathValue(path), listing, DeepInt(deep), TypeValue(t), onlyStems).Ok?
    ensures p in FileFinder(PathValue(path), listing, DeepInt(deep), TypeValue(t), onlyStems).value <==>
      |p| > |path| && p[..|path|] == path && FileAt(listing, p[|path|..]) && Within(p[|path|..], deep) &&
      SuffixOf(p[|p| - 1]) in Formats(t) &&
      (onlyStems.None? || exists s :: s in onlyStems.value && s <= StemOf(p[|p| - 1]))
  {
    var f := Filter(Formats(t), onlyStems);
    WalkMembers(path, listing, deep, f, f, p);
    if |p| > 0 {
      AcceptsByPrefix(f, p[|p| - 1]);
    }
  }

  /** `how_many_files(path, deep, format)` as written: `deep` and `format` are passed by
      position, land in `*args` and are ignored, so the count is always the unlimited walk for
      videos. */
  function HowManyFiles(path: PathArg, listing: seq<Entry>, deep: int, format: string): Result<nat, FinderError>
  {
    match FileFinder(path, listing, DeepInt(-1), TypeValue(Video), None)
    case Err(e) => Err(e)
    case Ok(ps) => Ok(|ps|)
  }

  lemma VideoName(video: string)
    requires video == "a.mp4"
    ensures Accepts(Filter(VideoFormats, None), video)
  {
    StemOfSuffixed("a", ".mp4");
    assert "a" + ".mp4" == video;
  }

  lemma PictureName(picture: string)
    requires picture == "b.jpg"
    ensures Accepts(Filter(Formats(Image), None), picture) && !Accepts(Filter(VideoFormats, None), picture)
  {
    StemOfSuffixed("b", ".jpg");
    assert "b" + ".jpg" == picture;
  }

  /** A video one level down is counted even when `how_many_files` is asked for depth 0,
      where the finder itself yields nothing. */
  lemma HowManyFilesIgnoresDepth(path: Path, video: string, listing: seq<Entry>)
    requires video == "a.mp4" && listing == [DirEntry("d", [FileEntry(video)])]
    ensures HowManyFiles(PathValue(path), listing, 0, "video") == Ok(1)
    ensures FileFinder(PathValue(path), listing, DeepInt(0), TypeName("video"), None) == Ok([])
  {
    var vf := Filter(VideoFormats, None);
    var sub := [FileEntry(video)];
    assert Walk(path + ["d"], sub, -1, vf, vf) == [path + ["d"] + [video]] by {
      VideoName(video);
      assert sub[1..] == [];
    }
    assert listing[1..] == [];
    assert Walk(path, listing, -1, vf, vf) == Walk(path + ["d"], sub, -1, vf, vf);
    assert Walk(path, listing, 0, vf, vf) == [];
  }

  /** A picture is not counted when `how_many_files` is asked for images, though the finder
      itself yields it. */
  lemma HowManyFilesIgnoresFormat(path: Path, picture: string, listing: seq<Entry>)
    requires picture == "b.jpg" && listing == [FileEntry(picture)]
    ensures HowManyFiles(PathValue(path), listing, -1, "image") == Ok(0)
    ensures FileFinder(PathValue(path), listing, DeepInt(-1), TypeName("image"), None) == Ok([path + [picture]])
  {
    PictureName(picture);
    assert listing[1..] == [];
    var vf := Filter(VideoFormats, None);
    var jf := Filter(Formats(Image), None);
    assert Walk(path, listing, -1, vf, vf) == [];
    assert Walk(path, listing, -1, jf, jf) == [path + [picture]];
  }

  /** The evident intent: `file_finder(path, deep=deep, file_type=format)`. */
  function HowManyFilesIntended(path: PathArg, listing: seq<Entry>, deep: int, format: string): Result<nat, FinderError>
  {
    match FileFinder(path, listing, DeepInt(deep), TypeName(format), None)
    case Err(e) => Err(e)
    case Ok(ps) => Ok(|ps|)
  }

  /** The intended count counts exactly the files of the requested kind in reach of the
      requested depth, and rejects an unknown kind. */
  lemma HowManyFilesIntendedCounts(path: Path, listing: seq<Entry>, deep: int, format: string)
    ensures TypeNamed(format).None? ==> HowManyFilesIntended(PathValue(path), listing, deep, format) == Err(InvalidFormat)
    ensures TypeNamed(format).Some? ==>
      var ps := Walk(path, listing, deep, Filter(Formats(TypeNamed(format).value), None),
                     Filter(Formats(TypeNamed(format).value), None));
      HowManyFilesIntended(PathValue(path), listing, deep, format) == Ok(|ps|) &&
      forall p :: p in ps <==>
        |p| > |path| && p[..|path|] == path && FileAt(listing, p[|path|..]) && Within(p[|path|..], deep) &&
        SuffixOf(p[|p| - 1]) in Formats(TypeNamed(format).value)
  {
    if TypeNamed(format).Some? {
      var t := TypeNamed(format).value;
      forall p ensures p in FileFinder(PathValue(path), listing, DeepInt(deep), TypeValue(t), None).value <==>
        |p| > |path| && p[..|path|] == path && FileAt(listing, p[|path|..]) && Within(p[|path|..], deep) &&
        SuffixOf(p[|p| - 1]) in Formats(t) {
        FileFinderYields(path, listing, deep, t, None, p);
      }
    }
  }
}
