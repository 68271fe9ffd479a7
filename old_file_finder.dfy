/** `pellipop/fileFinder.py`: the earlier file finder, keyed by a format name, whose audio
    format is `.wav` only. */
module OldFileFinder {
  import opened Wrappers
  import opened Paths
  import opened DirTree

  /** `map_formats`. */
  function MapFormats(format: string): Option<set<string>>
  {
    if format == "video" then Some(VideoFormats)
    else if format == "image" then Some({".jpg"})
    else if format == "audio" then Some({".wav"})
    else if format == "text" then Some({".txt"})
    else if format == "csv" then Some({".csv"})
    else if format == "json" then Some({".json"})
    else None
  }

  /** The `ValueError` for a format name missing from `map_formats`. */
  datatype InvalidFormat = InvalidFormat(format: string)

  /** `list(file_finder(path, deep, format))` as written: the recursive calls pass only the
      depth, so every subdirectory is searched for videos, whatever format was asked for. */
  function FileFinder(path: Path, listing: seq<Entry>, deep: int, format: string): Result<seq<Path>, InvalidFormat>
  {
    match MapFormats(format)
    case None => Err(InvalidFormat(format))
    case Some(f) => Ok(Walk(path, listing, deep, Filter(f, None), Filter(VideoFormats, None)))
  }

  /** `how_many_files(path, deep)`: the number of videos in reach of the depth. */
  function HowManyFiles(path: Path, listing: seq<Entry>, deep: int): nat
  {
    |FileFinder(path, listing, deep, "video").value|
  }

  /** The finder rejects exactly the unknown format names, and otherwise yields the files in
      reach of the depth whose suffix is of the requested format directly inside the path, and
      a video further down. */
  lemma FileFinderYields(path: Path, listing: seq<Entry>, deep: int, format: string, p: Path)
    ensures FileFinder(path, listing, deep, format).Err? <==>
      format !in {"video", "image", "audio", "text", "csv", "json"}
    ensures FileFinder(path, listing, deep, format).Ok? ==>
      (p in FileFinder(path, listing, deep, format).value <==>
        |p| > |path| && p[..|path|] == path && FileAt(listing, p[|path|..]) && Within(p[|path|..], deep) &&
        SuffixOf(p[|p| - 1]) in (if |p| == |path| + 1 then MapFormats(format).value else VideoFormats))
  {
    if MapFormats(format).Some? {
      WalkMembers(path, listing, deep, Filter(MapFormats(format).value, None), Filter(VideoFormats, None), p);
    }
  }

  /** `how_many_files` counts every video in reach of the depth. */
  lemma HowManyFilesCounts(path: Path, listing: seq<Entry>, deep: int)
    ensures HowManyFiles(path, listing, deep) == |Walk(path, listing, deep, Filter(VideoFormats, None), Filter(VideoFormats, None))|
    ensures forall p :: p in FileFinder(path, listing, deep, "video").value <==>
      |p| > |path| && p[..|path|] == path && FileAt(listing, p[|path|..]) && Within(p[|path|..], deep) &&
      SuffixOf(p[|p| - 1]) in VideoFormats
  {
    forall p ensures p in FileFinder(path, listing, deep, "video").value <==>
      |p| > |path| && p[..|path|] == path && FileAt(listing, p[|path|..]) && Within(p[|path|..], deep) &&
      SuffixOf(p[|p| - 1]) in VideoFormats {
      FileFinderYields(path, listing, deep, "video", p);
    }
  }

  lemma Names(picture: string, video: string)
    requires picture == "a.jpg" && video == "b.mp4"
    ensures SuffixOf(picture) == ".jpg" && SuffixOf(video) == ".mp4"
  {
    StemOfSuffixed("a", ".jpg");
    assert "a" + ".jpg" == picture;
    StemOfSuffixed("b", ".mp4");
    assert "b" + ".mp4" == video;
  }

  /** Asked for images, the finder skips a picture in a subdirectory and yields a video beside
      it. */
  lemma FileFinderLosesFormat(path: Path, picture: string, video: string, listing: seq<Entry>)
    requires picture == "a.jpg" && video == "b.mp4"
    requires listing == [DirEntry("d", [FileEntry(picture), FileEntry(video)])]
    ensures FileFinder(path, listing, -1, "image") == Ok([path + ["d", video]])
    ensures FileFinderIntended(path, listing, -1, "image") == Ok([path + ["d", picture]])
  {
    Names(picture, video);
    var sub := [FileEntry(picture), FileEntry(video)];
    assert sub[1..] == [FileEntry(video)] && sub[1..][1..] == [] && listing[1..] == [];
    var d := path + ["d"];
    assert d + [video] == path + ["d", video] && d + [picture] == path + ["d", picture];
    var jf, vf := Filter({".jpg"}, None), Filter(VideoFormats, None);
    assert !Accepts(vf, picture) && Accepts(vf, video);
    assert Accepts(jf, picture) && !Accepts(jf, video);
    assert Walk(d, sub[1..], -1, vf, vf) == [d + [video]];
    assert Walk(d, sub, -1, vf, vf) == [d + [video]];
    assert Walk(d, sub[1..], -1, jf, jf) == [];
    assert Walk(d, sub, -1, jf, jf) == [d + [picture]];
    assert Walk(path, listing, -1, jf, vf) == Walk(d, sub, -1, vf, vf);
    assert Walk(path, listing, -1, jf, jf) == Walk(d, sub, -1, jf, jf);
  }

  /** The evident intent: the recursive calls keep the format. */
  function FileFinderIntended(path: Path, listing: seq<Entry>, deep: int, format: string): Result<seq<Path>, InvalidFormat>
  {
    match MapFormats(format)
    case None => Err(InvalidFormat(format))
    case Some(f) => Ok(Walk(path, listing, deep, Filter(f, None), Filter(f, None)))
  }

  /** The intended finder yields exactly the files of the requested format in reach of the
      depth, and agrees with the finder as written on videos. */
  lemma FileFinderIntendedYields(path: Path, listing: seq<Entry>, deep: int, format: string, p: Path)
    ensures FileFinderIntended(path, listing, deep, format).Err? <==> MapFormats(format).None?
    ensures FileFinderIntended(path, listing, deep, format).Ok? ==>
      (p in FileFinderIntended(path, listing, deep, format).value <==>
        |p| > |path| && p[..|path|] == path && FileAt(listing, p[|path|..]) && Within(p[|path|..], deep) &&
        SuffixOf(p[|p| - 1]) in MapFormats(format).value)
    ensures FileFinderIntended(path, listing, deep, "video") == FileFinder(path, listing, deep, "video")
  {
    if MapFormats(format).Some? {
      var f := Filter(MapFormats(format).value, None);
      WalkMembers(path, listing, deep, f, f, p);
    }
  }
}
