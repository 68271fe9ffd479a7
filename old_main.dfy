/** `pellipop/old_main.py`: which videos `main` cuts, and the folder each one's frames go to.
    Its `format_time` is `TimeCode.FormatTime`, its `delete_duplicates` is
    `Dedup.DeleteDuplicates`, and its `save_frame_range_sec` is
    `Pellipop.SaveFrameRangeSec`. */
module OldMain {
  import opened Wrappers
  import opened Strings
  import opened Paths
  import opened DirTree
  import Pellipop

  /** The `extensions` tuple. */
  const Extensions: seq<string> := [".mov", ".avi", ".mp4", ".flv", ".wmv", ".webm", ".mkv", ".svf"]

  /** `[f for f in input_folder.glob("*") if f.suffix in extensions]`: every entry directly
      inside the folder, file or directory, whose suffix is listed. */
  function VideoList(folder: Path, listing: seq<Entry>): seq<Path>
  {
    if listing == [] then []
    else
      (if SuffixOf(listing[0].name) in Extensions then [folder + [listing[0].name]] else []) +
      VideoList(folder, listing[1..])
  }

  /** The list holds exactly the listed names with a video suffix, directly inside the folder. */
  lemma {:induction false} VideoListMembers(folder: Path, listing: seq<Entry>, p: Path)
    ensures p in VideoList(folder, listing) <==>
      |p| == |folder| + 1 && p[..|folder|] == folder && SuffixOf(p[|folder|]) in Extensions &&
      exists k :: 0 <= k < |listing| && listing[k].name == p[|folder|]
  {
    if listing != [] {
      VideoListMembers(folder, listing[1..], p);
      var n := listing[0].name;
      if p == folder + [n] {
        assert p[..|folder|] == folder && p[|folder|] == n;
      }
      if |p| == |folder| + 1 && p[..|folder|] == folder && p[|folder|] == n {
        assert p == folder + [n];
      }
      if |p| > |folder| && exists k :: 0 <= k < |listing| && listing[k].name == p[|folder|] {
        var k :| 0 <= k < |listing| && listing[k].name == p[|folder|];
        if k > 0 {
          assert listing[1..][k - 1].name == p[|folder|];
        }
      }
      if |p| > |folder| && exists k :: 0 <= k < |listing[1..]| && listing[1..][k].name == p[|folder|] {
        var k :| 0 <= k < |listing[1..]| && listing[1..][k].name == p[|folder|];
        assert listing[k + 1].name == p[|folder|];
      }
    }
  }

  /** With no test that an entry is a file, a directory named like a video is listed, where
      the finder of `pellipop/main.py` looks inside it instead. */
  lemma VideoListTakesFolders(folder: Path, name: string, listing: seq<Entry>)
    requires name == "clip.mp4" && listing == [DirEntry(name, [])]
    ensures VideoList(folder, listing) == [folder + [name]]
    ensures Pellipop.FileFinder(folder, listing, 0) == []
  {
    StemOfSuffixed("clip", ".mp4");
    assert "clip" + ".mp4" == name;
    assert listing[1..] == [];
    var vf := Filter(VideoFormats, None);
    assert Walk(folder, listing, 0, vf, vf) == [] + Walk(folder, listing[1..], 0, vf, vf);
  }

  /** `output_folder / "output_pellipop" / stem.replace(' ', '_')`. */
  function OutputFolder(output: Path, video: Path): Path
  {
    output + ["output_pellipop", Replace(Stem(video), " ", "_")]
  }

  /** Each video's folder sits in `output_pellipop` under the output folder, and is named
      after the video's stem with every space turned into an underscore. */
  lemma OutputFolderShape(output: Path, video: Path)
    ensures |OutputFolder(output, video)| == |output| + 2
    ensures OutputFolder(output, video)[..|output|] == output
    ensures Parent(OutputFolder(output, video)) == output + ["output_pellipop"]
    ensures |Name(OutputFolder(output, video))| == |Stem(video)|
    ensures forall i :: 0 <= i < |Stem(video)| ==>
      Name(OutputFolder(output, video))[i] == if Stem(video)[i] == ' ' then '_' else Stem(video)[i]
    ensures ' ' !in Name(OutputFolder(output, video))
  {
    var r := OutputFolder(output, video);
    ReplaceChar(Stem(video), ' ', '_');
    assert r[..|output|] == output;
    assert Parent(r) == output + ["output_pellipop"];
    assert Name(r) == Replace(Stem(video), " ", "_");
  }
}
