# Pellipop, modelled in Dafny

Pellipop cuts videos into still frames, removes duplicate frames and has the audio
transcribed by a Whisper server. This project models the parts of it that decide *what*
happens, not the parts that talk to ffmpeg, OpenCV, imagehash or the network:

- how a video's artifacts are named and renamed (`pellipop/Video.py`);
- the time codes that name frames, the two duplicate-removal passes, the checks at the start
  of a run and the frame loop (`pellipop/main.py`, `pellipop/old_main.py`);
- the three recursive file finders (`pellipop/main.py`, `pellipop/file_finder.py`,
  `pellipop/fileFinder.py`);
- the ffmpeg command template of the i-frame experiment and its output-folder reset
  (`i-frame_test/i-frame_test.py`);
- URL normalisation and the configuration file of `WhisperFromUrl`
  (`pellipop/whisper_from_url.py`);
- `rm_tree`, the transcript naming and the result and configuration dispatch of the Whisper
  mode (`pellipop/speech_to_text/whisperMode.py`).

The file system is a map from paths to nodes (`Fs`): a regular file with its content, a
directory, or another kind of entry. A path is the sequence of its components. The class
`Fs.FileSystem` holds that map and offers `mkdir`, `unlink`, `rmdir`, `rename` and writing.
Each of these is specified by a function on the old map that returns the new map or the
`OSError` it raises. Stateful code becomes methods on it, proved against functions of the old
map; the properties are proved about those functions. Directory trees that the finders walk
are an inductive datatype (`DirTree.Entry`).

Calls into code that is not modelled are parameters:
- image hashes are values of a type parameter with equality;
- whether a frame can be read, and what it holds, are functions of the frame index;
- `validators.url` is a predicate parameter;
- the Whisper client's answer for each audio file is a parameter;
- JSON encoding and decoding are `dump`/`load` parameters;
- the HTTP response of `pull_config` is a parameter.

Files:
- `wrappers.dfy`: `Option`, `Result`, `Outcome`.
- `strings.dfy`: the Python string operations used.
- `paths.dfy`: `pathlib` names, stems and suffixes.
- `fs.dfy`: the file system.
- `dirtree.dfy`: the shared walk.
- One file per source module: `video.dfy`, `timecode.dfy`, `dedup.dfy`, `main.dfy`,
  `old_main.dfy`, `file_finder.dfy`, `old_file_finder.dfy`, `iframe.dfy`, `whisper_url.dfy`
  and `whisper_mode.dfy`.

## Model

| member | source | states |
|---|---|---|
| Videos.GetReduceWindow | pellipop/Video.py:66-72 | with `reduce == -1` and `offset == 0` the reduced stem is the stem; otherwise it is the window of the stem from `min(offset, len-1)` to `min(reduce+offset, len-1)` (or the end when `reduce == -1`); it is at most `reduce` long and never holds the last character when `reduce != -1` |
| Videos.Usable | pellipop/Video.py:78 | no name kept is one of `.`, `..`, ``, `C:`, `D:`, `E:` |
| Videos.NearParentsReversed | pellipop/Video.py:78 | the names of `path.parents`, nearest first, are the usable directory names of the path in reverse order |
| Videos.ChosenParentsInnermost | pellipop/Video.py:78-79 | the chosen names are the innermost `min(parents_in_name, count)` usable directory names, outermost first |
| Videos.FinalStemChoice | pellipop/Video.py:74-85 | the final stem is the reduced stem when `parents_in_name == 0` or no usable name exists, and otherwise the chosen names and the reduced stem joined by `_` |
| Videos.DummyVideoFinalStem | pellipop/Video.py:203 | the `DummyVideo` default path with two parent names gives `tv_show_season1_episode3` |
| Videos.FrameRateOf | pellipop/Video.py:99 | a rate `num/den` gives the floor of `num / den`, or a `ZeroDivisionError` when `den == 0` |
| Videos.FrameRateWithoutSlash | pellipop/Video.py:99 | a rate without `/` whose numerator parses raises `IndexError` |
| Videos.GetInfoOk | pellipop/Video.py:86-101 | the probe's answer is read exactly when there is a video stream and an audio stream, the duration is present and width, height, `r_frame_rate`, channels and sample rate all parse; the frame rate, width and height are then the parsed fields |
| Videos.GetInfoRaises | pellipop/Video.py:91-100 | no video stream raises `TypeError`; a video stream without `duration` raises `KeyError`; a readable video stream without an audio stream raises `TypeError` |
| Videos.VideoArgsAccepted | pellipop/Video.py:173-184 | construction is accepted exactly for a path object naming a regular file with `reduce >= -1`, `offset >= 0` and `parents_in_name >= 0`; the "does not exist" assertion can never be the failing one |
| Videos.WithStemChecked | pellipop/Video.py:113 | a successful `with_stem` keeps the parent and the suffix and puts the new stem in the name |
| Videos.RenameToFinalMoves | pellipop/Video.py:103-116 | with an unchanged final stem nothing changes; otherwise a successful rename puts the file's node at its stem with the video stem replaced by the final stem, in `new_folder` when both folders are given, and removes the old path |
| Videos.RenameToFinalFrame | pellipop/Video.py:103-116 | whether it succeeds or raises, a rename changes no entry but the path itself, its renamed sibling and its place in `new_folder` |
| Videos.RenameAllShape | pellipop/Video.py:127-130 | a successful batch of image renames returns, in the images' order, one path per image: the new folder joined with the image's final name |
| Videos.RenameAllFrame | pellipop/Video.py:127-130 | whether it succeeds or raises, a batch changes no entry outside the paths its renames touch |
| Videos.RenameAllMoves | pellipop/Video.py:127-130 | when the renames touch pairwise separate paths (so no rename replaces another image's file), a successful batch leaves at each returned path the node its image held before, and every image was a non-directory entry |
| Videos.RenameAllKeepsDirs | pellipop/Video.py:127-130 | a batch keeps every directory |
| Videos.RenameToFinalImagesEffect | pellipop/Video.py:118-132 | with an unchanged final stem nothing changes; a successful run points `image_folder` at the sibling folder named after the final stem with spaces turned into `_`, returns one path per image, in order, in that folder, and removes the old folder |
| Videos.RenameToFinalImagesFrame | pellipop/Video.py:118-132 | whether it succeeds or raises, `rename_to_final_images` changes no entry but the old folder, the new folder and the ancestors `mkdir` may create, and the paths the image renames touch |
| Videos.RenameToFinalImagesMoves | pellipop/Video.py:118-132 | when the renames touch separate paths, a successful run leaves the new folder a directory (when there are images) and each image's old node at its new path |
| Videos.WithField | pellipop/Video.py:138-148 | setting one artifact field changes that field and no other |
| Videos.FieldsEffect | pellipop/Video.py:138-148 | renaming the file fields leaves unset fields unset and other fields alone, keeps the images, and on success renames each set field to its final name |
| Videos.FinalNamesEffect | pellipop/Video.py:134-148 | `final_names` touches only the artifacts that are set; with a new final stem and success, every set file artifact is renamed in place to its final name |
| Videos.FinalNamesNotIdempotent | pellipop/Video.py:113 | when the final stem is a prefix followed by the stem, and the stem's first character does not occur in the prefix, a second run renames the already final name again and prepends the prefix once more (`b.wav`, then `a_b.wav`, then `a_a_b.wav`) |
| Videos.Video.constructor | pellipop/Video.py:13-41 | a new video holds its arguments, no artifact and no frame rate |
| Videos.Video.RenameToFinal | pellipop/Video.py:103-116 | the new file system and the returned path are those of the rename specification |
| Videos.Video.RenameImagesInto | pellipop/Video.py:127-130 | the new file system and the new image list are those of the batch specification |
| Videos.Video.RenameToFinalImages | pellipop/Video.py:118-132 | the fields, the images and the file system are those of the `rename_to_final_images` specification; the other fields are unchanged |
| Videos.Video.RenameFileField | pellipop/Video.py:138-148 | one `if self.f: self.f = self.rename_to_final(self.f)` step |
| Videos.Video.FinalNames | pellipop/Video.py:134-148 | the artifacts and the file system are those of the `final_names` specification |
| Videos.NewVideo | pellipop/Video.py:166-197 | a failed assertion is raised as such; otherwise construction succeeds exactly when `get_info` reads the probe's answer, raising its error otherwise, and the new video has no artifact and the frame rate `get_info` read |
| TimeCode.TimeFields | pellipop/main.py:169-170 | `hours * 3600 * fps + minutes * 60 + seconds == frame`, with `seconds < 60` and `minutes * 60 + seconds < 3600 * fps` |
| TimeCode.RenderClockRoundTrip | pellipop/main.py:171 | every `HHh_MMm_SSs.jpg` name reads back as the three numbers it was made from |
| TimeCode.ParseTimePieces | pellipop/main.py:171 | a name laid out as `xh_ym_zs.jpg`, with no underscore in the three fields, reads back as the numbers the fields spell |
| TimeCode.FormatTimeRoundTrip | pellipop/main.py:168-171 | `format_time` reads back as the `divmod` fields of the frame |
| TimeCode.FormatTimeInjective | pellipop/main.py:168-171 | distinct frames get distinct names |
| TimeCode.FormatTimeAtOneFps | pellipop/main.py:168-171 | at one frame per second the minutes stay below 60 |
| TimeCode.FormatTimeMinutesOverflow | pellipop/old_main.py:41-43 | frame 125 at 25 fps is named `00h_02m_05s.jpg` |
| TimeCode.IntendedFields | pellipop/old_main.py:36-38 | the intended fields split `frame // fps` seconds into hours, minutes below 60 and seconds below 60 |
| TimeCode.FormatTimeIntendedReadsBack | pellipop/old_main.py:36-39 | the intended time code reads back as its fields, and frame 125 at 25 fps is `00h_00m_05s.jpg` |
| TimeCode.IntendedAgreesAtOneFps | pellipop/old_main.py:36-43 | at one frame per second both versions give the same name |
| TimeCode.FirstTO | pellipop/main.py:175 | a found index points at a `TO` |
| TimeCode.TimeSpanRoundTrip | pellipop/main.py:174-175 | splitting a span name at its first `TO` gives back both ends when the start has no `TO` |
| TimeCode.FormatTimeSpanRoundTrip | pellipop/main.py:168-175 | a span of two `format_time` names splits back into them, and each reads back as its fields |
| Strings.Pad2RoundTrip | pellipop/main.py:171 | the `:02d` format gives at least two digits that read back as the number |
| Dedup.KeptFromMembers | pellipop/main.py:158-165 | from a position on, the streaming pass keeps exactly the frames whose hash differs from the previous frame's |
| Dedup.SeqKeptMembers | pellipop/main.py:158-165 | a frame is kept exactly when it is the first or its hash differs from the previous frame's hash |
| Dedup.SeqKeptInOrder | pellipop/main.py:158-165 | kept frames stay in input order, and the first frame is always kept |
| Dedup.SeqKeptRuns | pellipop/main.py:163-165 | no two consecutive kept frames share a hash, and each dropped frame has the hash of the latest kept frame before it |
| Dedup.Copies | pellipop/main.py:165 | one copy per kept frame, in order: the kept frame's data under its name in the output folder |
| Dedup.CopyIfNew | pellipop/main.py:161-165 | one frame of the pass: once a hash is kept, the frame's hash becomes the one last kept and the frame is copied exactly when its hash differs, the rest of the pass going on from there or the failed save ending it; before any hash is kept, a `None` that compares equal leaves everything as it was |
| Dedup.CopyKept | pellipop/main.py:158-165 | the loop over the frames leaves the file system of the copies still pending from the first frame with no hash kept, or of the first failed save |
| Dedup.DuplicatelessFolderSeq | pellipop/main.py:156-165 | the file system after the pass is the output folder created, then a copy of each kept frame; when `None` compares equal to every hash, the folder is created and nothing is copied |
| Dedup.SeenByHashes | pellipop/main.py:136 | the test against the set of hashes collected so far is "the hash occurred earlier" |
| Dedup.DupsMembers | pellipop/old_main.py:19-28 | exactly the later occurrences of each hash are deleted |
| Dedup.DupsSurvivorsDistinct | pellipop/old_main.py:19-31 | the surviving frames have pairwise distinct hashes |
| Dedup.DupsSurvivorsCover | pellipop/old_main.py:19-31 | every hash of the input is still carried by a surviving frame |
| Dedup.DupsCount | pellipop/old_main.py:32 | the deletion count is the number of frames minus the number of distinct hashes |
| Dedup.CollectDuplicates | pellipop/old_main.py:19-28 | the scan collects, in order, the folder paths of exactly the later occurrences of each hash |
| Dedup.UnlinkEach | pellipop/old_main.py:29-31 | unlinking the collected paths in order leaves the file system of the unlink run, stopping at the first error |
| Dedup.Victims | pellipop/old_main.py:29-31 | the unlinked paths are the deleted frames' names in the folder |
| Dedup.DeleteDuplicates | pellipop/old_main.py:18-32 | the file system is that of unlinking the later occurrences in scan order; the count of later occurrences is reported only when every unlink succeeds |
| Dedup.DeleteDuplicatesEffect | pellipop/old_main.py:29-31 | after a successful pass the folder lost exactly the later occurrences, and everything else is kept |
| Pellipop.DelDuplicates | pellipop/main.py:124-142 | an argument that is neither a string nor a path raises `TypeError`, changes nothing and reports nothing; otherwise the global pass runs and reports its count only when it succeeds |
| Pellipop.DuplicatelessFolderSeq | pellipop/main.py:145-165 | a bad input or output argument raises `TypeError` and changes nothing; otherwise the streaming pass runs, with the answer of `None != hash` as a parameter |
| Pellipop.FileFinderYields | pellipop/main.py:15-27 | the finder yields exactly the files below the path with a video suffix and in reach of `deep` (`-1` every level, `k > 0` k levels down, `0` the top only) |
| Pellipop.LaunchChecks | pellipop/main.py:81-89 | the checks leave the file system and the outcome of the launch check specification |
| Pellipop.LaunchChecksEffect | pellipop/main.py:81-89 | a missing input raises `FileNotFoundError`, a non-directory input `NotADirectoryError`; the checks pass exactly when the input is a directory and the output exists as a non-file or can be created; a failure changes nothing, and only a missing output is created, as a directory |
| Pellipop.RangeShape | pellipop/main.py:191 | `range(start, stop, step)` is `start, start + step, …`, all below `stop` |
| Pellipop.Taken | pellipop/main.py:197-206 | the visited frames are the longest readable prefix of the range |
| Pellipop.FrameWrites | pellipop/main.py:201-204 | each visited frame is written to the folder under its name, which a run takes from `format_time` (`FrameNamer`) |
| Pellipop.WriteEachOthers | pellipop/main.py:203 | a path no write names keeps what it was |
| Pellipop.WriteEachNoFolder | pellipop/main.py:203-204 | writes into a missing folder all fail, unreported, and change nothing |
| Pellipop.WriteEachWrites | pellipop/main.py:203 | in a directory, each of distinct writes leaves its content at its path |
| Pellipop.SaveFrameRangeSec | pellipop/main.py:178-208 | the file system and outcome are those of the frame-loop specification |
| Pellipop.SaveFrames | pellipop/main.py:197-206 | the loop leaves the file system of the writes of the visited frames, in order |
| Pellipop.SaveFromWrites | pellipop/main.py:197-206 | running the loop from frame `i` performs the writes of the readable prefix of the range from `i`, in order |
| Pellipop.VisitStep | pellipop/main.py:197-204 | a readable frame in range is written, then the rest of the range is processed |
| Pellipop.VisitStop | pellipop/main.py:205-206 | past the frame count or at an unreadable frame nothing more is written |
| Pellipop.VisitedFrames | pellipop/old_main.py:68-78 | the visited frames are `0, step, 2·step, …`, below the frame count and readable, and the loop stops at the first unreadable one |
| Pellipop.VisitedNamesDistinct | pellipop/main.py:201 | each visited frame gets its own file name |
| Pellipop.SaveFramesOthers | pellipop/main.py:197-206 | a run writes nothing but the visited frames' files |
| Pellipop.SaveFramesWrites | pellipop/main.py:197-204 | in an existing folder, each visited frame's file holds that frame |
| Pellipop.SaveFramesNoFolder | pellipop/main.py:203-204 | with the folder missing, every write fails and nothing changes |
| OldMain.VideoListMembers | pellipop/old_main.py:85-86 | the list holds exactly the direct entries of the folder whose suffix is one of the eight extensions |
| OldMain.VideoListTakesFolders | pellipop/old_main.py:85-86 | a directory named `clip.mp4` is listed, where the finder of `pellipop/main.py` does not |
| OldMain.OutputFolderShape | pellipop/old_main.py:99 | each video's folder is `output/output_pellipop/<stem with every space turned into _>` |
| DirTree.AcceptsByPrefix | pellipop/file_finder.py:78-80 | testing the stem for membership adds nothing to the prefix test |
| DirTree.WalkMembers | pellipop/file_finder.py:61-82 | the walk yields exactly the files below the folder in reach of the depth that the filter accepts |
| FileFinder.FileFinderChecks | pellipop/file_finder.py:37-59 | a path neither `str` nor `Path`, then a `deep` that is neither an `int` nor text `int()` accepts, then a bad `file_type` each raise `ValueError`, in that order; the finder succeeds exactly when all three are valid |
| Strings.ParseIntPadded | pellipop/file_finder.py:42-44 | `int()` accepts a numeral with surrounding whitespace and reads it as the number |
| Strings.ParseIntUnderscore | pellipop/file_finder.py:42-44 | `int()` accepts digits split by one underscore and reads them as the digits joined |
| FileFinder.FileFinderYields | pellipop/file_finder.py:61-82 | the finder yields exactly the files in reach of `deep` whose suffix is in `file_type.value` and, with `only_stems`, whose stem starts with one of them |
| FileFinder.HowManyFilesIgnoresDepth | pellipop/file_finder.py:85-86 | a video one level down is counted even with `deep == 0` |
| FileFinder.HowManyFilesIgnoresFormat | pellipop/file_finder.py:85-86 | a picture is not counted when images are asked for |
| FileFinder.HowManyFilesIntendedCounts | pellipop/file_finder.py:85-86 | the intended count rejects an unknown format and counts exactly the files of the requested kind in reach of the depth |
| OldFileFinder.FileFinderYields | pellipop/fileFinder.py:20-41 | an unknown format raises `ValueError`; otherwise the top level yields files of the requested format and every subdirectory yields videos |
| OldFileFinder.HowManyFilesCounts | pellipop/fileFinder.py:44-45 | `how_many_files` counts exactly the videos in reach of the depth |
| OldFileFinder.FileFinderLosesFormat | pellipop/fileFinder.py:35-38 | asked for images, the finder yields a video in a subdirectory and skips the picture beside it |
| OldFileFinder.FileFinderIntendedYields | pellipop/fileFinder.py:28-41 | the intended finder yields exactly the files of the requested format in reach of the depth, and agrees with the written one for videos |
| IFrame.Token | i-frame_test/i-frame_test.py:53-59 | each placeholder is `$` followed by text free of `$` |
| IFrame.RenderAppend | i-frame_test/i-frame_test.py:30-51 | appending template pieces appends their text |
| IFrame.Bind | i-frame_test/i-frame_test.py:53-59 | binding fills every occurrence of one placeholder and nothing else |
| IFrame.ReplaceBind | i-frame_test/i-frame_test.py:53-59 | `str.replace` of a placeholder on a rendered template is binding it |
| IFrame.BuildTemplate | i-frame_test/i-frame_test.py:30-51 | the `+=` steps build the template of the mode and audio flag |
| IFrame.BuildCommand | i-frame_test/i-frame_test.py:30-59 | with `$`-free values the command is the template with all four placeholders filled, and no `$` remains |
| IFrame.FillTemplate | i-frame_test/i-frame_test.py:53-59 | the four replacements in order fill every placeholder and leave no `$` |
| IFrame.TemplateFree | i-frame_test/i-frame_test.py:24-48 | the literal text of every template is free of `$` |
| IFrame.TemplateClauses | i-frame_test/i-frame_test.py:30-48 | every command starts with the ffmpeg prefix; `-skip_frame nokey` comes before the input only in i-frame mode; `-r $FREQ` only in `const_freq` mode; the vfr clause only in i-frame mode; the video path and frame pattern always |
| IFrame.TemplateAudio | i-frame_test/i-frame_test.py:25-51 | the audio clause closes the template exactly when audio is asked for |
| IFrame.NothingBelowNewFolder | i-frame_test/i-frame_test.py:20-21 | a folder just created has nothing below it |
| IFrame.NothingBelowEmptied | i-frame_test/i-frame_test.py:17-19 | once every direct entry is gone, nothing is left below the folder |
| IFrame.ResetOutputFolder | i-frame_test/i-frame_test.py:17-22 | a missing folder is created; a non-folder raises `NotADirectoryError`; a folder succeeds exactly when no entry is a directory, and then loses exactly its direct entries; when an entry is a directory it raises `IsADirectoryError` with only some non-directory direct entries removed, every other entry unchanged, and a directory entry still present; on success the folder exists and is empty |
| WhisperUrl.NormalizeStartsWithHttp | pellipop/whisper_from_url.py:28-35 | the result starts with `http`; a URL without `http` gets `https://www.` (fewer than two dots) or `https://` in front; an `http` URL with two dots or more is unchanged |
| WhisperUrl.ReplaceKeepsHttp | pellipop/whisper_from_url.py:34-35 | the two replacements keep a leading `http` |
| WhisperUrl.NormalizeSettles | pellipop/whisper_from_url.py:28-35 | a normalised URL with two dots or more is left alone by a second normalisation |
| WhisperUrl.NormalizeBareHost | pellipop/whisper_from_url.py:28-31 | a dotless host that does not start with `http` gets `https://www.` in front |
| WhisperUrl.NormalizeAgain | pellipop/whisper_from_url.py:28-35 | normalising twice a dotless host that does not start with `http` and holds neither `http://` nor `https://` gives it a second `www.` |
| WhisperUrl.NormalizeShortSecure | pellipop/whisper_from_url.py:33-34 | `https://` followed by a host with fewer than two dots and neither `http://` nor `https://` in it becomes `https://www.` followed by that host |
| WhisperUrl.NormalizeShortPlain | pellipop/whisper_from_url.py:33-35 | `http://` followed by a host with fewer than two dots and neither `http://` nor `https://` in it becomes `http://www.` followed by that host |
| WhisperUrl.NormalizeExample | pellipop/whisper_from_url.py:33-35 | `https://a.b` becomes `https://www.a.b` |
| WhisperUrl.ConfigPath | pellipop/whisper_from_url.py:64-68 | the default file is `.whisperrc` in the home folder; a given `file` goes through `Path()`, which refuses exactly a value that is neither text nor a path |
| WhisperUrl.ConfigArgRoundTrip | pellipop/whisper_from_url.py:82-101 | `read_config` and `write_config` raise `TypeError` for a `file` that is neither text nor a path and leave the files alone, default to `~/.whisperrc`, convert text with `Path()`, and read back through the same argument what was written |
| WhisperUrl.WriteConfigRefuses | pellipop/whisper_from_url.py:70-80 | `False` exactly for a directory or an existing non-file, and then nothing is written; `True` means the file now holds the configuration and nothing else changed; it raises exactly when the folder of the file is missing or not a folder |
| WhisperUrl.ReadConfigChecks | pellipop/whisper_from_url.py:89-101 | a missing path raises `FileNotFoundError`, then a directory `IsADirectoryError`, then a non-file `FileNotFoundError`; what `write_config` wrote reads back |
| WhisperUrl.WhisperFromUrl.constructor | pellipop/whisper_from_url.py:15-21 | no URL, configuration or validity unless a URL is given, which is then set |
| WhisperUrl.WhisperFromUrl.SetUrl | pellipop/whisper_from_url.py:23-25 | the stored URL is the normalised one, and `valid` is the predicate on it |
| WhisperUrl.WhisperFromUrl.ValidateUrl | pellipop/whisper_from_url.py:27-40 | the URL is normalised in place and the result is the predicate on it; with no URL it raises `AttributeError` |
| WhisperUrl.WhisperFromUrl.PullConfig | pellipop/whisper_from_url.py:42-58 | a good response is stored; a failed one raises and leaves the object unchanged |
| WhisperUrl.WhisperFromUrl.WriteConfig | pellipop/whisper_from_url.py:60-80 | `Path()` on the `file` argument first (`TypeError` for other values), then the result and the file system are those of the `write_config` specification |
| WhisperUrl.WhisperFromUrl.ImportAndSet | pellipop/whisper_from_url.py:103-105 | a failed pull raises, writes nothing and keeps `config`; otherwise `config` is the pulled configuration and it is written to `~/.whisperrc`; `url` and `valid` are kept |
| WhisperMode.ClearedAll | pellipop/speech_to_text/whisperMode.py:21-25 | once every child is visited, every file below is removed |
| WhisperMode.RmTree | pellipop/speech_to_text/whisperMode.py:12-27 | the file system and outcome are those of the `rm_tree` specification |
| WhisperMode.RmTreeEffect | pellipop/speech_to_text/whisperMode.py:12-27 | a missing path becomes an empty directory, or the `mkdir` error is raised and nothing changes; an existing path keeps itself and every directory below it, and no regular file remains below it |
| WhisperMode.TranscriptNaming | pellipop/speech_to_text/whisperMode.py:106-107 | the transcript of `x.wav` is `x.txt` in text mode and `x.json` otherwise, directly in the text folder |
| WhisperMode.TranscriptsDistinct | pellipop/speech_to_text/whisperMode.py:104-107 | two audio files of one folder get distinct transcripts |
| WhisperMode.SoleTranscriptHolds | pellipop/speech_to_text/whisperMode.py:104-107 | only `.wav` and `.wav.wav` share a transcript |
| WhisperMode.ToTextDispatch | pellipop/speech_to_text/whisperMode.py:46-74 | a missing audio file exits with 1; an open error is raised; a dict is written as JSON, a string as it is, and any other type raises `TypeError` after the file was emptied |
| WhisperMode.ToText | pellipop/speech_to_text/whisperMode.py:30-74 | the file system and outcome are those of the `toText` specification |
| WhisperMode.ToTextFrame | pellipop/speech_to_text/whisperMode.py:68-74 | `toText` changes only the transcript |
| WhisperMode.TranscribeRunFrame | pellipop/speech_to_text/whisperMode.py:105-109 | a run changes only the transcripts of its audio files |
| WhisperMode.TranscribeRunKeeps | pellipop/speech_to_text/whisperMode.py:105-109 | a run removes nothing and leaves every entry but its transcripts as it was |
| WhisperMode.TranscribeRunCreates | pellipop/speech_to_text/whisperMode.py:105-109 | every entry a run creates is one of its transcripts |
| WhisperMode.TranscribeRunTyped | pellipop/speech_to_text/whisperMode.py:105-109 | a run that ends normally had no answer of another type |
| WhisperMode.TranscribeRunWrites | pellipop/speech_to_text/whisperMode.py:105-109 | a run that ends normally wrote each audio file's own transcript |
| WhisperMode.TranscribeEach | pellipop/speech_to_text/whisperMode.py:104-109 | every audio file found goes through `toText`, in some order, until the first exception |
| WhisperMode.FolderRun | pellipop/speech_to_text/whisperMode.py:104-109 | a run over the `*.wav` entries keeps those entries, removes nothing, creates or changes only their transcripts directly in the text folder, and when it ends normally had typed answers and wrote each audio file's own transcript |
| WhisperMode.ToTextFolder | pellipop/speech_to_text/whisperMode.py:77-109 | a missing audio folder exits with 1; nothing is removed; only the text folder, its ancestors and the transcripts of `*.wav` entries are created or changed; on success every `.wav` file has its transcript |
| WhisperMode.LoadConfigDispatch | pellipop/speech_to_text/whisperMode.py:120-129 | a string is read as the path it names; a path must exist (`AssertionError`), be a regular file and hold JSON; a dict passes; any other type raises `TypeError` |
| WhisperMode.MainSingleBlocked | pellipop/speech_to_text/whisperMode.py:142-155 | with `folder=False` and no transcript yet, `rm_tree` makes a directory at the transcript path and `toText` raises `IsADirectoryError` |
| WhisperMode.MainSingleIntendedWrites | pellipop/speech_to_text/whisperMode.py:136-155 | clearing only in folder mode, the transcript is written with the answer |
| WhisperMode.WhisperMain | pellipop/speech_to_text/whisperMode.py:112-155 | a bad configuration raises and changes nothing; `folder=False` follows the single-file specification; `folder=True` changes nothing outside the text folder, with success transcribes every `.wav` file of the audio folder that is not inside the text folder, and leaves no regular file below the text folder but transcripts |
| WhisperMode.ClearedThenTranscribed | pellipop/speech_to_text/whisperMode.py:148-153 | after `rm_tree` of the text folder and a transcription pass, every regular file below the text folder is a transcript and nothing outside it changed |

## Left out

- Threads in `Pellipop.launch` and `old_main.pied`, the Tkinter and argparse front ends, and the CSV stage, which is an empty stub.
- ffmpeg, ffprobe, OpenCV, PIL and imagehash: hashes are values of a type parameter; whether a frame can be read, and its content, are parameters; `cv2.imwrite` is a write that can fail silently.
- Floating point: the frame step `int(fps / (step_sec / fps))` is an integer parameter; the video duration and the timings of the i-frame experiment are left out.
- The Whisper client, `requests` and `validators.url` become parameters: the client's answer, the HTTP response and a URL predicate. `WhisperClient(**config_data)` and the string-to-`Mode` conversion are left out, because their errors live in the client library.
- JSON formatting (`indent=4`, `ensure_ascii`) is the `dump` parameter, and `json.load` is the `load` parameter.
- `print`, `tqdm` and the "already exists" messages.
- `python -O` removes `assert`: the model keeps the assertions, as in a normal run.
- Windows paths and `path_fixer`: paths are POSIX, and `Path(str)` splits at `/` and drops empty and `.` components.
- The order `glob` and `iterdir` list a folder in is left open: loops pick any unvisited entry, and the specifications hold for every order.
- Symbolic links and permissions are not modelled: a node is a regular file, a directory or another kind of entry.
- The probe itself (`ffprobe` and `json.loads`) is left out: the first video stream and the first audio stream it lists are parameters. `float(video["duration"])` is reduced to the key's presence. `get_info` reads width, height, channels and sample rate, but the `Video` object keeps only the frame rate.
- Strings.ParseInt: `int()` on text is modelled for ASCII whitespace, an optional sign and ASCII digits with single underscores between them; Unicode whitespace and non-ASCII decimal digits are not modelled and are rejected. FileFinder.FileFinderChecks inherits this: a `deep` written with such characters counts as invalid.
- Fs.RenameResult: a directory source reports `Unsupported`, where `os.rename` would move the whole subtree; the program only ever renames regular files (videos, audio, text and images).
- Dedup.DuplicatelessFolderSeq, Dedup.DeleteDuplicates, Pellipop.DuplicatelessFolderSeq and Pellipop.DelDuplicates: the frames are a list parameter standing for what `input_path.glob("*")` lists, in that order, each with the hash `average_hash` gives it. The model does not tie that list to the folder's entries, and an entry `Image.open` refuses (a subdirectory, a non-image) does not occur, so the `PIL` error it raises is not modelled.
- Dedup.DuplicatelessFolderSeq: whether `average_hash(img) != None` holds is up to the `ImageHash` class, so it is a parameter (`noneDiffers`). When it is false, no frame is ever saved. The lemmas about the kept frames (`KeptFromMembers`, `SeqKeptMembers`, `SeqKeptInOrder`, `SeqKeptRuns`) describe the case where it is true.
- WhisperMode.ToTextFolder: an audio file named `.wav.wav` shares its transcript with one named `.wav`, so the contract promises a transcript only for audio files whose transcript no other name can share.
- WhisperMode.WhisperMain: in folder mode, an audio file inside the text folder may be removed by `rm_tree`, so the contract speaks only of audio files outside the text folder.

## Findings

| source | as written | input that shows it | evidently intended | confidence | as-written member | corrected member |
|---|---|---|---|---|---|---|
| pellipop/old_main.py:41-43 (and pellipop/main.py:168-171) | only the hours are divided by `fps`; minutes and seconds count frames | frame 125 at 25 fps is named `00h_02m_05s.jpg` | the commented-out version: whole seconds `frame // fps` split into h/m/s, giving `00h_00m_05s.jpg` | not executed | TimeCode.FormatTimeMinutesOverflow | TimeCode.FormatTimeIntendedReadsBack |
| pellipop/file_finder.py:85-86 | `deep` and `format` are passed by position into `*args` and ignored | `how_many_files(p, 0)` over `d/a.mp4` counts 1; `how_many_files(p, -1, "image")` over `b.jpg` counts 0 | `file_finder(path, deep=deep, file_type=format)` | not executed | FileFinder.HowManyFilesIgnoresDepth | FileFinder.HowManyFilesIntendedCounts |
| pellipop/fileFinder.py:35-38 | the recursive calls drop `format`, so subdirectories are searched for videos | `file_finder(p, -1, "image")` over `d/a.jpg` and `d/b.mp4` yields `d/b.mp4` | pass `format` down | not executed | OldFileFinder.FileFinderLosesFormat | OldFileFinder.FileFinderIntendedYields |
| pellipop/speech_to_text/whisperMode.py:142-155 | `rm_tree(textPath)` runs in single-file mode too, and creates a directory at a missing transcript path | `main(cfg, "a.wav", "a.txt", folder=False)` with `a.txt` missing raises `IsADirectoryError` in `open` | clear the text folder only when `folder` is true | not executed | WhisperMode.MainSingleBlocked | WhisperMode.MainSingleIntendedWrites |
