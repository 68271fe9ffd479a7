/** The two duplicate-image passes over a folder of frames: the streaming pass
    `duplicateless_folder_seq` of `pellipop/main.py`, which copies a frame when its hash
    differs from the last copied one, and the global pass `delete_duplicates` of
    `pellipop/old_main.py` (repeated as `del_duplicates` in `pellipop/main.py`), which
    deletes every later occurrence of a hash. Opening an image and computing its average hash
    are foreign calls: each frame arrives as its name, its hash and its encoded data, in the
    order the folder's glob lists them. */
module Dedup {
  import opened Wrappers
  import opened Paths
  import opened Fs

  datatype Image<H> = Image(name: string, hash: H, data: string)

  // ---- the streaming pass ----

  /** The indices from `i` on that the streaming pass keeps, given the hash it last kept. */
  ghost function KeptFrom<H>(imgs: seq<Image<H>>, i: nat, last: Option<H>): (r: seq<nat>)
    requires i <= |imgs|
    ensures forall a :: 0 <= a < |r| ==> i <= r[a] < |imgs|
    decreases |imgs| - i
  {
    if i == |imgs| then []
    else if last == Some(imgs[i].hash) then KeptFrom(imgs, i + 1, last)
    else [i] + KeptFrom(imgs, i + 1, Some(imgs[i].hash))
  }

  /** The indices the streaming pass keeps; nothing is kept before the first frame. */
  ghost function SeqKept<H>(imgs: seq<Image<H>>): seq<nat>
  {
    KeptFrom(imgs, 0, None)
  }

  lemma {:induction false} KeptFromMembers<H>(imgs: seq<Image<H>>, i: nat, last: Option<H>)
    requires i <= |imgs|
    requires (i == 0 && last == None) || (0 < i && last == Some(imgs[i - 1].hash))
    ensures forall k: nat :: k in KeptFrom(imgs, i, last) <==>
      i <= k < |imgs| && (k == 0 || imgs[k].hash != imgs[k - 1].hash)
    decreases |imgs| - i
  {
    if i < |imgs| {
      var h := imgs[i].hash;
      var tail := KeptFrom(imgs, i + 1, Some(h));
      KeptFromMembers(imgs, i + 1, Some(h));
      assert i !in tail;
      var r := KeptFrom(imgs, i, last);
      if last == Some(h) {
        assert r == tail;
        assert i > 0 && imgs[i].hash == imgs[i - 1].hash;
      } else {
        assert r == [i] + tail;
        assert i == 0 || imgs[i].hash != imgs[i - 1].hash;
      }
      forall k: nat ensures k in r <==> i <= k < |imgs| && (k == 0 || imgs[k].hash != imgs[k - 1].hash) {
        assert k in r <==> (k == i && i in r) || k in tail;
      }
      assert forall k: nat :: k in KeptFrom(imgs, i, last) <==>
        i <= k < |imgs| && (k == 0 || imgs[k].hash != imgs[k - 1].hash);
    } else {
      assert KeptFrom(imgs, i, last) == [];
    }
  }

  /** A frame is kept exactly when it is the first one or its hash differs from the hash of
      the frame just before it, whether or not that one was kept. */
  lemma SeqKeptMembers<H>(imgs: seq<Image<H>>)
    ensures forall k: nat :: k in SeqKept(imgs) <==>
      k < |imgs| && (k == 0 || imgs[k].hash != imgs[k - 1].hash)
  {
    KeptFromMembers(imgs, 0, None);
    assert SeqKept(imgs) == KeptFrom(imgs, 0, None);
  }

  predicate Increasing(r: seq<nat>)
  {
    forall a, b :: 0 <= a < b < |r| ==> r[a] < r[b]
  }

  lemma {:induction false} KeptFromIncreasing<H>(imgs: seq<Image<H>>, i: nat, last: Option<H>)
    requires i <= |imgs|
    ensures Increasing(KeptFrom(imgs, i, last))
    decreases |imgs| - i
  {
    if i < |imgs| {
      var h := imgs[i].hash;
      if last == Some(h) {
        assert KeptFrom(imgs, i, last) == KeptFrom(imgs, i + 1, last);
        KeptFromIncreasing(imgs, i + 1, last);
      } else {
        var tail := KeptFrom(imgs, i + 1, Some(h));
        KeptFromIncreasing(imgs, i + 1, Some(h));
        var r := [i] + tail;
        assert KeptFrom(imgs, i, last) == r;
        forall a, b | 0 <= a < b < |r| ensures r[a] < r[b] {
          assert r[b] == tail[b - 1];
          if a > 0 { assert r[a] == tail[a - 1]; }
        }
      }
    }
  }

  /** Kept frames stay in input order, and the first frame is always kept. */
  lemma SeqKeptInOrder<H>(imgs: seq<Image<H>>)
    ensures Increasing(SeqKept(imgs))
    ensures |imgs| > 0 ==> |SeqKept(imgs)| > 0 && SeqKept(imgs)[0] == 0
  {
    KeptFromIncreasing(imgs, 0, None);
  }

  /** Where the next kept index after position `a` of `r` is, or `n` when there is none. */
  function NextKept(r: seq<nat>, a: nat, n: nat): nat
  {
    if a + 1 < |r| then r[a + 1] else n
  }

  /** The first kept index of `r`, or `n` when there is none. */
  function FirstKept(r: seq<nat>, n: nat): nat
  {
    if |r| > 0 then r[0] else n
  }

  /** No two consecutive indices of `r` carry the same hash. */
  ghost predicate ConsecutiveDistinct<H>(imgs: seq<Image<H>>, r: seq<nat>)
  {
    forall a :: 0 <= a < |r| - 1 && r[a] < |imgs| && r[a + 1] < |imgs| ==>
      imgs[r[a]].hash != imgs[r[a + 1]].hash
  }

  /** Every frame from a kept index up to the next kept one carries the kept frame's hash. */
  ghost predicate RunsRepeat<H>(imgs: seq<Image<H>>, r: seq<nat>)
  {
    forall a, k :: 0 <= a < |r| && r[a] <= k < NextKept(r, a, |imgs|) && k < |imgs| ==>
      imgs[k].hash == imgs[r[a]].hash
  }

  /** The first index kept from `i` on has a hash other than the last kept one, and every
      frame before it repeats the last kept hash. */
  lemma {:induction false} KeptFromHead<H>(imgs: seq<Image<H>>, i: nat, last: Option<H>)
    requires i <= |imgs|
    ensures |KeptFrom(imgs, i, last)| > 0 ==> Some(imgs[KeptFrom(imgs, i, last)[0]].hash) != last
    ensures forall k :: i <= k < FirstKept(KeptFrom(imgs, i, last), |imgs|) ==> last == Some(imgs[k].hash)
    decreases |imgs| - i
  {
    if i < |imgs| && last == Some(imgs[i].hash) {
      assert KeptFrom(imgs, i, last) == KeptFrom(imgs, i + 1, last);
      KeptFromHead(imgs, i + 1, last);
    }
  }

  lemma {:induction false} KeptFromDistinct<H>(imgs: seq<Image<H>>, i: nat, last: Option<H>)
    requires i <= |imgs|
    ensures ConsecutiveDistinct(imgs, KeptFrom(imgs, i, last))
    decreases |imgs| - i
  {
    if i < |imgs| {
      var h := imgs[i].hash;
      if last == Some(h) {
        assert KeptFrom(imgs, i, last) == KeptFrom(imgs, i + 1, last);
        KeptFromDistinct(imgs, i + 1, last);
      } else {
        var tail := KeptFrom(imgs, i + 1, Some(h));
        KeptFromDistinct(imgs, i + 1, Some(h));
        KeptFromHead(imgs, i + 1, Some(h));
        var r := [i] + tail;
        assert KeptFrom(imgs, i, last) == r;
        forall a | 0 <= a < |r| - 1 && r[a] < |imgs| && r[a + 1] < |imgs|
          ensures imgs[r[a]].hash != imgs[r[a + 1]].hash
        {
          assert r[a + 1] == tail[a];
          if a > 0 { assert r[a] == tail[a - 1]; }
        }
      }
    }
  }

  lemma {:induction false} KeptFromRuns<H>(imgs: seq<Image<H>>, i: nat, last: Option<H>)
    requires i <= |imgs|
    ensures RunsRepeat(imgs, KeptFrom(imgs, i, last))
    decreases |imgs| - i
  {
    if i < |imgs| {
      var h := imgs[i].hash;
      if last == Some(h) {
        assert KeptFrom(imgs, i, last) == KeptFrom(imgs, i + 1, last);
        KeptFromRuns(imgs, i + 1, last);
      } else {
        var tail := KeptFrom(imgs, i + 1, Some(h));
        KeptFromRuns(imgs, i + 1, Some(h));
        KeptFromHead(imgs, i + 1, Some(h));
        var r := [i] + tail;
        assert KeptFrom(imgs, i, last) == r;
        forall a, k | 0 <= a < |r| && r[a] <= k < NextKept(r, a, |imgs|) && k < |imgs|
          ensures imgs[k].hash == imgs[r[a]].hash
        {
          if a > 0 {
            assert r[a] == tail[a - 1];
            assert NextKept(r, a, |imgs|) == NextKept(tail, a - 1, |imgs|);
          } else if k > i {
            assert NextKept(r, 0, |imgs|) == FirstKept(tail, |imgs|);
          }
        }
      }
    }
  }

  /** No two consecutive kept frames share a hash, and every frame, kept or dropped, has the
      hash of the latest kept frame at or before it. */
  lemma SeqKeptRuns<H>(imgs: seq<Image<H>>)
    ensures ConsecutiveDistinct(imgs, SeqKept(imgs))
    ensures RunsRepeat(imgs, SeqKept(imgs))
  {
    KeptFromDistinct(imgs, 0, None);
    KeptFromRuns(imgs, 0, None);
  }

  /** The files the streaming pass writes for the kept indices `r`. */
  function Copies<H>(output: Path, imgs: seq<Image<H>>, r: seq<nat>): (w: seq<(Path, string)>)
    requires forall a :: 0 <= a < |r| ==> r[a] < |imgs|
    ensures |w| == |r|
    ensures forall a :: 0 <= a < |r| ==> w[a] == (output + [imgs[r[a]].name], imgs[r[a]].data)
  {
    if r == [] then []
    else [(output + [imgs[r[0]].name], imgs[r[0]].data)] + Copies(output, imgs, r[1..])
  }

  /** The whole streaming pass on the file system: create the output folder, then copy the
      kept frames into it under their own names. */
  ghost function SeqPass<H>(m: map<Path, Node>, output: Path, imgs: seq<Image<H>>, noneDiffers: bool): Run
  {
    match MkdirResult(m, output, true, true)
    case Err(e) => Run(m, Fail(e))
    case Ok(m1) => WriteAll(m1, Copies(output, imgs, if noneDiffers then SeqKept(imgs) else []))
  }

  /** A frame with the hash just kept is skipped; any other one is copied first. */
  lemma CopiesStep<H>(output: Path, imgs: seq<Image<H>>, i: nat, last: Option<H>)
    requires i < |imgs|
    ensures last == Some(imgs[i].hash) ==> KeptFrom(imgs, i, last) == KeptFrom(imgs, i + 1, last)
    ensures last != Some(imgs[i].hash) ==>
      var now := Copies(output, imgs, KeptFrom(imgs, i, last));
      now != [] && now[0] == (output + [imgs[i].name], imgs[i].data) &&
      now[1..] == Copies(output, imgs, KeptFrom(imgs, i + 1, Some(imgs[i].hash)))
  {
    if last != Some(imgs[i].hash) {
      var kept := KeptFrom(imgs, i, last);
      assert kept == [i] + KeptFrom(imgs, i + 1, Some(imgs[i].hash));
      assert kept[1..] == KeptFrom(imgs, i + 1, Some(imgs[i].hash));
    }
  }

  /** The copies the streaming pass still has to make from frame `i` on, `last` being the hash
      last kept; while none is kept and `None` compares equal to every hash, there are none. */
  ghost function Pending<H>(output: Path, imgs: seq<Image<H>>, i: nat, last: Option<H>, noneDiffers: bool)
    : seq<(Path, string)>
    requires i <= |imgs|
  {
    if noneDiffers || last.Some? then Copies(output, imgs, KeptFrom(imgs, i, last)) else []
  }

  /** Past the last frame nothing is pending. */
  lemma PendingDone<H>(output: Path, imgs: seq<Image<H>>, last: Option<H>, noneDiffers: bool)
    ensures Pending(output, imgs, |imgs|, last, noneDiffers) == []
  {
    assert KeptFrom(imgs, |imgs|, last) == [];
  }

  /** One frame of the streaming pass: it is copied when its hash differs from the one last
      kept, and its hash becomes the one last kept. Before any frame is kept the comparison is
      against `None`, and its answer is `noneDiffers`. */
  method CopyIfNew<H(==)>(fs: FileSystem, output: Path, imgs: seq<Image<H>>, i: nat, last: Option<H>, noneDiffers: bool)
    returns (r: Outcome<OsError>, kept: Option<H>)
    requires fs.Valid() && i < |imgs|
    modifies fs
    ensures fs.Valid()
    ensures last.None? && !noneDiffers ==> r == Pass && kept == None && fs.entries == old(fs.entries)
    ensures last.Some? || noneDiffers ==> kept == Some(imgs[i].hash)
    ensures var before := WriteAll(old(fs.entries), Pending(output, imgs, i, last, noneDiffers));
      if r.Pass? then before == WriteAll(fs.entries, Pending(output, imgs, i + 1, kept, noneDiffers))
      else before == Run(fs.entries, r)
  {
    var h := imgs[i].hash;
    CopiesStep(output, imgs, i, last);
    var differs := if last.None? then noneDiffers else last != Some(h);
    kept := if differs then Some(h) else last;
    r := Pass;
    if differs {
      ghost var now := Copies(output, imgs, KeptFrom(imgs, i, last));
      ghost var next := Copies(output, imgs, KeptFrom(imgs, i + 1, kept));
      ghost var before := fs.entries;
      r := fs.Write(output + [imgs[i].name], imgs[i].data);
      WriteAllFirst(before, fs.entries, now, next, r);
    }
  }

  /** The streaming pass ends with a failed `mkdir`, or goes on to copy the kept frames. */
  lemma SeqPassFirst<H>(m: map<Path, Node>, m1: map<Path, Node>, output: Path, imgs: seq<Image<H>>, noneDiffers: bool,
                        r: Outcome<OsError>)
    requires var res := MkdirResult(m, output, true, true);
      (r.Pass? <==> res.Ok?) && (res.Ok? ==> m1 == res.value) && (res.Err? ==> r == Fail(res.error) && m1 == m)
    ensures r.Fail? ==> SeqPass(m, output, imgs, noneDiffers) == Run(m1, r)
    ensures r.Pass? ==> SeqPass(m, output, imgs, noneDiffers) == WriteAll(m1, Pending(output, imgs, 0, None, noneDiffers))
  {
  }

  /** `duplicateless_folder_seq` once its arguments are paths; `noneDiffers` is what the hash
      library answers to `ahash != None`. */
  method DuplicatelessFolderSeq<H(==)>(fs: FileSystem, output: Path, imgs: seq<Image<H>>, noneDiffers: bool)
    returns (r: Outcome<OsError>)
    requires fs.Valid()
    modifies fs
    ensures fs.Valid()
    ensures Run(fs.entries, r) == SeqPass(old(fs.entries), output, imgs, noneDiffers)
  {
    ghost var start := fs.entries;
    r := fs.Mkdir(output, true, true);
    SeqPassFirst(start, fs.entries, output, imgs, noneDiffers, r);
    if r.Fail? {
      return;
    }
    r := CopyKept(fs, output, imgs, noneDiffers);
  }

  /** The loop of the streaming pass over the frames, in order, starting with no hash kept. */
  method CopyKept<H(==)>(fs: FileSystem, output: Path, imgs: seq<Image<H>>, noneDiffers: bool)
    returns (r: Outcome<OsError>)
    requires fs.Valid()
    modifies fs
    ensures fs.Valid()
    ensures Run(fs.entries, r) == WriteAll(old(fs.entries), Pending(output, imgs, 0, None, noneDiffers))
  {
    ghost var goal := WriteAll(fs.entries, Pending(output, imgs, 0, None, noneDiffers));
    var actualHash: Option<H> := None;
    var i := 0;
    while i < |imgs|
      invariant 0 <= i <= |imgs|
      invariant fs.Valid()
      invariant !noneDiffers ==> actualHash.None?
      invariant WriteAll(fs.entries, Pending(output, imgs, i, actualHash, noneDiffers)) == goal
    {
      r, actualHash := CopyIfNew(fs, output, imgs, i, actualHash, noneDiffers);
      if r.Fail? {
        return;
      }
      i := i + 1;
    }
    PendingDone(output, imgs, actualHash, noneDiffers);
    r := Pass;
  }

  // ---- the global pass ----

  /** The hashes of a run of frames. */
  ghost function HashesOf<H>(imgs: seq<Image<H>>): set<H>
  {
    set k | 0 <= k < |imgs| :: imgs[k].hash
  }

  /** The hash of frame `k` already occurred earlier in the scan. */
  ghost predicate Seen<H>(imgs: seq<Image<H>>, k: nat)
    requires k < |imgs|
  {
    exists j :: 0 <= j < k && imgs[j].hash == imgs[k].hash
  }

  /** The indices of the frames whose hash already occurred earlier, in scan order. */
  ghost function Dups<H>(imgs: seq<Image<H>>): (d: seq<nat>)
    ensures forall a :: 0 <= a < |d| ==> d[a] < |imgs|
  {
    if imgs == [] then []
    else
      var n := |imgs| - 1;
      Dups(imgs[..n]) + (if Seen(imgs, n) then [n] else [])
  }

  lemma HashesOfSnoc<H>(imgs: seq<Image<H>>, i: nat)
    requires i < |imgs|
    ensures HashesOf(imgs[..i + 1]) == HashesOf(imgs[..i]) + {imgs[i].hash}
  {
    forall x | x in HashesOf(imgs[..i + 1]) ensures x in HashesOf(imgs[..i]) + {imgs[i].hash} {
      var k :| 0 <= k < i + 1 && imgs[..i + 1][k].hash == x;
      if k < i { assert imgs[..i][k].hash == x; }
    }
    forall x | x in HashesOf(imgs[..i]) ensures x in HashesOf(imgs[..i + 1]) {
      var k :| 0 <= k < i && imgs[..i][k].hash == x;
      assert imgs[..i + 1][k].hash == x;
    }
  }

  /** The scan's membership test against the hashes collected so far is `Seen`. */
  lemma SeenByHashes<H>(imgs: seq<Image<H>>, k: nat)
    requires k < |imgs|
    ensures Seen(imgs, k) <==> imgs[k].hash in HashesOf(imgs[..k])
  {
    if imgs[k].hash in HashesOf(imgs[..k]) {
      var j :| 0 <= j < k && imgs[..k][j].hash == imgs[k].hash;
      assert imgs[j].hash == imgs[k].hash;
    }
    if Seen(imgs, k) {
      var j :| 0 <= j < k && imgs[j].hash == imgs[k].hash;
      assert imgs[..k][j].hash == imgs[k].hash;
    }
  }

  lemma SeenPrefix<H>(imgs: seq<Image<H>>, n: nat, k: nat)
    requires k < n <= |imgs|
    ensures Seen(imgs[..n], k) <==> Seen(imgs, k)
  {
    if Seen(imgs, k) {
      var j :| 0 <= j < k && imgs[j].hash == imgs[k].hash;
      assert imgs[..n][j].hash == imgs[..n][k].hash;
    }
  }

  /** Exactly the later occurrences of a hash are deleted. */
  lemma {:induction false} DupsMembers<H>(imgs: seq<Image<H>>)
    ensures forall k: nat :: k in Dups(imgs) <==> k < |imgs| && Seen(imgs, k)
  {
    if imgs != [] {
      var n := |imgs| - 1;
      var d := Dups(imgs[..n]);
      DupsMembers(imgs[..n]);
      assert Dups(imgs) == d + (if Seen(imgs, n) then [n] else []);
      forall k: nat ensures k in Dups(imgs) <==> k < |imgs| && Seen(imgs, k) {
        if k < n {
          SeenPrefix(imgs, n, k);
        }
        assert n !in d;
      }
    }
  }

  /** The frames that survive have pairwise distinct hashes, and every hash of the input is
      still carried by a surviving frame at or before its first occurrence. */
  lemma DupsSurvivorsDistinct<H>(imgs: seq<Image<H>>)
    ensures forall i, j :: 0 <= i < j < |imgs| && i !in Dups(imgs) && j !in Dups(imgs) ==>
      imgs[i].hash != imgs[j].hash
  {
    DupsMembers(imgs);
    forall i, j | 0 <= i < j < |imgs| && i !in Dups(imgs) && j !in Dups(imgs)
      ensures imgs[i].hash != imgs[j].hash
    {
      assert !Seen(imgs, j);
    }
  }

  /** Every hash of the input is still carried by a surviving frame at or before it. */
  lemma DupsSurvivorsCover<H>(imgs: seq<Image<H>>)
    ensures forall k :: 0 <= k < |imgs| ==> Survives(imgs, k)
  {
    forall k | 0 <= k < |imgs| ensures Survives(imgs, k) {
      var i := FirstSurvivor(imgs, k);
    }
  }

  /** Some frame at or before `k` with the same hash as `k` is not deleted. */
  ghost predicate Survives<H>(imgs: seq<Image<H>>, k: nat)
    requires k < |imgs|
  {
    exists i :: 0 <= i <= k && i !in Dups(imgs) && imgs[i].hash == imgs[k].hash
  }

  lemma {:induction false} FirstSurvivor<H>(imgs: seq<Image<H>>, k: nat) returns (i: nat)
    requires k < |imgs|
    ensures i <= k && i !in Dups(imgs) && imgs[i].hash == imgs[k].hash
    decreases k
  {
    DupsMembers(imgs);
    if k in Dups(imgs) {
      assert Seen(imgs, k);
      var j :| 0 <= j < k && imgs[j].hash == imgs[k].hash;
      i := FirstSurvivor(imgs, j);
    } else {
      i := k;
    }
  }

  /** Every frame is either deleted or the first to carry one of the distinct hashes. */
  lemma {:induction false} DupsCount<H>(imgs: seq<Image<H>>)
    ensures |Dups(imgs)| + |HashesOf(imgs)| == |imgs|
  {
    if imgs != [] {
      var n := |imgs| - 1;
      DupsCount(imgs[..n]);
      HashesOfSnoc(imgs, n);
      SeenByHashes(imgs, n);
      assert imgs[..n + 1] == imgs;
    }
  }

  /** The paths of the frames at indices `d` inside `folder`. */
  function Victims<H>(folder: Path, imgs: seq<Image<H>>, d: seq<nat>): (v: seq<Path>)
    requires forall a :: 0 <= a < |d| ==> d[a] < |imgs|
    ensures |v| == |d|
    ensures forall a :: 0 <= a < |d| ==> v[a] == folder + [imgs[d[a]].name]
  {
    seq(|d|, a requires 0 <= a < |d| => folder + [imgs[d[a]].name])
  }

  /** `delete_duplicates(folder)`: collect the later occurrences in one scan, then unlink them
      in order; `count` is the number of deletions announced, which happens only once every
      unlink has succeeded. */
  method DeleteDuplicates<H(==)>(fs: FileSystem, folder: Path, imgs: seq<Image<H>>)
    returns (r: Outcome<OsError>, count: Option<nat>)
    requires fs.Valid()
    modifies fs
    ensures fs.Valid()
    ensures count == if r.Pass? then Some(|Dups(imgs)|) else None
    ensures Run(fs.entries, r) == UnlinkAll(old(fs.entries), Victims(folder, imgs, Dups(imgs)))
  {
    var toDelete := CollectDuplicates(folder, imgs);
    r := UnlinkEach(fs, toDelete);
    if r.Fail? {
      return r, None;
    }
    count := Some(|toDelete|);
  }

  /** The scan of `delete_duplicates`: a frame whose hash is already in the set is marked for
      deletion, any other one adds its hash to the set. */
  method CollectDuplicates<H(==)>(folder: Path, imgs: seq<Image<H>>) returns (toDelete: seq<Path>)
    ensures toDelete == Victims(folder, imgs, Dups(imgs))
    ensures |toDelete| == |Dups(imgs)|
  {
    var allHashs: set<H> := {};
    toDelete := [];
    var i := 0;
    while i < |imgs|
      invariant 0 <= i <= |imgs|
      invariant allHashs == HashesOf(imgs[..i])
      invariant toDelete == Victims(folder, imgs, Dups(imgs[..i]))
    {
      assert imgs[..i + 1][..i] == imgs[..i];
      SeenByHashes(imgs, i);
      SeenPrefix(imgs, i + 1, i);
      assert Dups(imgs[..i + 1]) == Dups(imgs[..i]) + (if Seen(imgs, i) then [i] else []);
      if imgs[i].hash in allHashs {
        toDelete := toDelete + [folder + [imgs[i].name]];
      } else {
        allHashs := allHashs + {imgs[i].hash};
      }
      HashesOfSnoc(imgs, i);
      i := i + 1;
    }
    assert imgs[..i] == imgs;
  }

  /** `for path in to_delete: path.unlink()`: the first failure is raised. */
  method UnlinkEach(fs: FileSystem, paths: seq<Path>) returns (r: Outcome<OsError>)
    requires fs.Valid()
    modifies fs
    ensures fs.Valid()
    ensures Run(fs.entries, r) == UnlinkAll(old(fs.entries), paths)
  {
    ghost var goal := UnlinkAll(fs.entries, paths);
    var j := 0;
    r := Pass;
    while j < |paths|
      invariant 0 <= j <= |paths|
      invariant fs.Valid()
      invariant UnlinkAll(fs.entries, paths[j..]) == goal
      invariant r == Pass
    {
      r := fs.Unlink(paths[j]);
      if r.Fail? {
        return;
      }
      assert paths[j..][1..] == paths[j + 1..];
      j := j + 1;
    }
  }

  /** After a successful global pass, the folder lost exactly the later occurrences. */
  lemma DeleteDuplicatesEffect<H>(m: map<Path, Node>, folder: Path, imgs: seq<Image<H>>)
    ensures UnlinkAll(m, Victims(folder, imgs, Dups(imgs))).outcome.Pass? ==>
      UnlinkAll(m, Victims(folder, imgs, Dups(imgs))).entries ==
        m - set k | k in Dups(imgs) && k < |imgs| :: folder + [imgs[k].name]
  {
    var d := Dups(imgs);
    var v := Victims(folder, imgs, d);
    UnlinkAllEffect(m, v);
    var gone := set a | 0 <= a < |v| :: v[a];
    var named := set k | k in d && k < |imgs| :: folder + [imgs[k].name];
    forall p | p in named ensures p in gone {
      var k :| k in d && k < |imgs| && p == folder + [imgs[k].name];
      var a :| 0 <= a < |d| && d[a] == k;
      assert v[a] == p;
    }
    assert gone == named;
  }
}
