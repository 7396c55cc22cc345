/** Stitching the Teams snapshots of one meeting (`process_teams_directory`):
    the timestamped ".json" files are read in order, each yields its caption
    parts, and every snapshot after the first contributes only what follows
    its overlap with the transcript so far, or, with no such overlap, all of
    its parts. */
module TeamsStitch {
  import opened Tree
  import opened Text
  import opened TeamsCaptions
  import opened TeamsOverlap
  import opened TeamsFiles
  import opened TeamsFormat

  /** `OVERLAP_LOOKBACK_PREVIOUS`. */
  const OverlapLookback: int := 30
  /** `MIN_OVERLAP_LENGTH`. */
  const MinOverlapLength: int := 3

  /** What reading one file gives: its decoded JSON, or one of the two
      failures the directory loop catches and skips. */
  datatype Content = Decoded(data: Json) | DecodeError | ReadError

  /** Why the directory cannot be processed at all. */
  datatype TeamsError = NotADirectory | NoTimestampedFiles

  /** The caption parts of one file; a file that cannot be read or decoded
      contributes none. */
  function FileParts(c: Content): (ps: seq<Part>)
    ensures forall p :: p in ps ==> WellFormedPart(p)
  {
    if c.Decoded? then FindParts(c.data) else []
  }

  /** One iteration of the stitching loop: `current` is the parts of the
      next file, `acc` the transcript so far. */
  function StitchStep(acc: seq<Part>, current: seq<Part>): seq<Part>
  {
    if current == [] then acc
    else if acc == [] then current
    else
      var idx := FindBestOverlapIndex(acc, current, OverlapLookback, MinOverlapLength);
      if idx < |current| then acc + current[idx..] else acc
  }

  /** The transcript after the files `cs`, in this order. */
  function StitchAll(cs: seq<Content>): seq<Part> {
    if cs == [] then []
    else StitchStep(StitchAll(cs[..|cs| - 1]), FileParts(cs[|cs| - 1]))
  }

  lemma StitchAllSnoc(cs: seq<Content>, c: Content)
    ensures StitchAll(cs + [c]) == StitchStep(StitchAll(cs), FileParts(c))
  {
    assert (cs + [c])[..|cs|] == cs;
  }

  // ------------------------------------------------------------ one file

  /** The transcript is kept and followed by a suffix of the new parts;
      with nothing kept, the new parts are taken whole. */
  lemma StitchStepShape(acc: seq<Part>, current: seq<Part>)
    ensures var r := StitchStep(acc, current);
      |acc| <= |r| <= |acc| + |current|
      && r[..|acc|] == acc
      && r[|acc|..] == current[|current| - (|r| - |acc|)..]
      && (acc == [] ==> r == current)
  {
  }

  /** A later file contributes exactly what follows the overlap index. */
  lemma StitchStepAppends(acc: seq<Part>, current: seq<Part>)
    requires acc != []
    ensures StitchStep(acc, current)
         == acc + current[FindBestOverlapIndex(acc, current, OverlapLookback, MinOverlapLength)..]
  {
  }

  /** A later file is appended whole exactly when no run of at least
      `MinOverlapLength` parts is shared with the last `OverlapLookback`
      parts of the transcript. */
  lemma StitchStepWhole(acc: seq<Part>, current: seq<Part>)
    requires acc != [] && current != []
    ensures StitchStep(acc, current) == acc + current <==>
      !exists i, j :: IsBlock(LookbackTail(acc, OverlapLookback), current, i, j, MinOverlapLength)
  {
    var idx := FindBestOverlapIndex(acc, current, OverlapLookback, MinOverlapLength);
    FindBestOverlapIndexSpec(acc, current, OverlapLookback, MinOverlapLength);
    var r := StitchStep(acc, current);
    if r == acc + current {
      assert |current[idx..]| == |current|;
    }
    if idx == 0 {
      assert current[idx..] == current;
    }
  }

  /** A file without parts, one that failed to decode and one that could
      not be read all leave the transcript unchanged. */
  lemma SkippedFileChangesNothing(cs: seq<Content>, c: Content)
    requires c.DecodeError? || c.ReadError? || FindParts(c.data) == []
    ensures StitchAll(cs + [c]) == StitchAll(cs)
  {
    StitchAllSnoc(cs, c);
  }

  /** The first file with parts is copied verbatim. */
  lemma FirstFileVerbatim(cs: seq<Content>, c: Content)
    requires StitchAll(cs) == []
    ensures StitchAll(cs + [c]) == FileParts(c)
  {
    StitchAllSnoc(cs, c);
  }

  // ------------------------------------------------------------ all files

  /** The transcript only grows: later files never change what earlier
      files contributed. */
  lemma {:induction false} StitchAllPrefix(cs: seq<Content>, ds: seq<Content>)
    ensures StitchAll(cs) <= StitchAll(cs + ds)
    decreases |ds|
  {
    if ds == [] {
      assert cs + ds == cs;
    } else {
      var init := ds[..|ds| - 1];
      var last := ds[|ds| - 1];
      StitchAllPrefix(cs, init);
      assert cs + ds == (cs + init) + [last];
      StitchAllSnoc(cs + init, last);
      var b := StitchAll(cs + init);
      StitchStepShape(b, FileParts(last));
      PrefixTransitive(StitchAll(cs), b, StitchAll(cs + ds));
    }
  }

  lemma PrefixTransitive<T>(a: seq<T>, b: seq<T>, c: seq<T>)
    requires a <= b && b <= c
    ensures a <= c
  {
    assert c[..|a|] == c[..|b|][..|a|];
  }

  /** The transcript is empty exactly when no file has parts. */
  lemma {:induction false} StitchAllEmpty(cs: seq<Content>)
    ensures StitchAll(cs) == [] <==> forall k :: 0 <= k < |cs| ==> FileParts(cs[k]) == []
    decreases |cs|
  {
    if cs != [] {
      var init := cs[..|cs| - 1];
      StitchAllEmpty(init);
      assert forall k :: 0 <= k < |init| ==> init[k] == cs[k];
    }
  }

  /** Every part of the transcript is a part of one of the files, so it is
      well formed. */
  lemma {:induction false} StitchAllFromFiles(cs: seq<Content>, p: Part)
    requires p in StitchAll(cs)
    ensures exists k :: 0 <= k < |cs| && p in FileParts(cs[k])
    ensures WellFormedPart(p)
    decreases |cs|
  {
    var init := cs[..|cs| - 1];
    var acc := StitchAll(init);
    var cur := FileParts(cs[|cs| - 1]);
    var r := StitchAll(cs);
    var n := |r| - |acc|;
    if p in acc {
      StitchAllFromFiles(init, p);
      var k :| 0 <= k < |init| && p in FileParts(init[k]);
      assert init[k] == cs[k];
    } else {
      var i :| 0 <= i < |r| && r[i] == p;
      assert i >= |acc|;
      assert r[|acc|..][i - |acc|] == p;
      assert p in cur[|cur| - n..];
      assert p in cur;
    }
  }

  /** The stitched transcript is written block by block: every run of parts
      by one named speaker becomes its tag and its texts joined by spaces,
      and only the runs whose speaker cleaned to "" are dropped. */
  lemma StitchAllRendered(cs: seq<Content>)
    ensures Rendered(StitchAll(cs)) == Join("\n", Shown(Named(Blocks(StitchAll(cs)))))
  {
    var ps := StitchAll(cs);
    forall k | 0 <= k < |ps| ensures WellFormedPart(ps[k]) {
      StitchAllFromFiles(cs, ps[k]);
    }
    RenderedWellFormed(ps);
  }

  // ------------------------------------------------------------ the loop

  /** `open(file_path)` and `json.load`: a path that is not readable is a
      read error. */
  function Load(fs: map<string, Content>, path: string): Content {
    if path in fs then fs[path] else ReadError
  }

  function ContentsOf(es: seq<Entry>, fs: map<string, Content>): (cs: seq<Content>)
    ensures |cs| == |es|
  {
    seq(|es|, k requires 0 <= k < |es| => Load(fs, es[k].path))
  }

  /** The loop of lines 256-298 over the sorted files. */
  method StitchFiles(files: seq<Entry>, fs: map<string, Content>) returns (all: seq<Part>)
    ensures all == StitchAll(ContentsOf(files, fs))
  {
    ghost var cs := ContentsOf(files, fs);
    all := [];
    for i := 0 to |files|
      invariant all == StitchAll(cs[..i])
    {
      var current := FileParts(Load(fs, files[i].path));
      all := StitchOne(all, current);
      StitchAllSnoc(cs[..i], cs[i]);
      assert cs[..i + 1] == cs[..i] + [cs[i]];
    }
    assert cs[..|files|] == cs;
  }

  /** One pass of that loop: a file without parts is skipped, the first
      file with parts is taken whole, and a later one from its overlap
      index on. */
  method StitchOne(all: seq<Part>, current: seq<Part>) returns (all': seq<Part>)
    ensures all' == StitchStep(all, current)
  {
    all' := all;
    if current == [] {
      return;
    }
    if all == [] {
      all' := all + current;
    } else {
      var idx := FindBestOverlapIndex(all, current, OverlapLookback, MinOverlapLength);
      if idx < |current| {
        all' := all + current[idx..];
      }
    }
  }

  // ------------------------------------------------------------ the directory

  /** What processing an export directory gives: the text written to the
      output file, or the reason the script stops. */
  function TeamsOutput(isDir: bool, walk: seq<Dir>, fs: map<string, Content>): Result<string, TeamsError> {
    if !isDir then Err(NotADirectory)
    else
      var es := WalkEntries(walk);
      if es == [] then Err(NoTimestampedFiles)
      else Ok(Rendered(StitchAll(ContentsOf(SortEntries(es), fs))))
  }

  /** `process_teams_directory(input_dir_path)`; `isDir` is the answer of
      `os.path.isdir`, `walk` what `os.walk` lists and `fs` what reading
      each path gives. */
  method ProcessTeamsDirectory(isDir: bool, walk: seq<Dir>, fs: map<string, Content>)
    returns (r: Result<string, TeamsError>)
    ensures r == TeamsOutput(isDir, walk, fs)
  {
    if !isDir {
      return Err(NotADirectory);
    }
    var entries := CollectEntries(walk);
    if entries == [] {
      return Err(NoTimestampedFiles);
    }
    var files := SortEntries(entries);
    var all := StitchFiles(files, fs);
    if all == [] {
      return Ok("");
    }
    var out := FormatCombinedTranscript(all);
    return Ok(out);
  }

  /** The script gives up exactly when the path is not a directory or no
      listed file is a ".json" file with a valid timestamp. */
  lemma TeamsOutputFails(isDir: bool, walk: seq<Dir>, fs: map<string, Content>)
    ensures TeamsOutput(isDir, walk, fs) == Err(NotADirectory) <==> !isDir
    ensures TeamsOutput(isDir, walk, fs) == Err(NoTimestampedFiles) <==>
      isDir && forall e :: !ListedIn(walk, e)
  {
    var es := WalkEntries(walk);
    forall e ensures e in es <==> ListedIn(walk, e) {
      WalkEntriesMembers(walk, e);
    }
    if es != [] {
      assert es[0] in es;
    }
  }

  /** The files are read in ascending (timestamp, path) order: for any
      ascending arrangement of the listed files the output is the same. */
  lemma TeamsOutputOrder(walk: seq<Dir>, fs: map<string, Content>, order: seq<Entry>)
    requires Sorted(order) && multiset(order) == multiset(WalkEntries(walk)) && order != []
    ensures TeamsOutput(true, walk, fs) == Ok(Rendered(StitchAll(ContentsOf(order, fs))))
  {
    SortEntriesUnique(WalkEntries(walk), order);
  }
}
