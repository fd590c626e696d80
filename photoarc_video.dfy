/**
 * `photoarc/core/video_processor.py`: the newer video processor.  It takes
 * its utilities from the older package, so a video's time is
 * `CoreVideo.GetVideoCreationTime`.  An existing destination with the same
 * content is skipped; otherwise, with overwriting off, the first free
 * `name_001`, `name_002`, ... is taken without looking at the content of the
 * candidates, and with overwriting on the existing file is copied over.  A
 * resume set of source paths lets a pass skip files copied before.  Only
 * `OSError`, `IOError` and `sqlite3.Error` are caught, so any other
 * exception ends the whole pass.
 */
module PhotoarcVideo {
  import opened Text
  import opened DateTimes
  import opened Paths
  import opened Store
  import opened Media
  import opened Templates
  import PhotoarcUtils
  import PhotoarcPhoto
  import CoreVideo

  // ---------------------------------------------------------------------
  // Placement

  datatype VideoConfig = VideoConfig(
    destDir: Path,            // video_destination_dir
    types: seq<string>,       // supported_video_types
    overwrite: bool,          // video_overwrite_existing_rule
    pathFormat: string,       // video_destination_path_format
    filenameFormat: string    // video_destination_filename_format
  )

  /** `build_destination_path(created_time, filename, ...)` for a video with a time. */
  function VideoTarget(cfg: VideoConfig, f: SourceFile): Option<(Path, string)>
  {
    var t := CoreVideo.GetVideoCreationTime(f);
    if t.None? || t.value == "" then None
    else BuildDestinationPath(t.value, f.name, cfg.pathFormat, cfg.filenameFormat)
  }

  /** The counter the `_NNN` loop stops at: the first one from 1 whose path is free. */
  function FirstFreeSuffix(tree: Tree, dir: Path, filename: string): (n: nat)
    ensures n >= 1 && PhotoarcUtils.CounterPath(dir, filename, n) !in tree
    ensures forall j :: 1 <= j < n ==> PhotoarcUtils.CounterPath(dir, filename, j) in tree
  {
    var (base, ext) := SplitExt(filename);
    CounterFamily(dir, filename);
    FirstAbsent(tree, Join(dir, base + "_"), 1, 3, ext)
  }

  /** The `_NNN` paths of one destination are a numbered family. */
  lemma CounterFamily(dir: Path, filename: string)
    ensures var (base, ext) := SplitExt(filename);
      forall j :: PhotoarcUtils.CounterPath(dir, filename, j) == Numbered(Join(dir, base + "_"), j, 3, ext)
  {
    forall j: nat ensures var (base, ext) := SplitExt(filename);
      PhotoarcUtils.CounterPath(dir, filename, j) == Numbered(Join(dir, base + "_"), j, 3, ext)
    {
      PhotoarcUtils.CounterPathNumbered(dir, filename, j);
    }
  }

  /** FirstFreeSuffix is the least free counter. */
  lemma FirstFreeSuffixLeast(tree: Tree, dir: Path, filename: string, j: nat)
    requires j >= 1 && PhotoarcUtils.CounterPath(dir, filename, j) !in tree
    ensures FirstFreeSuffix(tree, dir, filename) <= j
  {
    var (base, ext) := SplitExt(filename);
    CounterFamily(dir, filename);
    FirstAbsentLeast(tree, Join(dir, base + "_"), 1, 3, ext, j);
  }

  /**
   * Where a video whose destination is `join(dest_dir, dp, dfn)` goes: the
   * destination when it is free; nowhere when it holds the same content;
   * the destination itself when overwriting is on; the first free `_NNN`
   * name otherwise.
   */
  function PlaceAtTarget(tree: Tree, source: Option<Content>, destDir: Path, dp: Path, dfn: string,
                         overwrite: bool): (r: Placement)
    ensures r == SameContent || r.PlaceAt?
    ensures r == SameContent <==> IsSameFile(source, tree, Join3(destDir, dp, dfn))
    ensures Join3(destDir, dp, dfn) !in tree ==> r == PlaceAt(Join3(destDir, dp, dfn))
    ensures r.PlaceAt? && !overwrite ==> r.dest !in tree
    ensures r.PlaceAt? && r.dest in tree ==> overwrite && r.dest == Join3(destDir, dp, dfn)
  {
    var full := Join3(destDir, dp, dfn);
    if full !in tree then PlaceAt(full)
    else if IsSameFile(source, tree, full) then SameContent
    else if overwrite then PlaceAt(full)
    else
      var dir := Join(destDir, dp);
      PlaceAt(PhotoarcUtils.CounterPath(dir, dfn, FirstFreeSuffix(tree, dir, dfn)))
  }

  /** The placement decision of `_process_single_video`. */
  function PlaceVideo(cfg: VideoConfig, f: SourceFile, tree: Tree): (r: Placement)
    ensures r == NoTime <==> CoreVideo.GetVideoCreationTime(f) in {None, Some("")}
    ensures r == Escapes <==> r != NoTime && VideoTarget(cfg, f).None?
    ensures r == SameContent ==>
              IsSameFile(f.content, tree, Join3(cfg.destDir, VideoTarget(cfg, f).value.0, VideoTarget(cfg, f).value.1))
    ensures r.PlaceAt? && !cfg.overwrite ==> r.dest !in tree
    ensures r.PlaceAt? && r.dest in tree ==>
              cfg.overwrite && r.dest == Join3(cfg.destDir, VideoTarget(cfg, f).value.0, VideoTarget(cfg, f).value.1)
  {
    var t := CoreVideo.GetVideoCreationTime(f);
    if t.None? || t.value == "" then NoTime
    else
      match BuildDestinationPath(t.value, f.name, cfg.pathFormat, cfg.filenameFormat)
      case None => Escapes
      case Some((dp, dfn)) => PlaceAtTarget(tree, f.content, cfg.destDir, dp, dfn, cfg.overwrite)
  }

  /**
   * With overwriting off, a taken destination of other content sends the
   * video to the first free `_NNN` name, even past a candidate that already
   * holds the same content: the candidates' contents are not compared.
   */
  lemma SuffixIgnoresContent(tree: Tree, source: Option<Content>, destDir: Path, dp: Path, dfn: string)
    requires Join3(destDir, dp, dfn) in tree && !IsSameFile(source, tree, Join3(destDir, dp, dfn))
    ensures var dir := Join(destDir, dp);
      var n := FirstFreeSuffix(tree, dir, dfn);
      && PlaceAtTarget(tree, source, destDir, dp, dfn, false) == PlaceAt(PhotoarcUtils.CounterPath(dir, dfn, n))
      && forall j :: 1 <= j < n ==>
           PlaceAtTarget(tree, source, destDir, dp, dfn, false) != PlaceAt(PhotoarcUtils.CounterPath(dir, dfn, j))
  {
    var dir := Join(destDir, dp);
    var n := FirstFreeSuffix(tree, dir, dfn);
    forall j | 1 <= j < n
      ensures PhotoarcUtils.CounterPath(dir, dfn, n) != PhotoarcUtils.CounterPath(dir, dfn, j)
    {
      assert PhotoarcUtils.CounterPath(dir, dfn, j) in tree;
    }
  }

  /** With overwriting on, the destination path is kept whatever it holds. */
  lemma OverwriteKeepsPath(cfg: VideoConfig, f: SourceFile, tree: Tree)
    requires cfg.overwrite && VideoTarget(cfg, f).Some?
    ensures var full := Join3(cfg.destDir, VideoTarget(cfg, f).value.0, VideoTarget(cfg, f).value.1);
      PlaceVideo(cfg, f, tree) == if IsSameFile(f.content, tree, full) then SameContent else PlaceAt(full)
  {
  }

  /** `_process_single_video` up to the copy. */
  method PlaceSingleVideo(cfg: VideoConfig, f: SourceFile, tree: Tree) returns (r: Placement)
    ensures r == PlaceVideo(cfg, f, tree)
  {
    var t := CoreVideo.GetVideoCreationTime(f);
    if t.None? || t.value == "" {
      return NoTime;
    }
    var target := BuildDestinationPath(t.value, f.name, cfg.pathFormat, cfg.filenameFormat);
    if target.None? {
      return Escapes;
    }
    var (dp, dfn) := target.value;
    r := PlaceOnTarget(tree, f.content, cfg.destDir, dp, dfn, cfg.overwrite);
  }

  /** The check for an existing destination, then the `_NNN` loop when overwriting is off. */
  method PlaceOnTarget(tree: Tree, source: Option<Content>, destDir: Path, dp: Path, dfn: string,
                       overwrite: bool) returns (r: Placement)
    ensures r == PlaceAtTarget(tree, source, destDir, dp, dfn, overwrite)
  {
    var full := Join3(destDir, dp, dfn);
    if full in tree && IsSameFile(source, tree, full) {
      return SameContent;
    }
    if full in tree && !overwrite {
      full := SuffixLoop(tree, Join(destDir, dp), dfn, full);
    }
    return PlaceAt(full);
  }

  /**
   * `while os.path.exists(full_dest_path)` from a destination that exists:
   * the candidates `name_001`, `name_002`, ... in turn until one is free.
   */
  method SuffixLoop(tree: Tree, dir: Path, filename: string, start: Path) returns (full: Path)
    requires start in tree
    ensures full == PhotoarcUtils.CounterPath(dir, filename, FirstFreeSuffix(tree, dir, filename))
  {
    ghost var last := FirstFreeSuffix(tree, dir, filename);
    full := start;
    var counter := 1;
    while full in tree
      invariant 1 <= counter <= last + 1
      invariant counter == 1 ==> full == start
      invariant counter > 1 ==> full == PhotoarcUtils.CounterPath(dir, filename, counter - 1)
      decreases last + 1 - counter
    {
      SuffixTaken(tree, dir, filename, counter);
      full := PhotoarcUtils.CounterPath(dir, filename, counter);
      counter := counter + 1;
    }
    FirstFreeSuffixLeast(tree, dir, filename, counter - 1);
  }

  /** The loop goes on to counter c only while the previous candidate is taken, so c is at most the first free one. */
  lemma SuffixTaken(tree: Tree, dir: Path, filename: string, c: nat)
    requires 1 <= c <= FirstFreeSuffix(tree, dir, filename) + 1
    requires c > 1 ==> PhotoarcUtils.CounterPath(dir, filename, c - 1) in tree
    ensures c <= FirstFreeSuffix(tree, dir, filename)
  {
  }

  // ---------------------------------------------------------------------
  // The per-file routine

  /**
   * `_process_single_video(root, filename)` with its copy, which is the
   * older package's copy step (`CoreVideo.CopyVideo`).
   */
  function ProcessSingleVideo(cfg: VideoConfig, f: SourceFile, tree: Tree): (r: (Outcome, Tree))
    ensures r.0 == Skipped <==> PlaceVideo(cfg, f, tree) == SameContent
    ensures r.0 == Raised <==>
              PlaceVideo(cfg, f, tree) == Escapes
              || (PlaceVideo(cfg, f, tree).PlaceAt? && CoreVideo.CopyVideo(f, PlaceVideo(cfg, f, tree).dest, tree).0 == Raised)
    ensures r.0 == Copied ==> PlaceVideo(cfg, f, tree).PlaceAt? && IsSameFile(f.content, r.1, PlaceVideo(cfg, f, tree).dest)
    ensures tree.Keys <= r.1.Keys
    ensures forall p :: p in tree && r.1[p] != tree[p] ==>
              cfg.overwrite && VideoTarget(cfg, f).Some? && p == Join3(cfg.destDir, VideoTarget(cfg, f).value.0, VideoTarget(cfg, f).value.1)
  {
    var placed := PlaceVideo(cfg, f, tree);
    RunPlacementFacts(f, placed, tree);
    RunPlacement(f, placed, tree)
  }

  /** What the routine reports for a placement, with the copy it makes. */
  function RunPlacement(f: SourceFile, placed: Placement, tree: Tree): (Outcome, Tree)
  {
    match placed
    case NoTime => (Failed, tree)
    case Escapes => (Raised, tree)
    case SameContent => (Skipped, tree)
    case PlaceAt(dest) => CoreVideo.CopyVideo(f, dest, tree)
  }

  lemma RunPlacementFacts(f: SourceFile, placed: Placement, tree: Tree)
    ensures var r := RunPlacement(f, placed, tree);
      && (r.0 == Skipped <==> placed == SameContent)
      && (r.0 == Raised <==> placed == Escapes || (placed.PlaceAt? && CoreVideo.CopyVideo(f, placed.dest, tree).0 == Raised))
      && (r.0 == Copied ==> placed.PlaceAt? && IsSameFile(f.content, r.1, placed.dest))
      && tree.Keys <= r.1.Keys
      && (forall p :: p in tree && r.1[p] != tree[p] ==> placed.PlaceAt? && p == placed.dest)
  {
  }

  // ---------------------------------------------------------------------
  // The pass

  /**
   * The processor's counters, its resume set, the destination tree, and
   * whether an exception ended the pass.
   */
  datatype PassState = PassState(tally: Tally, processed: set<Path>, tree: Tree, aborted: bool)

  /** The counters and resume set after a file whose routine reported `outcome`; `Raised` ends the pass. */
  function FileStep(st: PassState, path: Path, outcome: Outcome, tree': Tree): PassState
  {
    var t := st.tally;
    match outcome
    case Raised => PassState(t, st.processed, tree', true)
    case Skipped => PassState(t.(files := t.files + 1, skips := t.skips + 1), st.processed, tree', false)
    case Copied => PassState(t.(files := t.files + 1, copies := t.copies + 1), st.processed + {path}, tree', false)
    case Failed => PassState(t.(files := t.files + 1, errors := t.errors + 1), st.processed, tree', false)
  }

  /** One file of the inner loop of `process_videos`; nothing happens after an exception. */
  function VisitFile(cfg: VideoConfig, st: PassState, root: Path, f: SourceFile): PassState
  {
    if st.aborted || !Supported(f.name, cfg.types) then st
    else
      var path := Join(root, f.name);
      var t := st.tally;
      if path in st.processed then
        st.(tally := t.(skips := t.skips + 1, files := t.files + 1))
      else
        FileStep(st, path, ProcessSingleVideo(cfg, f, st.tree).0, ProcessSingleVideo(cfg, f, st.tree).1)
  }

  function VisitFiles(cfg: VideoConfig, st: PassState, root: Path, files: seq<SourceFile>): PassState
  {
    if |files| == 0 then st
    else VisitFile(cfg, VisitFiles(cfg, st, root, files[..|files| - 1]), root, files[|files| - 1])
  }

  function VisitEntries(cfg: VideoConfig, st: PassState, entries: seq<WalkEntry>): PassState
  {
    if |entries| == 0 then st
    else
      var e := entries[|entries| - 1];
      VisitFiles(cfg, VisitEntries(cfg, st, entries[..|entries| - 1]), e.root, e.files)
  }

  /**
   * `process_videos()`: counters reset, the resume set loaded (empty when
   * the query fails), then every directory of the walk until an exception.
   */
  function Pass(cfg: VideoConfig, walk: seq<WalkEntry>, loaded: Option<set<Path>>, tree: Tree): PassState
  {
    VisitEntries(cfg, PassState(Tally(0, 0, 0, 0), PhotoarcPhoto.LoadProcessedFiles(loaded), tree, false), walk)
  }

  /**
   * What visiting `n` supported files keeps: an ended pass stays ended;
   * each file that returns, set member or not, bumps `file_count` and
   * exactly one other counter; all of them return unless the pass ends;
   * the resume set grows by at most one path per copy; no file leaves the
   * destination.
   */
  predicate Grows(st: PassState, r: PassState, n: nat)
  {
    && (st.aborted ==> r.aborted)
    && Total(st.tally) <= Total(r.tally) <= Total(st.tally) + n
    && (!r.aborted ==> Total(r.tally) == Total(st.tally) + n)
    && r.tally.files + Total(st.tally) == st.tally.files + Total(r.tally)
    && st.processed <= r.processed
    && |r.processed - st.processed| <= r.tally.copies - st.tally.copies
    && st.tree.Keys <= r.tree.Keys
  }

  lemma GrowsTrans(a: PassState, b: PassState, c: PassState, m: nat, n: nat)
    requires Grows(a, b, m) && Grows(b, c, n)
    ensures Grows(a, c, m + n)
  {
    PhotoarcPhoto.GrowStep(a.processed, b.processed, b.processed, "", a.tally.copies, b.tally.copies, b.tally.copies);
    var added := (c.processed - b.processed) + (b.processed - a.processed);
    assert c.processed - a.processed == added;
    assert |added| <= |c.processed - b.processed| + |b.processed - a.processed|;
  }

  lemma FileStepGrows(st: PassState, path: Path, outcome: Outcome, tree': Tree)
    requires !st.aborted && st.tree.Keys <= tree'.Keys
    ensures Grows(st, FileStep(st, path, outcome, tree'), 1)
  {
    var r := FileStep(st, path, outcome, tree');
    if outcome == Copied {
      assert r.processed - st.processed <= {path};
      SubsetSize(r.processed - st.processed, {path});
    } else {
      assert r.processed - st.processed == {};
    }
  }

  lemma VisitFileGrows(cfg: VideoConfig, st: PassState, root: Path, f: SourceFile)
    ensures Grows(st, VisitFile(cfg, st, root, f), if Supported(f.name, cfg.types) then 1 else 0)
  {
    var path := Join(root, f.name);
    if !st.aborted && Supported(f.name, cfg.types) {
      if path in st.processed {
        assert VisitFile(cfg, st, root, f).processed - st.processed == {};
      } else {
        var (outcome, tree') := ProcessSingleVideo(cfg, f, st.tree);
        FileStepGrows(st, path, outcome, tree');
      }
    } else {
      assert VisitFile(cfg, st, root, f).processed - st.processed == {};
    }
  }

  lemma {:induction false} VisitFilesGrows(cfg: VideoConfig, st: PassState, root: Path, files: seq<SourceFile>)
    ensures Grows(st, VisitFiles(cfg, st, root, files), SupportedCount(cfg.types, files))
  {
    if |files| > 0 {
      var init := files[..|files| - 1];
      var f := files[|files| - 1];
      VisitFilesGrows(cfg, st, root, init);
      VisitFileGrows(cfg, VisitFiles(cfg, st, root, init), root, f);
      GrowsTrans(st, VisitFiles(cfg, st, root, init), VisitFiles(cfg, st, root, files),
                 SupportedCount(cfg.types, init), if Supported(f.name, cfg.types) then 1 else 0);
    } else {
      assert st.processed - st.processed == {};
    }
  }

  lemma {:induction false} VisitEntriesGrows(cfg: VideoConfig, st: PassState, entries: seq<WalkEntry>)
    ensures Grows(st, VisitEntries(cfg, st, entries), SupportedIn(cfg.types, entries))
  {
    if |entries| > 0 {
      var init := entries[..|entries| - 1];
      var e := entries[|entries| - 1];
      VisitEntriesGrows(cfg, st, init);
      VisitFilesGrows(cfg, VisitEntries(cfg, st, init), e.root, e.files);
      GrowsTrans(st, VisitEntries(cfg, st, init), VisitEntries(cfg, st, entries), SupportedIn(cfg.types, init),
                 SupportedCount(cfg.types, e.files));
    } else {
      assert st.processed - st.processed == {};
    }
  }

  lemma PassGrows(cfg: VideoConfig, walk: seq<WalkEntry>, loaded: Option<set<Path>>, tree: Tree)
    ensures Grows(PassState(Tally(0, 0, 0, 0), PhotoarcPhoto.LoadProcessedFiles(loaded), tree, false),
                  Pass(cfg, walk, loaded, tree), SupportedIn(cfg.types, walk))
  {
    VisitEntriesGrows(cfg, PassState(Tally(0, 0, 0, 0), PhotoarcPhoto.LoadProcessedFiles(loaded), tree, false), walk);
  }

  /**
   * After a pass, `file_count` equals copied + skipped + errors, and no
   * more files were counted than the walk holds supported files.
   */
  lemma PassCounts(cfg: VideoConfig, walk: seq<WalkEntry>, loaded: Option<set<Path>>, tree: Tree)
    ensures var r := Pass(cfg, walk, loaded, tree);
      r.tally.files == Total(r.tally) <= SupportedIn(cfg.types, walk)
  {
    PassGrows(cfg, walk, loaded, tree);
  }

  /** Unless an exception ended the pass early, every supported file walked was counted. */
  lemma PassCountsAll(cfg: VideoConfig, walk: seq<WalkEntry>, loaded: Option<set<Path>>, tree: Tree)
    ensures var r := Pass(cfg, walk, loaded, tree);
      !r.aborted ==> r.tally.files == SupportedIn(cfg.types, walk)
  {
    PassGrows(cfg, walk, loaded, tree);
  }

  /** A pass keeps the loaded resume set and adds at most one path per copy. */
  lemma PassResumeSet(cfg: VideoConfig, walk: seq<WalkEntry>, loaded: Option<set<Path>>, tree: Tree)
    ensures var r := Pass(cfg, walk, loaded, tree);
      && PhotoarcPhoto.LoadProcessedFiles(loaded) <= r.processed
      && |r.processed - PhotoarcPhoto.LoadProcessedFiles(loaded)| <= r.tally.copies
  {
    PassGrows(cfg, walk, loaded, tree);
  }

  /** A path already in the resume set is counted as skipped without being looked at again. */
  lemma ProcessedSkipped(cfg: VideoConfig, st: PassState, root: Path, f: SourceFile)
    requires !st.aborted && Supported(f.name, cfg.types) && Join(root, f.name) in st.processed
    ensures VisitFile(cfg, st, root, f) ==
              st.(tally := st.tally.(files := st.tally.files + 1, skips := st.tally.skips + 1))
  {
  }

  /** With overwriting off, no file already in the destination is changed by a directory's files.
      The same induction as `PhotoarcPhoto.VisitFilesKeeps`, over this module's pass function. */
  lemma {:induction false} VisitFilesKeeps(cfg: VideoConfig, st: PassState, root: Path, files: seq<SourceFile>)
    requires !cfg.overwrite
    ensures var r := VisitFiles(cfg, st, root, files);
      && st.tree.Keys <= r.tree.Keys && forall p :: p in st.tree ==> r.tree[p] == st.tree[p]
  {
    if |files| > 0 {
      VisitFilesKeeps(cfg, st, root, files[..|files| - 1]);
    }
  }

  /** The same across directories; mirrors `PhotoarcPhoto.VisitEntriesKeeps`. */
  lemma {:induction false} VisitEntriesKeeps(cfg: VideoConfig, st: PassState, entries: seq<WalkEntry>)
    requires !cfg.overwrite
    ensures var r := VisitEntries(cfg, st, entries);
      && st.tree.Keys <= r.tree.Keys && forall p :: p in st.tree ==> r.tree[p] == st.tree[p]
  {
    if |entries| > 0 {
      var e := entries[|entries| - 1];
      VisitEntriesKeeps(cfg, st, entries[..|entries| - 1]);
      VisitFilesKeeps(cfg, VisitEntries(cfg, st, entries[..|entries| - 1]), e.root, e.files);
    }
  }

  /** With overwriting off, a pass never changes a file that was already in the destination. */
  lemma PassNeverOverwrites(cfg: VideoConfig, walk: seq<WalkEntry>, loaded: Option<set<Path>>, tree: Tree)
    requires !cfg.overwrite
    ensures var r := Pass(cfg, walk, loaded, tree);
      tree.Keys <= r.tree.Keys && forall p :: p in tree ==> r.tree[p] == tree[p]
  {
    VisitEntriesKeeps(cfg, PassState(Tally(0, 0, 0, 0), PhotoarcPhoto.LoadProcessedFiles(loaded), tree, false), walk);
  }

  /** Once the pass has ended, the remaining files of a directory change nothing. */
  lemma {:induction false} VisitFilesAborted(cfg: VideoConfig, st: PassState, root: Path, files: seq<SourceFile>, j: nat)
    requires j <= |files| && VisitFiles(cfg, st, root, files[..j]).aborted
    ensures VisitFiles(cfg, st, root, files) == VisitFiles(cfg, st, root, files[..j])
    decreases |files|
  {
    if j < |files| {
      var init := files[..|files| - 1];
      assert init[..j] == files[..j];
      VisitFilesAborted(cfg, st, root, init, j);
    } else {
      assert files[..j] == files;
    }
  }

  /** An ended pass visits no more files. */
  lemma {:induction false} VisitFilesStays(cfg: VideoConfig, st: PassState, root: Path, files: seq<SourceFile>)
    requires st.aborted
    ensures VisitFiles(cfg, st, root, files) == st
  {
    if |files| > 0 {
      VisitFilesStays(cfg, st, root, files[..|files| - 1]);
    }
  }

  /** Once the pass has ended, the remaining directories change nothing. */
  lemma {:induction false} VisitEntriesAborted(cfg: VideoConfig, st: PassState, entries: seq<WalkEntry>, i: nat)
    requires i <= |entries| && VisitEntries(cfg, st, entries[..i]).aborted
    ensures VisitEntries(cfg, st, entries) == VisitEntries(cfg, st, entries[..i])
    decreases |entries|
  {
    if i < |entries| {
      var init := entries[..|entries| - 1];
      var e := entries[|entries| - 1];
      assert init[..i] == entries[..i];
      VisitEntriesAborted(cfg, st, init, i);
      VisitFilesStays(cfg, VisitEntries(cfg, st, init), e.root, e.files);
    } else {
      assert entries[..i] == entries;
    }
  }

  // ---------------------------------------------------------------------
  // The processor object

  class VideoProcessor {
    const cfg: VideoConfig
    var fileCount: nat
    var copyCount: nat
    var skipCount: nat
    var errorCount: nat
    var processedFiles: set<Path>

    /** `__init__`: all counters zero, nothing processed yet. */
    constructor(cfg: VideoConfig)
      ensures this.cfg == cfg
      ensures fileCount == 0 && copyCount == 0 && skipCount == 0 && errorCount == 0
      ensures processedFiles == {}
    {
      this.cfg := cfg;
      fileCount, copyCount, skipCount, errorCount := 0, 0, 0, 0;
      processedFiles := {};
    }

    function State(tree: Tree, aborted: bool): PassState
      reads this
    {
      PassState(Tally(fileCount, copyCount, skipCount, errorCount), processedFiles, tree, aborted)
    }

    /**
     * `process_videos()` over a walk of the source tree, the paths the
     * database reports as processed (`None` when the query fails) and the
     * destination tree: the tree afterwards, and whether an exception
     * escaped the pass.
     */
    method ProcessVideos(walk: seq<WalkEntry>, loaded: Option<set<Path>>, tree: Tree) returns (out: Tree, aborted: bool)
      modifies this
      ensures State(out, aborted) == Pass(cfg, walk, loaded, tree)
    {
      fileCount, copyCount, skipCount, errorCount := 0, 0, 0, 0;
      processedFiles := PhotoarcPhoto.LoadProcessedFiles(loaded);
      out, aborted := tree, false;
      ghost var start := State(tree, false);
      var i := 0;
      while i < |walk| && !aborted
        invariant 0 <= i <= |walk|
        invariant State(out, aborted) == VisitEntries(cfg, start, walk[..i])
      {
        assert walk[..i + 1][..i] == walk[..i];
        out, aborted := ProcessDirectory(walk[i].root, walk[i].files, out);
        i := i + 1;
      }
      if aborted {
        VisitEntriesAborted(cfg, start, walk, i);
      } else {
        assert walk[..i] == walk;
      }
    }

    /** The inner loop over one directory's files, until an exception. */
    method ProcessDirectory(root: Path, files: seq<SourceFile>, tree: Tree) returns (out: Tree, aborted: bool)
      modifies this
      ensures State(out, aborted) == VisitFiles(cfg, old(State(tree, false)), root, files)
    {
      out, aborted := tree, false;
      ghost var start := State(tree, false);
      var j := 0;
      while j < |files| && !aborted
        invariant 0 <= j <= |files|
        invariant State(out, aborted) == VisitFiles(cfg, start, root, files[..j])
      {
        assert files[..j + 1][..j] == files[..j];
        out, aborted := ProcessFile(root, files[j], out);
        j := j + 1;
      }
      if aborted {
        VisitFilesAborted(cfg, start, root, files, j);
      } else {
        assert files[..j] == files;
      }
    }

    /** One file: the resume-set check, the routine, then the counter updates of `process_videos`. */
    method ProcessFile(root: Path, f: SourceFile, tree: Tree) returns (out: Tree, aborted: bool)
      modifies this
      ensures State(out, aborted) == VisitFile(cfg, old(State(tree, false)), root, f)
    {
      out, aborted := tree, false;
      if !Supported(f.name, cfg.types) {
        return;
      }
      var path := Join(root, f.name);
      if path in processedFiles {
        VisitFileResumed(cfg, State(tree, false), root, f);
        skipCount := skipCount + 1;
        fileCount := fileCount + 1;
        return;
      }
      out, aborted := RunFile(root, f, tree);
    }

    /** A supported file that is not in the resume set: the routine, then the counter updates. */
    method RunFile(root: Path, f: SourceFile, tree: Tree) returns (out: Tree, aborted: bool)
      requires Supported(f.name, cfg.types) && Join(root, f.name) !in processedFiles
      modifies this
      ensures State(out, aborted) == VisitFile(cfg, old(State(tree, false)), root, f)
    {
      var path := Join(root, f.name);
      var placed := PlaceSingleVideo(cfg, f, tree);
      ghost var before := State(tree, false);
      var r := RunPlacement(f, placed, tree);
      VisitFileRuns(cfg, before, root, f, placed);
      RecordOutcome(path, r.0);
      out, aborted := r.1, r.0 == Raised;
      assert State(out, aborted) == FileStep(before, path, r.0, r.1);
    }

    /** The counter and resume-set updates of `process_videos` for a file whose routine reported `outcome`. */
    method RecordOutcome(path: Path, outcome: Outcome)
      modifies this
      ensures forall tree :: State(tree, outcome == Raised) == FileStep(old(State(tree, false)), path, outcome, tree)
    {
      if outcome != Raised {
        fileCount := fileCount + 1;
        if outcome == Skipped {
          skipCount := skipCount + 1;
        } else if outcome == Copied {
          copyCount := copyCount + 1;
          processedFiles := processedFiles + {path};
        } else {
          errorCount := errorCount + 1;
        }
      }
    }
  }

  /** A supported file of a running pass that is in the resume set counts as skipped. */
  lemma VisitFileResumed(cfg: VideoConfig, st: PassState, root: Path, f: SourceFile)
    requires !st.aborted && Supported(f.name, cfg.types) && Join(root, f.name) in st.processed
    ensures VisitFile(cfg, st, root, f) ==
              st.(tally := st.tally.(skips := st.tally.skips + 1, files := st.tally.files + 1))
  {
  }

  /** A supported file of a running pass, not in the resume set, goes through the routine. */
  lemma VisitFileRuns(cfg: VideoConfig, st: PassState, root: Path, f: SourceFile, placed: Placement)
    requires !st.aborted && Supported(f.name, cfg.types) && Join(root, f.name) !in st.processed
    requires placed == PlaceVideo(cfg, f, st.tree)
    ensures VisitFile(cfg, st, root, f) ==
              FileStep(st, Join(root, f.name), RunPlacement(f, placed, st.tree).0, RunPlacement(f, placed, st.tree).1)
  {
  }
}
