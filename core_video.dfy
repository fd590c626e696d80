/**
 * `core/video_processor.py`: the older video processor, which the newer
 * package's video processor also draws its utilities from.  A video's time
 * is the date and time in its name, else its change time.  Placement is the
 * `(1)`, `(2)`, ... sibling walk of the older photo processor, but the flag
 * it then reads, `config.overwrite_existing_rule`, is an attribute the
 * configuration object never sets.  Only `OSError`, `IOError` and
 * `sqlite3.Error` are caught, so any other exception ends the whole pass.
 */
module CoreVideo {
  import opened Text
  import opened DateTimes
  import opened Paths
  import opened Store
  import opened Media
  import opened Timestamps
  import opened FilenamePatterns
  import opened Templates
  import opened CoreUtils
  import CorePhoto
  import PhotoarcUtils

  // ---------------------------------------------------------------------
  // The video's time

  /**
   * `_get_video_creation_time(file_path)`: the date and time in the name
   * when there is one, otherwise the change time.  There is no comparison
   * of candidates and no special treatment of midnight.
   */
  function GetVideoCreationTime(f: SourceFile): (r: Option<string>)
    ensures r.Some? ==> r == GetDateFromFilename(f.name) || FromIsoFormat(r.value) == f.ctime
    ensures r.None? ==> f.ctime.None? || !Valid(f.ctime.value)
  {
    var named := GetDateFromFilename(f.name);
    if named.Some? && named.value != "" then named
    else FileTimeIso(f.ctime)
  }

  /** A date and time in the name decides, whatever the change time. */
  lemma NameTimeFirst(f: SourceFile, p: nat, gs: seq<string>)
    requires Leftmost(f.name, DateTimeFields, p, gs)
    ensures GetVideoCreationTime(f) == Some(DateTimeText(gs))
  {
    LeftmostDateTime(f.name, p, gs);
    PatternsWellFormed();
    MatchGroups(f.name, p, DateTimeFields, gs);
    assert |DateTimeText(gs)| > 0;
  }

  /** Without a date and time in the name, the change time is used. */
  lemma UndatedUsesChangeTime(f: SourceFile)
    requires NoMatchBetween(f.name, DateTimeFields, 0, |f.name| + 1)
    ensures GetVideoCreationTime(f) == FileTimeIso(f.ctime)
  {
    UndatedName(f.name);
  }

  /**
   * A name holding only a date does not give midnight of that date, as the
   * newer photo extractor would: the change time is used instead.
   */
  lemma DateOnlyNameUsesChangeTime(f: SourceFile, p: nat, gs: seq<string>)
    requires NoMatchBetween(f.name, DateTimeFields, 0, |f.name| + 1)
    requires Leftmost(f.name, FilenamePatterns.DateFields, p, gs)
    ensures GetVideoCreationTime(f) == FileTimeIso(f.ctime)
    ensures PhotoarcUtils.GetDateFromFilename(f.name) == Some(DateText(gs))
  {
    UndatedUsesChangeTime(f);
    DateOnlyNameUndated(f.name, p, gs);
  }

  // ---------------------------------------------------------------------
  // Placement

  datatype VideoConfig = VideoConfig(
    destDir: Path,                // video_destination_dir
    types: seq<string>,           // supported_video_types
    overwriteRule: Option<bool>,  // overwrite_existing_rule; None: the attribute does not exist
    pathFormat: string,           // video_destination_path_format
    filenameFormat: string        // video_destination_filename_format
  )

  /** `build_destination_path(created_time, filename, ...)` for a video with a time. */
  function VideoTarget(cfg: VideoConfig, f: SourceFile): Option<(Path, string)>
  {
    var t := GetVideoCreationTime(f);
    if t.None? || t.value == "" then None
    else BuildDestinationPath(t.value, f.name, cfg.pathFormat, cfg.filenameFormat)
  }

  /** The walk over an existing destination ends at a gap rather than at a same-content file. */
  predicate WalkEndsFree(tree: Tree, source: Option<Content>, full: Path)
  {
    full in tree && CorePhoto.CollisionWalk(tree, source, full).FreeAt?
  }

  /**
   * Where a video whose destination is `join(dest_dir, dp, dfn)` goes.  After
   * a walk that ends at a gap the flag is read; a missing flag is an
   * `AttributeError`, which the routine does not catch.
   */
  function PlaceAtTarget(tree: Tree, source: Option<Content>, destDir: Path, dp: Path, dfn: string,
                         rule: Option<bool>): (r: Placement)
    ensures r == Escapes <==> rule.None? && WalkEndsFree(tree, source, Join3(destDir, dp, dfn))
    ensures r != NoTime
    ensures r.PlaceAt? ==> r.dest !in tree
    ensures r.PlaceAt? && rule.None? ==> r.dest == Join3(destDir, dp, dfn)
    ensures r == SameContent ==> exists p :: p in tree && IsSameFile(source, tree, p)
  {
    if rule.None? && WalkEndsFree(tree, source, Join3(destDir, dp, dfn)) then Escapes
    else CorePhoto.PlaceAtTarget(tree, source, destDir, dp, dfn, rule == Some(true))
  }

  /** The placement decision of `_process_single_video`. */
  function PlaceVideo(cfg: VideoConfig, f: SourceFile, tree: Tree): (r: Placement)
    ensures r == NoTime <==> GetVideoCreationTime(f) in {None, Some("")}
    ensures r == Escapes <==>
              r != NoTime
              && (VideoTarget(cfg, f).None?
                  || (cfg.overwriteRule.None?
                      && WalkEndsFree(tree, f.content, Join3(cfg.destDir, VideoTarget(cfg, f).value.0, VideoTarget(cfg, f).value.1))))
    ensures r.PlaceAt? ==> r.dest !in tree
    ensures r.PlaceAt? && cfg.overwriteRule.None? ==>
              r.dest == Join3(cfg.destDir, VideoTarget(cfg, f).value.0, VideoTarget(cfg, f).value.1)
    ensures r == SameContent ==> exists p :: p in tree && IsSameFile(f.content, tree, p)
  {
    var t := GetVideoCreationTime(f);
    if t.None? || t.value == "" then NoTime
    else
      match BuildDestinationPath(t.value, f.name, cfg.pathFormat, cfg.filenameFormat)
      case None => Escapes
      case Some((dp, dfn)) => PlaceAtTarget(tree, f.content, cfg.destDir, dp, dfn, cfg.overwriteRule)
  }

  /**
   * With the flag missing, a video whose content is nowhere in the
   * destination and whose destination path is taken always raises.
   */
  lemma NewContentOnTakenPathRaises(cfg: VideoConfig, f: SourceFile, tree: Tree)
    requires cfg.overwriteRule.None? && VideoTarget(cfg, f).Some?
    requires Join3(cfg.destDir, VideoTarget(cfg, f).value.0, VideoTarget(cfg, f).value.1) in tree
    requires forall p :: p in tree ==> !IsSameFile(f.content, tree, p)
    ensures PlaceVideo(cfg, f, tree) == Escapes
  {
    var full := Join3(cfg.destDir, VideoTarget(cfg, f).value.0, VideoTarget(cfg, f).value.1);
    var end := CorePhoto.CollisionWalk(tree, f.content, full);
    if end.SameAt? {
      SameFileExists(f.content, tree, end.path);
    }
  }

  /** With the flag set, a video is placed as the older photo processor places a photo. */
  lemma RuleSetPlacesLikePhotos(cfg: VideoConfig, f: SourceFile, tree: Tree)
    requires cfg.overwriteRule.Some? && VideoTarget(cfg, f).Some?
    ensures PlaceVideo(cfg, f, tree) ==
              CorePhoto.PlaceAtTarget(tree, f.content, cfg.destDir, VideoTarget(cfg, f).value.0, VideoTarget(cfg, f).value.1, false)
  {
    CorePhoto.TargetOverwriteIgnored(tree, f.content, cfg.destDir, VideoTarget(cfg, f).value.0, VideoTarget(cfg, f).value.1);
  }

  /** `_process_single_video` up to the copy. */
  method PlaceSingleVideo(cfg: VideoConfig, f: SourceFile, tree: Tree) returns (r: Placement)
    ensures r == PlaceVideo(cfg, f, tree)
  {
    var t := GetVideoCreationTime(f);
    if t.None? || t.value == "" {
      return NoTime;
    }
    var target := BuildDestinationPath(t.value, f.name, cfg.pathFormat, cfg.filenameFormat);
    if target.None? {
      return Escapes;
    }
    var (dp, dfn) := target.value;
    r := PlaceOnTarget(tree, f.content, cfg.destDir, dp, dfn, cfg.overwriteRule);
  }

  /** The check for an existing destination, with the walk and `generate_unique_filename` as loops. */
  method PlaceOnTarget(tree: Tree, source: Option<Content>, destDir: Path, dp: Path, dfn: string,
                       rule: Option<bool>) returns (r: Placement)
    ensures r == PlaceAtTarget(tree, source, destDir, dp, dfn, rule)
  {
    var full := Join3(destDir, dp, dfn);
    if full in tree {
      var end := CorePhoto.WalkCollisions(tree, source, full);
      if end.SameAt? {
        return SameContent;
      }
      if rule.None? {
        return Escapes;
      }
      full := end.path;
      if !rule.value {
        full := GenerateUniqueFilename(tree, destDir, dp, dfn);
      }
    }
    return PlaceAt(full);
  }

  // ---------------------------------------------------------------------
  // Copy and the per-file routine

  /**
   * `_copy_and_record_file`: copy, then insert.  An exception other than
   * `OSError`, `IOError` or `sqlite3.Error` escapes it.
   */
  function CopyVideo(f: SourceFile, dest: Path, tree: Tree): (r: (Outcome, Tree))
    ensures r.0 != Skipped
    ensures r.0 == Copied <==> f.content.Some? && !f.copyFails && f.mtime.Some? && f.record == Recorded
    ensures r.0 == Raised <==> f.content.Some? && !f.copyFails && f.mtime.Some? && f.record == RecordRaises
    ensures r.0 == Copied ==> IsSameFile(f.content, r.1, dest)
    ensures r.1 == tree || (r.1.Keys == tree.Keys + {dest} && forall p :: p in tree && p != dest ==> r.1[p] == tree[p])
    ensures r.0 == Copied ==> r.1.Keys == tree.Keys + {dest}
  {
    var (c, written) := CopyAndRecord(f, dest, tree);
    match c
    case CopiedRecorded => (Copied, written)
    case RecordRaisedOther => (Raised, written)
    case _ => (Failed, written)
  }

  /** What the routine reports for a placement, with the copy it makes. */
  function RunPlacement(f: SourceFile, placed: Placement, tree: Tree): (Outcome, Tree)
  {
    match placed
    case NoTime => (Failed, tree)
    case Escapes => (Raised, tree)
    case SameContent => (Skipped, tree)
    case PlaceAt(dest) => CopyVideo(f, dest, tree)
  }

  lemma RunPlacementFacts(f: SourceFile, placed: Placement, tree: Tree)
    requires placed.PlaceAt? ==> placed.dest !in tree
    ensures var r := RunPlacement(f, placed, tree);
      && (r.0 == Skipped <==> placed == SameContent)
      && (r.0 == Raised <==> placed == Escapes || (placed.PlaceAt? && CopyVideo(f, placed.dest, tree).0 == Raised))
      && (r.0 == Copied ==> placed.PlaceAt? && IsSameFile(f.content, r.1, placed.dest))
      && tree.Keys <= r.1.Keys && (forall p :: p in tree ==> r.1[p] == tree[p])
      && (r.0 == Copied ==> |r.1.Keys| == |tree.Keys| + 1)
  {
  }

  /** `_process_single_video(root, filename)` with its copy. */
  function ProcessSingleVideo(cfg: VideoConfig, f: SourceFile, tree: Tree): (r: (Outcome, Tree))
    ensures r.0 == Skipped <==> PlaceVideo(cfg, f, tree) == SameContent
    ensures r.0 == Raised <==>
              PlaceVideo(cfg, f, tree) == Escapes
              || (PlaceVideo(cfg, f, tree).PlaceAt? && CopyVideo(f, PlaceVideo(cfg, f, tree).dest, tree).0 == Raised)
    ensures r.0 == Copied ==> PlaceVideo(cfg, f, tree).PlaceAt? && IsSameFile(f.content, r.1, PlaceVideo(cfg, f, tree).dest)
    ensures tree.Keys <= r.1.Keys && forall p :: p in tree ==> r.1[p] == tree[p]
    ensures r.0 == Copied ==> |r.1.Keys| == |tree.Keys| + 1
  {
    var placed := PlaceVideo(cfg, f, tree);
    RunPlacementFacts(f, placed, tree);
    RunPlacement(f, placed, tree)
  }

  // ---------------------------------------------------------------------
  // The pass

  /** The processor's counters, the destination tree, and whether an exception ended the pass. */
  datatype PassState = PassState(tally: Tally, tree: Tree, aborted: bool)

  /** The counters after a file whose routine reported `outcome`; `Raised` ends the pass. */
  function FileStep(st: PassState, outcome: Outcome, tree': Tree): PassState
  {
    var t := st.tally;
    match outcome
    case Raised => PassState(t, tree', true)
    case Skipped => PassState(t.(files := t.files + 1, skips := t.skips + 1), tree', false)
    case Copied => PassState(t.(files := t.files + 1, copies := t.copies + 1), tree', false)
    case Failed => PassState(t.(files := t.files + 1, errors := t.errors + 1), tree', false)
  }

  /** One file of the inner loop of `process_videos`; nothing happens after an exception. */
  function VisitFile(cfg: VideoConfig, st: PassState, f: SourceFile): PassState
  {
    if st.aborted || !Supported(f.name, cfg.types) then st
    else FileStep(st, ProcessSingleVideo(cfg, f, st.tree).0, ProcessSingleVideo(cfg, f, st.tree).1)
  }

  function VisitFiles(cfg: VideoConfig, st: PassState, files: seq<SourceFile>): PassState
  {
    if |files| == 0 then st
    else VisitFile(cfg, VisitFiles(cfg, st, files[..|files| - 1]), files[|files| - 1])
  }

  function VisitEntries(cfg: VideoConfig, st: PassState, entries: seq<WalkEntry>): PassState
  {
    if |entries| == 0 then st
    else VisitFiles(cfg, VisitEntries(cfg, st, entries[..|entries| - 1]), entries[|entries| - 1].files)
  }

  /** `process_videos()`: counters reset, then every directory of the walk until an exception. */
  function Pass(cfg: VideoConfig, walk: seq<WalkEntry>, tree: Tree): PassState
  {
    VisitEntries(cfg, PassState(Tally(0, 0, 0, 0), tree, false), walk)
  }

  /**
   * What visiting `n` supported files keeps: an ended pass stays ended;
   * each file that returns bumps `file_count` and exactly one other
   * counter; all of them return unless the pass ends; the old files stay,
   * and each copy adds one.
   */
  predicate Grows(st: PassState, r: PassState, n: nat)
  {
    && (st.aborted ==> r.aborted)
    && Total(st.tally) <= Total(r.tally) <= Total(st.tally) + n
    && (!r.aborted ==> Total(r.tally) == Total(st.tally) + n)
    && r.tally.files + Total(st.tally) == st.tally.files + Total(r.tally)
    && st.tree.Keys <= r.tree.Keys
    && (forall p :: p in st.tree ==> r.tree[p] == st.tree[p])
    && |r.tree.Keys| - |st.tree.Keys| >= r.tally.copies - st.tally.copies >= 0
  }

  lemma GrowsTrans(a: PassState, b: PassState, c: PassState, m: nat, n: nat)
    requires Grows(a, b, m) && Grows(b, c, n)
    ensures Grows(a, c, m + n)
  {
  }

  lemma FileStepGrows(st: PassState, outcome: Outcome, tree': Tree)
    requires !st.aborted
    requires st.tree.Keys <= tree'.Keys && forall p :: p in st.tree ==> tree'[p] == st.tree[p]
    requires outcome == Copied ==> |tree'.Keys| == |st.tree.Keys| + 1
    ensures Grows(st, FileStep(st, outcome, tree'), 1)
  {
    SubsetSize(st.tree.Keys, tree'.Keys);
  }

  lemma VisitFileGrows(cfg: VideoConfig, st: PassState, f: SourceFile)
    ensures Grows(st, VisitFile(cfg, st, f), if Supported(f.name, cfg.types) then 1 else 0)
  {
    if !st.aborted && Supported(f.name, cfg.types) {
      var (outcome, tree') := ProcessSingleVideo(cfg, f, st.tree);
      FileStepGrows(st, outcome, tree');
    }
  }

  /** Summed over a directory; the same induction as `CorePhoto.VisitFilesGrows`, over this module's pass function. */
  lemma {:induction false} VisitFilesGrows(cfg: VideoConfig, st: PassState, files: seq<SourceFile>)
    ensures Grows(st, VisitFiles(cfg, st, files), SupportedCount(cfg.types, files))
  {
    if |files| > 0 {
      var init := files[..|files| - 1];
      VisitFilesGrows(cfg, st, init);
      VisitFileGrows(cfg, VisitFiles(cfg, st, init), files[|files| - 1]);
      GrowsTrans(st, VisitFiles(cfg, st, init), VisitFiles(cfg, st, files), SupportedCount(cfg.types, init),
                 if Supported(files[|files| - 1].name, cfg.types) then 1 else 0);
    }
  }

  /** Summed over the walk; mirrors `CorePhoto.VisitEntriesGrows`. */
  lemma {:induction false} VisitEntriesGrows(cfg: VideoConfig, st: PassState, entries: seq<WalkEntry>)
    ensures Grows(st, VisitEntries(cfg, st, entries), SupportedIn(cfg.types, entries))
  {
    if |entries| > 0 {
      var init := entries[..|entries| - 1];
      var e := entries[|entries| - 1];
      VisitEntriesGrows(cfg, st, init);
      VisitFilesGrows(cfg, VisitEntries(cfg, st, init), e.files);
      GrowsTrans(st, VisitEntries(cfg, st, init), VisitEntries(cfg, st, entries), SupportedIn(cfg.types, init),
                 SupportedCount(cfg.types, e.files));
    }
  }

  /**
   * After a pass, `file_count` equals copied + skipped + errors, which is
   * the number of supported files walked unless an exception ended the pass
   * early.
   */
  lemma PassCounts(cfg: VideoConfig, walk: seq<WalkEntry>, tree: Tree)
    ensures var r := Pass(cfg, walk, tree);
      && r.tally.files == Total(r.tally) <= SupportedIn(cfg.types, walk)
      && (!r.aborted ==> r.tally.files == SupportedIn(cfg.types, walk))
  {
    PassGrows(cfg, walk, tree);
  }

  /**
   * A pass changes no file that was in the destination, and each copy
   * added a file of its own.
   */
  lemma PassNeverOverwrites(cfg: VideoConfig, walk: seq<WalkEntry>, tree: Tree)
    ensures var r := Pass(cfg, walk, tree);
      && tree.Keys <= r.tree.Keys
      && (forall p :: p in tree ==> r.tree[p] == tree[p])
      && |r.tree.Keys| >= |tree.Keys| + r.tally.copies
  {
    PassGrows(cfg, walk, tree);
  }

  lemma PassGrows(cfg: VideoConfig, walk: seq<WalkEntry>, tree: Tree)
    ensures Grows(PassState(Tally(0, 0, 0, 0), tree, false), Pass(cfg, walk, tree), SupportedIn(cfg.types, walk))
  {
    VisitEntriesGrows(cfg, PassState(Tally(0, 0, 0, 0), tree, false), walk);
  }

  /** Once the pass has ended, the remaining files of a directory change nothing.
      The same induction as `PhotoarcVideo.VisitFilesAborted`, over this module's pass function. */
  lemma {:induction false} VisitFilesAborted(cfg: VideoConfig, st: PassState, files: seq<SourceFile>, j: nat)
    requires j <= |files| && VisitFiles(cfg, st, files[..j]).aborted
    ensures VisitFiles(cfg, st, files) == VisitFiles(cfg, st, files[..j])
    decreases |files|
  {
    if j < |files| {
      var init := files[..|files| - 1];
      assert init[..j] == files[..j];
      VisitFilesAborted(cfg, st, init, j);
    } else {
      assert files[..j] == files;
    }
  }

  /** An ended pass visits no more files. */
  lemma {:induction false} VisitFilesStays(cfg: VideoConfig, st: PassState, files: seq<SourceFile>)
    requires st.aborted
    ensures VisitFiles(cfg, st, files) == st
  {
    if |files| > 0 {
      VisitFilesStays(cfg, st, files[..|files| - 1]);
    }
  }

  /** Once the pass has ended, the remaining directories change nothing. */
  lemma {:induction false} VisitEntriesAborted(cfg: VideoConfig, st: PassState, entries: seq<WalkEntry>, i: nat)
    requires i <= |entries| && VisitEntries(cfg, st, entries[..i]).aborted
    ensures VisitEntries(cfg, st, entries) == VisitEntries(cfg, st, entries[..i])
    decreases |entries|
  {
    if i < |entries| {
      var init := entries[..|entries| - 1];
      assert init[..i] == entries[..i];
      VisitEntriesAborted(cfg, st, init, i);
      VisitFilesStays(cfg, VisitEntries(cfg, st, init), entries[|entries| - 1].files);
    } else {
      assert entries[..i] == entries;
    }
  }

  // ---------------------------------------------------------------------
  // The processor object

  class VideoProcessor {
    const cfg: VideoConfig
    var fileCount: nat
    var copyCount: nat
    var skipCount: nat
    var errorCount: nat

    /** `__init__`: all counters zero. */
    constructor(cfg: VideoConfig)
      ensures this.cfg == cfg
      ensures fileCount == 0 && copyCount == 0 && skipCount == 0 && errorCount == 0
    {
      this.cfg := cfg;
      fileCount, copyCount, skipCount, errorCount := 0, 0, 0, 0;
    }

    function State(tree: Tree, aborted: bool): PassState
      reads this
    {
      PassState(Tally(fileCount, copyCount, skipCount, errorCount), tree, aborted)
    }

    /**
     * `process_videos()` over a walk of the source tree: the destination
     * tree afterwards, and whether an exception escaped the pass.
     */
    method ProcessVideos(walk: seq<WalkEntry>, tree: Tree) returns (out: Tree, aborted: bool)
      modifies this
      ensures State(out, aborted) == Pass(cfg, walk, tree)
    {
      fileCount, copyCount, skipCount, errorCount := 0, 0, 0, 0;
      out, aborted := tree, false;
      ghost var start := State(tree, false);
      var i := 0;
      while i < |walk| && !aborted
        invariant 0 <= i <= |walk|
        invariant State(out, aborted) == VisitEntries(cfg, start, walk[..i])
      {
        assert walk[..i + 1][..i] == walk[..i];
        out, aborted := ProcessDirectory(walk[i].files, out);
        i := i + 1;
      }
      if aborted {
        VisitEntriesAborted(cfg, start, walk, i);
      } else {
        assert walk[..i] == walk;
      }
    }

    /** The inner loop over one directory's files, until an exception. */
    method ProcessDirectory(files: seq<SourceFile>, tree: Tree) returns (out: Tree, aborted: bool)
      modifies this
      ensures State(out, aborted) == VisitFiles(cfg, old(State(tree, false)), files)
    {
      out, aborted := tree, false;
      ghost var start := State(tree, false);
      var j := 0;
      while j < |files| && !aborted
        invariant 0 <= j <= |files|
        invariant State(out, aborted) == VisitFiles(cfg, start, files[..j])
      {
        assert files[..j + 1][..j] == files[..j];
        out, aborted := ProcessFile(files[j], out);
        j := j + 1;
      }
      if aborted {
        VisitFilesAborted(cfg, start, files, j);
      } else {
        assert files[..j] == files;
      }
    }

    /** One file: the routine, then the counter updates of `process_videos`. */
    method ProcessFile(f: SourceFile, tree: Tree) returns (out: Tree, aborted: bool)
      modifies this
      ensures State(out, aborted) == VisitFile(cfg, old(State(tree, false)), f)
    {
      out, aborted := tree, false;
      if !Supported(f.name, cfg.types) {
        return;
      }
      var placed := PlaceSingleVideo(cfg, f, tree);
      ghost var before := State(tree, false);
      var r := RunPlacement(f, placed, tree);
      VisitFileRuns(cfg, before, f, placed);
      out, aborted := r.1, r.0 == Raised;
      RecordOutcome(r.0);
    }

    /** The counter updates of `process_videos` for a file whose routine reported `outcome`. */
    method RecordOutcome(outcome: Outcome)
      modifies this
      ensures forall tree :: State(tree, outcome == Raised) == FileStep(old(State(tree, false)), outcome, tree)
    {
      if outcome != Raised {
        fileCount := fileCount + 1;
        if outcome == Skipped {
          skipCount := skipCount + 1;
        } else if outcome == Copied {
          copyCount := copyCount + 1;
        } else {
          errorCount := errorCount + 1;
        }
      }
    }
  }

  /** A supported file of a running pass goes through the routine, whose placement is computed first. */
  lemma VisitFileRuns(cfg: VideoConfig, st: PassState, f: SourceFile, placed: Placement)
    requires !st.aborted && Supported(f.name, cfg.types) && placed == PlaceVideo(cfg, f, st.tree)
    ensures VisitFile(cfg, st, f) == FileStep(st, RunPlacement(f, placed, st.tree).0, RunPlacement(f, placed, st.tree).1)
  {
  }
}
