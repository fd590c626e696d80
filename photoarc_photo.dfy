/**
 * `photoarc/core/photo_processor.py`: how the newer package dates a photo
 * (EXIF first; otherwise the earlier of the filename date and the
 * modification time, distrusting a filename date at midnight), where it
 * places the copy, and the pass over the source tree with its four counters
 * and its resume set.
 */
module PhotoarcPhoto {
  import opened Text
  import opened DateTimes
  import opened Paths
  import opened Store
  import opened Media
  import opened Timestamps
  import opened FilenamePatterns
  import opened Templates
  import opened PhotoarcUtils

  // ---------------------------------------------------------------------
  // EXIF date tags

  /** The exifread tags tried for a date, in priority order. */
  const OriginalTag := "EXIF DateTimeOriginal"
  const DigitizedTag := "EXIF DateTimeDigitized"
  const ImageTag := "Image DateTime"

  /** `str(value).replace("\x00", "").strip()`. */
  function CleanTag(v: string): string
  {
    Strip(RemoveChar(v, '\0'))
  }

  /** The tag is present and its cleaned text is non-empty and converts to ISO text. */
  predicate Usable(tags: map<string, string>, field: string)
  {
    field in tags && CleanTag(tags[field]) != "" && ConvertToIsoFormat(CleanTag(tags[field])).Some?
  }

  /** The ISO text a usable tag gives. */
  function TagTime(tags: map<string, string>, field: string): string
    requires Usable(tags, field)
  {
    ConvertToIsoFormat(CleanTag(tags[field])).value
  }

  /**
   * The loop of `_extract_exif_datetime` over a list of tag names: the
   * index of the first one `ok` accepts, or the list's length when there is
   * none.
   */
  function FirstAccepted(ok: string -> bool, fields: seq<string>): (i: nat)
    ensures i <= |fields|
    ensures i < |fields| ==> ok(fields[i])
    ensures forall j :: 0 <= j < i ==> !ok(fields[j])
  {
    if |fields| == 0 then 0
    else if ok(fields[0]) then 0
    else 1 + FirstAccepted(ok, fields[1..])
  }

  /** Of three tags, the first usable one decides. */
  lemma FirstOfThree(tags: map<string, string>, a: string, b: string, c: string)
    ensures var i := FirstAccepted(field => Usable(tags, field), [a, b, c]);
      && (Usable(tags, a) ==> i == 0)
      && (!Usable(tags, a) && Usable(tags, b) ==> i == 1)
      && (!Usable(tags, a) && !Usable(tags, b) ==> i == if Usable(tags, c) then 2 else 3)
  {
    var fields := [a, b, c];
    assert fields[0] == a && fields[1] == b && fields[2] == c;
  }

  /**
   * `_extract_exif_datetime(exif_data)`: `DateTimeOriginal`, then
   * `DateTimeDigitized`, then `Image DateTime`; `None` when none is usable.
   */
  function ExtractExifDatetime(tags: map<string, string>): (r: Option<string>)
    ensures Usable(tags, OriginalTag) ==> r == Some(TagTime(tags, OriginalTag))
    ensures !Usable(tags, OriginalTag) && Usable(tags, DigitizedTag) ==> r == Some(TagTime(tags, DigitizedTag))
    ensures !Usable(tags, OriginalTag) && !Usable(tags, DigitizedTag) ==>
              r == if Usable(tags, ImageTag) then Some(TagTime(tags, ImageTag)) else None
  {
    ExifTimeOfFields(tags, OriginalTag, DigitizedTag, ImageTag)
  }

  function ExifTimeOfFields(tags: map<string, string>, a: string, b: string, c: string): (r: Option<string>)
    ensures Usable(tags, a) ==> r == Some(TagTime(tags, a))
    ensures !Usable(tags, a) && Usable(tags, b) ==> r == Some(TagTime(tags, b))
    ensures !Usable(tags, a) && !Usable(tags, b) ==>
              r == if Usable(tags, c) then Some(TagTime(tags, c)) else None
  {
    var fields := [a, b, c];
    var i := FirstAccepted(field => Usable(tags, field), fields);
    FirstOfThree(tags, a, b, c);
    if i < 3 then
      assert fields[i] == (if i == 0 then a else if i == 1 then b else c);
      Some(TagTime(tags, fields[i]))
    else None
  }

  /** The EXIF text of a time holds no NUL and no space at either end. */
  lemma ExifTextClean(dt: DateTime)
    requires Valid(dt)
    ensures CleanTag(ExifText(dt)) == ExifText(dt)
  {
    var s := ExifText(dt);
    ExifTextChars(dt);
    NulFree(s);
    assert s[0] == Pad(dt.year, 4)[0];
    assert s[|s| - 1] == Pad(dt.second, 2)[|Pad(dt.second, 2)| - 1];
    EdgesNotSpace(s);
  }

  /** `strip()` leaves a string alone whose first and last characters are not whitespace. */
  lemma EdgesNotSpace(s: string)
    requires |s| > 0 && !IsSpace(s[0]) && !IsSpace(s[|s| - 1])
    ensures Strip(s) == s
  {
    assert LeftStrip(s) == s;
    assert RightStrip(s) == s;
  }

  /**
   * A tag holding the EXIF text of a whole-second time is usable and gives
   * that time's `isoformat()`.
   */
  lemma ExifTagGivesTime(tags: map<string, string>, field: string, dt: DateTime)
    requires Valid(dt) && dt.micro == 0
    requires field in tags && tags[field] == ExifText(dt)
    ensures Usable(tags, field) && TagTime(tags, field) == IsoFormat(dt)
  {
    ExifTextClean(dt);
    ConvertExifText(dt);
  }

  // ---------------------------------------------------------------------
  // The earliest of the candidate times

  /** The values present, in order: `[t for t in xs if t is not None]`. */
  function Present(xs: seq<Option<string>>): (r: seq<string>)
    ensures forall s :: s in r <==> Some(s) in xs
    ensures |r| <= |xs|
  {
    if |xs| == 0 then []
    else
      var rest := Present(xs[1..]);
      assert forall s :: Some(s) in xs <==> xs[0] == Some(s) || Some(s) in xs[1..];
      (if xs[0].Some? then [xs[0].value] else []) + rest
  }

  /** The times the texts spell, dropping those `fromisoformat` refuses. */
  function ParsedTimes(ts: seq<string>): (r: seq<DateTime>)
    ensures forall t :: t in r ==> Valid(t)
    ensures forall s :: s in ts && FromIsoFormat(s).Some? ==> FromIsoFormat(s).value in r
    ensures forall t :: t in r ==> exists s :: s in ts && FromIsoFormat(s) == Some(t)
  {
    if |ts| == 0 then []
    else
      var rest := ParsedTimes(ts[1..]);
      assert forall s :: s in ts <==> s == ts[0] || s in ts[1..];
      (if FromIsoFormat(ts[0]).Some? then [FromIsoFormat(ts[0]).value] else []) + rest
  }

  /**
   * A filename time ending in `T00:00:00` is set aside whenever the EXIF
   * time or the modification time is present.
   */
  predicate DistrustsFilename(exif: Option<string>, filename: Option<string>, mod: Option<string>)
  {
    filename.Some? && filename.value != "" && EndsWith(filename.value, "T00:00:00")
    && (exif.Some? || mod.Some?)
  }

  /** The texts `_get_earliest_time` compares. */
  function Candidates(exif: Option<string>, filename: Option<string>, mod: Option<string>): seq<string>
  {
    if DistrustsFilename(exif, filename, mod) then Present([exif, mod]) else Present([exif, filename, mod])
  }

  /**
   * `_get_earliest_time(exif_time, filename_time, mod_time)`: the
   * `isoformat()` of the earliest candidate that parses; `None` when none
   * does.
   */
  function GetEarliestTime(exif: Option<string>, filename: Option<string>, mod: Option<string>): (r: Option<string>)
    ensures r.None? <==> forall s :: s in Candidates(exif, filename, mod) ==> FromIsoFormat(s).None?
    ensures r.Some? ==>
              exists s :: s in Candidates(exif, filename, mod) && FromIsoFormat(s).Some?
                && r.value == IsoFormat(FromIsoFormat(s).value)
                && forall u :: u in Candidates(exif, filename, mod) && FromIsoFormat(u).Some? ==>
                     !Before(FromIsoFormat(u).value, FromIsoFormat(s).value)
  {
    var times := Present([exif, filename, mod]);
    if |times| == 0 then
      assert Candidates(exif, filename, mod) == [] by {
        assert exif.None? && filename.None? && mod.None?;
      }
      None
    else
      var cands := Candidates(exif, filename, mod);
      var parsed := ParsedTimes(cands);
      if |parsed| == 0 then
        None
      else
        var e := Earliest(parsed);
        var s :| s in cands && FromIsoFormat(s) == Some(e);
        Some(IsoFormat(e))
  }

  /** With nothing to compare there is no time. */
  lemma NothingGivesNone()
    ensures GetEarliestTime(None, None, None) == None
  {
    assert Candidates(None, None, None) == [];
  }

  /** A distrusted midnight filename time is treated as if it were absent. */
  lemma MidnightSetAside(exif: Option<string>, filename: Option<string>, mod: Option<string>)
    requires DistrustsFilename(exif, filename, mod)
    ensures GetEarliestTime(exif, filename, mod) == GetEarliestTime(exif, None, mod)
  {
    assert !DistrustsFilename(exif, None, mod);
    assert Present([exif, None, mod]) == Present([exif, mod]) by {
      assert [exif, None, mod][1..] == [None, mod];
      assert [None, mod][1..] == [mod];
      assert [exif, mod][1..] == [mod];
    }
    EarliestDeterminedBy(exif, filename, mod, exif, None, mod);
  }

  /** The result depends only on the texts compared. */
  lemma EarliestDeterminedBy(e1: Option<string>, f1: Option<string>, m1: Option<string>,
                             e2: Option<string>, f2: Option<string>, m2: Option<string>)
    requires Candidates(e1, f1, m1) == Candidates(e2, f2, m2)
    requires Present([e1, f1, m1]) == [] <==> Present([e2, f2, m2]) == []
    ensures GetEarliestTime(e1, f1, m1) == GetEarliestTime(e2, f2, m2)
  {
  }

  /** Two parsable candidates that are both compared: the earlier one wins. */
  lemma EarlierOfTwo(filename: string, a: DateTime, b: DateTime)
    requires Valid(a) && Valid(b)
    requires filename == IsoFormat(a) && !EndsWith(filename, "T00:00:00")
    ensures GetEarliestTime(None, Some(filename), Some(IsoFormat(b))) ==
              Some(IsoFormat(if Before(b, a) then b else a))
  {
    IsoRoundTrip(a);
    IsoRoundTrip(b);
    var m := IsoFormat(b);
    PresentTwo(filename, m);
    assert Candidates(None, Some(filename), Some(m)) == [filename, m];
    ParsedTwo(filename, m, a, b);
    EarliestOfTwo(a, b);
  }

  lemma PresentTwo(x: string, y: string)
    ensures Present([None, Some(x), Some(y)]) == [x, y]
  {
    assert [None, Some(x), Some(y)][1..] == [Some(x), Some(y)];
    assert [Some(x), Some(y)][1..] == [Some(y)];
    assert [Some(y)][1..] == [];
  }

  lemma ParsedTwo(x: string, y: string, a: DateTime, b: DateTime)
    requires FromIsoFormat(x) == Some(a) && FromIsoFormat(y) == Some(b)
    ensures ParsedTimes([x, y]) == [a, b]
  {
    assert [x, y][1..] == [y];
    assert [y][1..] == [];
    assert ParsedTimes([y]) == [b] + ParsedTimes([]);
    assert ParsedTimes([x, y]) == [a] + ParsedTimes([y]);
  }

  lemma EarliestOfTwo(a: DateTime, b: DateTime)
    ensures Earliest([a, b]) == if Before(b, a) then b else a
  {
    assert [a, b][..1] == [a];
  }

  // ---------------------------------------------------------------------
  // Dating a photo

  /**
   * `_get_photo_modification_time(file_path)`: a usable EXIF tag wins;
   * otherwise the earliest of the filename date and the modification time.
   * The filename date is `get_date_from_filename` of
   * `photoarc/core/utils.py` (the module imports a name that file does not
   * define).  Its outer `except` is unreachable: every helper catches its own
   * errors.
   */
  function GetPhotoModificationTime(f: SourceFile, exifAvailable: bool): (r: Option<string>)
    ensures exifAvailable && f.exifTags.Some? && |f.exifTags.value| > 0 && Usable(f.exifTags.value, OriginalTag) ==>
              r == Some(TagTime(f.exifTags.value, OriginalTag))
    ensures r.None? ==> FileTimeIso(f.mtime).None?
  {
    if exifAvailable && f.exifTags.Some? && |f.exifTags.value| > 0
       && ExtractExifDatetime(f.exifTags.value).Some? then
      ExtractExifDatetime(f.exifTags.value)
    else
      var mod := FileTimeIso(f.mtime);
      if mod.Some? then
        ParsableModTime(GetDateFromFilename(f.name), mod.value);
        GetEarliestTime(None, GetDateFromFilename(f.name), mod)
      else
        GetEarliestTime(None, GetDateFromFilename(f.name), mod)
  }

  /** The reader is available and some EXIF tag of the file is usable. */
  predicate UsesExif(f: SourceFile, exifAvailable: bool)
  {
    exifAvailable && f.exifTags.Some? && |f.exifTags.value| > 0 && ExtractExifDatetime(f.exifTags.value).Some?
  }

  /** The modification time is the EXIF time when a tag is usable, and the earliest of the other two otherwise. */
  lemma ModificationTimeChoice(f: SourceFile, exifAvailable: bool)
    ensures UsesExif(f, exifAvailable) ==>
              GetPhotoModificationTime(f, exifAvailable) == ExtractExifDatetime(f.exifTags.value)
    ensures !UsesExif(f, exifAvailable) ==>
              GetPhotoModificationTime(f, exifAvailable) == GetEarliestTime(None, GetDateFromFilename(f.name), FileTimeIso(f.mtime))
  {
  }

  /** A modification time that parses always gives some time. */
  lemma ParsableModTime(filename: Option<string>, m: string)
    requires FromIsoFormat(m).Some?
    ensures GetEarliestTime(None, filename, Some(m)).Some?
  {
    assert m in Candidates(None, filename, Some(m));
  }

  /** With a usable EXIF date the name and the file times do not matter. */
  lemma ExifIgnoresNameAndStat(f: SourceFile, g: SourceFile, exifAvailable: bool)
    requires exifAvailable && f.exifTags.Some? && |f.exifTags.value| > 0
    requires ExtractExifDatetime(f.exifTags.value).Some?
    requires g.exifTags == f.exifTags
    ensures GetPhotoModificationTime(f, exifAvailable) == GetPhotoModificationTime(g, exifAvailable)
  {
  }

  /**
   * A date-only filename loses to a readable modification time: its
   * midnight text is set aside.
   */
  lemma DateOnlyNameLosesToMtime(f: SourceFile, exifAvailable: bool, p: nat, gs: seq<string>)
    requires !(exifAvailable && f.exifTags.Some? && |f.exifTags.value| > 0
               && ExtractExifDatetime(f.exifTags.value).Some?)
    requires NoMatchBetween(f.name, DateTimeFields, 0, |f.name| + 1)
    requires Leftmost(f.name, FilenamePatterns.DateFields, p, gs)
    requires f.mtime.Some? && Valid(f.mtime.value)
    ensures GetPhotoModificationTime(f, exifAvailable) == FileTimeIso(f.mtime)
  {
    DateOnlyIsMidnight(f.name, p, gs);
    var name := GetDateFromFilename(f.name);
    var mod := FileTimeIso(f.mtime);
    assert EndsWith(name.value, "T00:00:00") by {
      var t := gs[0] + "-" + gs[2] + "-" + gs[4];
      assert name.value == t + "T00:00:00";
    }
    MidnightSetAside(None, name, mod);
    SingleCandidate(mod.value, f.mtime.value);
  }

  /** One parsable candidate gives its own normalised text. */
  lemma SingleCandidate(m: string, t: DateTime)
    requires Valid(t) && FromIsoFormat(m) == Some(t)
    ensures GetEarliestTime(None, None, Some(m)) == Some(IsoFormat(t))
  {
    var cands := Candidates(None, None, Some(m));
    assert forall s :: s in cands <==> s == m;
  }

  // ---------------------------------------------------------------------
  // Excluded directories

  /** The directory is the excluded one, lies below it, or lies above it. */
  predicate Related(rel: Path, ex: Path)
  {
    rel == ex || StartsWith(rel, ex + "/") || StartsWith(ex, rel + "/")
  }

  /**
   * `_is_excluded_directory(dir_path)` on the normalised path relative to
   * the source root: never the root itself (`"."`), otherwise excluded when
   * related to any configured directory.
   */
  function IsExcludedDirectory(rel: Path, excludes: seq<Path>): (r: bool)
    ensures r <==> rel != "." && exists ex :: ex in excludes && Related(rel, ex)
  {
    rel != "." && AnyRelated(rel, excludes)
  }

  function AnyRelated(rel: Path, excludes: seq<Path>): (r: bool)
    ensures r <==> exists ex :: ex in excludes && Related(rel, ex)
  {
    if |excludes| == 0 then false
    else
      assert forall ex :: ex in excludes <==> ex == excludes[0] || ex in excludes[1..];
      Related(rel, excludes[0]) || AnyRelated(rel, excludes[1..])
  }

  /** A directory below an excluded one is excluded. */
  lemma BelowExcluded(ex: Path, sub: Path, excludes: seq<Path>)
    requires ex in excludes && ex + "/" + sub != "."
    ensures IsExcludedDirectory(ex + "/" + sub, excludes)
  {
    assert (ex + "/" + sub)[..|ex + "/"|] == ex + "/";
  }

  /**
   * A directory above an excluded one is excluded too, so excluding
   * `a/b` keeps the walk out of all of `a`.
   */
  lemma AboveExcluded(rel: Path, sub: Path, excludes: seq<Path>)
    requires rel + "/" + sub in excludes && rel != "."
    ensures IsExcludedDirectory(rel, excludes)
  {
    assert (rel + "/" + sub)[..|rel + "/"|] == rel + "/";
  }

  // ---------------------------------------------------------------------
  // Placing one photo

  datatype PhotoConfig = PhotoConfig(
    destDir: Path,                // image_destination_dir
    types: seq<string>,           // supported_image_types
    excludes: seq<Path>,          // exclude_directories, normalised
    overwrite: bool,              // image_overwrite_existing_rule
    pathFormat: string,           // image_destination_path_format
    filenameFormat: string,       // image_destination_filename_format
    exifAvailable: bool           // exifread imported
  )

  /** `os.path.join(dest_dir, dest_path, dest_filename)` for the photo, if its time and templates allow. */
  function PhotoTarget(cfg: PhotoConfig, f: SourceFile): Option<(Path, string)>
  {
    var t := GetPhotoModificationTime(f, cfg.exifAvailable);
    if t.None? || t.value == "" then None
    else BuildDestinationPath(t.value, f.name, cfg.pathFormat, cfg.filenameFormat)
  }

  /** The placement decision of `_process_single_photo`. */
  function PlacePhoto(cfg: PhotoConfig, f: SourceFile, tree: Tree): (r: Placement)
    ensures r == NoTime <==> GetPhotoModificationTime(f, cfg.exifAvailable) in {None, Some("")}
    ensures r == Escapes <==> r != NoTime && PhotoTarget(cfg, f).None?
    ensures r.PlaceAt? && !cfg.overwrite ==> r.dest !in tree
    ensures r.PlaceAt? && cfg.overwrite ==>
              r.dest == Join3(cfg.destDir, PhotoTarget(cfg, f).value.0, PhotoTarget(cfg, f).value.1)
    ensures r == SameContent ==> exists p :: p in tree && IsSameFile(f.content, tree, p)
  {
    var t := GetPhotoModificationTime(f, cfg.exifAvailable);
    if t.None? || t.value == "" then NoTime
    else
      match BuildDestinationPath(t.value, f.name, cfg.pathFormat, cfg.filenameFormat)
      case None => Escapes
      case Some((dp, dfn)) =>
        var full := Join3(cfg.destDir, dp, dfn);
        if full !in tree then PlaceAt(full)
        else if IsSameFile(f.content, tree, full) then SameContent
        else if cfg.overwrite then PlaceAt(full)
        else
          var unique := ContentCheckedName(tree, Join(cfg.destDir, dp), dfn, f.content, f.tokens);
          if unique in tree && IsSameFile(f.content, tree, unique) then SameContent
          else PlaceAt(unique)
  }

  /** A destination already holding the photo's content means no copy. */
  lemma SameContentSkipped(cfg: PhotoConfig, f: SourceFile, tree: Tree)
    requires PhotoTarget(cfg, f).Some?
    requires IsSameFile(f.content, tree, Join3(cfg.destDir, PhotoTarget(cfg, f).value.0, PhotoTarget(cfg, f).value.1))
    ensures PlacePhoto(cfg, f, tree) == SameContent
  {
    SameFileExists(f.content, tree, Join3(cfg.destDir, PhotoTarget(cfg, f).value.0, PhotoTarget(cfg, f).value.1));
  }

  /**
   * `_process_single_photo(root, filename)` with its copy: the outcome and
   * the destination tree afterwards.  A template error is `Raised`: it
   * reaches the pass's own `except`.
   */
  function ProcessSinglePhoto(cfg: PhotoConfig, f: SourceFile, tree: Tree): (r: (Outcome, Tree))
    ensures r.0 == Copied <==> PlacePhoto(cfg, f, tree).PlaceAt? && CopyAndRecord(f, PlacePhoto(cfg, f, tree).dest, tree).0 == CopiedRecorded
    ensures r.0 == Raised <==> PlacePhoto(cfg, f, tree) == Escapes
    ensures r.0 == Skipped <==> PlacePhoto(cfg, f, tree) == SameContent
    ensures r.0 == Copied ==> IsSameFile(f.content, r.1, PlacePhoto(cfg, f, tree).dest)
    ensures tree.Keys <= r.1.Keys
    ensures !cfg.overwrite ==> forall p :: p in tree ==> r.1[p] == tree[p]
  {
    RunPlacement(f, PlacePhoto(cfg, f, tree), tree)
  }

  /** The rest of `_process_single_photo` once the placement is decided: the copy and its record. */
  function RunPlacement(f: SourceFile, placed: Placement, tree: Tree): (Outcome, Tree)
  {
    match placed
    case NoTime => (Failed, tree)
    case Escapes => (Raised, tree)
    case SameContent => (Skipped, tree)
    case PlaceAt(dest) =>
      var (c, written) := CopyAndRecord(f, dest, tree);
      (if c == CopiedRecorded then Copied else Failed, written)
  }

  // ---------------------------------------------------------------------
  // The pass

  /** The processor's counters, its resume set and the destination tree. */
  datatype PassState = PassState(tally: Tally, processed: set<Path>, tree: Tree)

  /** `_load_processed_files`: the recorded paths, or the empty set when the query fails. */
  function LoadProcessedFiles(loaded: Option<set<Path>>): set<Path>
  {
    if loaded.Some? then loaded.value else {}
  }

  /** One file of the inner loop of `process_photos`. */
  function VisitFile(cfg: PhotoConfig, st: PassState, root: Path, f: SourceFile): PassState
  {
    if !Supported(f.name, cfg.types) then st
    else
      var path := Join(root, f.name);
      var t := st.tally;
      if path in st.processed then
        st.(tally := t.(skips := t.skips + 1, files := t.files + 1))
      else
        var (outcome, tree') := ProcessSinglePhoto(cfg, f, st.tree);
        FileStep(st, path, outcome, tree')
  }

  /** The counters and resume set after a file not yet processed whose routine reported `outcome`. */
  function FileStep(st: PassState, path: Path, outcome: Outcome, tree': Tree): PassState
  {
    var t := st.tally;
    match outcome
    case Raised => PassState(t.(errors := t.errors + 1), st.processed, tree')
    case Skipped => PassState(t.(files := t.files + 1, skips := t.skips + 1), st.processed, tree')
    case Copied => PassState(t.(files := t.files + 1, copies := t.copies + 1), st.processed + {path}, tree')
    case Failed => PassState(t.(files := t.files + 1, errors := t.errors + 1), st.processed, tree')
  }

  /** The inner loop over a directory's files. */
  function VisitFiles(cfg: PhotoConfig, st: PassState, root: Path, files: seq<SourceFile>): PassState
  {
    if |files| == 0 then st
    else VisitFile(cfg, VisitFiles(cfg, st, root, files[..|files| - 1]), root, files[|files| - 1])
  }

  /** The directory lies below one the walk was told not to enter. */
  predicate UnderPruned(rel: Path, pruned: seq<Path>)
  {
    exists p :: p in pruned && StartsWith(rel, p + "/")
  }

  /**
   * The directories `os.walk` yields and the body processes, and the
   * excluded directories whose subdirectories it clears (`dirs[:] = []`),
   * for a top-down walk.
   */
  function Visited(excludes: seq<Path>, walk: seq<WalkEntry>): (seq<WalkEntry>, seq<Path>)
  {
    if |walk| == 0 then ([], [])
    else
      var (vs, pruned) := Visited(excludes, walk[..|walk| - 1]);
      var e := walk[|walk| - 1];
      if UnderPruned(e.rel, pruned) then (vs, pruned)
      else if IsExcludedDirectory(e.rel, excludes) then (vs, pruned + [e.rel])
      else (vs + [e], pruned)
  }

  /**
   * Every directory processed comes from the walk and is not excluded, and
   * every pruned directory is excluded.
   */
  lemma {:induction false} VisitedSound(excludes: seq<Path>, walk: seq<WalkEntry>)
    ensures var (vs, pruned) := Visited(excludes, walk);
      && (forall e :: e in vs ==> e in walk && !IsExcludedDirectory(e.rel, excludes))
      && (forall p :: p in pruned ==> IsExcludedDirectory(p, excludes))
  {
    if |walk| > 0 {
      var init := walk[..|walk| - 1];
      VisitedSound(excludes, init);
      forall e | e in init ensures e in walk {
        var k :| 0 <= k < |init| && init[k] == e;
        assert walk[k] == e;
      }
    }
  }

  /** The outer loop over the directories processed. */
  function VisitEntries(cfg: PhotoConfig, st: PassState, entries: seq<WalkEntry>): PassState
  {
    if |entries| == 0 then st
    else
      var e := entries[|entries| - 1];
      VisitFiles(cfg, VisitEntries(cfg, st, entries[..|entries| - 1]), e.root, e.files)
  }

  /** `process_photos()`: counters reset, resume set loaded, then the walk. */
  function Pass(cfg: PhotoConfig, walk: seq<WalkEntry>, loaded: Option<set<Path>>, tree: Tree): PassState
  {
    VisitEntries(cfg, PassState(Tally(0, 0, 0, 0), LoadProcessedFiles(loaded), tree), Visited(cfg.excludes, walk).0)
  }

  // Properties of the pass

  /** Each supported file moves exactly one of copies, skips and errors, and at most once the file count. */
  lemma {:induction false} VisitFilesTally(cfg: PhotoConfig, st: PassState, root: Path, files: seq<SourceFile>)
    ensures var r := VisitFiles(cfg, st, root, files);
      && Total(r.tally) == Total(st.tally) + SupportedCount(cfg.types, files)
      && st.tally.files <= r.tally.files <= st.tally.files + SupportedCount(cfg.types, files)
      && st.tally.copies <= r.tally.copies
  {
    if |files| > 0 {
      VisitFilesTally(cfg, st, root, files[..|files| - 1]);
      VisitFileTally(cfg, VisitFiles(cfg, st, root, files[..|files| - 1]), root, files[|files| - 1]);
    }
  }

  lemma VisitFileTally(cfg: PhotoConfig, st: PassState, root: Path, f: SourceFile)
    ensures var r := VisitFile(cfg, st, root, f);
      var n := if Supported(f.name, cfg.types) then 1 else 0;
      && Total(r.tally) == Total(st.tally) + n
      && st.tally.files <= r.tally.files <= st.tally.files + n
      && st.tally.copies <= r.tally.copies
  {
    if Supported(f.name, cfg.types) && Join(root, f.name) !in st.processed {
      var (outcome, tree') := ProcessSinglePhoto(cfg, f, st.tree);
      FileStepTally(st, Join(root, f.name), outcome, tree');
    }
  }

  /** A supported file not in the resume set goes through the per-file routine. */
  lemma VisitFileRuns(cfg: PhotoConfig, st: PassState, root: Path, f: SourceFile, placed: Placement)
    requires Supported(f.name, cfg.types) && Join(root, f.name) !in st.processed
    requires placed == PlacePhoto(cfg, f, st.tree)
    ensures VisitFile(cfg, st, root, f) ==
              FileStep(st, Join(root, f.name), RunPlacement(f, placed, st.tree).0, RunPlacement(f, placed, st.tree).1)
  {
  }

  lemma FileStepTally(st: PassState, path: Path, outcome: Outcome, tree': Tree)
    ensures var r := FileStep(st, path, outcome, tree');
      && Total(r.tally) == Total(st.tally) + 1
      && st.tally.files <= r.tally.files <= st.tally.files + 1
      && st.tally.copies <= r.tally.copies
  {
  }

  lemma {:induction false} VisitEntriesTally(cfg: PhotoConfig, st: PassState, entries: seq<WalkEntry>)
    ensures var r := VisitEntries(cfg, st, entries);
      && Total(r.tally) == Total(st.tally) + SupportedIn(cfg.types, entries)
      && st.tally.files <= r.tally.files <= st.tally.files + SupportedIn(cfg.types, entries)
  {
    if |entries| > 0 {
      var e := entries[|entries| - 1];
      VisitEntriesTally(cfg, st, entries[..|entries| - 1]);
      VisitFilesTally(cfg, VisitEntries(cfg, st, entries[..|entries| - 1]), e.root, e.files);
    }
  }

  /**
   * After a pass, copied + skipped + errors is the number of supported files
   * in the directories processed, and the file count is at most that (a file
   * whose routine raised is counted only as an error).
   */
  lemma PassTally(cfg: PhotoConfig, walk: seq<WalkEntry>, loaded: Option<set<Path>>, tree: Tree)
    ensures var r := Pass(cfg, walk, loaded, tree);
      && Total(r.tally) == SupportedIn(cfg.types, Visited(cfg.excludes, walk).0)
      && r.tally.files <= SupportedIn(cfg.types, Visited(cfg.excludes, walk).0)
  {
    VisitEntriesTally(cfg, PassState(Tally(0, 0, 0, 0), LoadProcessedFiles(loaded), tree), Visited(cfg.excludes, walk).0);
  }

  /** The resume set only grows, by at most one path per copy. */
  lemma {:induction false} VisitFilesProcessed(cfg: PhotoConfig, st: PassState, root: Path, files: seq<SourceFile>)
    ensures var r := VisitFiles(cfg, st, root, files);
      && st.processed <= r.processed
      && |r.processed - st.processed| <= r.tally.copies - st.tally.copies
      && forall p :: p in r.processed - st.processed ==> exists f :: f in files && p == Join(root, f.name)
  {
    if |files| > 0 {
      var init := files[..|files| - 1];
      var f := files[|files| - 1];
      VisitFilesProcessed(cfg, st, root, init);
      var mid := VisitFiles(cfg, st, root, init);
      VisitFileProcessed(cfg, mid, root, f);
      var r := VisitFile(cfg, mid, root, f);
      GrowStep(st.processed, mid.processed, r.processed, Join(root, f.name),
               st.tally.copies, mid.tally.copies, r.tally.copies);
      forall p | p in r.processed - st.processed ensures exists g :: g in files && p == Join(root, g.name) {
        if p in mid.processed - st.processed {
          var g :| g in init && p == Join(root, g.name);
          assert g in files;
        } else {
          assert f in files;
        }
      }
    }
  }

  /** One file adds at most its own path to the resume set, and only when it is copied. */
  lemma VisitFileProcessed(cfg: PhotoConfig, st: PassState, root: Path, f: SourceFile)
    ensures var r := VisitFile(cfg, st, root, f);
      && st.processed <= r.processed <= st.processed + {Join(root, f.name)}
      && (r.processed != st.processed ==> r.tally.copies == st.tally.copies + 1)
      && st.tally.copies <= r.tally.copies
  {
    if Supported(f.name, cfg.types) && Join(root, f.name) !in st.processed {
      var (outcome, tree') := ProcessSinglePhoto(cfg, f, st.tree);
      FileStepProcessed(st, Join(root, f.name), outcome, tree');
    }
  }

  lemma FileStepProcessed(st: PassState, path: Path, outcome: Outcome, tree': Tree)
    ensures var r := FileStep(st, path, outcome, tree');
      && st.processed <= r.processed <= st.processed + {path}
      && (r.processed != st.processed ==> r.tally.copies == st.tally.copies + 1)
      && st.tally.copies <= r.tally.copies
  {
  }

  lemma GrowStep(s0: set<Path>, mid: set<Path>, r: set<Path>, x: Path, c0: nat, cm: nat, cr: nat)
    requires s0 <= mid && |mid - s0| <= cm - c0
    requires mid <= r <= mid + {x}
    requires r != mid ==> cr == cm + 1
    requires cm <= cr
    ensures s0 <= r && |r - s0| <= cr - c0
  {
    if r != mid {
      assert r == mid + {x};
      assert r - s0 <= (mid - s0) + {x};
      SubsetSize(r - s0, (mid - s0) + {x});
    } else {
      assert r - s0 == mid - s0;
    }
  }

  /** With overwriting off, no file already in the destination is changed by a directory's files. */
  lemma {:induction false} VisitFilesKeeps(cfg: PhotoConfig, st: PassState, root: Path, files: seq<SourceFile>)
    requires !cfg.overwrite
    ensures var r := VisitFiles(cfg, st, root, files);
      && st.tree.Keys <= r.tree.Keys && forall p :: p in st.tree ==> r.tree[p] == st.tree[p]
  {
    if |files| > 0 {
      VisitFilesKeeps(cfg, st, root, files[..|files| - 1]);
    }
  }

  lemma {:induction false} VisitEntriesKeeps(cfg: PhotoConfig, st: PassState, entries: seq<WalkEntry>)
    requires !cfg.overwrite
    ensures var r := VisitEntries(cfg, st, entries);
      && st.tree.Keys <= r.tree.Keys && forall p :: p in st.tree ==> r.tree[p] == st.tree[p]
  {
    if |entries| > 0 {
      var e := entries[|entries| - 1];
      VisitEntriesKeeps(cfg, st, entries[..|entries| - 1]);
      VisitFilesKeeps(cfg, VisitEntries(cfg, st, entries[..|entries| - 1]), e.root, e.files);
    }
  }

  /** With overwriting off, a pass never changes a file that was already in the destination. */
  lemma PassNeverOverwrites(cfg: PhotoConfig, walk: seq<WalkEntry>, loaded: Option<set<Path>>, tree: Tree)
    requires !cfg.overwrite
    ensures var r := Pass(cfg, walk, loaded, tree);
      tree.Keys <= r.tree.Keys && forall p :: p in tree ==> r.tree[p] == tree[p]
  {
    VisitEntriesKeeps(cfg, PassState(Tally(0, 0, 0, 0), LoadProcessedFiles(loaded), tree), Visited(cfg.excludes, walk).0);
  }

  /** A path already in the resume set is skipped without being looked at again. */
  lemma ProcessedSkipped(cfg: PhotoConfig, st: PassState, root: Path, f: SourceFile)
    requires Supported(f.name, cfg.types) && Join(root, f.name) in st.processed
    ensures VisitFile(cfg, st, root, f) ==
              st.(tally := st.tally.(files := st.tally.files + 1, skips := st.tally.skips + 1))
  {
  }

  // ---------------------------------------------------------------------
  // The processor object

  class PhotoProcessor {
    const cfg: PhotoConfig
    var fileCount: nat
    var copyCount: nat
    var skipCount: nat
    var errorCount: nat
    var processedFiles: set<Path>

    /** `__init__`: all counters zero, nothing processed yet. */
    constructor(cfg: PhotoConfig)
      ensures this.cfg == cfg
      ensures fileCount == 0 && copyCount == 0 && skipCount == 0 && errorCount == 0
      ensures processedFiles == {}
    {
      this.cfg := cfg;
      fileCount, copyCount, skipCount, errorCount := 0, 0, 0, 0;
      processedFiles := {};
    }

    /** The counters, the resume set and a destination tree as one state. */
    function State(tree: Tree): PassState
      reads this
    {
      PassState(Tally(fileCount, copyCount, skipCount, errorCount), processedFiles, tree)
    }

    /**
     * `process_photos()` over a top-down walk, the paths the database
     * reports as processed (`None` when the query fails) and the destination
     * tree; returns the tree afterwards.
     */
    method ProcessPhotos(walk: seq<WalkEntry>, loaded: Option<set<Path>>, tree: Tree) returns (out: Tree)
      modifies this
      ensures State(out) == Pass(cfg, walk, loaded, tree)
    {
      fileCount, skipCount, copyCount, errorCount := 0, 0, 0, 0;
      processedFiles := LoadProcessedFiles(loaded);
      out := tree;
      ghost var start := State(tree);
      var pruned: seq<Path> := [];
      var i := 0;
      while i < |walk|
        invariant 0 <= i <= |walk|
        invariant pruned == Visited(cfg.excludes, walk[..i]).1
        invariant State(out) == VisitEntries(cfg, start, Visited(cfg.excludes, walk[..i]).0)
      {
        WalkStep(cfg, start, walk, i);
        pruned, out := ProcessEntry(walk[i], pruned, out);
        i := i + 1;
      }
      assert walk[..|walk|] == walk;
    }

    /** One directory of the walk: passed over below a pruned one, pruned when excluded, processed otherwise. */
    method ProcessEntry(e: WalkEntry, pruned: seq<Path>, tree: Tree) returns (pruned': seq<Path>, out: Tree)
      modifies this
      ensures pruned' == if UnderPruned(e.rel, pruned) || !IsExcludedDirectory(e.rel, cfg.excludes) then pruned
                         else pruned + [e.rel]
      ensures State(out) == if UnderPruned(e.rel, pruned) || IsExcludedDirectory(e.rel, cfg.excludes) then old(State(tree))
                            else VisitFiles(cfg, old(State(tree)), e.root, e.files)
    {
      pruned', out := pruned, tree;
      if UnderPruned(e.rel, pruned) {
      } else if IsExcludedDirectory(e.rel, cfg.excludes) {
        pruned' := pruned + [e.rel];
      } else {
        out := ProcessDirectory(e.root, e.files, tree);
      }
    }

    /** The inner loop of `process_photos` over one directory's files. */
    method ProcessDirectory(root: Path, files: seq<SourceFile>, tree: Tree) returns (out: Tree)
      modifies this
      ensures State(out) == VisitFiles(cfg, old(State(tree)), root, files)
    {
      out := tree;
      ghost var start := State(tree);
      var j := 0;
      while j < |files|
        invariant 0 <= j <= |files|
        invariant State(out) == VisitFiles(cfg, start, root, files[..j])
      {
        assert files[..j + 1][..j] == files[..j];
        out := ProcessFile(root, files[j], out);
        j := j + 1;
      }
      assert files[..|files|] == files;
    }

    /** One file of the inner loop, with the counter updates of `process_photos`. */
    method ProcessFile(root: Path, f: SourceFile, tree: Tree) returns (out: Tree)
      modifies this
      ensures State(out) == VisitFile(cfg, old(State(tree)), root, f)
    {
      out := tree;
      ghost var before := State(tree);
      if Supported(f.name, cfg.types) {
        var path := Join(root, f.name);
        if path in processedFiles {
          skipCount := skipCount + 1;
          fileCount := fileCount + 1;
        } else {
          var placed := PlacePhoto(cfg, f, out);
          var r := RunPlacement(f, placed, out);
          VisitFileRuns(cfg, before, root, f, placed);
          RecordOutcome(path, r.0);
          out := r.1;
          assert State(out) == FileStep(before, path, r.0, r.1);
        }
      }
    }

    /** The counter updates of `process_photos` for a file whose routine reported `outcome`. */
    method RecordOutcome(path: Path, outcome: Outcome)
      modifies this
      ensures forall tree :: State(tree) == FileStep(old(State(tree)), path, outcome, tree)
    {
      if outcome == Raised {
        errorCount := errorCount + 1;
      } else {
        fileCount := fileCount + 1;
        if outcome == Skipped {
          skipCount := skipCount + 1;
        } else if outcome == Copied {
          copyCount := copyCount + 1;
          processedFiles := processedFiles + {path};
        } else {
          errorCount := errorCount + 1;
        }
      }
    }
  }

  /** One more step of the walk. */
  lemma VisitedStep(excludes: seq<Path>, walk: seq<WalkEntry>, i: nat)
    requires i < |walk|
    ensures var (vs, pruned) := Visited(excludes, walk[..i]);
      var e := walk[i];
      Visited(excludes, walk[..i + 1]) ==
        if UnderPruned(e.rel, pruned) then (vs, pruned)
        else if IsExcludedDirectory(e.rel, excludes) then (vs, pruned + [e.rel])
        else (vs + [e], pruned)
  {
    assert walk[..i + 1][..i] == walk[..i];
  }

  /** One more step of the walk, with the directories it processes. */
  lemma WalkStep(cfg: PhotoConfig, st: PassState, walk: seq<WalkEntry>, i: nat)
    requires i < |walk|
    ensures var (vs, pruned) := Visited(cfg.excludes, walk[..i]);
      var e := walk[i];
      && Visited(cfg.excludes, walk[..i + 1]).1 ==
           (if UnderPruned(e.rel, pruned) || !IsExcludedDirectory(e.rel, cfg.excludes) then pruned else pruned + [e.rel])
      && VisitEntries(cfg, st, Visited(cfg.excludes, walk[..i + 1]).0) ==
           if UnderPruned(e.rel, pruned) || IsExcludedDirectory(e.rel, cfg.excludes) then VisitEntries(cfg, st, vs)
           else VisitFiles(cfg, VisitEntries(cfg, st, vs), e.root, e.files)
  {
    VisitedStep(cfg.excludes, walk, i);
    var (vs, pruned) := Visited(cfg.excludes, walk[..i]);
    VisitEntriesStep(cfg, st, vs, walk[i]);
  }

  /** Processing one more directory. */
  lemma VisitEntriesStep(cfg: PhotoConfig, st: PassState, vs: seq<WalkEntry>, e: WalkEntry)
    ensures VisitEntries(cfg, st, vs + [e]) == VisitFiles(cfg, VisitEntries(cfg, st, vs), e.root, e.files)
  {
    assert (vs + [e])[..|vs|] == vs;
  }
}
