/**
 * `core/photo_processor.py`: the older photo processor.  A photo's time is
 * the PIL `DateTimeOriginal` tag, else the date and time in its name, else
 * its change time.  When the destination exists, the processor walks the
 * `(1)`, `(2)`, ... siblings of the full destination path looking for one
 * with the same content, and then, with overwriting off, asks
 * `generate_unique_filename` for a fresh name.  There is no resume set and
 * no exclusion.
 */
module CorePhoto {
  import opened Text
  import opened DateTimes
  import opened Paths
  import opened Store
  import opened Media
  import opened Timestamps
  import opened FilenamePatterns
  import opened Templates
  import opened CoreUtils

  // ---------------------------------------------------------------------
  // The photo's time

  const OriginalTag := "DateTimeOriginal"

  /** `exif_data and "DateTimeOriginal" in exif_data`. */
  predicate HasOriginal(f: SourceFile)
  {
    f.pilExif.Some? && OriginalTag in f.pilExif.value
  }

  /**
   * `_get_photo_creation_time(file_path)`: `None` when PIL cannot open the
   * image; the converted `DateTimeOriginal` tag (with NULs removed, not
   * stripped) when there is one, even when it cannot be converted;
   * otherwise the date and time in the name, otherwise the change time.
   */
  function GetPhotoCreationTime(f: SourceFile): (r: Option<string>)
    ensures !f.imageOpens ==> r.None?
    ensures r.None? ==> !f.imageOpens || HasOriginal(f) || FileTimeIso(f.ctime).None?
  {
    if !f.imageOpens then None
    else if HasOriginal(f) then ConvertToIsoFormat(RemoveChar(f.pilExif.value[OriginalTag], '\0'))
    else
      var named := GetDateFromFilename(f.name);
      if named.Some? && named.value != "" then named
      else FileTimeIso(f.ctime)
  }

  /** With a `DateTimeOriginal` tag, neither the name nor the change time matters. */
  lemma OriginalTagDecides(f: SourceFile, g: SourceFile)
    requires f.imageOpens && g.imageOpens && f.pilExif == g.pilExif && HasOriginal(f)
    ensures GetPhotoCreationTime(f) == GetPhotoCreationTime(g)
  {
  }

  /** A tag holding the EXIF text of a whole-second time gives that time's `isoformat()`. */
  lemma OriginalTagGivesTime(f: SourceFile, dt: DateTime)
    requires Valid(dt) && dt.micro == 0
    requires f.imageOpens && HasOriginal(f) && f.pilExif.value[OriginalTag] == ExifText(dt)
    ensures GetPhotoCreationTime(f) == Some(IsoFormat(dt))
  {
    ExifTextNulFree(dt);
    ConvertExifText(dt);
  }

  /**
   * A tag that does not split into exactly two pieces on spaces gives no
   * time at all: the name and the change time are not consulted.
   */
  lemma MalformedTagNoFallback(f: SourceFile)
    requires f.imageOpens && HasOriginal(f)
    requires Count(RemoveChar(f.pilExif.value[OriginalTag], '\0'), ' ') != 1
    ensures GetPhotoCreationTime(f).None?
  {
  }

  /** Without the tag, the leftmost date and time in the name is used. */
  lemma NameTimeWithoutTag(f: SourceFile, p: nat, gs: seq<string>)
    requires f.imageOpens && !HasOriginal(f)
    requires Leftmost(f.name, DateTimeFields, p, gs)
    ensures GetPhotoCreationTime(f) == Some(DateTimeText(gs))
  {
    LeftmostDateTime(f.name, p, gs);
    assert |DateTimeText(gs)| > 0;
  }

  /** Without the tag or a date and time in the name, the change time is used. */
  lemma ChangeTimeLast(f: SourceFile)
    requires f.imageOpens && !HasOriginal(f)
    requires NoMatchBetween(f.name, DateTimeFields, 0, |f.name| + 1)
    ensures GetPhotoCreationTime(f) == FileTimeIso(f.ctime)
  {
    UndatedName(f.name);
  }

  // ---------------------------------------------------------------------
  // The walk over the siblings of an existing destination

  /** Where the walk over the siblings of an existing destination stops. */
  datatype WalkEnd =
    | SameAt(path: Path)  // a path holding the photo's content: "skipped"
    | FreeAt(path: Path)  // the first path that does not exist

  /** `f"{base}({counter}){ext}"` for a full path split as `(base, ext)`. */
  function Sibling(base: Path, ext: string, counter: nat): Path
  {
    base + "(" + Digits(counter) + ")" + ext
  }

  /** The siblings form a numbered family without padding. */
  lemma SiblingNumbered(base: Path, ext: string, counter: nat)
    ensures Sibling(base, ext, counter) == Numbered(base + "(", counter, 0, ")" + ext)
  {
    assert Pad(counter, 0) == Digits(counter);
    Regroup(base + "(" + Digits(counter), ")", ext);
    Regroup(base + "(", Digits(counter), ")" + ext);
  }

  /** An existing sibling lies below the horizon. */
  lemma SiblingBelowHorizon(tree: Tree, base: Path, ext: string, counter: nat)
    requires Sibling(base, ext, counter) in tree
    ensures counter < Horizon(tree)
  {
    SiblingNumbered(base, ext, counter);
    if counter >= Horizon(tree) {
      BeyondHorizon(tree, base + "(", counter, 0, ")" + ext);
    }
  }

  /**
   * The `while os.path.exists(full_dest_path)` loop from sibling `counter`
   * on: a missing sibling ends it, a same-content one ends the routine.
   */
  function SiblingWalk(tree: Tree, source: Option<Content>, base: Path, ext: string, counter: nat): (r: WalkEnd)
    ensures r.FreeAt? ==> r.path !in tree
    ensures r.SameAt? ==> IsSameFile(source, tree, r.path)
    decreases Horizon(tree) - counter
  {
    var p := Sibling(base, ext, counter);
    if p !in tree then FreeAt(p)
    else if IsSameFile(source, tree, p) then SameAt(p)
    else
      SiblingBelowHorizon(tree, base, ext, counter);
      SiblingWalk(tree, source, base, ext, counter + 1)
  }

  /** The whole walk, which first looks at the destination itself. */
  function CollisionWalk(tree: Tree, source: Option<Content>, full: Path): (r: WalkEnd)
    ensures r.FreeAt? ==> r.path !in tree
    ensures r.SameAt? ==> IsSameFile(source, tree, r.path)
    ensures full !in tree ==> r == FreeAt(full)
  {
    if full !in tree then FreeAt(full)
    else if IsSameFile(source, tree, full) then SameAt(full)
    else SiblingWalk(tree, source, SplitExt(full).0, SplitExt(full).1, 1)
  }

  /** With no same-content sibling before the first gap, the walk ends at the gap. */
  lemma {:induction false} SiblingWalkFree(tree: Tree, source: Option<Content>, base: Path, ext: string, counter: nat)
    requires forall j :: counter <= j < FirstAbsent(tree, base + "(", counter, 0, ")" + ext) ==>
               !IsSameFile(source, tree, Sibling(base, ext, j))
    ensures SiblingWalk(tree, source, base, ext, counter)
            == FreeAt(Sibling(base, ext, FirstAbsent(tree, base + "(", counter, 0, ")" + ext)))
    decreases Horizon(tree) - counter
  {
    SiblingNumbered(base, ext, counter);
    if Sibling(base, ext, counter) in tree {
      SiblingBelowHorizon(tree, base, ext, counter);
      SiblingWalkFree(tree, source, base, ext, counter + 1);
    }
  }

  /** The walk ends at the first same-content sibling if no gap comes before it. */
  lemma {:induction false} SiblingWalkSame(tree: Tree, source: Option<Content>, base: Path, ext: string,
                                           counter: nat, k: nat)
    requires counter <= k && IsSameFile(source, tree, Sibling(base, ext, k))
    requires forall j :: counter <= j < k ==>
               Sibling(base, ext, j) in tree && !IsSameFile(source, tree, Sibling(base, ext, j))
    ensures SiblingWalk(tree, source, base, ext, counter) == SameAt(Sibling(base, ext, k))
    decreases k - counter
  {
    SameFileExists(source, tree, Sibling(base, ext, k));
    if counter < k {
      SiblingWalkSame(tree, source, base, ext, counter + 1, k);
    }
  }

  /** A walk that ends at a gap ends at the first one. */
  lemma {:induction false} SiblingWalkFirstGap(tree: Tree, source: Option<Content>, base: Path, ext: string, counter: nat)
    requires SiblingWalk(tree, source, base, ext, counter).FreeAt?
    ensures SiblingWalk(tree, source, base, ext, counter)
            == FreeAt(Sibling(base, ext, FirstAbsent(tree, base + "(", counter, 0, ")" + ext)))
    decreases Horizon(tree) - counter
  {
    SiblingNumbered(base, ext, counter);
    if Sibling(base, ext, counter) in tree {
      SiblingBelowHorizon(tree, base, ext, counter);
      SiblingWalkFirstGap(tree, source, base, ext, counter + 1);
    }
  }

  /** What is left of the walk at `cur` with the next sibling number `counter`. */
  function WalkFrom(tree: Tree, source: Option<Content>, cur: Path, base: Path, ext: string, counter: nat): WalkEnd
  {
    if cur !in tree then FreeAt(cur)
    else if IsSameFile(source, tree, cur) then SameAt(cur)
    else SiblingWalk(tree, source, base, ext, counter)
  }

  /** One turn of the loop: a different-content file moves the walk to the next sibling. */
  lemma WalkFromStep(tree: Tree, source: Option<Content>, cur: Path, base: Path, ext: string, counter: nat)
    requires counter >= 1 && (counter == 1 || cur == Sibling(base, ext, counter - 1))
    requires cur in tree && !IsSameFile(source, tree, cur)
    ensures counter <= Horizon(tree)
    ensures WalkFrom(tree, source, cur, base, ext, counter)
            == WalkFrom(tree, source, Sibling(base, ext, counter), base, ext, counter + 1)
  {
    if counter > 1 {
      SiblingBelowHorizon(tree, base, ext, counter - 1);
    }
  }

  /** The loop of `_process_single_photo` over the siblings of an existing destination. */
  method WalkCollisions(tree: Tree, source: Option<Content>, full: Path) returns (r: WalkEnd)
    requires full in tree
    ensures r == CollisionWalk(tree, source, full)
  {
    var (base, ext) := SplitExt(full);
    var cur := full;
    var counter := 1;
    while cur in tree
      invariant counter >= 1 && (counter == 1 || cur == Sibling(base, ext, counter - 1))
      invariant WalkFrom(tree, source, cur, base, ext, counter) == CollisionWalk(tree, source, full)
      decreases Horizon(tree) + 1 - counter
    {
      if IsSameFile(source, tree, cur) {
        return SameAt(cur);
      }
      WalkFromStep(tree, source, cur, base, ext, counter);
      cur := base + "(" + Digits(counter) + ")" + ext;
      counter := counter + 1;
    }
    return FreeAt(cur);
  }

  // ---------------------------------------------------------------------
  // Placement and copy

  datatype PhotoConfig = PhotoConfig(
    destDir: Path,            // image_destination_dir
    types: seq<string>,       // supported_image_types
    overwrite: bool,          // image_overwrite_existing_rule
    pathFormat: string,       // image_destination_path_format
    filenameFormat: string    // image_destination_filename_format
  )

  /** `build_destination_path(created_time, filename, ...)` for a photo with a time. */
  function PhotoTarget(cfg: PhotoConfig, f: SourceFile): Option<(Path, string)>
  {
    var t := GetPhotoCreationTime(f);
    if t.None? || t.value == "" then None
    else BuildDestinationPath(t.value, f.name, cfg.pathFormat, cfg.filenameFormat)
  }

  /**
   * Where a photo whose destination is `join(dest_dir, dp, dfn)` goes: the
   * destination when it is free; otherwise the end of the sibling walk,
   * replaced by the first free `(n)` name when overwriting is off.
   */
  function PlaceAtTarget(tree: Tree, source: Option<Content>, destDir: Path, dp: Path, dfn: string,
                         overwrite: bool): (r: Placement)
    ensures r == SameContent || r.PlaceAt?
    ensures r.PlaceAt? ==> r.dest !in tree
    ensures Join3(destDir, dp, dfn) !in tree ==> r == PlaceAt(Join3(destDir, dp, dfn))
    ensures r == SameContent ==> exists p :: p in tree && IsSameFile(source, tree, p)
  {
    var full := Join3(destDir, dp, dfn);
    match CollisionWalk(tree, source, full)
    case SameAt(p) =>
      SameFileExists(source, tree, p);
      SameContent
    case FreeAt(p) =>
      if full in tree && !overwrite then
        var dir := Join(destDir, dp);
        PlaceAt(ParenPath(dir, dfn, FirstFreeParen(tree, dir, dfn)))
      else PlaceAt(p)
  }

  /** The placement decision of `_process_single_photo`. */
  function PlacePhoto(cfg: PhotoConfig, f: SourceFile, tree: Tree): (r: Placement)
    ensures r == NoTime <==> GetPhotoCreationTime(f) in {None, Some("")}
    ensures r == Escapes <==> r != NoTime && PhotoTarget(cfg, f).None?
    ensures r.PlaceAt? ==> r.dest !in tree
    ensures r == SameContent ==> exists p :: p in tree && IsSameFile(f.content, tree, p)
  {
    var t := GetPhotoCreationTime(f);
    if t.None? || t.value == "" then NoTime
    else
      match BuildDestinationPath(t.value, f.name, cfg.pathFormat, cfg.filenameFormat)
      case None => Escapes
      case Some((dp, dfn)) => PlaceAtTarget(tree, f.content, cfg.destDir, dp, dfn, cfg.overwrite)
  }

  /** A free destination is used as it is. */
  lemma FreeTargetUsed(cfg: PhotoConfig, f: SourceFile, tree: Tree)
    requires PhotoTarget(cfg, f).Some?
    requires Join3(cfg.destDir, PhotoTarget(cfg, f).value.0, PhotoTarget(cfg, f).value.1) !in tree
    ensures PlacePhoto(cfg, f, tree) == PlaceAt(Join3(cfg.destDir, PhotoTarget(cfg, f).value.0, PhotoTarget(cfg, f).value.1))
  {
  }

  /**
   * `_process_single_photo` with `generate_unique_filename` and the walk as
   * loops.
   */
  method PlaceSinglePhoto(cfg: PhotoConfig, f: SourceFile, tree: Tree) returns (r: Placement)
    ensures r == PlacePhoto(cfg, f, tree)
  {
    var t := GetPhotoCreationTime(f);
    if t.None? || t.value == "" {
      return NoTime;
    }
    var target := BuildDestinationPath(t.value, f.name, cfg.pathFormat, cfg.filenameFormat);
    if target.None? {
      return Escapes;
    }
    var (dp, dfn) := target.value;
    var full := Join3(cfg.destDir, dp, dfn);
    if full in tree {
      var end := WalkCollisions(tree, f.content, full);
      if end.SameAt? {
        return SameContent;
      }
      full := end.path;
      if !cfg.overwrite {
        full := GenerateUniqueFilename(tree, cfg.destDir, dp, dfn);
      }
    }
    return PlaceAt(full);
  }

  /**
   * The sibling family of the full destination path is the family
   * `generate_unique_filename` probes.
   */
  lemma SameFamily(dir: Path, dfn: string)
    ensures SplitExt(Join(dir, dfn)).0 + "(" == Join(dir, SplitExt(dfn).0 + "(")
    ensures SplitExt(Join(dir, dfn)).1 == SplitExt(dfn).1
  {
    SplitExtJoin(dir, dfn);
    AppendParen(dir, SplitExt(dfn).0);
  }

  lemma AppendParen(dir: Path, root: Path)
    ensures Join(dir, root + "(") == Join(dir, root) + "("
  {
    if |root| > 0 {
      JoinAppend(dir, root, "(");
    } else {
      assert root + "(" == "(";
      assert !StartsWith("(", "/") by {
        assert "("[..1] == "(";
      }
      JoinRelative(dir, "(");
      JoinRelative(dir, root);
    }
  }

  /** Both settings pick the same sibling: `generate_unique_filename` finds the gap the walk ended at. */
  lemma GapIsUniqueName(tree: Tree, source: Option<Content>, dir: Path, dfn: string)
    requires Join(dir, dfn) in tree
    requires CollisionWalk(tree, source, Join(dir, dfn)).FreeAt?
    ensures CollisionWalk(tree, source, Join(dir, dfn)).path == ParenPath(dir, dfn, FirstFreeParen(tree, dir, dfn))
  {
    var (base, ext) := SplitExt(Join(dir, dfn));
    SameFamily(dir, dfn);
    SiblingWalkFirstGap(tree, source, base, ext, 1);
    var n := FirstAbsent(tree, base + "(", 1, 0, ")" + ext);
    SiblingNumbered(base, ext, n);
    ParenPathNumbered(dir, dfn, n);
  }

  /** For one destination, the overwrite setting does not change the placement. */
  lemma TargetOverwriteIgnored(tree: Tree, source: Option<Content>, destDir: Path, dp: Path, dfn: string)
    ensures PlaceAtTarget(tree, source, destDir, dp, dfn, true) == PlaceAtTarget(tree, source, destDir, dp, dfn, false)
  {
    var full := Join3(destDir, dp, dfn);
    if full in tree && CollisionWalk(tree, source, full).FreeAt? {
      GapIsUniqueName(tree, source, Join(destDir, dp), dfn);
    }
  }

  /**
   * The overwrite setting makes no difference: with it on, the end of the
   * walk is used; with it off, `generate_unique_filename` finds the same
   * path.  Either way no existing file is replaced.
   */
  lemma OverwriteIgnored(cfg: PhotoConfig, f: SourceFile, tree: Tree)
    ensures PlacePhoto(cfg.(overwrite := true), f, tree) == PlacePhoto(cfg.(overwrite := false), f, tree)
  {
    var t := PhotoTarget(cfg, f);
    if t.Some? {
      TargetOverwriteIgnored(tree, f.content, cfg.destDir, t.value.0, t.value.1);
    }
  }

  /** An existing destination with the photo's content means no copy. */
  lemma SameContentSkipped(cfg: PhotoConfig, f: SourceFile, tree: Tree)
    requires PhotoTarget(cfg, f).Some?
    requires IsSameFile(f.content, tree, Join3(cfg.destDir, PhotoTarget(cfg, f).value.0, PhotoTarget(cfg, f).value.1))
    ensures PlacePhoto(cfg, f, tree) == SameContent
  {
    SameFileExists(f.content, tree, Join3(cfg.destDir, PhotoTarget(cfg, f).value.0, PhotoTarget(cfg, f).value.1));
  }

  /**
   * `_copy_and_record_file`: PIL opens the image, then the copy and the
   * insert; every exception becomes "error".
   */
  function CopyPhoto(f: SourceFile, dest: Path, tree: Tree): (r: (Outcome, Tree))
    ensures r.0 == Copied || r.0 == Failed
    ensures r.0 == Copied <==> f.imageOpens && CopyAndRecord(f, dest, tree).0 == CopiedRecorded
    ensures r.0 == Copied ==> IsSameFile(f.content, r.1, dest)
    ensures r.1 == tree || (r.1.Keys == tree.Keys + {dest} && forall p :: p in tree && p != dest ==> r.1[p] == tree[p])
    ensures r.0 == Copied ==> r.1.Keys == tree.Keys + {dest}
  {
    if !f.imageOpens then (Failed, tree)
    else
      var (c, written) := CopyAndRecord(f, dest, tree);
      (if c == CopiedRecorded then Copied else Failed, written)
  }

  /**
   * `_process_single_photo(root, filename)` with its copy: the outcome and
   * the destination tree afterwards.  A template error is `Raised`: it
   * reaches the pass's own `except`.
   */
  function ProcessSinglePhoto(cfg: PhotoConfig, f: SourceFile, tree: Tree): (r: (Outcome, Tree))
    ensures r.0 == Raised <==> PlacePhoto(cfg, f, tree) == Escapes
    ensures r.0 == Skipped <==> PlacePhoto(cfg, f, tree) == SameContent
    ensures r.0 == Copied ==> PlacePhoto(cfg, f, tree).PlaceAt? && IsSameFile(f.content, r.1, PlacePhoto(cfg, f, tree).dest)
    ensures tree.Keys <= r.1.Keys && forall p :: p in tree ==> r.1[p] == tree[p]
    ensures r.0 == Copied ==> |r.1.Keys| == |tree.Keys| + 1
  {
    var placed := PlacePhoto(cfg, f, tree);
    RunPlacementFacts(f, placed, tree);
    RunPlacement(f, placed, tree)
  }

  /** What the routine reports for a placement, with the copy it makes. */
  function RunPlacement(f: SourceFile, placed: Placement, tree: Tree): (Outcome, Tree)
  {
    match placed
    case NoTime => (Failed, tree)
    case Escapes => (Raised, tree)
    case SameContent => (Skipped, tree)
    case PlaceAt(dest) => CopyPhoto(f, dest, tree)
  }

  lemma RunPlacementFacts(f: SourceFile, placed: Placement, tree: Tree)
    requires placed.PlaceAt? ==> placed.dest !in tree
    ensures var r := RunPlacement(f, placed, tree);
      && (r.0 == Raised <==> placed == Escapes)
      && (r.0 == Skipped <==> placed == SameContent)
      && (r.0 == Copied ==> placed.PlaceAt? && IsSameFile(f.content, r.1, placed.dest))
      && tree.Keys <= r.1.Keys && (forall p :: p in tree ==> r.1[p] == tree[p])
      && (r.0 == Copied ==> |r.1.Keys| == |tree.Keys| + 1)
  {
  }

  // ---------------------------------------------------------------------
  // The pass

  /** The processor's counters and the destination tree. */
  datatype PassState = PassState(tally: Tally, tree: Tree)

  /** The counters after a file whose routine reported `outcome`. */
  function FileStep(st: PassState, outcome: Outcome, tree': Tree): PassState
  {
    var t := st.tally;
    match outcome
    case Raised => PassState(t.(errors := t.errors + 1), tree')
    case Skipped => PassState(t.(files := t.files + 1, skips := t.skips + 1), tree')
    case Copied => PassState(t.(files := t.files + 1, copies := t.copies + 1), tree')
    case Failed => PassState(t.(files := t.files + 1, errors := t.errors + 1), tree')
  }

  /** One file of the inner loop of `process_photos`. */
  function VisitFile(cfg: PhotoConfig, st: PassState, f: SourceFile): PassState
  {
    if !Supported(f.name, cfg.types) then st
    else FileStep(st, ProcessSinglePhoto(cfg, f, st.tree).0, ProcessSinglePhoto(cfg, f, st.tree).1)
  }

  function VisitFiles(cfg: PhotoConfig, st: PassState, files: seq<SourceFile>): PassState
  {
    if |files| == 0 then st
    else VisitFile(cfg, VisitFiles(cfg, st, files[..|files| - 1]), files[|files| - 1])
  }

  function VisitEntries(cfg: PhotoConfig, st: PassState, entries: seq<WalkEntry>): PassState
  {
    if |entries| == 0 then st
    else VisitFiles(cfg, VisitEntries(cfg, st, entries[..|entries| - 1]), entries[|entries| - 1].files)
  }

  /** `process_photos()`: counters reset, then every directory of the walk. */
  function Pass(cfg: PhotoConfig, walk: seq<WalkEntry>, tree: Tree): PassState
  {
    VisitEntries(cfg, PassState(Tally(0, 0, 0, 0), tree), walk)
  }

  /**
   * What one step keeps: the counts so far, the old files, and a new file
   * per copy.
   */
  predicate Grows(st: PassState, r: PassState, n: nat)
  {
    && Total(r.tally) == Total(st.tally) + n
    && st.tally.files <= r.tally.files <= st.tally.files + n
    && st.tree.Keys <= r.tree.Keys
    && (forall p :: p in st.tree ==> r.tree[p] == st.tree[p])
    && |r.tree.Keys| - |st.tree.Keys| >= r.tally.copies - st.tally.copies >= 0
  }

  lemma GrowsTrans(a: PassState, b: PassState, c: PassState, m: nat, n: nat)
    requires Grows(a, b, m) && Grows(b, c, n)
    ensures Grows(a, c, m + n)
  {
  }

  lemma FileStepGrows(st: PassState, outcome: Outcome, tree': Tree)
    requires st.tree.Keys <= tree'.Keys && forall p :: p in st.tree ==> tree'[p] == st.tree[p]
    requires outcome == Copied ==> |tree'.Keys| == |st.tree.Keys| + 1
    ensures Grows(st, FileStep(st, outcome, tree'), 1)
  {
    SubsetSize(st.tree.Keys, tree'.Keys);
  }

  lemma VisitFileGrows(cfg: PhotoConfig, st: PassState, f: SourceFile)
    ensures Grows(st, VisitFile(cfg, st, f), if Supported(f.name, cfg.types) then 1 else 0)
  {
    if Supported(f.name, cfg.types) {
      var (outcome, tree') := ProcessSinglePhoto(cfg, f, st.tree);
      FileStepGrows(st, outcome, tree');
    }
  }

  lemma {:induction false} VisitFilesGrows(cfg: PhotoConfig, st: PassState, files: seq<SourceFile>)
    ensures Grows(st, VisitFiles(cfg, st, files), SupportedCount(cfg.types, files))
  {
    if |files| > 0 {
      var init := files[..|files| - 1];
      VisitFilesGrows(cfg, st, init);
      VisitFileGrows(cfg, VisitFiles(cfg, st, init), files[|files| - 1]);
      GrowsTrans(st, VisitFiles(cfg, st, init), VisitFiles(cfg, st, files), SupportedCount(cfg.types, init),
                 if Supported(files[|files| - 1].name, cfg.types) then 1 else 0);
    }
  }

  lemma {:induction false} VisitEntriesGrows(cfg: PhotoConfig, st: PassState, entries: seq<WalkEntry>)
    ensures Grows(st, VisitEntries(cfg, st, entries), SupportedIn(cfg.types, entries))
  {
    if |entries| > 0 {
      var init := entries[..|entries| - 1];
      var e := entries[|entries| - 1];
      VisitEntriesGrows(cfg, st, init);
      VisitFilesGrows(cfg, VisitEntries(cfg, st, init), e.files);
      GrowsTrans(st, VisitEntries(cfg, st, init), VisitEntries(cfg, st, entries), SupportedIn(cfg.types, init),
                 SupportedCount(cfg.types, e.files));
    }
  }

  /**
   * After a pass: copied + skipped + errors is the number of supported files
   * walked, the file count is at most that, no file that was in the
   * destination is changed (whatever the overwrite setting), and each copy
   * added a file of its own.
   */
  lemma PassSummary(cfg: PhotoConfig, walk: seq<WalkEntry>, tree: Tree)
    ensures var r := Pass(cfg, walk, tree);
      && Total(r.tally) == SupportedIn(cfg.types, walk)
      && r.tally.files <= SupportedIn(cfg.types, walk)
      && tree.Keys <= r.tree.Keys
      && (forall p :: p in tree ==> r.tree[p] == tree[p])
      && |r.tree.Keys| >= |tree.Keys| + r.tally.copies
  {
    VisitEntriesGrows(cfg, PassState(Tally(0, 0, 0, 0), tree), walk);
  }

  // ---------------------------------------------------------------------
  // The processor object

  class PhotoProcessor {
    const cfg: PhotoConfig
    var fileCount: nat
    var copyCount: nat
    var skipCount: nat
    var errorCount: nat

    /** `__init__`: all counters zero. */
    constructor(cfg: PhotoConfig)
      ensures this.cfg == cfg
      ensures fileCount == 0 && copyCount == 0 && skipCount == 0 && errorCount == 0
    {
      this.cfg := cfg;
      fileCount, copyCount, skipCount, errorCount := 0, 0, 0, 0;
    }

    function State(tree: Tree): PassState
      reads this
    {
      PassState(Tally(fileCount, copyCount, skipCount, errorCount), tree)
    }

    /** `process_photos()` over a walk of the source tree; returns the destination tree afterwards. */
    method ProcessPhotos(walk: seq<WalkEntry>, tree: Tree) returns (out: Tree)
      modifies this
      ensures State(out) == Pass(cfg, walk, tree)
    {
      fileCount, skipCount, copyCount, errorCount := 0, 0, 0, 0;
      out := tree;
      ghost var start := State(tree);
      var i := 0;
      while i < |walk|
        invariant 0 <= i <= |walk|
        invariant State(out) == VisitEntries(cfg, start, walk[..i])
      {
        assert walk[..i + 1][..i] == walk[..i];
        out := ProcessDirectory(walk[i].files, out);
        i := i + 1;
      }
      assert walk[..|walk|] == walk;
    }

    /** The inner loop over one directory's files. */
    method ProcessDirectory(files: seq<SourceFile>, tree: Tree) returns (out: Tree)
      modifies this
      ensures State(out) == VisitFiles(cfg, old(State(tree)), files)
    {
      out := tree;
      ghost var start := State(tree);
      var j := 0;
      while j < |files|
        invariant 0 <= j <= |files|
        invariant State(out) == VisitFiles(cfg, start, files[..j])
      {
        assert files[..j + 1][..j] == files[..j];
        out := ProcessFile(files[j], out);
        j := j + 1;
      }
      assert files[..|files|] == files;
    }

    /** One file: the routine, then the counter updates of `process_photos`. */
    method ProcessFile(f: SourceFile, tree: Tree) returns (out: Tree)
      modifies this
      ensures State(out) == VisitFile(cfg, old(State(tree)), f)
    {
      out := tree;
      if !Supported(f.name, cfg.types) {
        return;
      }
      var placed := PlaceSinglePhoto(cfg, f, tree);
      ghost var before := State(tree);
      var r := RunPlacement(f, placed, tree);
      VisitFileRuns(cfg, before, f, placed);
      out := r.1;
      RecordOutcome(r.0);
    }

    /** The counter updates of `process_photos` for a file whose routine reported `outcome`. */
    method RecordOutcome(outcome: Outcome)
      modifies this
      ensures forall tree :: State(tree) == FileStep(old(State(tree)), outcome, tree)
    {
      if outcome == Raised {
        errorCount := errorCount + 1;
      } else {
        fileCount := fileCount + 1;
        if outcome == Skipped {
          skipCount := skipCount + 1;
        } else if outcome == Copied {
          copyCount := copyCount + 1;
        } else {
          errorCount := errorCount + 1;
        }
      }
    }
  }

  /** A supported file goes through the routine, whose placement is computed first. */
  lemma VisitFileRuns(cfg: PhotoConfig, st: PassState, f: SourceFile, placed: Placement)
    requires Supported(f.name, cfg.types) && placed == PlacePhoto(cfg, f, st.tree)
    ensures VisitFile(cfg, st, f) ==
              FileStep(st, RunPlacement(f, placed, st.tree).0, RunPlacement(f, placed, st.tree).1)
  {
  }
}
