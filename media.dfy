/**
 * What the archiver observes about one source file, the walk over the
 * source tree, and the shared copy-then-record step.  Each observation that
 * comes from a library or the operating system (EXIF readers, `stat`,
 * `shutil.copy2`, the SQLite insert, `uuid4`) is an input here.
 */
module Media {
  import opened Text
  import opened DateTimes
  import opened Paths
  import opened Store

  /** The outcome of the database insert that follows a copy. */
  datatype RecordEffect =
    | Recorded       // insert_photo returns True
    | RecordFalse    // insert_photo returns False (it caught a sqlite3.Error)
    | RecordRaises   // a non-OS exception escapes the insert call (such as a TypeError)

  datatype SourceFile = SourceFile(
    name: string,                            // the basename, as os.walk lists it
    content: Option<Content>,                // None: the file cannot be read
    exifTags: Option<map<string, string>>,   // exifread's tags as strings; None: no tags or the reader failed
    pilExif: Option<map<string, string>>,    // PIL's EXIF by tag name; None: no EXIF
    imageOpens: bool,                        // PIL.Image.open succeeds
    mtime: Option<DateTime>,                 // local time of os.path.getmtime; None: stat fails
    ctime: Option<DateTime>,                 // local time of os.path.getctime; None: stat fails
    copyFails: bool,                         // shutil.copy2 raises an OSError although the file is readable
    record: RecordEffect,
    tokens: nat -> string                    // successive uuid4().hex[:8] draws
  )

  /** One step of `os.walk`: the directory, its path relative to the source root, its files. */
  datatype WalkEntry = WalkEntry(root: Path, rel: Path, files: seq<SourceFile>)

  /** What a per-file routine reports to its pass. */
  datatype Outcome =
    | Copied     // "copied"
    | Skipped    // "skipped"
    | Failed     // "error"
    | Raised     // an exception of a kind the routine does not catch

  /** `file.lower().endswith(supported_types)`. */
  predicate Supported(name: string, types: seq<string>)
  {
    exists t :: t in types && EndsWith(Lower(name), t)
  }

  datatype CopyResult =
    | CopyRaisedOs      // shutil.copy2 raised, modelled as before the destination was opened
    | RecordRaisedOs    // copied, then os.path.getmtime raised while building the record
    | CopiedRecorded    // copied and recorded
    | CopiedNotRecorded // copied, the insert returned False
    | RecordRaisedOther // copied, then a non-OS exception escaped the insert

  /**
   * `shutil.copy2(source, dest)` followed by `db.insert_photo(...)`, whose
   * arguments include `time.ctime(os.path.getmtime(source))`.
   */
  function CopyAndRecord(f: SourceFile, dest: Path, tree: Tree): (r: (CopyResult, Tree))
    ensures r.0 == CopyRaisedOs <==> f.content.None? || f.copyFails
    ensures r.0 == CopyRaisedOs ==> r.1 == tree
    ensures r.0 != CopyRaisedOs ==>
              r.1.Keys == tree.Keys + {dest} && IsSameFile(f.content, r.1, dest)
              && forall p :: p in tree && p != dest ==> r.1[p] == tree[p]
    ensures r.0 == CopiedRecorded <==> !(f.content.None? || f.copyFails) && f.mtime.Some? && f.record == Recorded
  {
    if f.content.None? || f.copyFails then (CopyRaisedOs, tree)
    else
      var written := tree[dest := f.content];
      CopyMakesSame(f.content.value, tree, dest);
      if f.mtime.None? then (RecordRaisedOs, written)
      else
        match f.record
        case Recorded => (CopiedRecorded, written)
        case RecordFalse => (CopiedNotRecorded, written)
        case RecordRaises => (RecordRaisedOther, written)
  }

  /** Where a per-file routine decides to put a file, before copying. */
  datatype Placement =
    | NoTime              // no usable time: "error"
    | Escapes             // an exception the routine does not catch, such as build_destination_path's
    | SameContent         // a destination with the same content exists: "skipped"
    | PlaceAt(dest: Path) // copy here

  /** A processor's counters: files seen, copied, skipped and failed. */
  datatype Tally = Tally(files: nat, copies: nat, skips: nat, errors: nat)

  function Total(t: Tally): nat { t.copies + t.skips + t.errors }

  /** The supported files of the directories processed. */
  function SupportedCount(types: seq<string>, files: seq<SourceFile>): nat
  {
    if |files| == 0 then 0
    else SupportedCount(types, files[..|files| - 1]) + (if Supported(files[|files| - 1].name, types) then 1 else 0)
  }

  function SupportedIn(types: seq<string>, entries: seq<WalkEntry>): nat
  {
    if |entries| == 0 then 0
    else SupportedIn(types, entries[..|entries| - 1]) + SupportedCount(types, entries[|entries| - 1].files)
  }
}
