/**
 * `core/utils.py`: the older package's filename date extractor, whose loop
 * returns after the first of its two patterns so that only the
 * date-and-time pattern is ever searched, and its unique-name generator,
 * which appends `(1)`, `(2)`, ... to the name until the path is free.
 * `build_destination_path` is the same as in the newer package
 * (`Templates.BuildDestinationPath`).
 */
module CoreUtils {
  import opened Text
  import opened DateTimes
  import opened Paths
  import opened Store
  import opened FilenamePatterns
  import PhotoarcUtils

  /**
   * `get_date_from_filename(filename)`: the leftmost date-and-time match, or
   * `None`; the date-only pattern is never reached.
   */
  function GetDateFromFilename(name: string): Option<string>
  {
    match Search(name, DateTimeFields, 0)
    case Some((_, gs)) => Some(DateTimeText(gs))
    case None => None
  }

  /** The leftmost date-and-time match decides. */
  lemma LeftmostDateTime(name: string, p: nat, gs: seq<string>)
    requires Leftmost(name, DateTimeFields, p, gs)
    ensures GetDateFromFilename(name) == Some(DateTimeText(gs))
  {
    PatternsWellFormed();
    SearchFindsLeftmost(name, DateTimeFields, p, gs);
  }

  /** No date is found exactly when no position starts a date and time. */
  lemma UndatedName(name: string)
    ensures GetDateFromFilename(name).None? <==> NoMatchBetween(name, DateTimeFields, 0, |name| + 1)
  {
    PatternsWellFormed();
    SearchNone(name, DateTimeFields);
  }

  /**
   * A name that holds only a date, such as `20241230.jpg`, gives no date here,
   * although the newer extractor gives that date at midnight.
   */
  lemma DateOnlyNameUndated(name: string, p: nat, gs: seq<string>)
    requires NoMatchBetween(name, DateTimeFields, 0, |name| + 1)
    requires Leftmost(name, DateFields, p, gs)
    ensures GetDateFromFilename(name).None?
    ensures PhotoarcUtils.GetDateFromFilename(name) == Some(DateText(gs))
  {
    UndatedName(name);
    PhotoarcUtils.DateOnlyIsMidnight(name, p, gs);
  }

  /** Whenever this extractor finds a date, the newer one finds the same. */
  lemma AgreesWithPhotoarc(name: string)
    ensures GetDateFromFilename(name).Some? ==>
              GetDateFromFilename(name) == PhotoarcUtils.GetDateFromFilename(name)
  {
  }

  /**
   * A name whose first digit starts a date and time yields it:
   * `VID_20141231_164437.mp4` gives `2014-12-31T16:44:37`.
   */
  lemma DateTimeAfterPrefix(prefix: string, gs: seq<string>, rest: string)
    requires forall q :: 0 <= q < |prefix| ==> !IsDigit(prefix[q])
    requires GroupsOf(DateTimeFields, gs)
    ensures GetDateFromFilename(prefix + Concat(gs) + rest) == Some(DateTimeText(gs))
  {
    var s := prefix + Concat(gs) + rest;
    var p := |prefix|;
    assert s[p..p + |Concat(gs)|] == Concat(gs);
    MatchesAtSpells(s, p, DateTimeFields, gs);
    PhotoarcUtils.NoMatchBeforeDigit(s, p);
    LeftmostDateTime(s, p, gs);
  }

  /**
   * A found text parses back to the time the match spells, unless its day is
   * past the end of its month.
   */
  lemma FoundTimeParses(name: string)
    ensures var r := GetDateFromFilename(name);
      r.Some? ==>
        Search(name, DateTimeFields, 0).Some?
        && var gs := Search(name, DateTimeFields, 0).value.1;
        GroupsOf(DateTimeFields, gs)
        && FromIsoFormat(r.value) ==
             if MatchTime(gs).day <= DaysInMonth(MatchTime(gs).year, MatchTime(gs).month)
             then Some(MatchTime(gs)) else None
  {
    if Search(name, DateTimeFields, 0).Some? {
      var (p, gs) := Search(name, DateTimeFields, 0).value;
      MatchGroups(name, p, DateTimeFields, gs);
      DateTimeTextParses(gs);
    }
  }

  /** The path of `f"{base_name}({counter}){ext}"` in the destination directory. */
  function ParenPath(dir: Path, filename: string, counter: nat): Path
  {
    var (base, ext) := SplitExt(filename);
    Join(dir, base + "(" + Digits(counter) + ")" + ext)
  }

  /** The parenthesised paths form a numbered family without padding. */
  lemma ParenPathNumbered(dir: Path, filename: string, counter: nat)
    ensures var (base, ext) := SplitExt(filename);
      ParenPath(dir, filename, counter) == Numbered(Join(dir, base + "("), counter, 0, ")" + ext)
  {
    var (base, ext) := SplitExt(filename);
    var head, digits := base + "(", Digits(counter);
    assert Pad(counter, 0) == digits;
    JoinAppend(dir, head, digits + (")" + ext));
    Regroup(head + digits, ")", ext);
    Regroup(head, digits, ")" + ext);
    Regroup(Join(dir, head), digits, ")" + ext);
  }

  /** No parenthesised candidate is the unnumbered path. */
  lemma ParenNotOriginal(dir: Path, filename: string, counter: nat)
    ensures ParenPath(dir, filename, counter) != Join(dir, filename)
  {
    var (base, ext) := SplitExt(filename);
    var digits := Digits(counter);
    InsertBeforeExtension(dir, filename, "(" + digits + ")");
    Regroup(base, "(" + digits, ")");
    Regroup(base, "(", digits);
  }

  /** The counter `generate_unique_filename` stops at: the first free one from 1. */
  function FirstFreeParen(tree: Tree, dir: Path, filename: string): (n: nat)
    ensures n >= 1 && ParenPath(dir, filename, n) !in tree
    ensures forall j :: 1 <= j < n ==> ParenPath(dir, filename, j) in tree
  {
    var (base, ext) := SplitExt(filename);
    var n := FirstAbsent(tree, Join(dir, base + "("), 1, 0, ")" + ext);
    ParenPathNumbered(dir, filename, n);
    forall j | 1 <= j < n ensures ParenPath(dir, filename, j) in tree {
      ParenPathNumbered(dir, filename, j);
    }
    n
  }

  /** FirstFreeParen is the least free counter. */
  lemma FirstFreeParenLeast(tree: Tree, dir: Path, filename: string, j: nat)
    requires j >= 1 && ParenPath(dir, filename, j) !in tree
    ensures FirstFreeParen(tree, dir, filename) <= j
  {
  }

  /**
   * `generate_unique_filename(base_dir, dest_path, filename)`: the first
   * free parenthesised path, which is never the unnumbered one.
   */
  method GenerateUniqueFilename(tree: Tree, baseDir: Path, destPath: Path, filename: string)
    returns (full: Path)
    ensures full == ParenPath(Join(baseDir, destPath), filename, FirstFreeParen(tree, Join(baseDir, destPath), filename))
    ensures full !in tree
    ensures full != Join3(baseDir, destPath, filename)
  {
    var dir := Join(baseDir, destPath);
    var (baseName, ext) := SplitExt(filename);
    ghost var last := FirstFreeParen(tree, dir, filename);
    var counter := 1;
    while true
      invariant 1 <= counter <= last
      decreases last - counter
    {
      var newName := baseName + "(" + Digits(counter) + ")" + ext;
      full := Join(dir, newName);
      if full !in tree {
        FirstFreeParenLeast(tree, dir, filename, counter);
        ParenNotOriginal(dir, filename, counter);
        return;
      }
      counter := counter + 1;
    }
  }
}
