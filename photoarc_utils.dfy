/**
 * `photoarc/core/utils.py`: the filename date extractor of the newer
 * package and its two unique-name generators, which append `_001`,
 * `_002`, ... to the name and, once the counter passes 999, interleave
 * random eight-character tokens.
 */
module PhotoarcUtils {
  import opened Text
  import opened DateTimes
  import opened Paths
  import opened Store
  import opened FilenamePatterns

  /**
   * `get_date_from_filename(filename)`: the date-and-time pattern is
   * searched over the whole name first; only when it matches nowhere is
   * the date-only pattern tried, which gives midnight.
   */
  function GetDateFromFilename(name: string): Option<string>
  {
    match Search(name, DateTimeFields, 0)
    case Some((_, gs)) => Some(DateTimeText(gs))
    case None =>
      match Search(name, DateFields, 0)
      case Some((_, gs)) => Some(DateText(gs))
      case None => None
  }

  /** The leftmost date-and-time match decides, whatever else the name holds. */
  lemma FirstPatternWins(name: string, p: nat, gs: seq<string>)
    requires Leftmost(name, DateTimeFields, p, gs)
    ensures GetDateFromFilename(name) == Some(DateTimeText(gs))
  {
    PatternsWellFormed();
    SearchFindsLeftmost(name, DateTimeFields, p, gs);
  }

  /** With no date-and-time anywhere, the leftmost date gives that date at midnight. */
  lemma DateOnlyIsMidnight(name: string, p: nat, gs: seq<string>)
    requires NoMatchBetween(name, DateTimeFields, 0, |name| + 1)
    requires Leftmost(name, DateFields, p, gs)
    ensures GetDateFromFilename(name) == Some(gs[0] + "-" + gs[2] + "-" + gs[4] + "T00:00:00")
  {
    PatternsWellFormed();
    SearchNone(name, DateTimeFields);
    SearchFindsLeftmost(name, DateFields, p, gs);
  }

  /** No date is found exactly when neither pattern matches at any position. */
  lemma NoDateInName(name: string)
    ensures GetDateFromFilename(name).None? <==>
              NoMatchBetween(name, DateTimeFields, 0, |name| + 1) && NoMatchBetween(name, DateFields, 0, |name| + 1)
  {
    PatternsWellFormed();
    SearchNone(name, DateTimeFields);
    SearchNone(name, DateFields);
  }

  /**
   * A found date text parses as ISO text exactly when its day exists in its
   * month: the fields are range-checked but there is no calendar check.
   */
  lemma FoundDateParses(name: string)
    ensures var r := GetDateFromFilename(name);
      r.Some? ==>
        match Search(name, DateTimeFields, 0)
        case Some((p, gs)) =>
          GroupsOf(DateTimeFields, gs)
          && FromIsoFormat(r.value) ==
               if MatchTime(gs).day <= DaysInMonth(MatchTime(gs).year, MatchTime(gs).month)
               then Some(MatchTime(gs)) else None
        case None =>
          Search(name, DateFields, 0).Some?
          && var gs := Search(name, DateFields, 0).value.1;
          GroupsOf(DateFields, gs)
          && FromIsoFormat(r.value) ==
               if MatchDate(gs).day <= DaysInMonth(MatchDate(gs).year, MatchDate(gs).month)
               then Some(MatchDate(gs)) else None
  {
    match Search(name, DateTimeFields, 0)
    case Some((p, gs)) =>
      MatchGroups(name, p, DateTimeFields, gs);
      DateTimeTextParses(gs);
    case None =>
      if Search(name, DateFields, 0).Some? {
        var (p, gs) := Search(name, DateFields, 0).value;
        MatchGroups(name, p, DateFields, gs);
        DateTextParses(gs);
      }
  }

  /** A name shorter than the date-and-time shape cannot hold one. */
  lemma {:induction false} MatchLength(s: string, i: nat, ks: seq<Field>, gs: seq<string>)
    requires MatchesAt(s, i, ks, gs)
    ensures i + MinLength(ks) <= |s|
    decreases |ks|
  {
    if |ks| > 0 {
      MatchLength(s, i + |gs[0]|, ks[1..], gs[1..]);
      if ks[0] != SepRun {
        FixedField(ks[0], gs[0]);
      }
    }
  }

  /** The fewest characters a match of the fields can span. */
  function MinLength(ks: seq<Field>): nat
  {
    if |ks| == 0 then 0 else (if ks[0] == SepRun then 0 else Width(ks[0])) + MinLength(ks[1..])
  }

  /**
   * A name whose first digit starts a date and time yields that date and
   * time, whatever follows: `IMG_20141231_164437.jpg` gives
   * `2014-12-31T16:44:37`.
   */
  lemma DateTimeAfterPrefix(prefix: string, gs: seq<string>, rest: string)
    requires forall q :: 0 <= q < |prefix| ==> !IsDigit(prefix[q])
    requires GroupsOf(DateTimeFields, gs)
    ensures GetDateFromFilename(prefix + Concat(gs) + rest) == Some(DateTimeText(gs))
  {
    var s := prefix + Concat(gs) + rest;
    var p := |prefix|;
    assert s[p..p + |Concat(gs)|] == Concat(gs);
    MatchesAtSpells(s, p, DateTimeFields, gs);
    NoMatchBeforeDigit(s, p);
    FirstPatternWins(s, p, gs);
  }

  /**
   * A name too short for a date and time, whose first digit starts a date,
   * yields that date at midnight.
   */
  lemma ShortDateName(prefix: string, gs: seq<string>, rest: string)
    requires forall q :: 0 <= q < |prefix| ==> !IsDigit(prefix[q])
    requires GroupsOf(DateFields, gs)
    requires |prefix + Concat(gs) + rest| < 14
    ensures GetDateFromFilename(prefix + Concat(gs) + rest) == Some(DateText(gs))
  {
    var s := prefix + Concat(gs) + rest;
    var p := |prefix|;
    assert s[p..p + |Concat(gs)|] == Concat(gs);
    MatchesAtSpells(s, p, DateFields, gs);
    NoDateBeforeDigit(s, p);
    TooShortForTime(s);
    DateOnlyIsMidnight(s, p, gs);
  }

  /** No date-and-time match starts before the first digit. */
  lemma NoMatchBeforeDigit(s: string, n: nat)
    requires n <= |s| && forall q :: 0 <= q < n ==> !IsDigit(s[q])
    ensures NoMatchBetween(s, DateTimeFields, 0, n)
  {
    forall q: nat, hs: seq<string> | q < n ensures !MatchesAt(s, q, DateTimeFields, hs) {
      if MatchesAt(s, q, DateTimeFields, hs) {
        StartsWithDigit(s, q, DateTimeFields, hs);
      }
    }
  }

  /** Nor a date match. */
  lemma NoDateBeforeDigit(s: string, n: nat)
    requires n <= |s| && forall q :: 0 <= q < n ==> !IsDigit(s[q])
    ensures NoMatchBetween(s, DateFields, 0, n)
  {
    forall q: nat, hs: seq<string> | q < n ensures !MatchesAt(s, q, DateFields, hs) {
      if MatchesAt(s, q, DateFields, hs) {
        StartsWithDigit(s, q, DateFields, hs);
      }
    }
  }

  /** A date and time takes at least 14 characters, so a shorter name has none. */
  lemma TooShortForTime(s: string)
    requires |s| < 14
    ensures NoMatchBetween(s, DateTimeFields, 0, |s| + 1)
  {
    TimeMinLength(DateTimeFields);
    forall q: nat, hs: seq<string> ensures !MatchesAt(s, q, DateTimeFields, hs) {
      if MatchesAt(s, q, DateTimeFields, hs) {
        MatchLength(s, q, DateTimeFields, hs);
      }
    }
  }

  /** The date-and-time pattern needs at least fourteen characters. */
  lemma TimeMinLength(ks: seq<Field>)
    requires ks == DateTimeFields
    ensures MinLength(ks) == 14
  {
    assert |ks| == 11;
    assert ks[0] == Year && ks[2] == Month && ks[4] == Day && ks[6] == Hour && ks[8] == MinSec && ks[10] == MinSec;
    assert ks[1] == SepRun && ks[3] == SepRun && ks[5] == SepRun && ks[7] == SepRun && ks[9] == SepRun;
    ShapeMinLength(ks);
  }

  lemma ShapeMinLength(ks: seq<Field>)
    requires |ks| == 11
    requires ks[0] == Year && ks[2] == Month && ks[4] == Day && ks[6] == Hour && ks[8] == MinSec && ks[10] == MinSec
    requires ks[1] == SepRun && ks[3] == SepRun && ks[5] == SepRun && ks[7] == SepRun && ks[9] == SepRun
    ensures MinLength(ks) == 14
  {
    assert ks[11..] == [];
    MinLengthSuffix(ks, 10);
    MinLengthSuffix(ks, 9);
    MinLengthSuffix(ks, 8);
    MinLengthSuffix(ks, 7);
    MinLengthSuffix(ks, 6);
    MinLengthSuffix(ks, 5);
    MinLengthSuffix(ks, 4);
    MinLengthSuffix(ks, 3);
    MinLengthSuffix(ks, 2);
    MinLengthSuffix(ks, 1);
    MinLengthSuffix(ks, 0);
    assert ks[0..] == ks;
  }

  lemma MinLengthSuffix(ks: seq<Field>, j: nat)
    requires j < |ks|
    ensures MinLength(ks[j..]) == (if ks[j] == SepRun then 0 else Width(ks[j])) + MinLength(ks[j + 1..])
  {
    assert ks[j..][1..] == ks[j + 1..];
  }

  /**
   * The patterns do no calendar check: a short name whose date is a day its
   * month lacks still gives a text, one that `fromisoformat`, and so
   * `build_destination_path`, then rejects.
   */
  lemma NoCalendarCheck(prefix: string, gs: seq<string>, rest: string)
    requires forall q :: 0 <= q < |prefix| ==> !IsDigit(prefix[q])
    requires GroupsOf(DateFields, gs)
    requires |prefix + Concat(gs) + rest| < 14
    requires MatchDate(gs).day > DaysInMonth(MatchDate(gs).year, MatchDate(gs).month)
    ensures GetDateFromFilename(prefix + Concat(gs) + rest) == Some(DateText(gs))
    ensures FromIsoFormat(DateText(gs)).None?
  {
    ShortDateName(prefix, gs, rest);
    DateTextParses(gs);
  }

  /** `20240231`, 31 February 2024, is such a name. */
  lemma LeapDayGroups(gs: seq<string>)
    requires gs == ["2024", "", "02", "", "31"]
    ensures GroupsOf(DateFields, gs) && |Concat(gs)| == 8
    ensures MatchDate(gs).day > DaysInMonth(MatchDate(gs).year, MatchDate(gs).month)
  {
    assert InField(Year, gs[0]) && InField(SepRun, gs[1]) && InField(Month, gs[2]);
    assert InField(SepRun, gs[3]) && InField(Day, gs[4]);
    DateGroups(gs);
    ConcatFive(gs);
    ParseFour(gs[0]);
    ParseTwo(gs[2]);
    ParseTwo(gs[4]);
  }

  lemma DateGroups(gs: seq<string>)
    requires |gs| == 5 && InField(Year, gs[0]) && InField(SepRun, gs[1]) && InField(Month, gs[2])
    requires InField(SepRun, gs[3]) && InField(Day, gs[4])
    ensures GroupsOf(DateFields, gs)
  {
  }

  /** The path of `f"{base_name}_{counter:03d}{ext}"` in the destination directory. */
  function CounterPath(dir: Path, filename: string, counter: nat): Path
  {
    var (base, ext) := SplitExt(filename);
    Join(dir, base + "_" + Pad(counter, 3) + ext)
  }

  /** The path of `f"{base_name}_{uuid.uuid4().hex[:8]}{ext}"`. */
  function TokenPath(dir: Path, filename: string, token: string): Path
  {
    var (base, ext) := SplitExt(filename);
    Join(dir, base + "_" + token + ext)
  }

  /** The counter paths form a numbered family, so counter searches end. */
  lemma CounterPathNumbered(dir: Path, filename: string, counter: nat)
    ensures var (base, ext) := SplitExt(filename);
      CounterPath(dir, filename, counter) == Numbered(Join(dir, base + "_"), counter, 3, ext)
  {
    var (base, ext) := SplitExt(filename);
    var head, digits := base + "_", Pad(counter, 3);
    JoinAppend(dir, head, digits + ext);
    Regroup(head, digits, ext);
    Regroup(Join(dir, head), digits, ext);
  }

  /**
   * A candidate is taken when it does not exist or, when contents are
   * checked, when it holds the source's content.
   */
  predicate Accepts(tree: Tree, source: Option<Content>, check: bool, p: Path)
  {
    p !in tree || (check && IsSameFile(source, tree, p))
  }

  /**
   * The candidate the `while True` loop of both generators settles on, from
   * `counter` on: the counter path if it is accepted; otherwise, once the
   * counter passes 999, the next token path if it is absent (a token path
   * is never checked for content); otherwise the next counter.  Token draws
   * are numbered from 0 at counter 1000.
   */
  function SuffixSearch(tree: Tree, dir: Path, filename: string, source: Option<Content>, check: bool,
                        tokens: nat -> string, counter: nat): (r: Path)
    requires counter >= 1
    ensures Accepts(tree, source, check, r)
    decreases Horizon(tree) - counter
  {
    var n := CounterPath(dir, filename, counter);
    if Accepts(tree, source, check, n) then n
    else if counter + 1 > 999 && TokenPath(dir, filename, tokens(counter + 1 - 1000)) !in tree then
      TokenPath(dir, filename, tokens(counter + 1 - 1000))
    else
      assert counter < Horizon(tree) by {
        CounterPathNumbered(dir, filename, counter);
        if counter >= Horizon(tree) {
          BeyondHorizon(tree, Join(dir, SplitExt(filename).0 + "_"), counter, 3, SplitExt(filename).1);
        }
      }
      SuffixSearch(tree, dir, filename, source, check, tokens, counter + 1)
  }

  /** One turn of the search that takes neither candidate moves on to the next counter. */
  lemma SuffixSearchNext(tree: Tree, dir: Path, filename: string, source: Option<Content>, check: bool,
                         tokens: nat -> string, counter: nat)
    requires counter >= 1 && !Accepts(tree, source, check, CounterPath(dir, filename, counter))
    requires counter + 1 > 999 ==> TokenPath(dir, filename, tokens(counter + 1 - 1000)) in tree
    ensures counter < Horizon(tree)
    ensures SuffixSearch(tree, dir, filename, source, check, tokens, counter)
            == SuffixSearch(tree, dir, filename, source, check, tokens, counter + 1)
  {
    CounterPathNumbered(dir, filename, counter);
    if counter >= Horizon(tree) {
      BeyondHorizon(tree, Join(dir, SplitExt(filename).0 + "_"), counter, 3, SplitExt(filename).1);
    }
  }

  /**
   * Before the tokens start, the search takes the first accepted three-digit
   * candidate: if counter k <= 999 is accepted and none from `from` to k is,
   * the result is counter path k.
   */
  lemma {:induction false} SuffixSearchFirst(tree: Tree, dir: Path, filename: string, source: Option<Content>,
                                             check: bool, tokens: nat -> string, from: nat, k: nat)
    requires 1 <= from <= k <= 999
    requires Accepts(tree, source, check, CounterPath(dir, filename, k))
    requires forall j :: from <= j < k ==> !Accepts(tree, source, check, CounterPath(dir, filename, j))
    ensures SuffixSearch(tree, dir, filename, source, check, tokens, from) == CounterPath(dir, filename, k)
    decreases k - from
  {
    if from < k {
      SuffixSearchFirst(tree, dir, filename, source, check, tokens, from + 1, k);
    }
  }

  /** Every candidate is strictly longer than the file name, so it differs from the unsuffixed path. */
  lemma {:induction false} SuffixSearchNotOriginal(tree: Tree, dir: Path, filename: string, source: Option<Content>,
                                                   check: bool, tokens: nat -> string, counter: nat)
    requires counter >= 1
    ensures SuffixSearch(tree, dir, filename, source, check, tokens, counter) != Join(dir, filename)
    decreases Horizon(tree) - counter
  {
    if !Accepts(tree, source, check, CounterPath(dir, filename, counter))
       && !(counter + 1 > 999 && TokenPath(dir, filename, tokens(counter + 1 - 1000)) !in tree) {
      SuffixSearchNext(tree, dir, filename, source, check, tokens, counter);
      SuffixSearchNotOriginal(tree, dir, filename, source, check, tokens, counter + 1);
    } else {
      CandidatesNotOriginal(dir, filename, counter, tokens(if counter + 1 > 999 then counter + 1 - 1000 else 0));
    }
  }

  /** Neither kind of candidate is the unsuffixed path. */
  lemma CandidatesNotOriginal(dir: Path, filename: string, counter: nat, token: string)
    ensures CounterPath(dir, filename, counter) != Join(dir, filename)
    ensures TokenPath(dir, filename, token) != Join(dir, filename)
  {
    Lengthened(dir, filename, Pad(counter, 3));
    Lengthened(dir, filename, token);
  }

  /** Inserting `_` and more between name and extension always changes the joined path. */
  lemma Lengthened(dir: Path, filename: string, x: string)
    ensures var (base, ext) := SplitExt(filename);
      Join(dir, base + "_" + x + ext) != Join(dir, filename)
  {
    var (base, ext) := SplitExt(filename);
    InsertBeforeExtension(dir, filename, "_" + x);
    Regroup(base, "_", x);
  }

  /**
   * The counter loop both generators share: `name_001.ext`, `name_002.ext`,
   * … until one is accepted, with a random `name_<token>.ext` tried after
   * each counter past 999.  Without the content check a path is accepted
   * only when it does not exist.
   */
  method SearchSuffixes(tree: Tree, dir: Path, filename: string, source: Option<Content>, check: bool,
                        tokens: nat -> string) returns (full: Path)
    ensures full == SuffixSearch(tree, dir, filename, source, check, tokens, 1)
  {
    var counter := 1;
    while true
      invariant 1 <= counter <= Horizon(tree)
      invariant SuffixSearch(tree, dir, filename, source, check, tokens, counter)
                == SuffixSearch(tree, dir, filename, source, check, tokens, 1)
      decreases Horizon(tree) - counter
    {
      full := CounterPath(dir, filename, counter);
      if Accepts(tree, source, check, full) {
        return;
      }
      counter := counter + 1;
      if counter > 999 {
        full := TokenPath(dir, filename, tokens(counter - 1000));
        if full !in tree {
          return;
        }
      }
      SuffixSearchNext(tree, dir, filename, source, check, tokens, counter - 1);
    }
  }

  /**
   * `generate_unique_filename(base_dir, dest_path, filename)`: never the
   * unsuffixed name, always a path that does not exist.
   */
  method GenerateUniqueFilename(tree: Tree, baseDir: Path, destPath: Path, filename: string,
                                tokens: nat -> string) returns (full: Path)
    ensures full == SuffixSearch(tree, Join(baseDir, destPath), filename, None, false, tokens, 1)
    ensures full !in tree
    ensures full != Join3(baseDir, destPath, filename)
  {
    var dir := Join(baseDir, destPath);
    SuffixSearchNotOriginal(tree, dir, filename, None, false, tokens, 1);
    full := SearchSuffixes(tree, dir, filename, None, false, tokens);
  }

  /** Without the content check, the first free counter path up to 999 is taken. */
  lemma FirstFreeCounter(tree: Tree, baseDir: Path, destPath: Path, filename: string, tokens: nat -> string, k: nat)
    requires 1 <= k <= 999 && CounterPath(Join(baseDir, destPath), filename, k) !in tree
    requires forall j :: 1 <= j < k ==> CounterPath(Join(baseDir, destPath), filename, j) in tree
    ensures SuffixSearch(tree, Join(baseDir, destPath), filename, None, false, tokens, 1)
            == CounterPath(Join(baseDir, destPath), filename, k)
  {
    SuffixSearchFirst(tree, Join(baseDir, destPath), filename, None, false, tokens, 1, k);
  }

  /**
   * The name the content-checking generator settles on: the unsuffixed path
   * when it is free or already holds the source's content, otherwise the
   * suffix search that also takes a same-content counter path.
   */
  function ContentCheckedName(tree: Tree, dir: Path, filename: string, source: Option<Content>,
                              tokens: nat -> string): (r: Path)
    ensures r !in tree || IsSameFile(source, tree, r)
  {
    if Accepts(tree, source, true, Join(dir, filename)) then Join(dir, filename)
    else SuffixSearch(tree, dir, filename, source, true, tokens, 1)
  }

  /**
   * `generate_unique_filename_with_content_check(base_dir, dest_path,
   * filename, source_file_path)`: the unsuffixed path when it is free or
   * already holds the source's content, otherwise the suffix search that
   * also takes a same-content counter path.
   */
  method GenerateUniqueFilenameWithContentCheck(tree: Tree, baseDir: Path, destPath: Path, filename: string,
                                                source: Option<Content>, tokens: nat -> string)
    returns (full: Path)
    ensures full == ContentCheckedName(tree, Join(baseDir, destPath), filename, source, tokens)
    ensures full !in tree || IsSameFile(source, tree, full)
  {
    var dir := Join(baseDir, destPath);
    full := Join(dir, filename);
    if full !in tree {
      return;
    }
    if IsSameFile(source, tree, full) {
      return;
    }
    full := SearchSuffixes(tree, dir, filename, source, true, tokens);
  }

  /**
   * With contents checked, the first counter path up to 999 that is free or
   * holds the source's content is taken.
   */
  lemma FirstUsableCounter(tree: Tree, dir: Path, filename: string, source: Option<Content>,
                           tokens: nat -> string, k: nat)
    requires 1 <= k <= 999
    requires CounterPath(dir, filename, k) !in tree || IsSameFile(source, tree, CounterPath(dir, filename, k))
    requires forall j :: 1 <= j < k ==>
               CounterPath(dir, filename, j) in tree && !IsSameFile(source, tree, CounterPath(dir, filename, j))
    ensures SuffixSearch(tree, dir, filename, source, true, tokens, 1) == CounterPath(dir, filename, k)
  {
    SuffixSearchFirst(tree, dir, filename, source, true, tokens, 1, k);
  }
}
