/**
 * `app.py`, the first generation: one `copy_photos_with_exif` pass over the
 * source tree, with its own filename patterns, `str.replace` templates and
 * collision loop, and no counters.  What ends a file early is a `continue`;
 * what ends the whole pass is an exception raised outside the per-file
 * `try` blocks, which the polling loop at the bottom of the script catches.
 */
module App {
  import opened Text
  import opened DateTimes
  import opened Paths
  import opened Store
  import opened Media
  import opened Timestamps
  import CoreUtils
  import CorePhoto

  // ---------------------------------------------------------------------
  // Dates in file names

  /**
   * The three patterns of `get_photo_date_from_filename`.  Each is `(\D*)`
   * followed by a fixed block that starts with `\d{4}`.
   */
  datatype NamePattern =
    | Compact   // pattern 1: YYYYMMDD
    | Dashed    // pattern 2: YYYY-MM-DD followed by whitespace
    | Stamped   // pattern 3: YYYYMMDD_HHMMSS

  /** `\d{4}` at i. */
  predicate YearAt(s: string, i: nat)
  {
    i + 4 <= |s| && IsDigit(s[i]) && IsDigit(s[i + 1]) && IsDigit(s[i + 2]) && IsDigit(s[i + 3])
  }

  /** `0[1-9]|1[0-2]` at i. */
  predicate MonthAt(s: string, i: nat)
  {
    i + 2 <= |s| && ((s[i] == '0' && '1' <= s[i + 1] <= '9') || (s[i] == '1' && '0' <= s[i + 1] <= '2'))
  }

  /** `0[1-9]|[12][0-9]|3[01]` at i. */
  predicate DayAt(s: string, i: nat)
  {
    && i + 2 <= |s|
    && ((s[i] == '0' && '1' <= s[i + 1] <= '9')
        || ((s[i] == '1' || s[i] == '2') && IsDigit(s[i + 1]))
        || (s[i] == '3' && (s[i + 1] == '0' || s[i + 1] == '1')))
  }

  /** `\d{6}` at i. */
  predicate SixDigitsAt(s: string, i: nat)
  {
    i + 6 <= |s| && forall k :: i <= k < i + 6 ==> IsDigit(s[k])
  }

  /**
   * The fixed block of pattern p matches at i.  The trailing groups `(\D*)`
   * and `(\s+.*)` after it are the empty string or start with whitespace,
   * so only pattern 2 looks past its block, for one whitespace character.
   */
  predicate BlockAt(p: NamePattern, s: string, i: nat)
  {
    match p
    case Compact => YearAt(s, i) && MonthAt(s, i + 4) && DayAt(s, i + 6)
    case Dashed =>
      && YearAt(s, i) && i + 11 <= |s| && s[i + 4] == '-' && MonthAt(s, i + 5) && s[i + 7] == '-'
      && DayAt(s, i + 8) && IsSpace(s[i + 10])
    case Stamped =>
      YearAt(s, i) && MonthAt(s, i + 4) && DayAt(s, i + 6) && i + 9 <= |s| && s[i + 8] == '_' && SixDigitsAt(s, i + 9)
  }

  /** The first digit at or after i, or the end of s. */
  function NextDigit(s: string, i: nat): (j: nat)
    requires i <= |s|
    ensures i <= j <= |s|
    ensures forall k :: i <= k < j ==> !IsDigit(s[k])
    ensures j < |s| ==> IsDigit(s[j])
    decreases |s| - i
  {
    if i < |s| && !IsDigit(s[i]) then NextDigit(s, i + 1) else i
  }

  /**
   * `re.search(pattern, s)` from start position i on: at each start the
   * leading `(\D*)` can only end at the next digit, since the block begins
   * with a digit, so the match at that start exists exactly when the block
   * matches there.  The answer is where the block (group 2) begins.
   */
  function Search(p: NamePattern, s: string, i: nat): (r: Option<nat>)
    requires i <= |s|
    ensures r.Some? ==> BlockAt(p, s, r.value)
    decreases |s| - i
  {
    var j := NextDigit(s, i);
    if BlockAt(p, s, j) then Some(j)
    else if i < |s| then Search(p, s, i + 1)
    else None
  }

  ghost predicate LeftmostBlock(p: NamePattern, s: string, k: nat)
  {
    BlockAt(p, s, k) && forall i :: 0 <= i < k ==> !BlockAt(p, s, i)
  }

  ghost predicate NoBlock(p: NamePattern, s: string)
  {
    forall k: nat :: !BlockAt(p, s, k)
  }

  /** The search finds the leftmost block from i, and reports none only when there is none. */
  lemma {:induction false} SearchLeftmost(p: NamePattern, s: string, i: nat)
    requires i <= |s|
    ensures Search(p, s, i).Some? ==>
              var j := Search(p, s, i).value;
              i <= j && forall k :: i <= k < j ==> !BlockAt(p, s, k)
    ensures Search(p, s, i).None? ==> forall k: nat :: i <= k ==> !BlockAt(p, s, k)
    decreases |s| - i
  {
    var j := NextDigit(s, i);
    if !BlockAt(p, s, j) && i < |s| {
      SearchLeftmost(p, s, i + 1);
      assert !BlockAt(p, s, i) by {
        if IsDigit(s[i]) {
          assert j == i;
        }
      }
    }
  }

  /** The leftmost block of a pattern is what the search reports. */
  lemma SearchAnswers(p: NamePattern, s: string)
    ensures forall k: nat :: LeftmostBlock(p, s, k) ==> Search(p, s, 0) == Some(k)
    ensures NoBlock(p, s) <==> Search(p, s, 0).None?
  {
    SearchLeftmost(p, s, 0);
    forall k: nat | LeftmostBlock(p, s, k) ensures Search(p, s, 0) == Some(k) {
      var j := Search(p, s, 0).value;
      assert !(j < k);
      assert !(k < j);
    }
  }

  /** `f"{year}-{month}-{day}T00:00:00"` from the groups at those positions. */
  function MidnightText(s: string, y: nat, m: nat, d: nat): string
    requires y + 4 <= |s| && m + 2 <= |s| && d + 2 <= |s|
  {
    s[y..y + 4] + "-" + s[m..m + 2] + "-" + s[d..d + 2] + "T00:00:00"
  }

  /** Python's `s[a:b]` for 0 <= a <= b: both ends are clipped to the length. */
  function Slice(s: string, a: nat, b: nat): string
    requires a <= b
  {
    if |s| <= a then "" else if |s| <= b then s[a..] else s[a..b]
  }

  /**
   * The pattern 3 branch: year is groups 2 and 3, month group 4, day the six
   * digits of group 5, and hour, minute and second are cut from the
   * non-digit run of group 6.
   */
  function StampedText(s: string, j: nat): string
    requires BlockAt(Stamped, s, j)
  {
    var g6 := s[j + 15..NextDigit(s, j + 15)];
    s[j..j + 4] + s[j + 4..j + 6] + "-" + s[j + 6..j + 8] + "-" + s[j + 9..j + 15]
    + "T" + Slice(g6, 0, 2) + ":" + Slice(g6, 2, 4) + ":" + Slice(g6, 4, 6)
  }

  /** `get_photo_date_from_filename(filename)`: pattern 1, else pattern 2, else pattern 3. */
  function GetPhotoDateFromFilename(name: string): Option<string>
  {
    match Search(Compact, name, 0)
    case Some(j) => Some(MidnightText(name, j, j + 4, j + 6))
    case None =>
      match Search(Dashed, name, 0)
      case Some(j) => Some(MidnightText(name, j, j + 5, j + 8))
      case None =>
        match Search(Stamped, name, 0)
        case Some(j) => Some(StampedText(name, j))
        case None => None
  }

  /** The leftmost `YYYYMMDD` decides, wherever a dashed date stands. */
  lemma CompactDate(name: string, k: nat)
    requires LeftmostBlock(Compact, name, k)
    ensures GetPhotoDateFromFilename(name) == Some(MidnightText(name, k, k + 4, k + 6))
  {
    SearchAnswers(Compact, name);
  }

  /** Without `YYYYMMDD`, the leftmost `YYYY-MM-DD` followed by whitespace decides. */
  lemma DashedDate(name: string, k: nat)
    requires NoBlock(Compact, name) && LeftmostBlock(Dashed, name, k)
    ensures GetPhotoDateFromFilename(name) == Some(MidnightText(name, k, k + 5, k + 8))
  {
    SearchAnswers(Compact, name);
    SearchAnswers(Dashed, name);
  }

  /** Every `YYYYMMDD_HHMMSS` contains a `YYYYMMDD` at the same place. */
  lemma StampedIsCompact(s: string, i: nat)
    requires BlockAt(Stamped, s, i)
    ensures BlockAt(Compact, s, i)
  {
  }

  /**
   * Pattern 3 is never what decides: a name it matches also matches
   * pattern 1, so a name date is found exactly when pattern 1 or 2 matches,
   * and it is always at midnight.
   */
  lemma StampedUnreachable(name: string)
    ensures GetPhotoDateFromFilename(name).Some? <==> !NoBlock(Compact, name) || !NoBlock(Dashed, name)
    ensures GetPhotoDateFromFilename(name).Some? ==>
              var r := GetPhotoDateFromFilename(name).value;
              |r| == 19 && r[10..] == "T00:00:00"
  {
    SearchAnswers(Compact, name);
    SearchAnswers(Dashed, name);
    SearchAnswers(Stamped, name);
    if Search(Stamped, name, 0).Some? {
      StampedIsCompact(name, Search(Stamped, name, 0).value);
    }
  }

  // ---------------------------------------------------------------------
  // The photo's time

  /** `exif_info.get("DateTimeOriginal")` is a non-empty string. */
  predicate HasTag(f: SourceFile)
  {
    CorePhoto.HasOriginal(f) && f.pilExif.value[CorePhoto.OriginalTag] != ""
  }

  /**
   * `created_time` after the fallback to the change time: the converted
   * NUL-free tag when there is one, otherwise the name's date; when that
   * gives nothing, the change time's `isoformat()`.  `None` when there is
   * no usable change time either (`getctime` or `fromtimestamp` raised).
   */
  function CreatedTime(f: SourceFile): Option<string>
  {
    var first :=
      if HasTag(f) then ConvertToIsoFormat(RemoveChar(f.pilExif.value[CorePhoto.OriginalTag], '\0'))
      else GetPhotoDateFromFilename(f.name);
    if first.Some? then first else FileTimeIso(f.ctime)
  }

  /**
   * `dt = datetime.fromisoformat(created_time)` inside the per-file `try`:
   * `None` when the image does not open or no time parses, and the file is
   * then passed over.
   */
  function PhotoTime(f: SourceFile): (r: Option<DateTime>)
    ensures r.Some? ==> f.imageOpens && Valid(r.value)
  {
    if !f.imageOpens then None
    else match CreatedTime(f)
      case None => None
      case Some(t) => FromIsoFormat(t)
  }

  /** The tag's text of a whole-second time gives that time, whatever the name and change time. */
  lemma TagGivesTime(f: SourceFile, dt: DateTime)
    requires Valid(dt) && dt.micro == 0
    requires f.imageOpens && CorePhoto.HasOriginal(f) && f.pilExif.value[CorePhoto.OriginalTag] == ExifText(dt)
    ensures PhotoTime(f) == Some(dt)
  {
    ExifTextNulFree(dt);
    ConvertExifText(dt);
    IsoRoundTrip(dt);
  }

  /**
   * A tag that does not convert (not exactly one space once NULs are
   * removed) falls back to the change time, skipping the name.
   */
  lemma UnconvertibleTagUsesChangeTime(f: SourceFile)
    requires HasTag(f) && Count(RemoveChar(f.pilExif.value[CorePhoto.OriginalTag], '\0'), ' ') != 1
    ensures CreatedTime(f) == FileTimeIso(f.ctime)
  {
  }

  /** Without a tag, a date in the name wins over the change time. */
  lemma NameBeforeChangeTime(f: SourceFile)
    requires !HasTag(f) && GetPhotoDateFromFilename(f.name).Some?
    ensures CreatedTime(f) == GetPhotoDateFromFilename(f.name)
  {
  }

  /** Without a tag or a name date, the change time decides. */
  lemma ChangeTimeLast(f: SourceFile)
    requires !HasTag(f) && NoBlock(Compact, f.name) && NoBlock(Dashed, f.name)
    ensures CreatedTime(f) == FileTimeIso(f.ctime)
    ensures PhotoTime(f) == if f.imageOpens && FileTimeIso(f.ctime).Some? then f.ctime else None
  {
    StampedUnreachable(f.name);
  }

  /**
   * A name date that is no calendar date (such as `20230230`) is not
   * replaced by the change time: `fromisoformat` raises and the file is
   * passed over.
   */
  lemma ImpossibleNameDatePassesOver(f: SourceFile)
    requires !HasTag(f) && GetPhotoDateFromFilename(f.name).Some?
    requires FromIsoFormat(GetPhotoDateFromFilename(f.name).value).None?
    ensures PhotoTime(f).None?
  {
  }

  // ---------------------------------------------------------------------
  // Templates

  /** `str(dt.year)`, which is not padded. */
  function YearText(dt: DateTime): string
  {
    Digits(if dt.year < 0 then 0 else dt.year)
  }

  /** `str(n).zfill(2)`. */
  function TwoText(n: int): string
  {
    Pad(if n < 0 then 0 else n, 2)
  }

  /**
   * `destination_path`: each placeholder of the template replaced in turn,
   * or `year/month/day` when the template is empty.
   */
  function DestinationPath(fmt: string, dt: DateTime): Path
  {
    if fmt != "" then
      Replace(Replace(Replace(fmt, "{year}", YearText(dt)), "{month}", TwoText(dt.month)), "{day}", TwoText(dt.day))
    else YearText(dt) + "/" + TwoText(dt.month) + "/" + TwoText(dt.day)
  }

  /**
   * `destination_filename`: `{originalfile}` first, so placeholders inside
   * the original name are replaced too; `IMG_<y><m><d>_<name>.<ext>` when the
   * template is empty, where the extension loses its dot.
   */
  function DestinationFilename(fmt: string, dt: DateTime, name: string): string
  {
    var (original, ext) := SplitExt(name);
    var extension := if |ext| > 0 then ext[1..] else "";
    if fmt != "" then
      Replace(Replace(Replace(Replace(Replace(Replace(Replace(Replace(fmt,
        "{originalfile}", original), "{year}", YearText(dt)), "{month}", TwoText(dt.month)),
        "{day}", TwoText(dt.day)), "{hour}", TwoText(dt.hour)), "{minute}", TwoText(dt.minute)),
        "{second}", TwoText(dt.second)), "{extension}", extension)
    else "IMG_" + YearText(dt) + TwoText(dt.month) + TwoText(dt.day) + "_" + original + "." + extension
  }

  /** A placeholder cannot occur in text without an opening brace. */
  lemma ReplaceWithoutBrace(s: string, pat: string, rep: string)
    requires |pat| > 0 && pat[0] == '{' && '{' !in s
    ensures Replace(s, pat, rep) == s
  {
    forall i: nat ensures !OccursAt(s, pat, i) {
      if i + |pat| <= |s| {
        assert s[i..i + |pat|][0] == s[i];
      }
    }
    ReplaceAbsent(s, pat, rep);
  }

  /** `{`, a name without braces, `}`. */
  predicate Placeholder(q: string)
  {
    |q| >= 2 && q[0] == '{' && q[|q| - 1] == '}' && forall i :: 0 < i < |q| - 1 ==> q[i] != '{' && q[i] != '}'
  }

  /** A piece of a template: a placeholder or text without an opening brace. */
  predicate TemplatePiece(q: string)
  {
    '{' !in q || Placeholder(q)
  }

  /** The pieces with every copy of `pat` replaced by `rep`. */
  function Subst(pieces: seq<string>, pat: string, rep: string): (r: seq<string>)
    ensures |r| == |pieces|
    ensures forall i :: 0 <= i < |r| ==> r[i] == if pieces[i] == pat then rep else pieces[i]
  {
    if |pieces| == 0 then [] else [if pieces[0] == pat then rep else pieces[0]] + Subst(pieces[1..], pat, rep)
  }

  /** Text without an opening brace is copied as it is, and the scan goes on after it. */
  lemma {:induction false} ReplaceAfterPlain(a: string, b: string, pat: string, rep: string)
    requires |pat| > 0 && pat[0] == '{' && '{' !in a
    ensures Replace(a + b, pat, rep) == a + Replace(b, pat, rep)
    decreases |a|
  {
    if |a| > 0 {
      var s := a + b;
      if |s| >= |pat| {
        assert s[..|pat|][0] == a[0];
        assert s[1..] == a[1..] + b;
        ReplaceAfterPlain(a[1..], b, pat, rep);
        assert [a[0]] + a[1..] == a;
      } else {
        ReplaceWithoutBrace(a, pat, rep);
        assert Replace(b, pat, rep) == b;
      }
    } else {
      assert a + b == b;
    }
  }

  /** After its opening brace, a placeholder holds no other. */
  lemma PlaceholderTail(q: string)
    requires Placeholder(q)
    ensures '{' !in q[1..]
  {
    forall j | 0 <= j < |q| - 1
      ensures q[1..][j] != '{'
    {
      assert q[1..][j] == q[j + 1];
    }
  }

  /** A text that starts with a different placeholder does not start with `pat`. */
  lemma OtherNotAtFront(q: string, rest: string, pat: string)
    requires Placeholder(q) && Placeholder(pat) && q != pat && |q + rest| >= |pat|
    ensures (q + rest)[..|pat|] != pat
  {
    var s := q + rest;
    if |pat| > |q| {
      assert s[..|pat|][|q| - 1] == '}' != pat[|q| - 1];
    } else if |pat| < |q| {
      assert s[..|pat|][|pat| - 1] == q[|pat| - 1] != '}';
    } else {
      assert s[..|pat|] == q;
    }
  }

  /** A different placeholder is copied as it is, and the scan goes on after it. */
  lemma ReplaceAfterOther(q: string, rest: string, pat: string, rep: string)
    requires Placeholder(q) && Placeholder(pat) && q != pat
    ensures Replace(q + rest, pat, rep) == q + Replace(rest, pat, rep)
  {
    var s := q + rest;
    if |s| >= |pat| {
      var t := q[1..];
      OtherNotAtFront(q, rest, pat);
      ReplaceSkip(s, pat, rep);
      assert s[0] == q[0] && s[1..] == t + rest;
      PlaceholderTail(q);
      ReplaceAfterPlain(t, rest, pat, rep);
      assert [q[0]] + (t + Replace(rest, pat, rep)) == q + Replace(rest, pat, rep) by {
        assert [q[0]] + t == q;
      }
    } else {
      assert Replace(rest, pat, rep) == rest;
    }
  }

  /** Replacing a placeholder in a template replaces exactly the pieces equal to it. */
  lemma {:induction false} ReplacePieces(pieces: seq<string>, pat: string, rep: string)
    requires Placeholder(pat)
    requires forall i :: 0 <= i < |pieces| ==> TemplatePiece(pieces[i])
    ensures Replace(Concat(pieces), pat, rep) == Concat(Subst(pieces, pat, rep))
    decreases |pieces|
  {
    if |pieces| > 0 {
      var q := pieces[0];
      var rest := Concat(pieces[1..]);
      if q == pat {
        ReplaceFront(pat, rest, rep);
      } else if Placeholder(q) {
        ReplaceAfterOther(q, rest, pat, rep);
      } else {
        ReplaceAfterPlain(q, rest, pat, rep);
      }
      ReplacePieces(pieces[1..], pat, rep);
      assert Subst(pieces, pat, rep)[1..] == Subst(pieces[1..], pat, rep);
    }
  }

  /** Digits hold no brace. */
  lemma DigitsWithoutBrace(s: string)
    requires AllDigits(s)
    ensures '{' !in s
  {
  }

  /** Text without an opening brace is no placeholder. */
  lemma PlainNotPlaceholder(v: string, q: string)
    requires '{' !in v && Placeholder(q)
    ensures v != q
  {
    assert q[0] in q;
  }

  /** The placeholders the two templates use. */
  lemma Placeholders()
    ensures Placeholder("{year}") && Placeholder("{month}") && Placeholder("{day}")
    ensures Placeholder("{hour}") && Placeholder("{minute}") && Placeholder("{second}")
    ensures Placeholder("{originalfile}") && Placeholder("{extension}")
  {
  }

  lemma DefaultPathTemplate(dt: DateTime)
    ensures DestinationPath("{year}/{month}/{day}", dt) == DestinationPath("", dt)
  {
    var y, m, d := YearText(dt), TwoText(dt.month), TwoText(dt.day);
    DigitsWithoutBrace(y);
    DigitsWithoutBrace(m);
    DigitsWithoutBrace(d);
    Placeholders();
    var t0 := "{year}/{month}/{day}";
    PathPass0();
    var t1 := Replace(t0, "{year}", y);
    PathPass1(y);
    var t2 := Replace(t1, "{month}", m);
    PathPass2(y, m);
    var t3 := Replace(t2, "{day}", d);
    PathPass3(y, m, d);
    ConcatFive([y, "/", m, "/", d]);
  }

  lemma PathPass0()
    ensures "{year}/{month}/{day}" == Concat(["{year}", "/", "{month}", "/", "{day}"])
  {
    ConcatFive(["{year}", "/", "{month}", "/", "{day}"]);
  }

  lemma PathPass1(y: string)
    requires '{' !in y
    ensures Replace(Concat(["{year}", "/", "{month}", "/", "{day}"]), "{year}", y) == Concat([y, "/", "{month}", "/", "{day}"])
  {
    Placeholders();
    var p0 := ["{year}", "/", "{month}", "/", "{day}"];
    ReplacePieces(p0, "{year}", y);
    assert Subst(p0, "{year}", y) == [y, "/", "{month}", "/", "{day}"];
  }

  lemma PathPass2(y: string, m: string)
    requires '{' !in y && '{' !in m
    ensures Replace(Concat([y, "/", "{month}", "/", "{day}"]), "{month}", m) == Concat([y, "/", m, "/", "{day}"])
  {
    Placeholders();
    var p1 := [y, "/", "{month}", "/", "{day}"];
    PlainNotPlaceholder(y, "{month}");
    ReplacePieces(p1, "{month}", m);
    assert Subst(p1, "{month}", m) == [y, "/", m, "/", "{day}"];
  }

  lemma PathPass3(y: string, m: string, d: string)
    requires '{' !in y && '{' !in m && '{' !in d
    ensures Replace(Concat([y, "/", m, "/", "{day}"]), "{day}", d) == Concat([y, "/", m, "/", d])
  {
    Placeholders();
    var p2 := [y, "/", m, "/", "{day}"];
    PlainNotPlaceholder(y, "{day}");
    PlainNotPlaceholder(m, "{day}");
    ReplacePieces(p2, "{day}", d);
    assert Subst(p2, "{day}", d) == [y, "/", m, "/", d];
  }

  /**
   * The template `IMG_{year}{month}{day}_{originalfile}.{extension}` gives
   * the same name as the empty one, provided the name holds no `{`: the
   * template replaces `{originalfile}` first, so placeholders inside the
   * original name would be replaced too.
   */
  lemma DefaultNameTemplate(dt: DateTime, name: string)
    requires '{' !in name
    ensures DestinationFilename("IMG_{year}{month}{day}_{originalfile}.{extension}", dt, name)
         == DestinationFilename("", dt, name)
  {
    var (o, ext) := SplitExt(name);
    var e := if |ext| > 0 then ext[1..] else "";
    assert '{' !in o && '{' !in ext by {
      assert name == o + ext;
    }
    assert '{' !in e by {
      if |ext| > 0 {
        assert forall i :: 0 <= i < |e| ==> e[i] == ext[i + 1];
      }
    }
    var y, m, d := YearText(dt), TwoText(dt.month), TwoText(dt.day);
    var h, mi, s := TwoText(dt.hour), TwoText(dt.minute), TwoText(dt.second);
    DigitsWithoutBrace(y);
    DigitsWithoutBrace(m);
    DigitsWithoutBrace(d);
    DigitsWithoutBrace(h);
    DigitsWithoutBrace(mi);
    DigitsWithoutBrace(s);
    Placeholders();
    NameTemplateSpelled();
    NameTemplatePasses("{originalfile}", "{year}", "{month}", "{day}", "{extension}", o, y, m, d, h, mi, s, e);
  }

  /** The default filename template, spelled as its pieces. */
  lemma NameTemplateSpelled()
    ensures "IMG_{year}{month}{day}_{originalfile}.{extension}"
         == Concat(["IMG_", "{year}", "{month}", "{day}", "_", "{originalfile}", ".", "{extension}"])
  {
    ConcatEight(["IMG_", "{year}", "{month}", "{day}", "_", "{originalfile}", ".", "{extension}"]);
    NameTemplateText();
  }

  /**
   * The literal pieces glue into the literal template. The verifier does not
   * evaluate a concatenation of string literals, and an empty body fails, so
   * each step names the literal that the next piece extends.
   */
  lemma NameTemplateText()
    ensures "IMG_" + "{year}" + "{month}" + "{day}" + "_" + "{originalfile}" + "." + "{extension}"
         == "IMG_{year}{month}{day}_{originalfile}.{extension}"
  {
    assert "IMG_" + "{year}" == "IMG_{year}";
    assert "IMG_{year}" + "{month}" == "IMG_{year}{month}";
    assert "IMG_{year}{month}" + "{day}" == "IMG_{year}{month}{day}";
    assert "IMG_{year}{month}{day}" + "_" == "IMG_{year}{month}{day}_";
    assert "IMG_{year}{month}{day}_" + "{originalfile}" == "IMG_{year}{month}{day}_{originalfile}";
    assert "IMG_{year}{month}{day}_{originalfile}" + "." == "IMG_{year}{month}{day}_{originalfile}.";
    assert "IMG_{year}{month}{day}_{originalfile}." + "{extension}" == "IMG_{year}{month}{day}_{originalfile}.{extension}";
  }

  /**
   * The eight replacements of `destination_filename` on a template of the
   * default's shape, for any five distinct placeholders O, Y, M, D and E.
   */
  lemma NameTemplatePasses(O: string, Y: string, M: string, D: string, E: string,
                           o: string, y: string, m: string, d: string, h: string, mi: string, s: string, e: string)
    requires Placeholder(O) && Placeholder(Y) && Placeholder(M) && Placeholder(D) && Placeholder(E)
    requires O != Y && O != M && O != D && O != E && Y != M && Y != D && Y != E && M != D && M != E && D != E
    requires E != "{hour}" && E != "{minute}" && E != "{second}"
    requires '{' !in o && '{' !in y && '{' !in m && '{' !in d && '{' !in e
    ensures var t0 := Concat(["IMG_", Y, M, D, "_", O, ".", E]);
      Replace(Replace(Replace(Replace(Replace(Replace(Replace(Replace(t0,
        O, o), Y, y), M, m), D, d), "{hour}", h), "{minute}", mi), "{second}", s), E, e)
      == "IMG_" + y + m + d + "_" + o + "." + e
  {
    NamePass1("IMG_", "_", ".", O, Y, M, D, E, o);
    NamePass2("IMG_", "_", ".", Y, M, D, E, o, y);
    NamePass3("IMG_", "_", ".", M, D, E, o, y, m);
    NamePass4("IMG_", "_", ".", D, E, o, y, m, d);
    Placeholders();
    NameUntouched("IMG_", "_", ".", E, o, y, m, d, "{hour}", h);
    NameUntouched("IMG_", "_", ".", E, o, y, m, d, "{minute}", mi);
    NameUntouched("IMG_", "_", ".", E, o, y, m, d, "{second}", s);
    NamePass5("IMG_", "_", ".", E, o, y, m, d, e);
    ConcatEight(["IMG_", y, m, d, "_", o, ".", e]);
  }

  lemma NamePass1(pre: string, sep: string, dot: string, O: string, Y: string, M: string, D: string, E: string, o: string)
    requires '{' !in pre && '{' !in sep && '{' !in dot
    requires Placeholder(O) && Placeholder(Y) && Placeholder(M) && Placeholder(D) && Placeholder(E)
    requires O != Y && O != M && O != D && O != E && '{' !in o
    ensures Replace(Concat([pre, Y, M, D, sep, O, dot, E]), O, o) == Concat([pre, Y, M, D, sep, o, dot, E])
  {
    PlainNotPlaceholder(pre, O);
    PlainNotPlaceholder(sep, O);
    PlainNotPlaceholder(dot, O);
    var q := [pre, Y, M, D, sep, O, dot, E];
    ReplacePieces(q, O, o);
    assert Subst(q, O, o) == [pre, Y, M, D, sep, o, dot, E];
  }

  lemma NamePass2(pre: string, sep: string, dot: string, Y: string, M: string, D: string, E: string, o: string, y: string)
    requires '{' !in pre && '{' !in sep && '{' !in dot
    requires Placeholder(Y) && Placeholder(M) && Placeholder(D) && Placeholder(E)
    requires Y != M && Y != D && Y != E && '{' !in o && '{' !in y
    ensures Replace(Concat([pre, Y, M, D, sep, o, dot, E]), Y, y) == Concat([pre, y, M, D, sep, o, dot, E])
  {
    PlainNotPlaceholder(pre, Y);
    PlainNotPlaceholder(sep, Y);
    PlainNotPlaceholder(dot, Y);
    PlainNotPlaceholder(o, Y);
    var q := [pre, Y, M, D, sep, o, dot, E];
    ReplacePieces(q, Y, y);
    assert Subst(q, Y, y) == [pre, y, M, D, sep, o, dot, E];
  }

  lemma NamePass3(pre: string, sep: string, dot: string, M: string, D: string, E: string, o: string, y: string, m: string)
    requires '{' !in pre && '{' !in sep && '{' !in dot
    requires Placeholder(M) && Placeholder(D) && Placeholder(E)
    requires M != D && M != E && '{' !in o && '{' !in y && '{' !in m
    ensures Replace(Concat([pre, y, M, D, sep, o, dot, E]), M, m) == Concat([pre, y, m, D, sep, o, dot, E])
  {
    PlainNotPlaceholder(pre, M);
    PlainNotPlaceholder(sep, M);
    PlainNotPlaceholder(dot, M);
    PlainNotPlaceholder(o, M);
    PlainNotPlaceholder(y, M);
    var q := [pre, y, M, D, sep, o, dot, E];
    ReplacePieces(q, M, m);
    assert Subst(q, M, m) == [pre, y, m, D, sep, o, dot, E];
  }

  lemma NamePass4(pre: string, sep: string, dot: string, D: string, E: string, o: string, y: string, m: string, d: string)
    requires '{' !in pre && '{' !in sep && '{' !in dot
    requires Placeholder(D) && Placeholder(E)
    requires D != E && '{' !in o && '{' !in y && '{' !in m && '{' !in d
    ensures Replace(Concat([pre, y, m, D, sep, o, dot, E]), D, d) == Concat([pre, y, m, d, sep, o, dot, E])
  {
    PlainNotPlaceholder(pre, D);
    PlainNotPlaceholder(sep, D);
    PlainNotPlaceholder(dot, D);
    PlainNotPlaceholder(o, D);
    PlainNotPlaceholder(y, D);
    PlainNotPlaceholder(m, D);
    var q := [pre, y, m, D, sep, o, dot, E];
    ReplacePieces(q, D, d);
    assert Subst(q, D, d) == [pre, y, m, d, sep, o, dot, E];
  }

  /** A placeholder the template no longer holds changes nothing. */
  lemma NameUntouched(pre: string, sep: string, dot: string, E: string, o: string, y: string, m: string, d: string,
                      pat: string, rep: string)
    requires '{' !in pre && '{' !in sep && '{' !in dot
    requires Placeholder(E) && Placeholder(pat) && pat != E
    requires '{' !in o && '{' !in y && '{' !in m && '{' !in d
    ensures var q := [pre, y, m, d, sep, o, dot, E];
      Replace(Concat(q), pat, rep) == Concat(q)
  {
    PlainNotPlaceholder(pre, pat);
    PlainNotPlaceholder(sep, pat);
    PlainNotPlaceholder(dot, pat);
    PlainNotPlaceholder(o, pat);
    PlainNotPlaceholder(y, pat);
    PlainNotPlaceholder(m, pat);
    PlainNotPlaceholder(d, pat);
    var q := [pre, y, m, d, sep, o, dot, E];
    ReplacePieces(q, pat, rep);
    assert Subst(q, pat, rep) == q;
  }

  lemma NamePass5(pre: string, sep: string, dot: string, E: string, o: string, y: string, m: string, d: string, e: string)
    requires '{' !in pre && '{' !in sep && '{' !in dot
    requires Placeholder(E) && '{' !in o && '{' !in y && '{' !in m && '{' !in d && '{' !in e
    ensures Replace(Concat([pre, y, m, d, sep, o, dot, E]), E, e) == Concat([pre, y, m, d, sep, o, dot, e])
  {
    PlainNotPlaceholder(pre, E);
    PlainNotPlaceholder(sep, E);
    PlainNotPlaceholder(dot, E);
    PlainNotPlaceholder(o, E);
    PlainNotPlaceholder(y, E);
    PlainNotPlaceholder(m, E);
    PlainNotPlaceholder(d, E);
    var q := [pre, y, m, d, sep, o, dot, E];
    ReplacePieces(q, E, e);
    assert Subst(q, E, e) == [pre, y, m, d, sep, o, dot, e];
  }

  /** A non-empty template without placeholders is used as it is. */
  lemma PlainTemplatesKept(pathFmt: string, nameFmt: string, dt: DateTime, name: string)
    requires pathFmt != "" && '{' !in pathFmt && nameFmt != "" && '{' !in nameFmt
    ensures DestinationPath(pathFmt, dt) == pathFmt
    ensures DestinationFilename(nameFmt, dt, name) == nameFmt
  {
    var (original, ext) := SplitExt(name);
    var extension := if |ext| > 0 then ext[1..] else "";
    ReplaceWithoutBrace(pathFmt, "{year}", YearText(dt));
    ReplaceWithoutBrace(pathFmt, "{month}", TwoText(dt.month));
    ReplaceWithoutBrace(pathFmt, "{day}", TwoText(dt.day));
    ReplaceWithoutBrace(nameFmt, "{originalfile}", original);
    ReplaceWithoutBrace(nameFmt, "{year}", YearText(dt));
    ReplaceWithoutBrace(nameFmt, "{month}", TwoText(dt.month));
    ReplaceWithoutBrace(nameFmt, "{day}", TwoText(dt.day));
    ReplaceWithoutBrace(nameFmt, "{hour}", TwoText(dt.hour));
    ReplaceWithoutBrace(nameFmt, "{minute}", TwoText(dt.minute));
    ReplaceWithoutBrace(nameFmt, "{second}", TwoText(dt.second));
    ReplaceWithoutBrace(nameFmt, "{extension}", extension);
  }

  /** `str(n).zfill(2)` of a number below 100 is its two decimal digits. */
  lemma TwoTextDigits(n: nat)
    requires n < 100
    ensures |TwoText(n)| == 2 && TwoText(n)[0] == DigitChar(n / 10) && TwoText(n)[1] == DigitChar(n % 10)
  {
    if n >= 10 {
      assert Digits(n) == Digits(n / 10) + [DigitChar(n % 10)];
    }
  }

  /** `str(dt.year)` of a four-digit year is its four digits, as `isoformat()` prints them. */
  lemma YearTextFour(dt: DateTime)
    requires 1000 <= dt.year <= 9999
    ensures |YearText(dt)| == 4 && YearText(dt) == Pad(dt.year, 4)
  {
    assert Pow10(3) == 1000 && Pow10(4) == 10000;
    DigitsLength(dt.year, 3);
    DigitsLength(dt.year, 4);
  }

  /**
   * The default filename `IMG_<y><m><d>_<name>.<ext>` of a time with a
   * four-digit year gives that day back when it is read as a name date:
   * its `YYYYMMDD` block is the leftmost pattern 1 match.
   */
  lemma DefaultNameReadsBack(dt: DateTime, name: string)
    requires Valid(dt) && dt.year >= 1000
    ensures GetPhotoDateFromFilename(DestinationFilename("", dt, name)) == Some(DatePart(dt) + "T00:00:00")
  {
    var rest := DefaultFilenameShape(dt, name);
    YearTextFour(dt);
    MonthText(dt.month);
    DayText(dt.day);
    PrefixedBlock(YearText(dt), TwoText(dt.month), TwoText(dt.day), rest);
  }

  /**
   * The default filename is `IMG_` and the date, then `_`, the name without
   * its extension, a dot and the extension without its dot.
   */
  lemma DefaultFilenameShape(dt: DateTime, name: string) returns (rest: string)
    ensures DestinationFilename("", dt, name) == "IMG_" + YearText(dt) + TwoText(dt.month) + TwoText(dt.day) + rest
    ensures var (original, ext) := SplitExt(name);
      rest == "_" + original + "." + (if |ext| > 0 then ext[1..] else "")
  {
    var (original, ext) := SplitExt(name);
    var extension := if |ext| > 0 then ext[1..] else "";
    rest := "_" + original + "." + extension;
  }

  lemma MonthText(n: nat)
    requires 1 <= n <= 12
    ensures |TwoText(n)| == 2 && MonthAt(TwoText(n), 0)
  {
    TwoTextDigits(n);
  }

  lemma DayText(n: nat)
    requires 1 <= n <= 31
    ensures |TwoText(n)| == 2 && DayAt(TwoText(n), 0)
  {
    TwoTextDigits(n);
  }

  /** `IMG_` followed by a year, a month and a day: the leftmost pattern 1 block, read as its date. */
  lemma PrefixedBlock(y: string, m: string, d: string, rest: string)
    requires |y| == 4 && AllDigits(y) && |m| == 2 && |d| == 2
    requires MonthAt(m, 0) && DayAt(d, 0)
    ensures var f := "IMG_" + y + m + d + rest;
      GetPhotoDateFromFilename(f) == Some(y + "-" + m + "-" + d + "T00:00:00")
  {
    var pre := "IMG_" + y + m + d;
    var f := pre + rest;
    assert |pre| == 12 && f[..12] == pre;
    assert f[4..8] == y && f[8..10] == m && f[10..12] == d;
    assert YearAt(f, 4) by {
      assert forall k :: 0 <= k < 4 ==> f[4 + k] == y[k];
    }
    assert MonthAt(f, 8) by {
      assert f[8] == m[0] && f[9] == m[1];
    }
    assert DayAt(f, 10) by {
      assert f[10] == d[0] && f[11] == d[1];
    }
    assert LeftmostBlock(Compact, f, 4) by {
      forall i | 0 <= i < 4 ensures !BlockAt(Compact, f, i) {
        assert f[i] == pre[i] == "IMG_"[i];
      }
    }
    CompactDate(f, 4);
  }

  // ---------------------------------------------------------------------
  // The destination of one file

  datatype AppConfig = AppConfig(
    destDir: Path,            // destination_dir
    types: seq<string>,       // SUPPORTED_IMAGE_TYPES
    overwrite: bool,          // overwrite_existing_rule
    pathFormat: string,       // destination_path_format ("" or missing: the default)
    filenameFormat: string    // destination_filename_format ("" or missing: the default)
  )

  /** What the collision check decides for a file whose time is known. */
  datatype Decision =
    | HashRaises                      // get_md5 raised outside any try: the pass ends
    | SameMd5                         // the destination holds the same content: `continue`
    | CopyTo(dest: Path, removed: bool) // copy to dest, after `os.remove(dest)` when removed

  /**
   * The check for an existing `full_destination_path`: equal MD5s skip the
   * file, an unreadable side makes `get_md5` raise, and otherwise the file
   * replaces the existing one (overwrite on) or takes the first free
   * `base(n)ext` (overwrite off).
   */
  function Decide(tree: Tree, source: Option<Content>, destDir: Path, dp: Path, dfn: string, overwrite: bool)
    : (r: Decision)
    ensures var full := Join3(destDir, dp, dfn);
      && (full !in tree ==> r == CopyTo(full, false))
      && (r == HashRaises <==> full in tree && (source.None? || tree[full].None?))
      && (r == SameMd5 <==> IsSameFile(source, tree, full))
      && (r.CopyTo? && r.removed <==> overwrite && full in tree && r != HashRaises && r != SameMd5)
      && (r.CopyTo? && r.removed ==> r.dest == full)
      && (r.CopyTo? && !r.removed ==> r.dest !in tree)
  {
    var full := Join3(destDir, dp, dfn);
    if full !in tree then CopyTo(full, false)
    else if source.None? || tree[full].None? then HashRaises
    else if source.value == tree[full].value then SameMd5
    else if overwrite then CopyTo(full, true)
    else
      var dir := Join(destDir, dp);
      CopyTo(CoreUtils.ParenPath(dir, dfn, CoreUtils.FirstFreeParen(tree, dir, dfn)), false)
  }

  /**
   * With overwrite off, a taken destination of other content sends the file
   * to the first free `base(n)ext`, even past a candidate that already holds
   * the same content: the candidates' contents are not compared.
   */
  lemma CandidatesNotCompared(tree: Tree, source: Option<Content>, destDir: Path, dp: Path, dfn: string)
    requires Join3(destDir, dp, dfn) in tree && source.Some? && tree[Join3(destDir, dp, dfn)].Some?
    requires !IsSameFile(source, tree, Join3(destDir, dp, dfn))
    ensures var dir := Join(destDir, dp);
      var n := CoreUtils.FirstFreeParen(tree, dir, dfn);
      && Decide(tree, source, destDir, dp, dfn, false) == CopyTo(CoreUtils.ParenPath(dir, dfn, n), false)
      && forall j :: 1 <= j < n ==> CoreUtils.ParenPath(dir, dfn, j) in tree
  {
  }

  /**
   * The collision check with the loop of `copy_photos_with_exif`: with
   * overwrite on, the loop stops at once; otherwise it tries `base(1)ext`,
   * `base(2)ext`, ... until one does not exist.
   */
  method PlaceOnTarget(tree: Tree, source: Option<Content>, destDir: Path, dp: Path, dfn: string, overwrite: bool)
    returns (r: Decision)
    ensures r == Decide(tree, source, destDir, dp, dfn, overwrite)
  {
    var full := Join3(destDir, dp, dfn);
    if full !in tree {
      return CopyTo(full, false);
    }
    if source.None? || tree[full].None? {
      return HashRaises;
    }
    if source.value == tree[full].value {
      return SameMd5;
    }
    if overwrite {
      return CopyTo(full, true);
    }
    var next := ParenLoop(tree, Join(destDir, dp), dfn, full);
    return CopyTo(next, false);
  }

  /** `while os.path.exists(new_full_destination_path)` with overwrite off, from a taken path. */
  method ParenLoop(tree: Tree, dir: Path, filename: string, start: Path) returns (full: Path)
    requires start in tree
    ensures full == CoreUtils.ParenPath(dir, filename, CoreUtils.FirstFreeParen(tree, dir, filename))
  {
    ghost var last := CoreUtils.FirstFreeParen(tree, dir, filename);
    full := start;
    var counter := 1;
    while full in tree
      invariant 1 <= counter <= last + 1
      invariant counter == 1 ==> full == start
      invariant counter > 1 ==> full == CoreUtils.ParenPath(dir, filename, counter - 1)
      decreases last + 1 - counter
    {
      if counter > 1 {
        ParenTaken(tree, dir, filename, counter - 1);
      }
      full := CoreUtils.ParenPath(dir, filename, counter);
      counter := counter + 1;
    }
    CoreUtils.FirstFreeParenLeast(tree, dir, filename, counter - 1);
  }

  /** A taken candidate at or below the first free counter is below it. */
  lemma ParenTaken(tree: Tree, dir: Path, filename: string, c: nat)
    requires 1 <= c <= CoreUtils.FirstFreeParen(tree, dir, filename)
    requires CoreUtils.ParenPath(dir, filename, c) in tree
    ensures c < CoreUtils.FirstFreeParen(tree, dir, filename)
  {
  }

  // ---------------------------------------------------------------------
  // The copy and the pass

  /**
   * The pass's state: the destination tree, whether `conn` has been bound
   * by an earlier copy of this pass, and whether an exception ended it.
   */
  datatype PassState = PassState(tree: Tree, connected: bool, aborted: bool)

  /**
   * The copy's `try/except/finally`: after `os.remove` when replacing, a
   * copy that raises is logged and followed by `conn.close()`, which raises
   * `UnboundLocalError` when no copy of this pass has bound `conn`; a copy
   * that succeeds binds `conn` whatever the insert then does.
   */
  function CopyStep(st: PassState, f: SourceFile, dest: Path, removed: bool): (r: PassState)
    ensures var before := if removed then st.tree - {dest} else st.tree;
      && (r.aborted <==> st.aborted || ((f.content.None? || f.copyFails) && !st.connected))
      && (r.connected <==> st.connected || !(f.content.None? || f.copyFails))
      && (f.content.None? || f.copyFails ==> r.tree == before)
      && (!(f.content.None? || f.copyFails) ==>
            r.tree.Keys == before.Keys + {dest} && IsSameFile(f.content, r.tree, dest)
            && forall p :: p in before && p != dest ==> r.tree[p] == before[p])
  {
    var before := if removed then st.tree - {dest} else st.tree;
    var (result, written) := CopyAndRecord(f, dest, before);
    if result == CopyRaisedOs then PassState(before, st.connected, st.aborted || !st.connected)
    else PassState(written, true, st.aborted)
  }

  /** One supported file of the pass: time, templates, collision check, copy. */
  function CopyFile(cfg: AppConfig, st: PassState, f: SourceFile): PassState
  {
    match PhotoTime(f)
    case None => st
    case Some(dt) =>
      var dp := DestinationPath(cfg.pathFormat, dt);
      var dfn := DestinationFilename(cfg.filenameFormat, dt, f.name);
      RunDecision(st, f, Decide(st.tree, f.content, cfg.destDir, dp, dfn, cfg.overwrite))
  }

  function RunDecision(st: PassState, f: SourceFile, d: Decision): PassState
  {
    match d
    case HashRaises => st.(aborted := true)
    case SameMd5 => st
    case CopyTo(dest, removed) => CopyStep(st, f, dest, removed)
  }

  /** One file of the inner loop; nothing happens after an exception. */
  function VisitFile(cfg: AppConfig, st: PassState, f: SourceFile): PassState
  {
    if st.aborted || !Supported(f.name, cfg.types) then st else CopyFile(cfg, st, f)
  }

  function VisitFiles(cfg: AppConfig, st: PassState, files: seq<SourceFile>): PassState
  {
    if |files| == 0 then st
    else VisitFile(cfg, VisitFiles(cfg, st, files[..|files| - 1]), files[|files| - 1])
  }

  function VisitEntries(cfg: AppConfig, st: PassState, entries: seq<WalkEntry>): PassState
  {
    if |entries| == 0 then st
    else VisitFiles(cfg, VisitEntries(cfg, st, entries[..|entries| - 1]), entries[|entries| - 1].files)
  }

  /** `copy_photos_with_exif(source_dir, destination_dir)`: `conn` starts unbound. */
  function Pass(cfg: AppConfig, walk: seq<WalkEntry>, tree: Tree): PassState
  {
    VisitEntries(cfg, PassState(tree, false, false), walk)
  }

  /**
   * A copy that raises ends the pass exactly when no earlier copy of the
   * pass succeeded: only then is `conn` unbound in the `finally` clause.
   */
  lemma FailedCopyEndsPassIffFirst(cfg: AppConfig, st: PassState, f: SourceFile)
    requires !st.aborted && Supported(f.name, cfg.types) && PhotoTime(f).Some?
    requires f.content.None? || f.copyFails
    requires var dt := PhotoTime(f).value;
      Decide(st.tree, f.content, cfg.destDir, DestinationPath(cfg.pathFormat, dt),
             DestinationFilename(cfg.filenameFormat, dt, f.name), cfg.overwrite).CopyTo?
    ensures VisitFile(cfg, st, f).aborted <==> !st.connected
  {
  }

  /** An unreadable source or destination at a taken destination ends the pass: `get_md5` raises. */
  lemma UnreadableTakenTargetEndsPass(cfg: AppConfig, st: PassState, f: SourceFile)
    requires !st.aborted && Supported(f.name, cfg.types) && PhotoTime(f).Some?
    requires var dt := PhotoTime(f).value;
      var full := Join3(cfg.destDir, DestinationPath(cfg.pathFormat, dt), DestinationFilename(cfg.filenameFormat, dt, f.name));
      full in st.tree && (f.content.None? || st.tree[full].None?)
    ensures VisitFile(cfg, st, f) == st.(aborted := true)
  {
  }

  /**
   * With overwrite on, the existing destination is removed before the
   * copy, so a copy that then raises leaves neither file there.
   */
  lemma OverwriteLosesFileOnFailedCopy(cfg: AppConfig, st: PassState, f: SourceFile)
    requires !st.aborted && st.connected && cfg.overwrite && Supported(f.name, cfg.types) && PhotoTime(f).Some?
    requires f.content.Some? && f.copyFails
    requires var dt := PhotoTime(f).value;
      var full := Join3(cfg.destDir, DestinationPath(cfg.pathFormat, dt), DestinationFilename(cfg.filenameFormat, dt, f.name));
      full in st.tree && st.tree[full].Some? && st.tree[full].value != f.content.value
    ensures var dt := PhotoTime(f).value;
      var full := Join3(cfg.destDir, DestinationPath(cfg.pathFormat, dt), DestinationFilename(cfg.filenameFormat, dt, f.name));
      VisitFile(cfg, st, f) == PassState(st.tree - {full}, true, false)
  {
  }

  /** What a pass keeps: an ended pass stays ended and changes nothing more, and `conn` stays bound. */
  predicate Follows(st: PassState, r: PassState)
  {
    && (st.aborted ==> r == st)
    && (st.connected ==> r.connected)
  }

  lemma VisitFileFollows(cfg: AppConfig, st: PassState, f: SourceFile)
    ensures Follows(st, VisitFile(cfg, st, f))
  {
  }

  lemma {:induction false} VisitFilesFollows(cfg: AppConfig, st: PassState, files: seq<SourceFile>)
    ensures Follows(st, VisitFiles(cfg, st, files))
  {
    if |files| > 0 {
      var init := files[..|files| - 1];
      VisitFilesFollows(cfg, st, init);
      VisitFileFollows(cfg, VisitFiles(cfg, st, init), files[|files| - 1]);
    }
  }

  lemma {:induction false} VisitEntriesFollows(cfg: AppConfig, st: PassState, entries: seq<WalkEntry>)
    ensures Follows(st, VisitEntries(cfg, st, entries))
  {
    if |entries| > 0 {
      var init := entries[..|entries| - 1];
      VisitEntriesFollows(cfg, st, init);
      VisitFilesFollows(cfg, VisitEntries(cfg, st, init), entries[|entries| - 1].files);
    }
  }

  /** With overwrite off, one file changes no file already in the destination. */
  lemma VisitFileKeeps(cfg: AppConfig, st: PassState, f: SourceFile)
    requires !cfg.overwrite
    ensures var r := VisitFile(cfg, st, f);
      st.tree.Keys <= r.tree.Keys && forall p :: p in st.tree ==> r.tree[p] == st.tree[p]
  {
  }

  lemma {:induction false} VisitFilesKeeps(cfg: AppConfig, st: PassState, files: seq<SourceFile>)
    requires !cfg.overwrite
    ensures var r := VisitFiles(cfg, st, files);
      st.tree.Keys <= r.tree.Keys && forall p :: p in st.tree ==> r.tree[p] == st.tree[p]
  {
    if |files| > 0 {
      var init := files[..|files| - 1];
      VisitFilesKeeps(cfg, st, init);
      VisitFileKeeps(cfg, VisitFiles(cfg, st, init), files[|files| - 1]);
    }
  }

  lemma {:induction false} VisitEntriesKeeps(cfg: AppConfig, st: PassState, entries: seq<WalkEntry>)
    requires !cfg.overwrite
    ensures var r := VisitEntries(cfg, st, entries);
      st.tree.Keys <= r.tree.Keys && forall p :: p in st.tree ==> r.tree[p] == st.tree[p]
  {
    if |entries| > 0 {
      var init := entries[..|entries| - 1];
      VisitEntriesKeeps(cfg, st, init);
      VisitFilesKeeps(cfg, VisitEntries(cfg, st, init), entries[|entries| - 1].files);
    }
  }

  /** With overwrite off, a pass never changes or removes a file that was in the destination. */
  lemma PassNeverOverwrites(cfg: AppConfig, walk: seq<WalkEntry>, tree: Tree)
    requires !cfg.overwrite
    ensures var r := Pass(cfg, walk, tree);
      tree.Keys <= r.tree.Keys && forall p :: p in tree ==> r.tree[p] == tree[p]
  {
    VisitEntriesKeeps(cfg, PassState(tree, false, false), walk);
  }

  /** Once the pass has ended, the remaining files of a directory change nothing. */
  lemma {:induction false} VisitFilesAborted(cfg: AppConfig, st: PassState, files: seq<SourceFile>, j: nat)
    requires j <= |files| && VisitFiles(cfg, st, files[..j]).aborted
    ensures VisitFiles(cfg, st, files) == VisitFiles(cfg, st, files[..j])
    decreases |files|
  {
    if j < |files| {
      var init := files[..|files| - 1];
      assert init[..j] == files[..j];
      VisitFilesAborted(cfg, st, init, j);
    } else {
      assert files[..j] == files;
    }
  }

  /** Once the pass has ended, the remaining directories change nothing. */
  lemma {:induction false} VisitEntriesAborted(cfg: AppConfig, st: PassState, entries: seq<WalkEntry>, i: nat)
    requires i <= |entries| && VisitEntries(cfg, st, entries[..i]).aborted
    ensures VisitEntries(cfg, st, entries) == VisitEntries(cfg, st, entries[..i])
    decreases |entries|
  {
    if i < |entries| {
      var init := entries[..|entries| - 1];
      assert init[..i] == entries[..i];
      VisitEntriesAborted(cfg, st, init, i);
      VisitFilesFollows(cfg, VisitEntries(cfg, st, init), entries[|entries| - 1].files);
    } else {
      assert entries[..i] == entries;
    }
  }

  // ---------------------------------------------------------------------
  // The loops of copy_photos_with_exif

  /**
   * `copy_photos_with_exif(source_dir, destination_dir)` over a walk of the
   * source tree: the destination tree afterwards, and whether an exception
   * escaped the pass.
   */
  method CopyPhotosWithExif(cfg: AppConfig, walk: seq<WalkEntry>, tree: Tree) returns (out: Tree, aborted: bool)
    ensures out == Pass(cfg, walk, tree).tree && aborted == Pass(cfg, walk, tree).aborted
  {
    var st := PassState(tree, false, false);
    var i := 0;
    while i < |walk| && !st.aborted
      invariant 0 <= i <= |walk|
      invariant st == VisitEntries(cfg, PassState(tree, false, false), walk[..i])
    {
      assert walk[..i + 1][..i] == walk[..i];
      st := CopyDirectory(cfg, st, walk[i].files);
      i := i + 1;
    }
    if st.aborted {
      VisitEntriesAborted(cfg, PassState(tree, false, false), walk, i);
    } else {
      assert walk[..i] == walk;
    }
    out, aborted := st.tree, st.aborted;
  }

  /** `for file in files`, until an exception. */
  method CopyDirectory(cfg: AppConfig, st0: PassState, files: seq<SourceFile>) returns (st: PassState)
    ensures st == VisitFiles(cfg, st0, files)
  {
    st := st0;
    var j := 0;
    while j < |files| && !st.aborted
      invariant 0 <= j <= |files|
      invariant st == VisitFiles(cfg, st0, files[..j])
    {
      assert files[..j + 1][..j] == files[..j];
      st := CopyOne(cfg, st, files[j]);
      j := j + 1;
    }
    if st.aborted {
      VisitFilesAborted(cfg, st0, files, j);
    } else {
      assert files[..j] == files;
    }
  }

  /** The loop body for one file of a running pass. */
  method CopyOne(cfg: AppConfig, st: PassState, f: SourceFile) returns (r: PassState)
    requires !st.aborted
    ensures r == VisitFile(cfg, st, f)
  {
    if !Supported(f.name, cfg.types) {
      return st;
    }
    var t := PhotoTime(f);
    if t.None? {
      return st;
    }
    var dp := DestinationPath(cfg.pathFormat, t.value);
    var dfn := DestinationFilename(cfg.filenameFormat, t.value, f.name);
    var d := PlaceOnTarget(st.tree, f.content, cfg.destDir, dp, dfn, cfg.overwrite);
    r := RunDecision(st, f, d);
  }

  // ---------------------------------------------------------------------
  // generate_unique_filename, which the pass does not call

  /** `f"{stem}({counter}).{ext}"`, the candidate name built from two dot-separated parts. */
  function DotName(stem: string, ext: string, counter: nat): string
  {
    stem + "(" + Digits(counter) + ")." + ext
  }

  /**
   * The candidate `f"{base_name.split('.')[-2]}({counter}).{base_name.split('.')[-1]}"`:
   * `None` for the `IndexError` of a name without a dot.
   */
  function DotCandidate(baseName: string, counter: nat): Option<string>
  {
    var parts := Split(baseName, '.');
    if |parts| < 2 then None else Some(DotName(parts[|parts| - 2], parts[|parts| - 1], counter))
  }

  /** The dot candidates form a numbered family without padding. */
  lemma DotNameNumbered(dir: Path, stem: string, ext: string, counter: nat)
    ensures Join(dir, DotName(stem, ext, counter)) == Numbered(Join(dir, stem + "("), counter, 0, ")." + ext)
  {
    var head, digits := stem + "(", Digits(counter);
    assert Pad(counter, 0) == digits;
    JoinAppend(dir, head, digits + (")." + ext));
    Regroup(head + digits, ").", ext);
    Regroup(head, digits, ")." + ext);
    Regroup(Join(dir, head), digits, ")." + ext);
  }

  /** The counter the `while True` loop stops at: the first free one from 1. */
  function FirstFreeDot(tree: Tree, dir: Path, stem: string, ext: string): (n: nat)
    ensures n >= 1 && Join(dir, DotName(stem, ext, n)) !in tree
    ensures forall j :: 1 <= j < n ==> Join(dir, DotName(stem, ext, j)) in tree
  {
    var n := FirstAbsent(tree, Join(dir, stem + "("), 1, 0, ")." + ext);
    DotNameNumbered(dir, stem, ext, n);
    forall j | 1 <= j < n ensures Join(dir, DotName(stem, ext, j)) in tree {
      DotNameNumbered(dir, stem, ext, j);
    }
    n
  }

  lemma FirstFreeDotLeast(tree: Tree, dir: Path, stem: string, ext: string, j: nat)
    requires j >= 1 && Join(dir, DotName(stem, ext, j)) !in tree
    ensures FirstFreeDot(tree, dir, stem, ext) <= j
  {
  }

  /**
   * What `generate_unique_filename(destination_path, base_name)` returns:
   * the name itself when free, otherwise the first free dot candidate from
   * 1; `None` when it raises.
   */
  function UniqueName(tree: Tree, dir: Path, baseName: string): (r: Option<string>)
    ensures Join(dir, baseName) !in tree ==> r == Some(baseName)
    ensures r.None? <==> Join(dir, baseName) in tree && '.' !in baseName
    ensures r.Some? ==> Join(dir, r.value) !in tree
  {
    SplitLength(baseName, '.');
    CountZero(baseName, '.');
    var parts := Split(baseName, '.');
    if Join(dir, baseName) !in tree then Some(baseName)
    else if |parts| < 2 then None
    else Some(DotName(parts[|parts| - 2], parts[|parts| - 1], FirstFreeDot(tree, dir, parts[|parts| - 2], parts[|parts| - 1])))
  }

  /**
   * For a taken name, the answer is the candidate of the least counter from 1
   * whose candidate is free.
   */
  lemma UniqueNameLeast(tree: Tree, dir: Path, baseName: string, n: nat)
    requires Join(dir, baseName) in tree && DotCandidate(baseName, n).Some?
    requires n >= 1 && Join(dir, DotCandidate(baseName, n).value) !in tree
    requires forall j :: 1 <= j < n ==> Join(dir, DotCandidate(baseName, j).value) in tree
    ensures UniqueName(tree, dir, baseName) == DotCandidate(baseName, n)
  {
    var parts := Split(baseName, '.');
    var stem, ext := parts[|parts| - 2], parts[|parts| - 1];
    forall j | 1 <= j < n ensures Join(dir, DotName(stem, ext, j)) in tree {
      assert DotCandidate(baseName, j).value == DotName(stem, ext, j);
    }
    FirstFreeDotIs(tree, dir, stem, ext, n);
  }

  /** The least free counter from 1 is the one the search finds. */
  lemma FirstFreeDotIs(tree: Tree, dir: Path, stem: string, ext: string, n: nat)
    requires n >= 1 && Join(dir, DotName(stem, ext, n)) !in tree
    requires forall j :: 1 <= j < n ==> Join(dir, DotName(stem, ext, j)) in tree
    ensures FirstFreeDot(tree, dir, stem, ext) == n
  {
    FirstFreeDotLeast(tree, dir, stem, ext, n);
  }

  /** A character occurs in s exactly when it is counted. */
  lemma {:induction false} CountZero(s: string, c: char)
    ensures Count(s, c) == 0 <==> c !in s
  {
    if |s| > 0 {
      CountZero(s[1..], c);
      assert s == [s[0]] + s[1..];
    }
  }

  /** `generate_unique_filename` with its `while True` loop. */
  method GenerateUniqueFilename(tree: Tree, dir: Path, baseName: string) returns (r: Option<string>)
    ensures r == UniqueName(tree, dir, baseName)
  {
    if Join(dir, baseName) !in tree {
      return Some(baseName);
    }
    var parts := Split(baseName, '.');
    if |parts| < 2 {
      return None;
    }
    var name := DotLoop(tree, dir, parts[|parts| - 2], parts[|parts| - 1]);
    r := Some(name);
  }

  method DotLoop(tree: Tree, dir: Path, stem: string, ext: string) returns (name: string)
    ensures name == DotName(stem, ext, FirstFreeDot(tree, dir, stem, ext))
  {
    ghost var last := FirstFreeDot(tree, dir, stem, ext);
    var counter := 1;
    while Join(dir, DotName(stem, ext, counter)) in tree
      invariant 1 <= counter <= last
      decreases last - counter
    {
      DotTaken(tree, dir, stem, ext, counter);
      counter := counter + 1;
    }
    FirstFreeDotLeast(tree, dir, stem, ext, counter);
    name := DotName(stem, ext, counter);
  }

  /** A taken candidate at or below the first free counter is below it. */
  lemma DotTaken(tree: Tree, dir: Path, stem: string, ext: string, c: nat)
    requires 1 <= c <= FirstFreeDot(tree, dir, stem, ext)
    requires Join(dir, DotName(stem, ext, c)) in tree
    ensures c < FirstFreeDot(tree, dir, stem, ext)
  {
  }
}
