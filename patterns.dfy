/**
 * The two filename patterns of `get_date_from_filename`:
 *
 *   date and time: year, sep, month, sep, day, sep, hour, sep, minute, sep, second
 *   date only:     year, sep, month, sep, day
 *
 * where year is `19\d{2}|20\d{2}`, month `0[1-9]|1[0-2]`, day
 * `0[1-9]|[12][0-9]|3[01]`, hour `20|21|22|23|[0-1]\d`, minute and second
 * `[0-5]\d`, and each sep `[ ._-]*`.  Every fixed group starts with a digit
 * and no separator is a digit, so a separator run must be maximal and at each
 * start position there is at most one match.  `re.search` therefore returns
 * the match at the leftmost start position that has one.  `\d` is taken as
 * the ASCII digits.
 */
module FilenamePatterns {
  import opened Text
  import opened DateTimes

  datatype Field = Year | Month | Day | Hour | MinSec | SepRun

  /** The language of one capture group. */
  predicate InField(k: Field, g: string)
  {
    match k
    case Year => |g| == 4 && ((g[0] == '1' && g[1] == '9') || (g[0] == '2' && g[1] == '0'))
                 && IsDigit(g[2]) && IsDigit(g[3])
    case Month => |g| == 2 && ((g[0] == '0' && '1' <= g[1] <= '9') || (g[0] == '1' && '0' <= g[1] <= '2'))
    case Day => |g| == 2 && ((g[0] == '0' && '1' <= g[1] <= '9')
                             || ((g[0] == '1' || g[0] == '2') && IsDigit(g[1]))
                             || (g[0] == '3' && (g[1] == '0' || g[1] == '1')))
    case Hour => |g| == 2 && ((g[0] == '2' && '0' <= g[1] <= '3') || ('0' <= g[0] <= '1' && IsDigit(g[1])))
    case MinSec => |g| == 2 && '0' <= g[0] <= '5' && IsDigit(g[1])
    case SepRun => forall i :: 0 <= i < |g| ==> IsSeparator(g[i])
  }

  function Width(k: Field): nat
  {
    if k == Year then 4 else 2
  }

  /** Every fixed-width group has its width, consists of digits and starts with one. */
  lemma FixedField(k: Field, g: string)
    requires k != SepRun && InField(k, g)
    ensures |g| == Width(k) && AllDigits(g) && IsDigit(g[0])
  {
  }

  const DateTimeFields: seq<Field> :=
    [Year, SepRun, Month, SepRun, Day, SepRun, Hour, SepRun, MinSec, SepRun, MinSec]

  const DateFields: seq<Field> := [Year, SepRun, Month, SepRun, Day]

  /** No separator run is last or followed by another one. */
  predicate WellFormed(ks: seq<Field>)
  {
    forall i :: 0 <= i < |ks| && ks[i] == SepRun ==> i + 1 < |ks| && ks[i + 1] != SepRun
  }

  /** The groups gs, one per field, are consecutive in s from position i. */
  predicate MatchesAt(s: string, i: nat, ks: seq<Field>, gs: seq<string>)
    decreases |ks|
  {
    && |gs| == |ks| && i <= |s|
    && (|ks| > 0 ==>
          && InField(ks[0], gs[0]) && i + |gs[0]| <= |s| && s[i..i + |gs[0]|] == gs[0]
          && MatchesAt(s, i + |gs[0]|, ks[1..], gs[1..]))
  }

  /** The end of the maximal run of separators from i. */
  function SepEnd(s: string, i: nat): (j: nat)
    requires i <= |s|
    ensures i <= j <= |s|
    ensures forall k :: i <= k < j ==> IsSeparator(s[k])
    ensures j == |s| || !IsSeparator(s[j])
    decreases |s| - i
  {
    if i < |s| && IsSeparator(s[i]) then SepEnd(s, i + 1) else i
  }

  /** The deterministic matcher: fixed groups by width, separator runs maximal. */
  function MatchFields(s: string, i: nat, ks: seq<Field>): Option<seq<string>>
    requires i <= |s|
    decreases |ks|
  {
    if |ks| == 0 then Some([])
    else if ks[0] == SepRun then
      var j := SepEnd(s, i);
      match MatchFields(s, j, ks[1..])
      case None => None
      case Some(rest) => Some([s[i..j]] + rest)
    else
      var w := Width(ks[0]);
      if i + w <= |s| && InField(ks[0], s[i..i + w]) then
        match MatchFields(s, i + w, ks[1..])
        case None => None
        case Some(rest) => Some([s[i..i + w]] + rest)
      else None
  }

  /** What the matcher returns is a match. */
  lemma {:induction false} MatchFieldsSound(s: string, i: nat, ks: seq<Field>)
    requires i <= |s|
    ensures MatchFields(s, i, ks).Some? ==> MatchesAt(s, i, ks, MatchFields(s, i, ks).value)
    decreases |ks|
  {
    if |ks| > 0 && MatchFields(s, i, ks).Some? {
      var j := if ks[0] == SepRun then SepEnd(s, i) else i + Width(ks[0]);
      MatchFieldsSound(s, j, ks[1..]);
      var rest := MatchFields(s, j, ks[1..]).value;
      var gs := [s[i..j]] + rest;
      assert MatchFields(s, i, ks) == Some(gs);
      assert gs[0] == s[i..j] && gs[1..] == rest;
      assert InField(ks[0], gs[0]);
    }
  }

  /** Every match is the matcher's answer: a match at a position is unique. */
  lemma {:induction false} MatchFieldsComplete(s: string, i: nat, ks: seq<Field>, gs: seq<string>)
    requires WellFormed(ks) && MatchesAt(s, i, ks, gs)
    ensures MatchFields(s, i, ks) == Some(gs)
    decreases |ks|
  {
    if |ks| > 0 {
      var n := i + |gs[0]|;
      WellFormedTail(ks);
      MatchFieldsComplete(s, n, ks[1..], gs[1..]);
      if ks[0] == SepRun {
        SepRunMaximal(s, i, ks, gs);
      } else {
        FixedField(ks[0], gs[0]);
      }
      assert [gs[0]] + gs[1..] == gs;
    }
  }

  lemma WellFormedTail(ks: seq<Field>)
    requires |ks| > 0 && WellFormed(ks)
    ensures WellFormed(ks[1..])
  {
    forall x | 0 <= x < |ks[1..]| && ks[1..][x] == SepRun
      ensures x + 1 < |ks[1..]| && ks[1..][x + 1] != SepRun
    {
      assert ks[x + 1] == SepRun;
    }
  }

  /** In a match, a separator run is followed by a digit, so it is the maximal run. */
  lemma SepRunMaximal(s: string, i: nat, ks: seq<Field>, gs: seq<string>)
    requires |ks| > 0 && ks[0] == SepRun && WellFormed(ks) && MatchesAt(s, i, ks, gs)
    ensures SepEnd(s, i) == i + |gs[0]|
  {
    var n := i + |gs[0]|;
    assert 1 < |ks| && ks[1] != SepRun;
    assert MatchesAt(s, n, ks[1..], gs[1..]);
    StartsWithDigit(s, n, ks[1..], gs[1..]);
    forall k | i <= k < n ensures IsSeparator(s[k]) {
      assert s[k] == gs[0][k - i];
    }
    SepEndAt(s, i, n);
  }

  lemma {:induction false} SepEndAt(s: string, i: nat, n: nat)
    requires i <= n < |s| && !IsSeparator(s[n])
    requires forall k :: i <= k < n ==> IsSeparator(s[k])
    ensures SepEnd(s, i) == n
    decreases n - i
  {
    if i < n {
      SepEndAt(s, i + 1, n);
    }
  }

  /** A match that starts with a fixed-width group starts at a digit. */
  lemma StartsWithDigit(s: string, i: nat, ks: seq<Field>, gs: seq<string>)
    requires |ks| > 0 && ks[0] != SepRun && MatchesAt(s, i, ks, gs)
    ensures i < |s| && IsDigit(s[i])
  {
    FixedField(ks[0], gs[0]);
    assert s[i] == s[i..i + |gs[0]|][0];
  }

  /** No position in [lo, hi) starts a match. */
  ghost predicate NoMatchBetween(s: string, ks: seq<Field>, lo: nat, hi: nat)
  {
    forall q: nat, gs: seq<string> :: lo <= q < hi ==> !MatchesAt(s, q, ks, gs)
  }

  /** The match `re.search` reports: none starts further left. */
  ghost predicate Leftmost(s: string, ks: seq<Field>, p: nat, gs: seq<string>)
  {
    MatchesAt(s, p, ks, gs) && NoMatchBetween(s, ks, 0, p)
  }

  /** `re.search(pattern, s)` from position i: the first start position with a match. */
  function Search(s: string, ks: seq<Field>, i: nat): (r: Option<(nat, seq<string>)>)
    requires i <= |s|
    ensures r.Some? ==> i <= r.value.0 <= |s| && MatchesAt(s, r.value.0, ks, r.value.1)
    decreases |s| - i
  {
    MatchFieldsSound(s, i, ks);
    match MatchFields(s, i, ks)
    case Some(gs) => Some((i, gs))
    case None => if i == |s| then None else Search(s, ks, i + 1)
  }

  /** The search finds the leftmost match, and reports none only when there is none. */
  lemma {:induction false} SearchLeftmost(s: string, ks: seq<Field>, i: nat)
    requires WellFormed(ks) && i <= |s|
    ensures Search(s, ks, i).Some? ==> NoMatchBetween(s, ks, i, Search(s, ks, i).value.0)
    ensures Search(s, ks, i).None? ==> NoMatchBetween(s, ks, i, |s| + 1)
    decreases |s| - i
  {
    if MatchFields(s, i, ks).None? {
      forall gs: seq<string> ensures !MatchesAt(s, i, ks, gs) {
        if MatchesAt(s, i, ks, gs) {
          MatchFieldsComplete(s, i, ks, gs);
        }
      }
      if i < |s| {
        SearchLeftmost(s, ks, i + 1);
      }
    }
  }

  /** The leftmost match is what `re.search` returns. */
  lemma SearchFindsLeftmost(s: string, ks: seq<Field>, p: nat, gs: seq<string>)
    requires WellFormed(ks) && Leftmost(s, ks, p, gs)
    ensures Search(s, ks, 0) == Some((p, gs))
  {
    SearchLeftmost(s, ks, 0);
    var r := Search(s, ks, 0);
    assert r.Some?;
    assert r.value.0 == p;
    MatchFieldsComplete(s, p, ks, gs);
    MatchFieldsComplete(s, p, ks, r.value.1);
  }

  /** `re.search` finds nothing exactly when no position starts a match. */
  lemma SearchNone(s: string, ks: seq<Field>)
    requires WellFormed(ks)
    ensures Search(s, ks, 0).None? <==> NoMatchBetween(s, ks, 0, |s| + 1)
  {
    SearchLeftmost(s, ks, 0);
    if Search(s, ks, 0).Some? {
      var r := Search(s, ks, 0).value;
      assert MatchesAt(s, r.0, ks, r.1);
    }
  }

  lemma PatternsWellFormed()
    ensures WellFormed(DateTimeFields) && WellFormed(DateFields)
  {
  }

  /** The numbers each fixed-width group admits. */
  predicate InRange(k: Field, n: int)
  {
    match k
    case Year => 1900 <= n <= 2099
    case Month => 1 <= n <= 12
    case Day => 1 <= n <= 31
    case Hour => 0 <= n <= 23
    case MinSec => 0 <= n <= 59
    case SepRun => false
  }

  /** A group that matches holds a number in its field's range. */
  lemma FieldValue(k: Field, g: string)
    requires k != SepRun && InField(k, g)
    ensures AllDigits(g) && InRange(k, ParseNat(g))
  {
    FixedField(k, g);
    if k == Year { ParseFour(g); } else { ParseTwo(g); }
  }

  /** Every number in a field's range, zero-padded to the field's width, matches. */
  lemma FieldOfValue(k: Field, n: nat)
    requires k != SepRun && InRange(k, n)
    ensures InField(k, Pad(n, Width(k)))
  {
    var g := Pad(n, Width(k));
    assert Pow10(2) == 100 && Pow10(4) == 10000 by {
      assert Pow10(1) == 10 && Pow10(3) == 1000;
    }
    PadLength(n, Width(k));
    ParsePad(n, Width(k));
    if k == Year { ParseFour(g); } else { ParseTwo(g); }
  }

  /** Groups, one per field, each in its field's language. */
  predicate GroupsOf(ks: seq<Field>, gs: seq<string>)
  {
    |gs| == |ks| && forall j :: 0 <= j < |ks| ==> InField(ks[j], gs[j])
  }

  lemma {:induction false} MatchGroups(s: string, i: nat, ks: seq<Field>, gs: seq<string>)
    requires MatchesAt(s, i, ks, gs)
    ensures GroupsOf(ks, gs)
    decreases |ks|
  {
    if |ks| > 0 {
      MatchGroups(s, i + |gs[0]|, ks[1..], gs[1..]);
      forall j | 0 <= j < |ks| ensures InField(ks[j], gs[j]) {
        if j > 0 {
          assert ks[1..][j - 1] == ks[j] && gs[1..][j - 1] == gs[j];
        }
      }
    }
  }

  /** A match at i is exactly a run of groups, one per field, spelled out from i. */
  lemma {:induction false} MatchesAtSpells(s: string, i: nat, ks: seq<Field>, gs: seq<string>)
    requires i <= |s|
    ensures MatchesAt(s, i, ks, gs) <==>
              GroupsOf(ks, gs) && i + |Concat(gs)| <= |s| && s[i..i + |Concat(gs)|] == Concat(gs)
    decreases |ks|
  {
    if |ks| > 0 && |gs| == |ks| {
      var n := i + |gs[0]|;
      var c := Concat(gs);
      assert c == gs[0] + Concat(gs[1..]);
      assert GroupsOf(ks, gs) <==> InField(ks[0], gs[0]) && GroupsOf(ks[1..], gs[1..]) by {
        if InField(ks[0], gs[0]) && GroupsOf(ks[1..], gs[1..]) {
          forall j | 0 <= j < |ks| ensures InField(ks[j], gs[j]) {
            if j > 0 {
              assert ks[1..][j - 1] == ks[j] && gs[1..][j - 1] == gs[j];
            }
          }
        }
        if GroupsOf(ks, gs) {
          forall j | 0 <= j < |ks| - 1 ensures InField(ks[1..][j], gs[1..][j]) {
            assert ks[1..][j] == ks[j + 1] && gs[1..][j] == gs[j + 1];
          }
        }
      }
      if n <= |s| {
        MatchesAtSpells(s, n, ks[1..], gs[1..]);
        if i + |c| <= |s| {
          assert s[i..i + |c|] == c <==> s[i..n] == gs[0] && s[n..n + |Concat(gs[1..])|] == Concat(gs[1..]) by {
            if s[i..i + |c|] == c {
              assert s[i..n] == c[..|gs[0]|];
              assert s[n..n + |Concat(gs[1..])|] == c[|gs[0]|..];
            }
            if s[i..n] == gs[0] && s[n..n + |Concat(gs[1..])|] == Concat(gs[1..]) {
              assert s[i..i + |c|] == s[i..n] + s[n..n + |Concat(gs[1..])|];
            }
          }
        }
      }
    }
  }

  /**
   * `f"{year}-{month}-{day}T{hour}:{minute}:{second}"` from groups 1, 3, 5,
   * 7, 9 and 11 of a date-and-time match.
   */
  function DateTimeText(gs: seq<string>): string
    requires |gs| == 11
  {
    gs[0] + "-" + gs[2] + "-" + gs[4] + "T" + gs[6] + ":" + gs[8] + ":" + gs[10]
  }

  /** `f"{year}-{month}-{day}T00:00:00"` from groups 1, 3 and 5 of a date match. */
  function DateText(gs: seq<string>): string
    requires |gs| >= 5
  {
    gs[0] + "-" + gs[2] + "-" + gs[4] + "T00:00:00"
  }

  /** The time a date-and-time match spells. */
  function MatchTime(gs: seq<string>): (dt: DateTime)
    requires GroupsOf(DateTimeFields, gs)
    ensures 1900 <= dt.year <= 2099 && 1 <= dt.month <= 12 && 1 <= dt.day <= 31
    ensures 0 <= dt.hour <= 23 && 0 <= dt.minute <= 59 && 0 <= dt.second <= 59 && dt.micro == 0
  {
    FieldValue(Year, gs[0]);
    FieldValue(Month, gs[2]);
    FieldValue(Day, gs[4]);
    FieldValue(Hour, gs[6]);
    FieldValue(MinSec, gs[8]);
    FieldValue(MinSec, gs[10]);
    TimeOfFields(gs[0], gs[2], gs[4], gs[6], gs[8], gs[10])
  }

  /** The midnight of the date a date match spells. */
  function MatchDate(gs: seq<string>): (dt: DateTime)
    requires GroupsOf(DateFields, gs)
    ensures 1900 <= dt.year <= 2099 && 1 <= dt.month <= 12 && 1 <= dt.day <= 31
    ensures dt.hour == 0 && dt.minute == 0 && dt.second == 0 && dt.micro == 0
  {
    FieldValue(Year, gs[0]);
    FieldValue(Month, gs[2]);
    FieldValue(Day, gs[4]);
    ParseTwo("00");
    TimeOfFields(gs[0], gs[2], gs[4], "00", "00", "00")
  }

  /**
   * The text of a date-and-time match parses back to the time it spells,
   * except when the day is past the end of the month (the patterns do no
   * calendar check).
   */
  lemma DateTimeTextParses(gs: seq<string>)
    requires GroupsOf(DateTimeFields, gs)
    ensures FromIsoFormat(DateTimeText(gs)) ==
              if MatchTime(gs).day <= DaysInMonth(MatchTime(gs).year, MatchTime(gs).month)
              then Some(MatchTime(gs)) else None
  {
    FixedField(Year, gs[0]);
    FixedField(Month, gs[2]);
    FixedField(Day, gs[4]);
    FixedField(Hour, gs[6]);
    FixedField(MinSec, gs[8]);
    FixedField(MinSec, gs[10]);
    FromIsoFormatText(gs[0], gs[2], gs[4], gs[6], gs[8], gs[10]);
  }

  /** The same for the midnight text of a date match. */
  lemma DateTextParses(gs: seq<string>)
    requires GroupsOf(DateFields, gs)
    ensures FromIsoFormat(DateText(gs)) ==
              if MatchDate(gs).day <= DaysInMonth(MatchDate(gs).year, MatchDate(gs).month)
              then Some(MatchDate(gs)) else None
  {
    FixedField(Year, gs[0]);
    FixedField(Month, gs[2]);
    FixedField(Day, gs[4]);
    assert DateText(gs) == gs[0] + "-" + gs[2] + "-" + gs[4] + "T" + "00" + ":" + "00" + ":" + "00";
    FromIsoFormatText(gs[0], gs[2], gs[4], "00", "00", "00");
  }
}
