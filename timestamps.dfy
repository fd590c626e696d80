/**
 * Timestamp text shared by all three generations: the EXIF `YYYY:MM:DD
 * HH:MM:SS` conversion and the ISO text of a file's stat times.
 */
module Timestamps {
  import opened Text
  import opened DateTimes

  /**
   * `_convert_to_iso_format` / `convert_to_iso_format`: split on single
   * spaces, which must give exactly two pieces; colons in the date piece
   * become dashes and the pieces are joined with `T`.
   */
  function ConvertToIsoFormat(s: string): (r: Option<string>)
    ensures r.Some? <==> Count(s, ' ') == 1
    ensures r.Some? ==>
              var i := IndexOf(s, ' ');
              i < |s| && r.value == ReplaceChar(s[..i], ':', '-') + "T" + s[i + 1..]
  {
    var parts := Split(s, ' ');
    SplitLength(s, ' ');
    if |parts| != 2 then None
    else
      var i := IndexOf(s, ' ');
      assert parts == [s[..i]] + Split(s[i + 1..], ' ');
      assert parts[1] == s[i + 1..] by {
        assert |Split(s[i + 1..], ' ')| == 1;
      }
      Some(ReplaceChar(parts[0], ':', '-') + "T" + parts[1])
  }

  /** The EXIF text of a date-time, `YYYY:MM:DD HH:MM:SS`. */
  function ExifText(dt: DateTime): string
    requires Valid(dt)
  {
    Pad(dt.year, 4) + ":" + Pad(dt.month, 2) + ":" + Pad(dt.day, 2) + " " + TimePart(dt)
  }

  /** The date piece of the EXIF text. */
  function ExifDate(dt: DateTime): string
    requires Valid(dt)
  {
    Pad(dt.year, 4) + ":" + Pad(dt.month, 2) + ":" + Pad(dt.day, 2)
  }

  /** Converting the EXIF text of a whole-second time gives its `isoformat()`. */
  lemma ConvertExifText(dt: DateTime)
    requires Valid(dt) && dt.micro == 0
    ensures ConvertToIsoFormat(ExifText(dt)) == Some(IsoFormat(dt))
  {
    assert ExifText(dt) == ExifDate(dt) + " " + TimePart(dt);
    ExifDateFacts(dt);
    TimeSpaceFree(dt);
    ConvertOneSpace(ExifDate(dt), TimePart(dt));
    assert IsoFormat(dt) == DatePart(dt) + "T" + TimePart(dt) + "";
    assert DatePart(dt) + "T" + TimePart(dt) + "" == DatePart(dt) + "T" + TimePart(dt);
  }

  lemma ExifDateFacts(dt: DateTime)
    requires Valid(dt)
    ensures SpaceFree(ExifDate(dt))
    ensures ReplaceChar(ExifDate(dt), ':', '-') == DatePart(dt)
  {
    var y, mo, d := Pad(dt.year, 4), Pad(dt.month, 2), Pad(dt.day, 2);
    assert ExifDate(dt) == y + ":" + mo + ":" + d;
    assert DatePart(dt) == y + "-" + mo + "-" + d;
    DigitFieldsSpaceFree(y, mo, d);
    DigitFieldsReplaced(y, mo, d);
  }

  lemma DigitFieldsSpaceFree(y: string, mo: string, d: string)
    requires AllDigits(y) && AllDigits(mo) && AllDigits(d)
    ensures SpaceFree(y + ":" + mo + ":" + d)
  {
    NoSpace(y);
    NoSpace(mo);
    NoSpace(d);
    SpaceFreeConcat(y, ":", mo);
    SpaceFreeConcat(y + ":" + mo, ":", d);
  }

  lemma DigitFieldsReplaced(y: string, mo: string, d: string)
    requires AllDigits(y) && AllDigits(mo) && AllDigits(d)
    ensures ReplaceChar(y + ":" + mo + ":" + d, ':', '-') == y + "-" + mo + "-" + d
  {
    var s := y + ":" + mo + ":" + d;
    var t := y + "-" + mo + "-" + d;
    var r := ReplaceChar(s, ':', '-');
    var a, b := |y|, |y| + 1 + |mo|;
    forall i | 0 <= i < |s| ensures r[i] == t[i] {
      if i < a {
        assert s[i] == y[i] && t[i] == y[i];
      } else if i == a || i == b {
        assert s[i] == ':' && t[i] == '-';
      } else if i < b {
        assert s[i] == mo[i - a - 1] && t[i] == mo[i - a - 1];
      } else {
        assert s[i] == d[i - b - 1] && t[i] == d[i - b - 1];
      }
    }
  }

  lemma TimeSpaceFree(dt: DateTime)
    requires Valid(dt)
    ensures SpaceFree(TimePart(dt))
  {
    var h, mi, sc := Pad(dt.hour, 2), Pad(dt.minute, 2), Pad(dt.second, 2);
    NoSpace(h);
    NoSpace(mi);
    NoSpace(sc);
    SpaceFreeConcat(h, ":", mi);
    SpaceFreeConcat(h + ":" + mi, ":", sc);
  }

  predicate SpaceFree(s: string) { forall j :: 0 <= j < |s| ==> s[j] != ' ' }

  lemma NoSpace(s: string)
    requires AllDigits(s)
    ensures SpaceFree(s)
  {
  }

  lemma SpaceFreeConcat(a: string, sep: string, b: string)
    requires SpaceFree(a) && SpaceFree(b) && sep == ":"
    ensures SpaceFree(a + sep + b)
  {
  }

  /** The conversion of `a + " " + b`, when neither piece has a space. */
  lemma ConvertOneSpace(a: string, b: string)
    requires SpaceFree(a) && SpaceFree(b)
    ensures ConvertToIsoFormat(a + " " + b) == Some(ReplaceChar(a, ':', '-') + "T" + b)
  {
    var s := a + " " + b;
    CountPrefixFree(s, ' ', |a|);
    assert s[|a|..][1..] == b;
    CountPrefixFree(b, ' ', |b|);
    assert b[|b|..] == "";
    assert IndexOf(s, ' ') == |a| by {
      assert s[|a|] == ' ';
      forall j | 0 <= j < |a| ensures s[j] != ' ' {
        assert s[j] == a[j];
      }
    }
    assert s[..|a|] == a;
    assert s[|a| + 1..] == b;
  }

  /**
   * `datetime.fromtimestamp(os.path.getmtime(p)).isoformat()` (or getctime)
   * inside `try/except Exception`: `None` when stat fails or the time is out
   * of range.  The text always parses back to the same time.
   */
  function FileTimeIso(t: Option<DateTime>): (r: Option<string>)
    ensures r.Some? <==> t.Some? && Valid(t.value)
    ensures r.Some? ==> FromIsoFormat(r.value) == t
  {
    if t.Some? && Valid(t.value) then
      IsoRoundTrip(t.value);
      Some(IsoFormat(t.value))
    else None
  }

  /** The characters of EXIF date text: digits, colons and the one space. */
  predicate ExifChars(s: string)
  {
    forall i :: 0 <= i < |s| ==> IsDigit(s[i]) || s[i] == ':' || s[i] == ' '
  }

  lemma ExifCharsConcat(a: string, b: string)
    requires ExifChars(a) && ExifChars(b)
    ensures ExifChars(a + b)
  {
  }

  lemma DigitsExifChars(s: string)
    requires AllDigits(s)
    ensures ExifChars(s)
  {
  }

  lemma ExifTextChars(dt: DateTime)
    requires Valid(dt)
    ensures ExifChars(ExifText(dt))
  {
    var y, mo, d := Pad(dt.year, 4), Pad(dt.month, 2), Pad(dt.day, 2);
    var t := TimePart(dt);
    assert ExifText(dt) == y + ":" + mo + ":" + d + " " + t;
    DigitsExifChars(y);
    DigitsExifChars(mo);
    DigitsExifChars(d);
    TimeExifChars(dt);
    ExifCharsConcat(y, ":");
    ExifCharsConcat(y + ":", mo);
    ExifCharsConcat(y + ":" + mo, ":");
    ExifCharsConcat(y + ":" + mo + ":", d);
    ExifCharsConcat(y + ":" + mo + ":" + d, " ");
    ExifCharsConcat(y + ":" + mo + ":" + d + " ", t);
  }

  lemma TimeExifChars(dt: DateTime)
    requires Valid(dt)
    ensures ExifChars(TimePart(dt))
  {
    var h, mi, sc := Pad(dt.hour, 2), Pad(dt.minute, 2), Pad(dt.second, 2);
    DigitsExifChars(h);
    DigitsExifChars(mi);
    DigitsExifChars(sc);
    ExifCharsConcat(h, ":");
    ExifCharsConcat(h + ":", mi);
    ExifCharsConcat(h + ":" + mi, ":");
    ExifCharsConcat(h + ":" + mi + ":", sc);
  }

  /** Removing a character that does not occur changes nothing. */
  lemma {:induction false} RemoveAbsent(s: string, c: char)
    requires c !in s
    ensures RemoveChar(s, c) == s
  {
    if |s| > 0 {
      assert s[0] != c;
      RemoveAbsent(s[1..], c);
      assert [s[0]] + s[1..] == s;
    }
  }

  lemma NulFree(s: string)
    requires ExifChars(s)
    ensures RemoveChar(s, '\0') == s
  {
    assert '\0' !in s by {
      forall i | 0 <= i < |s| ensures s[i] != '\0' {
      }
    }
    RemoveAbsent(s, '\0');
  }

  /** The EXIF text of a time holds no NUL, so removing NULs leaves it alone. */
  lemma ExifTextNulFree(dt: DateTime)
    requires Valid(dt)
    ensures RemoveChar(ExifText(dt), '\0') == ExifText(dt)
  {
    ExifTextChars(dt);
    NulFree(ExifText(dt));
  }
}
