/**
 * Naive wall-clock date-times as Python's `datetime.datetime` holds them, with
 * `isoformat()` and the part of `datetime.fromisoformat()` the archiver relies
 * on.  No time zone is modelled.
 */
module DateTimes {
  import opened Text

  datatype DateTime = DateTime(year: int, month: int, day: int,
                               hour: int, minute: int, second: int, micro: int)

  predicate IsLeap(y: int) { y % 4 == 0 && (y % 100 != 0 || y % 400 == 0) }

  function DaysInMonth(y: int, m: int): int
  {
    if m == 2 then (if IsLeap(y) then 29 else 28)
    else if m == 4 || m == 6 || m == 9 || m == 11 then 30
    else 31
  }

  /** The ranges `datetime` enforces when a value is built. */
  predicate Valid(dt: DateTime)
  {
    && 1 <= dt.year <= 9999
    && 1 <= dt.month <= 12
    && 1 <= dt.day <= DaysInMonth(dt.year, dt.month)
    && 0 <= dt.hour < 24
    && 0 <= dt.minute < 60
    && 0 <= dt.second < 60
    && 0 <= dt.micro < 1000000
  }

  /** `a < b` on naive datetimes: lexicographic on the fields. */
  predicate Before(a: DateTime, b: DateTime)
  {
    || a.year < b.year
    || (a.year == b.year && a.month < b.month)
    || (a.year == b.year && a.month == b.month && a.day < b.day)
    || (a.year == b.year && a.month == b.month && a.day == b.day && a.hour < b.hour)
    || (a.year == b.year && a.month == b.month && a.day == b.day && a.hour == b.hour
        && a.minute < b.minute)
    || (a.year == b.year && a.month == b.month && a.day == b.day && a.hour == b.hour
        && a.minute == b.minute && a.second < b.second)
    || (a.year == b.year && a.month == b.month && a.day == b.day && a.hour == b.hour
        && a.minute == b.minute && a.second == b.second && a.micro < b.micro)
  }

  lemma BeforeIsStrictTotalOrder(a: DateTime, b: DateTime, c: DateTime)
    ensures !Before(a, a)
    ensures Before(a, b) ==> !Before(b, a)
    ensures Before(a, b) && Before(b, c) ==> Before(a, c)
    ensures a != b ==> Before(a, b) || Before(b, a)
  {
  }

  /**
   * `min(ts)`: Python keeps the first element and replaces it by every later
   * element that compares strictly smaller.
   */
  function Earliest(ts: seq<DateTime>): (r: DateTime)
    requires |ts| > 0
    ensures r in ts
    ensures forall t :: t in ts ==> !Before(t, r)
  {
    if |ts| == 1 then ts[0]
    else
      var m := Earliest(ts[..|ts| - 1]);
      var last := ts[|ts| - 1];
      assert ts == ts[..|ts| - 1] + [last];
      BeforeIsStrictTotalOrder(last, m, last);
      forall t | t in ts[..|ts| - 1] ensures !Before(t, last) || !Before(last, m) {
        BeforeIsStrictTotalOrder(t, last, m);
      }
      if Before(last, m) then last else m
  }

  /** `YYYY-MM-DD` of `dt.isoformat()`. */
  function DatePart(dt: DateTime): string
    requires Valid(dt)
  {
    Pad(dt.year, 4) + "-" + Pad(dt.month, 2) + "-" + Pad(dt.day, 2)
  }

  /** `HH:MM:SS` of `dt.isoformat()`. */
  function TimePart(dt: DateTime): string
    requires Valid(dt)
  {
    Pad(dt.hour, 2) + ":" + Pad(dt.minute, 2) + ":" + Pad(dt.second, 2)
  }

  /** `dt.isoformat()`: microseconds are printed only when non-zero. */
  function IsoFormat(dt: DateTime): string
    requires Valid(dt)
  {
    DatePart(dt) + "T" + TimePart(dt) + (if dt.micro == 0 then "" else "." + Pad(dt.micro, 6))
  }

  /** The date part `YYYY-MM-DD` is well formed (digits and dashes). */
  predicate DateShape(s: string)
    requires |s| >= 10
  {
    AllDigits(s[0..4]) && s[4] == '-' && AllDigits(s[5..7]) && s[7] == '-' && AllDigits(s[8..10])
  }

  /** The time part `HH:MM:SS` after the separator at index 10 is well formed. */
  predicate TimeShape(s: string)
    requires |s| >= 19
  {
    AllDigits(s[11..13]) && s[13] == ':' && AllDigits(s[14..16]) && s[16] == ':' && AllDigits(s[17..19])
  }

  /** The fraction `.ffffff` after the seconds is well formed. */
  predicate MicroShape(s: string)
    requires |s| >= 26
  {
    s[19] == '.' && AllDigits(s[20..26])
  }

  /**
   * `datetime.fromisoformat(s)`, for the forms `YYYY-MM-DD`,
   * `YYYY-MM-DD?HH:MM:SS` and `YYYY-MM-DD?HH:MM:SS.ffffff` (the separator
   * `?` may be any character).  `None` stands for the `ValueError` Python
   * raises, including for out-of-range fields such as 31 February.
   */
  function FromIsoFormat(s: string): (r: Option<DateTime>)
    ensures r.Some? ==> Valid(r.value)
  {
    if !(|s| == 10 || |s| == 19 || |s| == 26) then None
    else if !DateShape(s) then None
    else if |s| >= 19 && !TimeShape(s) then None
    else if |s| == 26 && !MicroShape(s) then None
    else
      var dt := DateTime(ParseNat(s[0..4]), ParseNat(s[5..7]), ParseNat(s[8..10]),
                         if |s| >= 19 then ParseNat(s[11..13]) else 0,
                         if |s| >= 19 then ParseNat(s[14..16]) else 0,
                         if |s| >= 19 then ParseNat(s[17..19]) else 0,
                         if |s| == 26 then ParseNat(s[20..26]) else 0);
      if Valid(dt) then Some(dt) else None
  }

  /** The value a date-time string built from digit fields parses to, if valid. */
  lemma FromIsoFormatFields(s: string, dt: DateTime)
    requires |s| == 19 && DateShape(s) && TimeShape(s)
    requires dt == DateTime(ParseNat(s[0..4]), ParseNat(s[5..7]), ParseNat(s[8..10]),
                            ParseNat(s[11..13]), ParseNat(s[14..16]), ParseNat(s[17..19]), 0)
    ensures FromIsoFormat(s) == if Valid(dt) then Some(dt) else None
  {
  }

  /** The date-time the decimal fields y, mo, d, h, mi, sc spell, with no fraction. */
  function TimeOfFields(y: string, mo: string, d: string, h: string, mi: string, sc: string): DateTime
    requires AllDigits(y) && AllDigits(mo) && AllDigits(d) && AllDigits(h) && AllDigits(mi) && AllDigits(sc)
  {
    DateTime(ParseNat(y), ParseNat(mo), ParseNat(d), ParseNat(h), ParseNat(mi), ParseNat(sc), 0)
  }

  /**
   * `fromisoformat` of `y-mo-dTh:mi:sc` assembled from digit fields of the
   * right widths: the time those fields spell, when it is valid.
   */
  lemma FromIsoFormatText(y: string, mo: string, d: string, h: string, mi: string, sc: string)
    requires |y| == 4 && |mo| == 2 && |d| == 2 && |h| == 2 && |mi| == 2 && |sc| == 2
    requires AllDigits(y) && AllDigits(mo) && AllDigits(d) && AllDigits(h) && AllDigits(mi) && AllDigits(sc)
    ensures FromIsoFormat(y + "-" + mo + "-" + d + "T" + h + ":" + mi + ":" + sc)
            == if Valid(TimeOfFields(y, mo, d, h, mi, sc)) then Some(TimeOfFields(y, mo, d, h, mi, sc)) else None
  {
    var s := y + "-" + mo + "-" + d + "T" + h + ":" + mi + ":" + sc;
    IsoTextSlices(y, mo, d, h, mi, sc);
    FromIsoFormatFields(s, TimeOfFields(y, mo, d, h, mi, sc));
  }

  lemma IsoTextSlices(y: string, mo: string, d: string, h: string, mi: string, sc: string)
    requires |y| == 4 && |mo| == 2 && |d| == 2 && |h| == 2 && |mi| == 2 && |sc| == 2
    ensures var s := y + "-" + mo + "-" + d + "T" + h + ":" + mi + ":" + sc;
      && |s| == 19 && s[0..4] == y && s[4] == '-' && s[5..7] == mo && s[7] == '-' && s[8..10] == d
      && s[11..13] == h && s[13] == ':' && s[14..16] == mi && s[16] == ':' && s[17..19] == sc
  {
    var date := y + "-" + mo + "-" + d;
    var time := h + ":" + mi + ":" + sc;
    var s := y + "-" + mo + "-" + d + "T" + h + ":" + mi + ":" + sc;
    ThreeFields(y, '-', mo, '-', d);
    ThreeFields(h, ':', mi, ':', sc);
    assert s == date + "T" + time;
    assert s[..10] == date;
    assert s[11..] == time;
    assert s[0..4] == date[..4];
    assert s[5..7] == date[5..7];
    assert s[8..10] == date[8..];
    assert s[11..13] == time[..2];
    assert s[14..16] == time[3..5];
    assert s[17..19] == time[6..];
  }

  /** Slicing `a + [x] + b + [y] + c` gives back its three fields and two separators. */
  lemma ThreeFields(a: string, x: char, b: string, y: char, c: string)
    ensures var s := a + [x] + b + [y] + c;
      && |s| == |a| + |b| + |c| + 2
      && s[..|a|] == a && s[|a|] == x
      && s[|a| + 1..|a| + 1 + |b|] == b && s[|a| + 1 + |b|] == y
      && s[|a| + |b| + 2..] == c
  {
    var l2 := a + [x];
    var l3 := l2 + b;
    var l4 := l3 + [y];
    var s := l4 + c;
    CatSlices(l4, c);
    CatSlices(l3, [y]);
    CatSlices(l2, b);
    CatSlices(a, [x]);
    SliceOfPrefix(s, |l4|, |a|);
    SliceOfPrefix(s, |l4|, |l3|);
    SliceOfPrefix(s[..|l4|], |l3|, |l2|);
    assert s[|a| + 1..|a| + 1 + |b|] == s[..|l3|][|l2|..];
    assert s[|a|] == l2[|a|];
    assert s[|l3|] == l4[|l3|];
  }

  /** The two halves of a concatenation are its slices. */
  lemma CatSlices(p: string, q: string)
    ensures (p + q)[..|p|] == p && (p + q)[|p|..] == q
  {
  }

  /** Slicing a prefix again takes a shorter prefix, or the part between. */
  lemma SliceOfPrefix(s: string, n: nat, k: nat)
    requires k <= n <= |s|
    ensures s[..n][..k] == s[..k] && s[..n][k..] == s[k..n]
  {
  }

  lemma DatePartFields(dt: DateTime)
    requires Valid(dt)
    ensures var p := DatePart(dt);
      |p| == 10 && p[4] == '-' && p[7] == '-'
      && AllDigits(p[0..4]) && AllDigits(p[5..7]) && AllDigits(p[8..10])
      && ParseNat(p[0..4]) == dt.year && ParseNat(p[5..7]) == dt.month
      && ParseNat(p[8..10]) == dt.day
  {
    PadLength(dt.year, 4);
    PadLength(dt.month, 2);
    PadLength(dt.day, 2);
    ParsePad(dt.year, 4);
    ParsePad(dt.month, 2);
    ParsePad(dt.day, 2);
    ThreeFields(Pad(dt.year, 4), '-', Pad(dt.month, 2), '-', Pad(dt.day, 2));
    var p := DatePart(dt);
    assert p[0..4] == p[..4];
  }

  lemma TimePartFields(dt: DateTime)
    requires Valid(dt)
    ensures var p := TimePart(dt);
      |p| == 8 && p[2] == ':' && p[5] == ':'
      && AllDigits(p[0..2]) && AllDigits(p[3..5]) && AllDigits(p[6..8])
      && ParseNat(p[0..2]) == dt.hour && ParseNat(p[3..5]) == dt.minute
      && ParseNat(p[6..8]) == dt.second
  {
    PadLength(dt.hour, 2);
    PadLength(dt.minute, 2);
    PadLength(dt.second, 2);
    ParsePad(dt.hour, 2);
    ParsePad(dt.minute, 2);
    ParsePad(dt.second, 2);
    ThreeFields(Pad(dt.hour, 2), ':', Pad(dt.minute, 2), ':', Pad(dt.second, 2));
    var p := TimePart(dt);
    assert p[0..2] == p[..2];
    assert p[6..8] == p[6..];
  }

  /** `datetime.fromisoformat(dt.isoformat()) == dt`. */
  lemma IsoRoundTrip(dt: DateTime)
    requires Valid(dt)
    ensures FromIsoFormat(IsoFormat(dt)) == Some(dt)
  {
    if dt.micro == 0 {
      WholeRoundTrip(dt);
    } else {
      MicroRoundTrip(dt);
    }
  }

  lemma WholeRoundTrip(dt: DateTime)
    requires Valid(dt) && dt.micro == 0
    ensures FromIsoFormat(IsoFormat(dt)) == Some(dt)
  {
    var d, t := DatePart(dt), TimePart(dt);
    DatePartFields(dt);
    TimePartFields(dt);
    var s := d + "T" + t;
    assert IsoFormat(dt) == s + "";
    assert s + "" == s;
    IsoSlices(d, t, s);
    FromIsoFormatFields(s, dt);
  }

  lemma MicroRoundTrip(dt: DateTime)
    requires Valid(dt) && dt.micro != 0
    ensures FromIsoFormat(IsoFormat(dt)) == Some(dt)
  {
    var d, t := DatePart(dt), TimePart(dt);
    DatePartFields(dt);
    TimePartFields(dt);
    PadLength(dt.micro, 6);
    ParsePad(dt.micro, 6);
    var s := d + "T" + t + ("." + Pad(dt.micro, 6));
    assert IsoFormat(dt) == s;
    IsoSlices(d, t, s);
    assert s[19..] == "." + Pad(dt.micro, 6);
    assert s[20..26] == Pad(dt.micro, 6);
    FromIsoFormatMicro(s, dt);
  }

  /** The same for the form with a fraction. */
  lemma FromIsoFormatMicro(s: string, dt: DateTime)
    requires |s| == 26 && DateShape(s) && TimeShape(s) && MicroShape(s)
    requires dt == DateTime(ParseNat(s[0..4]), ParseNat(s[5..7]), ParseNat(s[8..10]),
                            ParseNat(s[11..13]), ParseNat(s[14..16]), ParseNat(s[17..19]), ParseNat(s[20..26]))
    ensures FromIsoFormat(s) == if Valid(dt) then Some(dt) else None
  {
  }

  lemma IsoSlices(d: string, t: string, s: string)
    requires |d| == 10 && |t| == 8 && |s| >= 19 && s[..19] == d + "T" + t
    ensures s[0..4] == d[0..4] && s[4] == d[4] && s[5..7] == d[5..7] && s[7] == d[7] && s[8..10] == d[8..10]
    ensures s[11..13] == t[0..2] && s[13] == t[2] && s[14..16] == t[3..5] && s[16] == t[5] && s[17..19] == t[6..8]
  {
    var p := s[..19];
    assert p[0..10] == d && p[11..19] == t;
    assert s[0..4] == p[0..4] == d[0..4];
    assert s[5..7] == p[5..7] == d[5..7];
    assert s[8..10] == p[8..10] == d[8..10];
    assert s[11..13] == p[11..13] == t[0..2];
    assert s[14..16] == p[14..16] == t[3..5];
    assert s[17..19] == p[17..19] == t[6..8];
  }
}
