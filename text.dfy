/**
 * Character classes and the handful of Python `str` operations the archiver
 * uses: `str(n)`, `str.zfill`, `f"{n:03d}"`, `str.split(" ")`, `str.replace`,
 * `str.strip`, `str.lower`, `str.startswith` and `str.endswith`.
 * Characters are Unicode scalar values; only the ASCII cases of digits,
 * whitespace and case folding are modelled.
 */
module Text {

  datatype Option<+T> = None | Some(value: T)

  /** `\d` restricted to ASCII. */
  predicate IsDigit(c: char) { '0' <= c <= '9' }

  /** The separator class `[ ._-]` of the filename patterns. */
  predicate IsSeparator(c: char) { c == ' ' || c == '.' || c == '_' || c == '-' }

  /** `str.isspace` / regex `\s`, restricted to ASCII. */
  predicate IsSpace(c: char) {
    c == ' ' || c == '\t' || c == '\n' || c == '\r' || c == '\U{B}' || c == '\U{C}'
    || ('\U{1C}' <= c <= '\U{1F}')
  }

  predicate AllDigits(s: string) { forall i :: 0 <= i < |s| ==> IsDigit(s[i]) }

  function DigitChar(d: nat): (c: char)
    requires d < 10
    ensures IsDigit(c)
  {
    ('0' as int + d) as char
  }

  function DigitValue(c: char): (d: nat)
    requires IsDigit(c)
    ensures d < 10 && DigitChar(d) == c
  {
    c as int - '0' as int
  }

  function Pow10(k: nat): (p: nat)
    ensures p >= 1
  {
    if k == 0 then 1 else 10 * Pow10(k - 1)
  }

  /** `str(n)` for a non-negative integer: shortest decimal numeral. */
  function Digits(n: nat): (s: string)
    ensures 1 <= |s| && AllDigits(s)
  {
    if n < 10 then [DigitChar(n)] else Digits(n / 10) + [DigitChar(n % 10)]
  }

  function Zeros(k: nat): (z: string)
    ensures |z| == k && forall i :: 0 <= i < k ==> z[i] == '0'
  {
    if k == 0 then "" else "0" + Zeros(k - 1)
  }

  /** `s.zfill(width)` for a string without sign. */
  function ZFill(s: string, width: nat): (r: string)
    ensures |r| == if |s| >= width then |s| else width
  {
    if |s| >= width then s else Zeros(width - |s|) + s
  }

  /** The padded text ends with the original text, and everything before it is `0`. */
  lemma ZFillShape(s: string, width: nat)
    ensures var r := ZFill(s, width); r[|r| - |s|..] == s
    ensures var r := ZFill(s, width); forall i :: 0 <= i < |r| - |s| ==> r[i] == '0'
  {
  }

  /** `str(n).zfill(width)`, which is also `f"{n:0{width}d}"`. */
  function Pad(n: nat, width: nat): (s: string)
    ensures AllDigits(s) && |s| >= width && |s| >= |Digits(n)|
  {
    ZFill(Digits(n), width)
  }

  /** The value of a string of decimal digits (leading zeros allowed). */
  function ParseNat(s: string): nat
    requires AllDigits(s)
  {
    if |s| == 0 then 0 else 10 * ParseNat(s[..|s| - 1]) + DigitValue(s[|s| - 1])
  }

  lemma {:induction false} ParseDigits(n: nat)
    ensures ParseNat(Digits(n)) == n
  {
    if n >= 10 {
      var s := Digits(n);
      assert s[..|s| - 1] == Digits(n / 10);
      ParseDigits(n / 10);
    }
  }

  lemma {:induction false} ParseLeadingZeros(k: nat, s: string)
    requires AllDigits(s)
    ensures AllDigits(Zeros(k) + s) && ParseNat(Zeros(k) + s) == ParseNat(s)
  {
    if |s| == 0 {
      assert Zeros(k) + s == Zeros(k);
      ParseZeros(k);
    } else {
      var t := Zeros(k) + s;
      assert t[..|t| - 1] == Zeros(k) + s[..|s| - 1];
      ParseLeadingZeros(k, s[..|s| - 1]);
    }
  }

  lemma {:induction false} ParseZeros(k: nat)
    ensures ParseNat(Zeros(k)) == 0
  {
    if k > 0 {
      var z := Zeros(k);
      assert z[..k - 1] == Zeros(k - 1);
      ParseZeros(k - 1);
    }
  }

  /** Padding never loses the value: `int(str(n).zfill(w)) == n`. */
  lemma ParsePad(n: nat, width: nat)
    ensures ParseNat(Pad(n, width)) == n
  {
    ParseDigits(n);
    if |Digits(n)| < width {
      ParseLeadingZeros(width - |Digits(n)|, Digits(n));
    }
  }

  /** The value of a two-digit numeral. */
  lemma ParseTwo(s: string)
    requires |s| == 2 && AllDigits(s)
    ensures ParseNat(s) == 10 * DigitValue(s[0]) + DigitValue(s[1])
  {
    ParseOne(s[..1]);
  }

  lemma ParseOne(s: string)
    requires |s| == 1 && AllDigits(s)
    ensures ParseNat(s) == DigitValue(s[0])
  {
    assert s[..0] == "";
  }

  /** The value of a four-digit numeral. */
  lemma ParseFour(s: string)
    requires |s| == 4 && AllDigits(s)
    ensures ParseNat(s) == 1000 * DigitValue(s[0]) + 100 * DigitValue(s[1]) + 10 * DigitValue(s[2]) + DigitValue(s[3])
  {
    var t := s[..3];
    assert ParseNat(s) == 10 * ParseNat(t) + DigitValue(s[3]);
    assert t[..2] == s[..2];
    assert ParseNat(t) == 10 * ParseNat(s[..2]) + DigitValue(s[2]);
    ParseTwo(s[..2]);
  }

  /** `str(n)` has more than k digits exactly when n >= 10^k (for k >= 1). */
  lemma {:induction false} DigitsLength(n: nat, k: nat)
    ensures n >= Pow10(k) ==> |Digits(n)| > k
    ensures 1 <= k && n < Pow10(k) ==> |Digits(n)| <= k
  {
    if k > 0 {
      assert Pow10(k) == 10 * Pow10(k - 1);
      if n >= 10 {
        DigitsLength(n / 10, k - 1);
      }
    }
  }

  /** A number below 10^w padded to width w has exactly w characters. */
  lemma PadLength(n: nat, width: nat)
    requires 1 <= width && n < Pow10(width)
    ensures |Pad(n, width)| == width
  {
    DigitsLength(n, width);
  }

  predicate StartsWith(s: string, p: string) { |p| <= |s| && s[..|p|] == p }

  predicate EndsWith(s: string, q: string) { |q| <= |s| && s[|s| - |q|..] == q }

  /** `s.replace(c, "")` for one character c. */
  function RemoveChar(s: string, c: char): (r: string)
    ensures c !in r
    ensures forall x :: x != c ==> (x in r <==> x in s)
    ensures |r| == |s| - Count(s, c)
  {
    if |s| == 0 then "" else (if s[0] == c then "" else [s[0]]) + RemoveChar(s[1..], c)
  }

  /** Removing a character works piece by piece, so the other characters keep their order. */
  lemma {:induction false} RemoveCharConcat(a: string, b: string, c: char)
    ensures RemoveChar(a + b, c) == RemoveChar(a, c) + RemoveChar(b, c)
    decreases |a|
  {
    if |a| == 0 {
      assert a + b == b;
    } else {
      assert (a + b)[1..] == a[1..] + b;
      RemoveCharConcat(a[1..], b, c);
    }
  }

  /** `s.replace(a, b)` for single characters a and b. */
  function ReplaceChar(s: string, a: char, b: char): (r: string)
    ensures |r| == |s|
    ensures forall i :: 0 <= i < |s| ==> r[i] == if s[i] == a then b else s[i]
  {
    if |s| == 0 then "" else [if s[0] == a then b else s[0]] + ReplaceChar(s[1..], a, b)
  }

  /**
   * `s.replace(pat, rep)` for a non-empty `pat`: every non-overlapping
   * occurrence, scanning from the left, is replaced.
   */
  function Replace(s: string, pat: string, rep: string): string
    requires |pat| > 0
    decreases |s|
  {
    if |s| < |pat| then s
    else if s[..|pat|] == pat then rep + Replace(s[|pat|..], pat, rep)
    else [s[0]] + Replace(s[1..], pat, rep)
  }

  /** Without an occurrence at the front, the first character is kept and the scan moves on by one. */
  lemma ReplaceSkip(s: string, pat: string, rep: string)
    requires |pat| > 0 && |s| >= |pat| && s[..|pat|] != pat
    ensures Replace(s, pat, rep) == [s[0]] + Replace(s[1..], pat, rep)
  {
  }

  /** An occurrence at the front is replaced, and the scan resumes after it. */
  lemma ReplaceFront(pat: string, rest: string, rep: string)
    requires |pat| > 0
    ensures Replace(pat + rest, pat, rep) == rep + Replace(rest, pat, rep)
  {
    assert (pat + rest)[..|pat|] == pat && (pat + rest)[|pat|..] == rest;
  }

  /** `pat` occurs in s at position i. */
  predicate OccursAt(s: string, pat: string, i: nat) { i + |pat| <= |s| && s[i..i + |pat|] == pat }

  /** Replacing a pattern that does not occur changes nothing. */
  lemma {:induction false} ReplaceAbsent(s: string, pat: string, rep: string)
    requires |pat| > 0
    requires forall i: nat :: !OccursAt(s, pat, i)
    ensures Replace(s, pat, rep) == s
    decreases |s|
  {
    if |s| >= |pat| {
      assert !OccursAt(s, pat, 0);
      forall i: nat ensures !OccursAt(s[1..], pat, i) {
        assert !OccursAt(s, pat, i + 1);
        if i + |pat| <= |s[1..]| {
          assert s[1..][i..i + |pat|] == s[i + 1..i + 1 + |pat|];
        }
      }
      ReplaceAbsent(s[1..], pat, rep);
      assert [s[0]] + s[1..] == s;
    }
  }

  function LeftStrip(s: string): (r: string)
    ensures |r| == 0 || !IsSpace(r[0])
    ensures exists k :: 0 <= k <= |s| && r == s[k..] && forall i :: 0 <= i < k ==> IsSpace(s[i])
  {
    if |s| > 0 && IsSpace(s[0]) then
      var r := LeftStrip(s[1..]);
      var k :| 0 <= k <= |s[1..]| && r == s[1..][k..] && forall i :: 0 <= i < k ==> IsSpace(s[1..][i]);
      assert r == s[k + 1..];
      r
    else
      assert s == s[0..];
      s
  }

  function RightStrip(s: string): (r: string)
    ensures |r| == 0 || !IsSpace(r[|r| - 1])
    ensures exists k :: 0 <= k <= |s| && r == s[..k] && forall i :: k <= i < |s| ==> IsSpace(s[i])
  {
    if |s| > 0 && IsSpace(s[|s| - 1]) then
      var r := RightStrip(s[..|s| - 1]);
      var k :| 0 <= k <= |s| - 1 && r == s[..|s| - 1][..k] && forall i :: k <= i < |s| - 1 ==> IsSpace(s[i]);
      assert r == s[..k];
      r
    else
      assert s == s[..|s|];
      s
  }

  /** `s.strip()`: drop leading and trailing whitespace. */
  function Strip(s: string): string
  {
    RightStrip(LeftStrip(s))
  }

  /** `"".join(parts)`: the pieces one after the other. */
  function Concat(parts: seq<string>): string
  {
    if |parts| == 0 then "" else parts[0] + Concat(parts[1..])
  }

  lemma ConcatFive(gs: seq<string>)
    requires |gs| == 5
    ensures Concat(gs) == gs[0] + gs[1] + gs[2] + gs[3] + gs[4]
  {
    assert gs[4..][1..] == [] && gs[3..][1..] == gs[4..] && gs[2..][1..] == gs[3..] && gs[1..][1..] == gs[2..];
    assert Concat(gs[4..]) == gs[4] + Concat([]);
    assert Concat(gs[3..]) == gs[3] + Concat(gs[4..]);
    assert Concat(gs[2..]) == gs[2] + Concat(gs[3..]);
    assert Concat(gs[1..]) == gs[1] + Concat(gs[2..]);
  }

  lemma ConcatEight(gs: seq<string>)
    requires |gs| == 8
    ensures Concat(gs) == gs[0] + gs[1] + gs[2] + gs[3] + gs[4] + gs[5] + gs[6] + gs[7]
  {
    ConcatFive(gs[3..]);
    assert gs[3..][0] == gs[3] && gs[3..][1] == gs[4] && gs[3..][2] == gs[5] && gs[3..][3] == gs[6] && gs[3..][4] == gs[7];
    assert gs[2..][1..] == gs[3..] && gs[1..][1..] == gs[2..];
    assert Concat(gs[2..]) == gs[2] + Concat(gs[3..]);
    assert Concat(gs[1..]) == gs[1] + Concat(gs[2..]);
  }

  /** Number of occurrences of c in s. */
  function Count(s: string, c: char): nat
  {
    if |s| == 0 then 0 else (if s[0] == c then 1 else 0) + Count(s[1..], c)
  }

  /** Index of the first occurrence of c, or |s| if there is none. */
  function IndexOf(s: string, c: char): (i: nat)
    ensures i <= |s|
    ensures i < |s| ==> s[i] == c
    ensures forall j :: 0 <= j < i ==> s[j] != c
  {
    if |s| == 0 then 0 else if s[0] == c then 0 else 1 + IndexOf(s[1..], c)
  }

  /** `s.split(c)` for a one-character separator (empty pieces are kept). */
  function Split(s: string, c: char): (parts: seq<string>)
    ensures |parts| >= 1
    decreases |s|
  {
    var i := IndexOf(s, c);
    if i == |s| then [s] else [s[..i]] + Split(s[i + 1..], c)
  }

  /** No piece of `s.split(c)` holds c, and joining the pieces with c gives s back. */
  lemma {:induction false} SplitJoin(s: string, c: char)
    ensures forall k :: 0 <= k < |Split(s, c)| ==> c !in Split(s, c)[k]
    ensures JoinWith(Split(s, c), c) == s
    decreases |s|
  {
    var i := IndexOf(s, c);
    if i < |s| {
      var rest := Split(s[i + 1..], c);
      SplitJoin(s[i + 1..], c);
      assert Split(s, c)[1..] == rest;
      assert s == s[..i] + [c] + s[i + 1..];
    }
  }

  /** `c.join(parts)`: the pieces with c between each two. */
  function JoinWith(parts: seq<string>, c: char): string
    requires |parts| >= 1
  {
    if |parts| == 1 then parts[0] else parts[0] + [c] + JoinWith(parts[1..], c)
  }

  lemma {:induction false} CountPrefixFree(s: string, c: char, i: nat)
    requires i <= |s| && forall j :: 0 <= j < i ==> s[j] != c
    ensures Count(s, c) == Count(s[i..], c)
  {
    if i > 0 {
      CountPrefixFree(s[1..], c, i - 1);
      assert s[1..][i - 1..] == s[i..];
    }
  }

  /** `s.split(c)` has one more piece than s has occurrences of c. */
  lemma {:induction false} SplitLength(s: string, c: char)
    ensures |Split(s, c)| == Count(s, c) + 1
    decreases |s|
  {
    var i := IndexOf(s, c);
    CountPrefixFree(s, c, i);
    if i < |s| {
      assert Count(s[i..], c) == 1 + Count(s[i + 1..], c) by {
        assert s[i..][1..] == s[i + 1..];
      }
      SplitLength(s[i + 1..], c);
    } else {
      assert Count(s[i..], c) == 0;
    }
  }

  /** ASCII lower case of one character: `A`..`Z` become `a`..`z`. */
  function LowerChar(x: char): char
  {
    if 'A' <= x <= 'Z' then (x as int + 32) as char else x
  }

  /** ASCII `str.lower`. */
  function Lower(s: string): (r: string)
    ensures |r| == |s|
  {
    if |s| == 0 then ""
    else [LowerChar(s[0])] + Lower(s[1..])
  }

  /** `lower()` maps each `A`..`Z` to its `a`..`z` and leaves every other character as it is. */
  lemma {:induction false} LowerPointwise(s: string)
    ensures forall i :: 0 <= i < |s| ==> Lower(s)[i] == LowerChar(s[i])
    ensures forall i :: 0 <= i < |s| ==> ('A' <= s[i] <= 'Z' <==> 'a' <= Lower(s)[i] <= 'z' && s[i] != Lower(s)[i])
    decreases |s|
  {
    if |s| > 0 {
      LowerPointwise(s[1..]);
    }
  }

  /** Concatenation is associative; the step the path and template proofs regroup by. */
  lemma Regroup(p: string, q: string, r: string)
    ensures p + q + r == p + (q + r)
  {
  }
}
