/**
 * The destination templates of `build_destination_path`: Python's
 * `str.format(**fields)` for templates made of literal text, the escapes
 * `{{` and `}}`, and replacement fields `{name}`.  `None` stands for the
 * exception Python raises (ValueError, KeyError or IndexError).
 */
module Templates {
  import opened Text
  import opened DateTimes
  import opened Paths

  type Fields = map<string, string>

  predicate NoBraces(t: string) { '{' !in t && '}' !in t }

  /** A field name looked up by keyword: not empty, not a positional index, no attribute or index access. */
  predicate PlainName(f: string)
  {
    |f| > 0 && !AllDigits(f)
    && forall i :: 0 <= i < |f| ==> f[i] !in {'{', '}', ':', '!', '.', '['}
  }

  /** Lower-case identifiers such as `year` are plain names. */
  lemma LetterName(f: string)
    requires |f| > 0 && forall i :: 0 <= i < |f| ==> 'a' <= f[i] <= 'z'
    ensures PlainName(f)
  {
    assert !IsDigit(f[0]);
  }

  lemma FieldNamesPlain()
    ensures PlainName("year") && PlainName("month") && PlainName("day")
    ensures PlainName("hour") && PlainName("minute") && PlainName("second")
    ensures PlainName("originalfile") && PlainName("extension")
  {
    LetterName("year");
    LetterName("month");
    LetterName("day");
    LetterName("hour");
    LetterName("minute");
    LetterName("second");
    LetterName("originalfile");
    LetterName("extension");
  }

  function Prepend(x: string, o: Option<string>): Option<string>
  {
    if o.Some? then Some(x + o.value) else None
  }

  /**
   * `t.format(**env)`.  A field with a conversion, a format spec, attribute
   * or index access is not in this subset and counts as an error.
   */
  function Format(t: string, env: Fields): (r: Option<string>)
    ensures NoBraces(t) ==> r == Some(t)
    decreases |t|
  {
    if |t| == 0 then Some("")
    else if t[0] == '{' then
      if |t| >= 2 && t[1] == '{' then Prepend("{", Format(t[2..], env))
      else
        var j := IndexOf(t[1..], '}');
        if j == |t| - 1 then None
        else
          var name := t[1..1 + j];
          if PlainName(name) && name in env then Prepend(env[name], Format(t[j + 2..], env))
          else None
    else if t[0] == '}' then
      if |t| >= 2 && t[1] == '}' then Prepend("}", Format(t[2..], env)) else None
    else
      assert NoBraces(t) ==> NoBraces(t[1..]) by {
        if NoBraces(t) {
          forall c | c in t[1..] ensures c != '{' && c != '}' {
            assert c in t;
          }
        }
      }
      assert [t[0]] + t[1..] == t;
      Prepend([t[0]], Format(t[1..], env))
  }

  /** A literal character before the rest of the template is copied. */
  lemma FormatChar(c: char, rest: string, env: Fields)
    requires c != '{' && c != '}'
    ensures Format([c] + rest, env) == Prepend([c], Format(rest, env))
  {
    assert ([c] + rest)[1..] == rest;
  }

  /** A replacement field before the rest of the template is filled in from env. */
  lemma FormatField(name: string, rest: string, env: Fields)
    requires PlainName(name)
    ensures Format("{" + name + "}" + rest, env)
            == if name in env then Prepend(env[name], Format(rest, env)) else None
  {
    var t := "{" + name + "}" + rest;
    assert t[1..] == name + "}" + rest;
    assert IndexOf(t[1..], '}') == |name| by {
      assert t[1..][|name|] == '}';
      forall k | 0 <= k < |name| ensures t[1..][k] != '}' {
        assert t[1..][k] == name[k];
      }
    }
    assert t[1..1 + |name|] == name;
    assert t[|name| + 2..] == rest;
  }

  lemma PrependAssoc(x: string, y: string, o: Option<string>)
    ensures Prepend(x, Prepend(y, o)) == Prepend(x + y, o)
    ensures Prepend("", o) == o
  {
    if o.Some? {
      assert x + (y + o.value) == (x + y) + o.value;
      assert "" + o.value == o.value;
    }
  }

  lemma NoBracesTail(lit: string)
    requires |lit| > 0 && NoBraces(lit)
    ensures lit[0] != '{' && lit[0] != '}' && NoBraces(lit[1..])
  {
    assert lit[0] in lit;
    forall c | c in lit[1..] ensures c != '{' && c != '}' {
      assert c in lit;
    }
  }

  /** A literal prefix without braces is copied. */
  lemma {:induction false} FormatLiteral(lit: string, rest: string, env: Fields)
    requires NoBraces(lit)
    ensures Format(lit + rest, env) == Prepend(lit, Format(rest, env))
    decreases |lit|
  {
    PrependAssoc("", "", Format(rest, env));
    if |lit| == 0 {
      assert lit + rest == rest;
    } else {
      var c, tl := lit[0], lit[1..];
      NoBracesTail(lit);
      assert lit + rest == [c] + (tl + rest);
      FormatChar(c, tl + rest, env);
      FormatLiteral(tl, rest, env);
      PrependAssoc([c], tl, Format(rest, env));
      assert [c] + tl == lit;
    }
  }

  /** `{year}`, `{month}`, `{day}` of the directory template: the year unpadded, the rest to two digits. */
  function DateFields(dt: DateTime): (env: Fields)
    requires Valid(dt)
    ensures env.Keys == {"year", "month", "day"}
  {
    map["year" := Digits(dt.year), "month" := Pad(dt.month, 2), "day" := Pad(dt.day, 2)]
  }

  /** The fields of the filename template. */
  function NameFields(dt: DateTime, original: string): (env: Fields)
    requires Valid(dt)
    ensures env.Keys == {"originalfile", "year", "month", "day", "hour", "minute", "second", "extension"}
  {
    var (name, ext) := SplitExt(original);
    map["originalfile" := name, "year" := Digits(dt.year), "month" := Pad(dt.month, 2),
        "day" := Pad(dt.day, 2), "hour" := Pad(dt.hour, 2), "minute" := Pad(dt.minute, 2),
        "second" := Pad(dt.second, 2), "extension" := if |ext| > 0 then ext[1..] else ""]
  }

  /**
   * `build_destination_path(created_time, original_filename, path_format,
   * filename_format)` of both `photoarc/core/utils.py` and `core/utils.py`,
   * which are the same: `None` when `fromisoformat` or a template raises.
   */
  function BuildDestinationPath(created: string, original: string, pathFormat: string,
                                filenameFormat: string): (r: Option<(Path, string)>)
    ensures r.Some? <==>
              FromIsoFormat(created).Some?
              && Format(pathFormat, DateFields(FromIsoFormat(created).value)).Some?
              && Format(filenameFormat, NameFields(FromIsoFormat(created).value, original)).Some?
  {
    match FromIsoFormat(created)
    case None => None
    case Some(dt) =>
      match Format(pathFormat, DateFields(dt))
      case None => None
      case Some(path) =>
        match Format(filenameFormat, NameFields(dt, original))
        case None => None
        case Some(filename) => Some((path, filename))
  }

  /** The fields hold the time's numbers: two-digit month to second and an unpadded year. */
  lemma FieldValues(dt: DateTime, original: string)
    requires Valid(dt)
    ensures var env := NameFields(dt, original);
      && env["year"] == Digits(dt.year) && ParseNat(env["year"]) == dt.year
      && |env["month"]| == 2 && ParseNat(env["month"]) == dt.month
      && |env["day"]| == 2 && ParseNat(env["day"]) == dt.day
      && |env["hour"]| == 2 && ParseNat(env["hour"]) == dt.hour
      && |env["minute"]| == 2 && ParseNat(env["minute"]) == dt.minute
      && |env["second"]| == 2 && ParseNat(env["second"]) == dt.second
  {
    var env := NameFields(dt, original);
    ParseDigits(dt.year);
    TwoDigits(dt.month);
    TwoDigits(dt.day);
    TwoDigits(dt.hour);
    TwoDigits(dt.minute);
    TwoDigits(dt.second);
    assert env["month"] == Pad(dt.month, 2);
    assert env["day"] == Pad(dt.day, 2);
    assert env["hour"] == Pad(dt.hour, 2);
    assert env["minute"] == Pad(dt.minute, 2);
    assert env["second"] == Pad(dt.second, 2);
  }

  lemma TwoDigits(n: nat)
    requires n < 100
    ensures |Pad(n, 2)| == 2 && ParseNat(Pad(n, 2)) == n
  {
    PadLength(n, 2);
    ParsePad(n, 2);
  }

  /** The replacement field `{name}`. */
  function Field(name: string): string { "{" + name + "}" }

  /** `"{a}" + sep + "{b}"` with both names bound. */
  lemma FormatTwo(a: string, sep: string, b: string, env: Fields)
    requires PlainName(a) && PlainName(b) && a in env && b in env && NoBraces(sep)
    ensures Format(Field(a) + sep + Field(b), env) == Some(env[a] + sep + env[b])
  {
    var tb := "{" + b + "}" + "";
    FormatField(b, "", env);
    assert Format(tb, env) == Some(env[b]) by {
      assert Format("", env) == Some("");
      assert env[b] + "" == env[b];
    }
    FormatLiteral(sep, tb, env);
    FormatField(a, sep + tb, env);
    assert Field(a) + sep + Field(b) == "{" + a + "}" + (sep + tb);
    assert env[a] + (sep + env[b]) == env[a] + sep + env[b];
  }

  /** `{originalfile}.{extension}` gives back a name that has an extension. */
  lemma OriginalNameKept(dt: DateTime, original: string)
    requires Valid(dt) && SplitExt(original).1 != ""
    ensures Format(Field("originalfile") + "." + Field("extension"), NameFields(dt, original)) == Some(original)
  {
    FieldNamesPlain();
    FormatTwo("originalfile", ".", "extension", NameFields(dt, original));
    NameAndExtension(dt, original);
  }

  /** The name and extension fields put back together with a dot give the original name. */
  lemma NameAndExtension(dt: DateTime, original: string)
    requires Valid(dt) && SplitExt(original).1 != ""
    ensures NameFields(dt, original)["originalfile"] + "." + NameFields(dt, original)["extension"] == original
  {
    var env := NameFields(dt, original);
    var (name, ext) := SplitExt(original);
    assert env["originalfile"] == name && env["extension"] == ext[1..];
    assert ext == "." + ext[1..];
  }

  /** The directory template `{year}/{month}/{day}`. */
  lemma DatedDirectory(dt: DateTime)
    requires Valid(dt)
    ensures Format(Field("year") + "/" + Field("month") + "/" + Field("day"), DateFields(dt))
            == Some(Digits(dt.year) + "/" + Pad(dt.month, 2) + "/" + Pad(dt.day, 2))
  {
    FieldNamesPlain();
    FormatThree("year", "/", "month", "/", "day", DateFields(dt));
  }

  /** `"{a}" + s + "{b}" + t + "{c}"` with all three names bound. */
  lemma FormatThree(a: string, s: string, b: string, t: string, c: string, env: Fields)
    requires PlainName(a) && PlainName(b) && PlainName(c) && a in env && b in env && c in env
    requires NoBraces(s) && NoBraces(t)
    ensures Format(Field(a) + s + Field(b) + t + Field(c), env) == Some(env[a] + s + env[b] + t + env[c])
  {
    var fa, fb, fc := Field(a), Field(b), Field(c);
    var va, vb, vc := env[a], env[b], env[c];
    var tail := fb + t + fc;
    FormatTwo(b, t, c, env);
    FormatLiteral(s, tail, env);
    FormatField(a, s + tail, env);
    Regroup(fa + s + fb, t, fc);
    Regroup(fa + s, fb, t + fc);
    Regroup(fa, s, fb + t + fc);
    Regroup(fb, t, fc);
    Regroup(va + s + vb, t, vc);
    Regroup(va + s, vb, t + vc);
    Regroup(va, s, vb + t + vc);
    Regroup(vb, t, vc);
  }

  /** The directory template only receives the date: a time field in it raises KeyError. */
  lemma TimeFieldInDirectory(dt: DateTime, f: string, rest: string)
    requires Valid(dt) && f in {"hour", "minute", "second", "originalfile", "extension"}
    ensures Format(Field(f) + rest, DateFields(dt)).None?
  {
    FieldNamesPlain();
    FormatField(f, rest, DateFields(dt));
  }
}
