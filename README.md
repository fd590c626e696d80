# photo_backup: timestamp resolution and placement, modelled in Dafny

photo_backup copies photos and videos from a source tree into a
destination tree ordered by date, and records each copy in SQLite. It has
three generations of the same engine:

- `app.py` is the monolithic script with a single `copy_photos_with_exif` pass;
- `core/` is the package with a `PhotoProcessor` and a `VideoProcessor`;
- `photoarc/core/` is the newer package with exclusion, resume sets and content-checked unique names.

Each generation does five things, and this project models every one of them:

1. It reads a date, or a date and time, out of a file name.
2. It turns EXIF text into ISO text and picks a time from EXIF, the name and the file times.
3. It builds the destination directory and file name from templates.
4. It decides, for a destination that already exists, whether to skip the file, rename it or overwrite.
5. It keeps the counters, the resume set and the directory exclusion of a pass.

The destination is a finite map from paths to contents, where an entry
may be unreadable. The source walk is a sequence of directories with
their files. Every observation that comes from a library or from the
operating system is a field of the file's record (`Media.SourceFile`):
EXIF tags, file times, whether the image opens, whether the copy fails,
what the insert returns, and the random tokens.

## Modules

- `Text`: digits, `str(n)`, `zfill`, `split`, `replace`, `strip`, `lower`.
- `DateTimes`: `datetime` values, their order, `isoformat()`, and the `fromisoformat` subset.
- `Paths`: POSIX `os.path.join` and `os.path.splitext`.
- `Store`: the destination tree, the MD5 comparison, and numbered candidate families.
- `Media`: the file record, the walk and the copy-then-record step.
- `Timestamps`: `_convert_to_iso_format` and the stat-based times.
- `FilenamePatterns`: the `[ ._-]` regexes that both packages share, as a deterministic matcher.
- `Templates`: `build_destination_path` with its `str.format` subset.
- One module per source file of the core:
  - `PhotoarcUtils`, `PhotoarcPhoto` and `PhotoarcVideo` for `photoarc/core/`;
  - `CoreUtils`, `CorePhoto` and `CoreVideo` for `core/`;
  - `App` for `app.py`.

Each processor class is a Dafny `class` with the source's counter fields
and its `processed_files` set. Each loop of the passes and of the
unique-name generators is a `while` loop in a method. The loops that only
look for a first match or collect values (over the EXIF fields, the
excluded directories, the candidate times and the positions a regular
expression is tried at) are recursive functions. Each method is proved equal to a function of the inputs: the pass
(`Pass`, `VisitFiles`, `VisitFile`) or the placement (`PlacePhoto`,
`PlaceVideo`, `Decide`). The lemmas state what the source promises about
those functions.

## What the model shows about the source

These come out of the contracts. They are properties of the model, which
follows the code as written; nothing was executed.

- **`app.py` pattern 3 never decides.** Every name that pattern 3 matches
  also matches pattern 1, so a name date from `get_photo_date_from_filename`
  is always at midnight (`App.StampedUnreachable`).
- **`app.py` can end a whole pass on one failed copy.** When `shutil.copy2`
  raises before any copy of the pass has bound `conn`, the `finally` clause
  raises `UnboundLocalError`, and the pass ends (`App.FailedCopyEndsPassIffFirst`).
  An unreadable file at a taken destination also ends the pass, because
  `get_md5` is called outside any `try` (`App.UnreadableTakenTargetEndsPass`).
- **`app.py` deletes before it copies.** With overwrite on, the old file is
  removed first, so when the copy then fails the old file is gone
  (`App.OverwriteLosesFileOnFailedCopy`, where a failing copy is modelled
  as writing nothing).
- **`app.py`'s `generate_unique_filename` is never called by the pass.** It
  keeps only the last two dot-separated segments of the name, and it
  raises `IndexError` for a taken name without a dot (`App.UniqueName`).
- **In `core/`, a date-only name gives no date at all.** The loop returns
  after the first pattern, and the second pattern has five groups where the
  code expects six (`CoreUtils.DateOnlyNameUndated`).
- **In `core/photo_processor.py`, the overwrite setting changes nothing.**
  Both settings end at the same free sibling, so no file is ever
  overwritten (`CorePhoto.OverwriteIgnored`).
- **`core/video_processor.py` raises on a taken destination.** It reads
  `config.overwrite_existing_rule`, which the configuration never defines.
  The routine first walks `name(1)`, `name(2)`, … and skips the video at
  a sibling with the same content; the attribute is read only when that
  walk stops at a free name. So a video whose destination is taken by
  other content, with no file along its `name(n)` chain holding the same
  content, escapes the routine with `AttributeError`, and the pass ends
  (`CoreVideo.PlaceAtTarget`, `CoreVideo.NewContentOnTakenPathRaises`).
- **`photoarc/core/photo_processor.py` cannot import a function it needs.**
  It imports `get_datetime_from_filename`, but `photoarc/core/utils.py`
  defines `get_date_from_filename`. The model uses the latter.
- **`photoarc/core/video_processor.py` imports the older package.** It takes
  its functions from `core.utils`, so its time comes from the older
  extractor and from the change time (`PhotoarcVideo.PlaceVideo`).
- **`app.py` skips a file whose name holds an impossible date.** Such a
  date (for example 30 February) passes the pattern, but `fromisoformat`
  then raises, and the change time is never consulted
  (`App.ImpossibleNameDatePassesOver`).
- **Excluding `a/b` in `photoarc` excludes all of `a`.** The exclusion
  check also matches ancestors, and the walk is pruned there
  (`PhotoarcPhoto.AboveExcluded`).

## Model

Helpers that only name a piece of an expression (`App.StampedText`, the
pattern-3 answer; `App.HasTag`; `App.DotCandidate`, the candidate name of
`generate_unique_filename`) are covered by the rows of the functions that use them.

| member | source | states |
|---|---|---|
| Text.Digits | photoarc/core/utils.py:148 | `str(n)` is a non-empty string of decimal digits |
| Text.ParseDigits | photoarc/core/utils.py:148 | the numeral `str(n)` reads back as n |
| Text.Pad | photoarc/core/utils.py:149-150 | `str(n).zfill(w)` is all digits, at least w long, and no shorter than `str(n)` |
| Text.ZFill | photoarc/core/utils.py:149 | `zfill(w)` pads to w characters and never shortens |
| Text.ZFillShape | photoarc/core/utils.py:149 | the padded text ends with the original text, and everything before it is `0` |
| Text.ParsePad | photoarc/core/utils.py:149-162 | zero padding never changes the value: `int(str(n).zfill(w)) == n` |
| Text.DigitsLength | photoarc/core/utils.py:186 | `str(n)` has more than k digits exactly when n >= 10^k, so `{counter:03d}` has three digits up to 999 and grows past it |
| Text.PadLength | photoarc/core/utils.py:186 | a number below 10^w padded to w has exactly w characters |
| Text.RemoveChar | photoarc/core/photo_processor.py:283 | `replace("\x00", "")` leaves no NUL, keeps every other character, and is shorter by the number of NULs |
| Text.RemoveCharConcat | photoarc/core/photo_processor.py:283 | removing a character works piece by piece, so the characters kept stay in their order |
| Text.ReplaceChar | photoarc/core/photo_processor.py:368 | `replace(":", "-")` keeps the length and changes exactly the colons |
| Text.Replace | app.py:262-280 | `str.replace` with a non-empty pattern; its behaviour is stated by `Text.ReplaceFront`, `Text.ReplaceAbsent` and `App.ReplacePieces` |
| Text.ReplaceFront | app.py:262-280 | an occurrence at the front is replaced and the scan resumes after it |
| Text.ReplaceAbsent | app.py:262-280 | replacing a placeholder that does not occur leaves the text unchanged |
| Text.LeftStrip | photoarc/core/photo_processor.py:283 | `lstrip()` removes exactly the leading whitespace |
| Text.RightStrip | photoarc/core/photo_processor.py:283 | `rstrip()` removes exactly the trailing whitespace |
| Text.Strip | photoarc/core/photo_processor.py:283 | `strip()` is `rstrip()` after `lstrip()`; the two rows above state what each removes |
| Text.IndexOf | photoarc/core/photo_processor.py:367 | the index of the first occurrence of a character, with none before it |
| Text.Split | photoarc/core/photo_processor.py:367 | `split(" ")` gives at least one piece |
| Text.SplitJoin | photoarc/core/photo_processor.py:367 | no piece of `split(c)` holds c, and joining the pieces with c gives back the text |
| Text.SplitLength | photoarc/core/photo_processor.py:367 | `split(c)` gives one more piece than there are occurrences of c |
| Text.Lower | photoarc/core/photo_processor.py:125 | `lower()` keeps the length |
| Text.LowerPointwise | photoarc/core/photo_processor.py:125 | `lower()` maps each `A`..`Z` to its `a`..`z` and leaves every other character as it is |
| DateTimes.BeforeIsStrictTotalOrder | photoarc/core/photo_processor.py:324 | `datetime` comparison is irreflexive, asymmetric, transitive and total |
| DateTimes.Earliest | photoarc/core/photo_processor.py:324 | `min(ts)` is an element of ts and no element is strictly before it |
| DateTimes.FromIsoFormat | photoarc/core/utils.py:144 | what `fromisoformat` accepts is a valid `datetime` |
| DateTimes.FromIsoFormatText | photoarc/core/utils.py:84 | text built from digit fields parses to the time those fields spell, when that time is valid, and fails otherwise |
| DateTimes.FromIsoFormatFields | photoarc/core/utils.py:84 | the `YYYY-MM-DDTHH:MM:SS` text of digit fields parses to the time they spell exactly when that time is valid |
| DateTimes.FromIsoFormatMicro | photoarc/core/photo_processor.py:313-318 | the same for the form with six digits of microseconds that a stat time prints |
| DateTimes.IsoRoundTrip | photoarc/core/photo_processor.py:316-325 | `fromisoformat(dt.isoformat()) == dt` for every valid dt |
| DateTimes.IsoFormat | photoarc/core/photo_processor.py:325 | `isoformat()`, microseconds only when non-zero; `DateTimes.IsoRoundTrip` states that `fromisoformat` reads it back |
| Paths.Join | photoarc/core/utils.py:187 | `os.path.join`: an absolute part replaces the path; otherwise the result ends with the part |
| Paths.JoinPrefix | photoarc/core/utils.py:187 | joining a relative part keeps the path in front and adds at most one `/` between the two |
| Paths.SplitExt | photoarc/core/utils.py:154 | `splitext` splits the name into root + ext, and ext is empty or a dot with no dot or slash after it |
| Paths.SplitExtJoin | core/photo_processor.py:105 | `splitext(join(d, f))` is `(join(d, root), ext)`, where `(root, ext)` is `splitext(f)` |
| Paths.InsertBeforeExtension | core/photo_processor.py:114 | inserting `(n)` between root and extension always changes the path |
| Store.Md5 | photoarc/core/utils.py:22-40 | `get_file_md5` gives a digest exactly when the file exists and is readable |
| Store.SameFileExists | photoarc/core/utils.py:43-56 | `is_same_file` holds exactly when both files are readable with equal contents; a missing or unreadable destination never counts |
| Store.CopyMakesSame | photoarc/core/photo_processor.py:401 | after `copy2` of readable content, source and destination are the same file |
| Store.BeyondHorizon | photoarc/core/utils.py:185-199 | a numbered candidate longer than every existing path does not exist, so every counter loop stops |
| Store.Numbered | photoarc/core/utils.py:186 | the k-th candidate `prefix + f"{k:0{w}d}" + suffix` is at least as long as its parts |
| Store.FirstAbsent | core/utils.py:177-182 | the first counter from k whose candidate is absent: it is absent, and every counter before it is present |
| Store.FirstAbsentLeast | core/utils.py:177-182 | that counter is the least absent one from k |
| Media.CopyAndRecord | photoarc/core/photo_processor.py:401-418 | `copy2` raises exactly when the source is unreadable or the copy fails, and a raising copy is modelled as writing nothing; otherwise the destination holds the source's content, nothing else changes, and the record succeeds exactly when the mtime is readable and the insert succeeds |
| Media.Supported | photoarc/core/photo_processor.py:125 | `file.lower().endswith(supported_types)`: the lower-cased name ends with one of the types |
| Timestamps.ConvertToIsoFormat | photoarc/core/photo_processor.py:364-372 | gives a result exactly when the text has one space; the result is the date part with colons turned into dashes, `T`, then the time part (also `core/photo_processor.py:164-172` and `app.py:157-165`) |
| Timestamps.ConvertExifText | photoarc/core/photo_processor.py:364-372 | the EXIF text `YYYY:MM:DD HH:MM:SS` of a whole-second time converts to its `isoformat()` |
| Timestamps.ConvertOneSpace | photoarc/core/photo_processor.py:367-369 | `a + " " + b` with space-free pieces converts to `a` (colons turned into dashes) + `T` + `b` |
| Timestamps.FileTimeIso | photoarc/core/utils.py:105-126 | there is a result exactly when stat works and the time is valid, and the result parses back to that time |
| Timestamps.ExifTextNulFree | photoarc/core/photo_processor.py:283 | the EXIF text of a time has no NUL, so removing NULs leaves it alone |
| FilenamePatterns.FixedField | photoarc/core/utils.py:70 | every fixed group of the pattern has its width and consists of digits |
| FilenamePatterns.SepEnd | photoarc/core/utils.py:70 | `[ ._-]*` takes the maximal run of separators |
| FilenamePatterns.MatchFieldsSound | photoarc/core/utils.py:70-71 | what the matcher returns is a match of the pattern at that position |
| FilenamePatterns.MatchFieldsComplete | photoarc/core/utils.py:70-71 | every match at a position is the matcher's answer, so the match at a position is unique |
| FilenamePatterns.SepRunMaximal | photoarc/core/utils.py:70 | in a match, each separator run is the maximal one |
| FilenamePatterns.Search | photoarc/core/utils.py:75 | what `re.search` reports is a match at a position no earlier than the start |
| FilenamePatterns.SearchLeftmost | photoarc/core/utils.py:75 | the search reports the leftmost match, and none only when no position matches |
| FilenamePatterns.SearchFindsLeftmost | photoarc/core/utils.py:75 | the leftmost match is exactly what `re.search` returns |
| FilenamePatterns.SearchNone | photoarc/core/utils.py:75 | `re.search` finds nothing exactly when no position starts a match |
| FilenamePatterns.FieldValue | photoarc/core/utils.py:70-71 | a matched group is a number in its field's range: year 1900-2099, month 1-12, day 1-31, hour 0-23, minute and second 0-59 |
| FilenamePatterns.FieldOfValue | photoarc/core/utils.py:70-71 | every number in a field's range, zero-padded to the field's width, matches that field |
| FilenamePatterns.MatchesAtSpells | photoarc/core/utils.py:70-71 | a match at i is exactly a run of groups, one per field, spelled out from i |
| FilenamePatterns.MatchTime | photoarc/core/utils.py:77-84 | the time a date-and-time match spells lies in the field ranges, without microseconds |
| FilenamePatterns.MatchDate | photoarc/core/utils.py:90-94 | the time a date match spells is midnight, in the field ranges |
| FilenamePatterns.DateTimeTextParses | photoarc/core/utils.py:84 | the text of a date-and-time match parses back to the time it spells, unless the day is past the end of the month |
| FilenamePatterns.DateTextParses | photoarc/core/utils.py:94 | the same for the midnight text of a date match |
| Templates.Format | photoarc/core/utils.py:147-151 | `str.format` leaves a template without braces unchanged |
| Templates.FormatChar | photoarc/core/utils.py:147 | a literal character of the template is copied |
| Templates.FormatField | photoarc/core/utils.py:147 | a `{name}` field is filled from the arguments, and a missing name is a `KeyError` |
| Templates.FormatLiteral | photoarc/core/utils.py:147 | a literal that has no braces is copied |
| Templates.DateFields | photoarc/core/utils.py:147-151 | the directory template receives exactly `year`, `month` and `day` |
| Templates.NameFields | photoarc/core/utils.py:155-164 | the filename template receives exactly the eight documented fields |
| Templates.BuildDestinationPath | photoarc/core/utils.py:129-166 | gives a result exactly when `fromisoformat` accepts the time and both templates format |
| Templates.FieldValues | photoarc/core/utils.py:148-163 | the year field is `str(year)` and reads back as the year; month to second are two digits that read back as the time's numbers |
| Templates.TwoDigits | photoarc/core/utils.py:149 | `str(n).zfill(2)` of n < 100 has two characters and reads back as n |
| Templates.OriginalNameKept | photoarc/core/utils.py:154-164 | `{originalfile}.{extension}` gives back a name that has an extension |
| Templates.NameAndExtension | photoarc/core/utils.py:154-163 | the name and extension fields, joined with a dot, give the original name |
| Templates.DatedDirectory | photoarc/core/utils.py:147-151 | `{year}/{month}/{day}` gives `str(year)/MM/DD` |
| Templates.TimeFieldInDirectory | photoarc/core/utils.py:147-151 | a time field in the directory template raises `KeyError` |
| PhotoarcUtils.FirstPatternWins | photoarc/core/utils.py:69-88 | the leftmost date-and-time match decides, whatever date-only match comes earlier |
| PhotoarcUtils.DateOnlyIsMidnight | photoarc/core/utils.py:90-96 | with no date and time anywhere in the name, the leftmost date gives that date at `T00:00:00` |
| PhotoarcUtils.NoDateInName | photoarc/core/utils.py:101-102 | no date is found exactly when neither pattern matches at any position |
| PhotoarcUtils.FoundDateParses | photoarc/core/utils.py:84-94 | a found text parses exactly when its day exists in its month: there is no calendar check |
| PhotoarcUtils.GetDateFromFilename | photoarc/core/utils.py:59-102 | the date-and-time pattern over the whole name, then the date-only pattern; the rows above state its answers |
| PhotoarcUtils.DateTimeAfterPrefix | photoarc/core/utils.py:77-88 | `IMG_20141231_164437.jpg` and every name like it (no digit before the match) gives `2014-12-31T16:44:37` |
| PhotoarcUtils.ShortDateName | photoarc/core/utils.py:90-96 | a name too short for a date and time, whose first digit starts a date, gives that date at midnight |
| PhotoarcUtils.NoMatchBeforeDigit | photoarc/core/utils.py:70 | no match starts before the first digit |
| PhotoarcUtils.NoDateBeforeDigit | photoarc/core/utils.py:70-71 | nor does a date match |
| PhotoarcUtils.TooShortForTime | photoarc/core/utils.py:70 | a date and time needs at least 14 characters |
| PhotoarcUtils.NoCalendarCheck | photoarc/core/utils.py:71 | a date the month lacks still gives a text, which `fromisoformat` then rejects |
| PhotoarcUtils.LeapDayGroups | photoarc/core/utils.py:71 | `20240231` matches as 31 February 2024, a day the month lacks |
| PhotoarcUtils.CounterPathNumbered | photoarc/core/utils.py:186-187 | the `name_NNN.ext` paths are a numbered family padded to three digits |
| PhotoarcUtils.CounterPath | photoarc/core/utils.py:186-187 | `base_NNN.ext` in the destination; `PhotoarcUtils.CounterPathNumbered` states the family it forms |
| PhotoarcUtils.TokenPath | photoarc/core/utils.py:195-196 | `base_<token>.ext` in the destination, where the token stands for `uuid4().hex[:8]` |
| PhotoarcUtils.SuffixSearch | photoarc/core/utils.py:185-199 | the candidate the `while True` loop settles on is accepted: absent, or same-content when contents are checked |
| PhotoarcUtils.SuffixSearchNext | photoarc/core/utils.py:190-199 | a turn that takes neither candidate goes on to the next counter, and that counter is below the horizon |
| PhotoarcUtils.SuffixSearchFirst | photoarc/core/utils.py:185-190 | up to 999, the first accepted counter path is taken |
| PhotoarcUtils.SuffixSearchNotOriginal | photoarc/core/utils.py:186-197 | the result is never the unsuffixed path |
| PhotoarcUtils.CandidatesNotOriginal | photoarc/core/utils.py:186-197 | neither `name_NNN` nor `name_<token>` is the unsuffixed path |
| PhotoarcUtils.Lengthened | photoarc/core/utils.py:186 | inserting `_` and more before the extension changes the joined path |
| PhotoarcUtils.SearchSuffixes | photoarc/core/utils.py:185-199 | the loop returns what the search function gives from counter 1, with a token tried after each counter past 999 |
| PhotoarcUtils.GenerateUniqueFilename | photoarc/core/utils.py:169-199 | `generate_unique_filename` returns an absent path, never the unsuffixed one |
| PhotoarcUtils.FirstFreeCounter | photoarc/core/utils.py:185-190 | the first free counter path up to 999 is taken |
| PhotoarcUtils.ContentCheckedName | photoarc/core/utils.py:223-258 | the result is absent or holds the source's content |
| PhotoarcUtils.GenerateUniqueFilenameWithContentCheck | photoarc/core/utils.py:202-258 | returns the content-checked choice (the unsuffixed path when it is absent or same-content, otherwise the search that also accepts same-content candidates), and the result is always absent or same-content |
| PhotoarcUtils.FirstUsableCounter | photoarc/core/utils.py:235-249 | with contents checked, the first counter path up to 999 that is absent or same-content is taken |
| PhotoarcPhoto.FirstAccepted | photoarc/core/photo_processor.py:281-292 | the loop over tag names stops at the first accepted one, with none before it |
| PhotoarcPhoto.FirstOfThree | photoarc/core/photo_processor.py:275-292 | of the three tags, the first usable one decides |
| PhotoarcPhoto.ExtractExifDatetime | photoarc/core/photo_processor.py:272-292 | `DateTimeOriginal`, else `DateTimeDigitized`, else `Image DateTime`, whichever is first usable (non-empty after NUL removal and `strip`, and convertible); otherwise None |
| PhotoarcPhoto.ExifTimeOfFields | photoarc/core/photo_processor.py:281-292 | the same priority for any three tag names |
| PhotoarcPhoto.ExifTextClean | photoarc/core/photo_processor.py:283 | NUL removal and `strip` leave the EXIF text of a time unchanged |
| PhotoarcPhoto.ExifTagGivesTime | photoarc/core/photo_processor.py:281-290 | a tag holding the EXIF text of a whole-second time is usable and gives that time's `isoformat()` |
| PhotoarcPhoto.Present | photoarc/core/photo_processor.py:298 | `[t for t in xs if t is not None]` keeps exactly the present values |
| PhotoarcPhoto.ParsedTimes | photoarc/core/photo_processor.py:313-318 | the parsed list holds exactly the times of the texts `fromisoformat` accepts |
| PhotoarcPhoto.GetEarliestTime | photoarc/core/photo_processor.py:294-325 | None exactly when no compared text parses; otherwise the `isoformat()` of a compared time that no compared time precedes |
| PhotoarcPhoto.NothingGivesNone | photoarc/core/photo_processor.py:298-300 | with every input None the result is None |
| PhotoarcPhoto.MidnightSetAside | photoarc/core/photo_processor.py:304-310 | a midnight filename time is ignored when an EXIF or modification time is present |
| PhotoarcPhoto.EarliestDeterminedBy | photoarc/core/photo_processor.py:298-325 | the result depends only on the list of texts compared |
| PhotoarcPhoto.EarlierOfTwo | photoarc/core/photo_processor.py:312-325 | of two parsable candidates that are both compared, the earlier wins |
| PhotoarcPhoto.EarliestOfTwo | photoarc/core/photo_processor.py:324 | `min` of two times is the earlier, and the first on a tie |
| PhotoarcPhoto.GetPhotoModificationTime | photoarc/core/photo_processor.py:236-270 | a usable `DateTimeOriginal` short-circuits; no time at all means that the modification time is unreadable |
| PhotoarcPhoto.ModificationTimeChoice | photoarc/core/photo_processor.py:236-270 | with the reader available and a usable tag the EXIF time is the answer; otherwise it is the earliest of the filename date and the modification time |
| PhotoarcPhoto.ParsableModTime | photoarc/core/photo_processor.py:298-325 | a parsable modification time always gives some time |
| PhotoarcPhoto.ExifIgnoresNameAndStat | photoarc/core/photo_processor.py:249-254 | with a usable EXIF date, neither the name nor the file times matter |
| PhotoarcPhoto.DateOnlyNameLosesToMtime | photoarc/core/photo_processor.py:256-265 | a date-only filename loses to a readable modification time |
| PhotoarcPhoto.SingleCandidate | photoarc/core/photo_processor.py:312-325 | one parsable candidate gives its own normalised text |
| PhotoarcPhoto.IsExcludedDirectory | photoarc/core/photo_processor.py:75-101 | the root `.` is never excluded; otherwise a directory is excluded exactly when it equals an entry, lies below one or is an ancestor of one |
| PhotoarcPhoto.AnyRelated | photoarc/core/photo_processor.py:85-98 | the loop over entries finds a related entry exactly when one exists |
| PhotoarcPhoto.Related | photoarc/core/photo_processor.py:90-94 | the three tests of `_is_excluded_directory` for one entry; `PhotoarcPhoto.BelowExcluded` and `PhotoarcPhoto.AboveExcluded` use them |
| PhotoarcPhoto.BelowExcluded | photoarc/core/photo_processor.py:93 | a directory below an excluded one is excluded |
| PhotoarcPhoto.AboveExcluded | photoarc/core/photo_processor.py:94 | a directory above an excluded one is excluded too |
| PhotoarcPhoto.PlacePhoto | photoarc/core/photo_processor.py:171-223 | no time (or an empty one) gives an error; a template failure escapes; with overwrite off, the chosen path is absent |
| PhotoarcPhoto.SameContentSkipped | photoarc/core/photo_processor.py:193-200 | a destination that already holds the photo's content means no copy |
| PhotoarcPhoto.ProcessSinglePhoto | photoarc/core/photo_processor.py:171-234 | `"copied"` exactly when placed and the copy and record succeed; `Escapes` exactly when the template raised; `"skipped"` exactly for same content |
| PhotoarcPhoto.VisitedSound | photoarc/core/photo_processor.py:116-121 | every directory processed comes from the walk and is not excluded, and every pruned directory is excluded |
| PhotoarcPhoto.VisitFileTally | photoarc/core/photo_processor.py:125-148 | each supported file moves exactly one of copies, skips and errors, and the file count by at most one |
| PhotoarcPhoto.VisitFilesTally | photoarc/core/photo_processor.py:124-148 | the same for a directory's files |
| PhotoarcPhoto.VisitEntriesTally | photoarc/core/photo_processor.py:116-149 | the same for the directories processed |
| PhotoarcPhoto.PassTally | photoarc/core/photo_processor.py:103-157 | after a pass, copied + skipped + errors is the number of supported files in the processed directories, and the file count is at most that |
| PhotoarcPhoto.VisitFileRuns | photoarc/core/photo_processor.py:135-148 | a supported file not in the resume set goes through the per-file routine |
| PhotoarcPhoto.FileStepTally | photoarc/core/photo_processor.py:137-147 | one outcome moves exactly one counter |
| PhotoarcPhoto.VisitFileProcessed | photoarc/core/photo_processor.py:140-143 | one file adds at most its own path to the resume set, and only when it is copied |
| PhotoarcPhoto.VisitFilesProcessed | photoarc/core/photo_processor.py:140-143 | the resume set only grows, by at most one path per copy |
| PhotoarcPhoto.FileStepProcessed | photoarc/core/photo_processor.py:143 | only `"copied"` adds to the resume set |
| PhotoarcPhoto.VisitFilesKeeps | photoarc/core/photo_processor.py:203-216 | with overwrite off, a directory's files change no file that was already in the destination |
| PhotoarcPhoto.VisitEntriesKeeps | photoarc/core/photo_processor.py:203-216 | the same across directories |
| PhotoarcPhoto.PassNeverOverwrites | photoarc/core/photo_processor.py:203-216 | with overwrite off, a pass never changes a file that was already in the destination |
| PhotoarcPhoto.ProcessedSkipped | photoarc/core/photo_processor.py:128-133 | a path in the resume set counts as skipped and is not looked at again |
| PhotoarcPhoto.PhotoProcessor.constructor | photoarc/core/photo_processor.py:63-73 | the counters start at zero and the resume set starts empty |
| PhotoarcPhoto.PhotoProcessor.ProcessPhotos | photoarc/core/photo_processor.py:103-157 | the pass over the walk leaves the counters, the resume set and the tree that the pass function gives |
| PhotoarcPhoto.PhotoProcessor.ProcessEntry | photoarc/core/photo_processor.py:115-124 | one directory of the walk: below a pruned directory nothing changes; an excluded directory is pruned and nothing else changes; otherwise the state becomes the one the directory function gives |
| PhotoarcPhoto.PhotoProcessor.ProcessDirectory | photoarc/core/photo_processor.py:124-148 | the inner loop over one directory matches its function |
| PhotoarcPhoto.PhotoProcessor.ProcessFile | photoarc/core/photo_processor.py:125-148 | one file matches its function |
| PhotoarcPhoto.PhotoProcessor.RecordOutcome | photoarc/core/photo_processor.py:137-147 | the counter and resume-set updates for one outcome |
| PhotoarcPhoto.VisitedStep | photoarc/core/photo_processor.py:116-121 | one more step of the walk, with its exclusion decision |
| PhotoarcPhoto.WalkStep | photoarc/core/photo_processor.py:116-123 | one more step of the walk, with the directories it processes |
| PhotoarcPhoto.VisitEntriesStep | photoarc/core/photo_processor.py:116-149 | processing one more directory |
| PhotoarcPhoto.LoadProcessedFiles | photoarc/core/photo_processor.py:159-169 | the recorded paths, or the empty set when the query fails; `PhotoarcPhoto.ProcessedSkipped` states their use |
| PhotoarcPhoto.Visited | photoarc/core/photo_processor.py:116-121 | the directories the walk processes; `PhotoarcPhoto.VisitedSound` states which |
| PhotoarcPhoto.FileStep | photoarc/core/photo_processor.py:137-147 | the counters after one outcome; `PhotoarcPhoto.FileStepTally` and `PhotoarcPhoto.FileStepProcessed` state it |
| PhotoarcPhoto.VisitFile | photoarc/core/photo_processor.py:125-148 | one file; `PhotoarcPhoto.VisitFileTally`, `PhotoarcPhoto.VisitFileRuns` and `PhotoarcPhoto.VisitFileProcessed` state it |
| PhotoarcPhoto.VisitFiles | photoarc/core/photo_processor.py:124-148 | the inner loop; `PhotoarcPhoto.VisitFilesTally`, `PhotoarcPhoto.VisitFilesProcessed` and `PhotoarcPhoto.VisitFilesKeeps` state it |
| PhotoarcPhoto.VisitEntries | photoarc/core/photo_processor.py:116-149 | the outer loop; `PhotoarcPhoto.VisitEntriesTally` and `PhotoarcPhoto.VisitEntriesKeeps` state it |
| PhotoarcPhoto.Pass | photoarc/core/photo_processor.py:103-157 | `process_photos`; `PhotoarcPhoto.PassTally` and `PhotoarcPhoto.PassNeverOverwrites` state it |
| PhotoarcVideo.FirstFreeSuffix | photoarc/core/video_processor.py:143-148 | the counter the `_NNN` loop stops at: its path is absent, and all paths from 1 below it are present |
| PhotoarcVideo.CounterFamily | photoarc/core/video_processor.py:146-147 | the `_NNN` paths of one destination are a numbered family |
| PhotoarcVideo.FirstFreeSuffixLeast | photoarc/core/video_processor.py:143-148 | that counter is the least free one |
| PhotoarcVideo.PlaceAtTarget | photoarc/core/video_processor.py:130-148 | an absent destination is used; a skip happens exactly for same content; with overwrite off, the chosen path is absent; a present chosen path means overwrite on and the original path |
| PhotoarcVideo.PlaceVideo | photoarc/core/video_processor.py:112-148 | no time (or an empty one) gives an error; a template failure escapes; a skip means same content at the destination; with overwrite off, a placed path is absent; a placed path that exists is the destination itself, with overwrite on |
| PhotoarcVideo.SuffixIgnoresContent | photoarc/core/video_processor.py:141-148 | with overwrite off, the first free `_NNN` is taken, even past a candidate that holds the same content |
| PhotoarcVideo.OverwriteKeepsPath | photoarc/core/video_processor.py:141 | with overwrite on, the destination path is kept whatever it holds |
| PhotoarcVideo.PlaceSingleVideo | photoarc/core/video_processor.py:114-148 | the imperative routine gives the placement function's answer |
| PhotoarcVideo.PlaceOnTarget | photoarc/core/video_processor.py:132-148 | the existence check gives the placement at the target |
| PhotoarcVideo.SuffixLoop | photoarc/core/video_processor.py:143-148 | `while os.path.exists` ends at the first free `_NNN` |
| PhotoarcVideo.SuffixTaken | photoarc/core/video_processor.py:145-148 | the loop reaches counter c only while candidate c - 1 is taken, so c never passes the first free counter |
| PhotoarcVideo.ProcessSingleVideo | photoarc/core/video_processor.py:112-158 | a skip exactly for same content; `Raised` exactly when the template or a non-OS insert error escapes; a copy leaves the content at the destination; an existing file can change only when it is the destination itself and overwrite is on |
| PhotoarcVideo.RunPlacementFacts | photoarc/core/video_processor.py:150-154 | what the copy step does with a placement |
| PhotoarcVideo.PassGrows | photoarc/core/video_processor.py:53-92 | from zero counters and the loaded set, the pass moves the counters by the supported files walked, or fewer when an exception ended it; the resume set and the destination only grow |
| PhotoarcVideo.VisitFileGrows | photoarc/core/video_processor.py:68-91 | a supported file moves exactly one counter (none if an exception ends the pass) and the file count with it; the resume set and the destination only grow |
| PhotoarcVideo.VisitFilesGrows | photoarc/core/video_processor.py:67-91 | a directory moves the counters by its supported files, or fewer when an exception ends the pass |
| PhotoarcVideo.VisitEntriesGrows | photoarc/core/video_processor.py:65-92 | the walk moves the counters by its supported files, or fewer when an exception ends the pass |
| PhotoarcVideo.PassCounts | photoarc/core/video_processor.py:65-92 | after a pass, `file_count` equals copied + skipped + errors, and is at most the number of supported files |
| PhotoarcVideo.PassCountsAll | photoarc/core/video_processor.py:65-92 | unless an exception ended the pass, every supported file walked is counted |
| PhotoarcVideo.PassResumeSet | photoarc/core/video_processor.py:83-86 | a pass keeps the loaded resume set and adds at most one path per copy |
| PhotoarcVideo.ProcessedSkipped | photoarc/core/video_processor.py:72-76 | a path in the resume set counts as skipped without being looked at again |
| PhotoarcVideo.VisitFilesKeeps | photoarc/core/video_processor.py:141-148 | with overwrite off, a directory's files change no file that was already in the destination |
| PhotoarcVideo.VisitEntriesKeeps | photoarc/core/video_processor.py:141-148 | the same across directories |
| PhotoarcVideo.PassNeverOverwrites | photoarc/core/video_processor.py:141-148 | with overwrite off, a pass never changes a file that was already in the destination |
| PhotoarcVideo.VisitFilesAborted | photoarc/core/video_processor.py:89-91 | once an exception has ended the pass, the remaining files change nothing |
| PhotoarcVideo.VisitFilesStays | photoarc/core/video_processor.py:89-91 | an ended pass visits no more files |
| PhotoarcVideo.VisitEntriesAborted | photoarc/core/video_processor.py:89-91 | once the pass has ended, the remaining directories change nothing |
| PhotoarcVideo.VideoProcessor.constructor | photoarc/core/video_processor.py:42-51 | the counters start at zero and the resume set starts empty |
| PhotoarcVideo.VideoProcessor.ProcessVideos | photoarc/core/video_processor.py:53-100 | the pass leaves the state that the pass function gives, and reports whether an exception escaped |
| PhotoarcVideo.VideoProcessor.ProcessDirectory | photoarc/core/video_processor.py:67-91 | the inner loop matches its function, until an exception |
| PhotoarcVideo.VideoProcessor.ProcessFile | photoarc/core/video_processor.py:68-91 | one file matches its function |
| PhotoarcVideo.VideoProcessor.RunFile | photoarc/core/video_processor.py:78-88 | a supported file not in the resume set: the routine, then the counter updates |
| PhotoarcVideo.VideoProcessor.RecordOutcome | photoarc/core/video_processor.py:80-88 | the counter and resume-set updates for one outcome |
| PhotoarcVideo.VisitFileResumed | photoarc/core/video_processor.py:72-76 | a resumed file bumps the skip count and the file count |
| PhotoarcVideo.VisitFileRuns | photoarc/core/video_processor.py:78-79 | any other supported file goes through the routine |
| PhotoarcVideo.FileStep | photoarc/core/video_processor.py:80-91 | the counters and resume set after one outcome; `Raised` ends the pass; `PhotoarcVideo.VisitFileGrows` states it |
| PhotoarcVideo.VisitFile | photoarc/core/video_processor.py:68-91 | one file; `PhotoarcVideo.VisitFileGrows`, `PhotoarcVideo.VisitFileResumed` and `PhotoarcVideo.VisitFileRuns` state it |
| PhotoarcVideo.VisitFiles | photoarc/core/video_processor.py:67-91 | the inner loop; `PhotoarcVideo.VisitFilesGrows`, `PhotoarcVideo.VisitFilesKeeps` and `PhotoarcVideo.VisitFilesAborted` state it |
| PhotoarcVideo.VisitEntries | photoarc/core/video_processor.py:65-92 | the outer loop; `PhotoarcVideo.VisitEntriesGrows`, `PhotoarcVideo.VisitEntriesKeeps` and `PhotoarcVideo.VisitEntriesAborted` state it |
| PhotoarcVideo.Pass | photoarc/core/video_processor.py:53-100 | `process_videos`; `PhotoarcVideo.PassGrows`, `PhotoarcVideo.PassCounts` and `PhotoarcVideo.PassNeverOverwrites` state it |
| CoreUtils.LeftmostDateTime | core/utils.py:74-88 | the leftmost date-and-time match decides |
| CoreUtils.UndatedName | core/utils.py:74-101 | no date is found exactly when no position starts a date and time |
| CoreUtils.DateOnlyNameUndated | core/utils.py:89-101 | a date-only name such as `20241230.jpg` gives nothing here, while the newer extractor gives its midnight |
| CoreUtils.AgreesWithPhotoarc | core/utils.py:59-102 | whenever this extractor finds a date, the newer one finds the same |
| CoreUtils.GetDateFromFilename | core/utils.py:59-102 | the leftmost date-and-time match, or none; the rows above state its answers |
| CoreUtils.DateTimeAfterPrefix | core/utils.py:70-88 | `VID_20141231_164437.mp4` and every name like it gives `2014-12-31T16:44:37` |
| CoreUtils.FoundTimeParses | core/utils.py:84 | a found text parses back to its time unless the day is past the end of the month |
| CoreUtils.ParenPathNumbered | core/utils.py:178-179 | the `name(n).ext` paths are a numbered family without padding |
| CoreUtils.ParenPath | core/utils.py:178-179 | `base(n).ext` in the destination; `CoreUtils.ParenPathNumbered` states the family it forms |
| CoreUtils.ParenNotOriginal | core/utils.py:178-179 | no `name(n).ext` is the unnumbered path |
| CoreUtils.FirstFreeParen | core/utils.py:175-182 | the counter the loop stops at: its path is absent, and all from 1 below it are present |
| CoreUtils.FirstFreeParenLeast | core/utils.py:175-182 | that counter is the least free one |
| CoreUtils.GenerateUniqueFilename | core/utils.py:163-182 | `generate_unique_filename` returns the first absent `name(n).ext`, which is absent and never the unnumbered path |
| CorePhoto.GetPhotoCreationTime | core/photo_processor.py:132-151 | an unopenable image gives None; a None result means no image, a tag present, or an unusable change time |
| CorePhoto.OriginalTagDecides | core/photo_processor.py:137-139 | with a `DateTimeOriginal` tag, neither the name nor the change time matters |
| CorePhoto.OriginalTagGivesTime | core/photo_processor.py:137-139 | the EXIF text of a whole-second time in the tag gives its `isoformat()` |
| CorePhoto.MalformedTagNoFallback | core/photo_processor.py:137-139 | a tag that does not convert gives no time at all, with no fallback |
| CorePhoto.NameTimeWithoutTag | core/photo_processor.py:141-144 | without the tag, the leftmost date and time in the name is used |
| CorePhoto.ChangeTimeLast | core/photo_processor.py:146-147 | without the tag or a name time, the change time is used |
| CorePhoto.SiblingNumbered | core/photo_processor.py:114 | the `base(n)ext` siblings are a numbered family |
| CorePhoto.SiblingBelowHorizon | core/photo_processor.py:107 | an existing sibling lies below the horizon, so the walk ends |
| CorePhoto.SiblingWalk | core/photo_processor.py:105-115 | the walk ends at an absent sibling or at a same-content one |
| CorePhoto.CollisionWalk | core/photo_processor.py:104-115 | the whole walk first tries the destination itself; an absent destination is used as it is |
| CorePhoto.SiblingWalkFree | core/photo_processor.py:107-115 | with no same-content sibling before the first gap, the walk ends at the gap |
| CorePhoto.SiblingWalkSame | core/photo_processor.py:107-115 | the walk ends at the first same-content sibling if no gap comes before it |
| CorePhoto.SiblingWalkFirstGap | core/photo_processor.py:107-115 | a walk that ends at a gap ends at the first one |
| CorePhoto.WalkFromStep | core/photo_processor.py:107-115 | a different-content file moves the walk to the next sibling |
| CorePhoto.WalkCollisions | core/photo_processor.py:105-115 | the `while` loop gives the walk function's answer |
| CorePhoto.PlaceAtTarget | core/photo_processor.py:101-120 | a skip or an absent path; an absent destination is used as it is |
| CorePhoto.PlacePhoto | core/photo_processor.py:83-120 | no time gives an error; a template failure escapes; a placed path is always absent |
| CorePhoto.FreeTargetUsed | core/photo_processor.py:101-104 | a free destination is used as it is |
| CorePhoto.PlaceSinglePhoto | core/photo_processor.py:85-120 | the imperative routine gives the placement function's answer |
| CorePhoto.SameFamily | core/photo_processor.py:105 | the siblings of the full path are the family `generate_unique_filename` tries |
| CorePhoto.GapIsUniqueName | core/photo_processor.py:114-120 | `generate_unique_filename` finds the gap the walk ended at |
| CorePhoto.TargetOverwriteIgnored | core/photo_processor.py:117-120 | for one destination, the overwrite setting does not change the placement |
| CorePhoto.OverwriteIgnored | core/photo_processor.py:117-120 | the overwrite setting never changes the placement, so no existing file is replaced |
| CorePhoto.SameContentSkipped | core/photo_processor.py:106-113 | an existing destination with the photo's content means no copy |
| CorePhoto.CopyPhoto | core/photo_processor.py:174-199 | `"copied"` or `"error"`; `"copied"` exactly when the image opens and the copy and record succeed, and then the content is at the destination |
| CorePhoto.ProcessSinglePhoto | core/photo_processor.py:83-130 | `Raised` exactly when the template raised; `"skipped"` exactly for same content; `"copied"` puts the content at an absent placed path |
| CorePhoto.RunPlacementFacts | core/photo_processor.py:122-126 | what the copy step does with a placement |
| CorePhoto.VisitFilesGrows | core/photo_processor.py:59-73 | over a directory, each supported file moves exactly one counter |
| CorePhoto.VisitEntriesGrows | core/photo_processor.py:59-73 | the same over the walk |
| CorePhoto.PassSummary | core/photo_processor.py:53-81 | after a pass, copied + skipped + errors is the number of supported files, the file count is at most that, and no file already in the destination is changed |
| CorePhoto.PhotoProcessor.constructor | core/photo_processor.py:43-51 | the counters start at zero |
| CorePhoto.PhotoProcessor.ProcessPhotos | core/photo_processor.py:53-81 | the pass leaves the counters and the tree that the pass function gives |
| CorePhoto.PhotoProcessor.ProcessDirectory | core/photo_processor.py:60-73 | the inner loop matches its function |
| CorePhoto.PhotoProcessor.ProcessFile | core/photo_processor.py:61-73 | one file matches its function |
| CorePhoto.PhotoProcessor.RecordOutcome | core/photo_processor.py:64-70 | the counter updates for one outcome |
| CorePhoto.VisitFileRuns | core/photo_processor.py:62-63 | a supported file goes through the routine |
| CorePhoto.VisitFileGrows | core/photo_processor.py:61-73 | a supported file moves exactly one counter; existing files keep their content and each copy adds a path |
| CorePhoto.FileStep | core/photo_processor.py:64-70 | the counters after one outcome; `CorePhoto.VisitFileGrows` states it |
| CorePhoto.VisitFile | core/photo_processor.py:61-73 | one file; `CorePhoto.VisitFileGrows` and `CorePhoto.VisitFileRuns` state it |
| CorePhoto.VisitFiles | core/photo_processor.py:60-73 | the inner loop; `CorePhoto.VisitFilesGrows` states it |
| CorePhoto.VisitEntries | core/photo_processor.py:59-73 | the outer loop; `CorePhoto.VisitEntriesGrows` states it |
| CorePhoto.Pass | core/photo_processor.py:53-81 | `process_photos`; `CorePhoto.PassSummary` states it |
| CoreVideo.GetVideoCreationTime | core/video_processor.py:130-138 | the name's date and time or the change time; None means there is no usable change time |
| CoreVideo.NameTimeFirst | core/video_processor.py:133-135 | a date and time in the name decides, whatever the change time |
| CoreVideo.UndatedUsesChangeTime | core/video_processor.py:137-138 | without one, the change time is used |
| CoreVideo.DateOnlyNameUsesChangeTime | core/video_processor.py:133-138 | a date-only name uses the change time, not the midnight the newer extractor gives |
| CoreVideo.PlaceAtTarget | core/video_processor.py:101-118 | the routine escapes exactly when the flag is missing and the walk ends at a gap; a placed path is absent |
| CoreVideo.PlaceVideo | core/video_processor.py:81-118 | no time gives an error; an escape is a template failure or the missing flag; a placed path is absent |
| CoreVideo.NewContentOnTakenPathRaises | core/video_processor.py:115 | with the flag missing, new content at a taken destination always raises |
| CoreVideo.RuleSetPlacesLikePhotos | core/video_processor.py:101-118 | with the flag set, a video is placed as `core/photo_processor.py` places a photo |
| CoreVideo.PlaceSingleVideo | core/video_processor.py:83-118 | the imperative routine gives the placement function's answer |
| CoreVideo.PlaceOnTarget | core/video_processor.py:101-118 | the existence check with both loops gives the placement at the target |
| CoreVideo.CopyVideo | core/video_processor.py:140-163 | not a skip; `"copied"` exactly when the copy, the mtime and the insert succeed; `Raised` exactly when a non-OS insert error escapes |
| CoreVideo.RunPlacementFacts | core/video_processor.py:120-124 | what the copy step does with a placement |
| CoreVideo.ProcessSingleVideo | core/video_processor.py:81-128 | a skip exactly for same content; `Raised` exactly for an escaping template, flag or insert error; a copy leaves the content at the destination |
| CoreVideo.PassGrows | core/video_processor.py:53-71 | from zero counters, the pass moves the counters by the supported files walked, or fewer when an exception ended it; existing files keep their content |
| CoreVideo.VisitFileGrows | core/video_processor.py:59-71 | a supported file moves exactly one counter (none if an exception ends the pass); existing files keep their content and each copy adds a path |
| CoreVideo.VisitFilesGrows | core/video_processor.py:58-71 | a directory moves the counters by its supported files, or fewer when an exception ends the pass |
| CoreVideo.VisitEntriesGrows | core/video_processor.py:57-71 | the walk moves the counters by its supported files, or fewer when an exception ends the pass |
| CoreVideo.PassCounts | core/video_processor.py:50-79 | after a pass, `file_count` equals copied + skipped + errors, which is the number of supported files unless an exception ended the pass |
| CoreVideo.PassNeverOverwrites | core/video_processor.py:101-124 | a pass changes no file that was already in the destination |
| CoreVideo.VisitFilesAborted | core/video_processor.py:69-71 | once an exception has ended the pass, the remaining files change nothing |
| CoreVideo.VisitFilesStays | core/video_processor.py:69-71 | an ended pass visits no more files |
| CoreVideo.VisitEntriesAborted | core/video_processor.py:69-71 | once the pass has ended, the remaining directories change nothing |
| CoreVideo.VideoProcessor.constructor | core/video_processor.py:40-48 | the counters start at zero |
| CoreVideo.VideoProcessor.ProcessVideos | core/video_processor.py:50-79 | the pass leaves the state that the pass function gives, and reports whether an exception escaped |
| CoreVideo.VideoProcessor.ProcessDirectory | core/video_processor.py:58-71 | the inner loop matches its function, until an exception |
| CoreVideo.VideoProcessor.ProcessFile | core/video_processor.py:59-71 | one file matches its function |
| CoreVideo.VideoProcessor.RecordOutcome | core/video_processor.py:61-68 | the counter updates for one outcome |
| CoreVideo.VisitFileRuns | core/video_processor.py:60-61 | a supported file goes through the routine |
| CoreVideo.FileStep | core/video_processor.py:61-71 | the counters after one outcome; `Raised` ends the pass; `CoreVideo.VisitFileGrows` states it |
| CoreVideo.VisitFile | core/video_processor.py:59-71 | one file; `CoreVideo.VisitFileGrows` and `CoreVideo.VisitFileRuns` state it |
| CoreVideo.VisitFiles | core/video_processor.py:58-71 | the inner loop; `CoreVideo.VisitFilesGrows` and `CoreVideo.VisitFilesAborted` state it |
| CoreVideo.VisitEntries | core/video_processor.py:57-71 | the outer loop; `CoreVideo.VisitEntriesGrows` and `CoreVideo.VisitEntriesAborted` state it |
| CoreVideo.Pass | core/video_processor.py:50-79 | `process_videos`; `CoreVideo.PassGrows`, `CoreVideo.PassCounts` and `CoreVideo.PassNeverOverwrites` state it |
| App.NextDigit | app.py:182-184 | the greedy `(\D*)` group: every character it passes is a non-digit, and it stops at a digit or at the end |
| App.Search | app.py:186-190 | what `re.search` reports is a position where the pattern's block matches |
| App.SearchLeftmost | app.py:186-190 | the search finds the leftmost block, and none only when there is none |
| App.SearchAnswers | app.py:186-190 | the leftmost block is what the search reports; it finds nothing exactly when no block exists |
| App.CompactDate | app.py:193-197 | the leftmost `YYYYMMDD` decides and gives that date at midnight |
| App.DashedDate | app.py:198-202 | without `YYYYMMDD`, the leftmost `YYYY-MM-DD` followed by whitespace decides |
| App.StampedIsCompact | app.py:182-184 | every `YYYYMMDD_HHMMSS` holds a `YYYYMMDD` at the same place |
| App.StampedUnreachable | app.py:180-212 | a date is found exactly when pattern 1 or 2 matches, and it always ends in `T00:00:00` |
| App.GetPhotoDateFromFilename | app.py:180-212 | the three patterns in order; `App.CompactDate`, `App.DashedDate`, `App.StampedIsCompact` and `App.StampedUnreachable` state its answers |
| App.PhotoTime | app.py:224-247 | a time means that the image opened and the time is valid |
| App.CreatedTime | app.py:224-245 | the tag, else the name date, else the change time; `App.TagGivesTime`, `App.NameBeforeChangeTime` and `App.ChangeTimeLast` state each case |
| App.TagGivesTime | app.py:226-232 | the tag holding a whole-second time's EXIF text gives that time, whatever the name and change time |
| App.UnconvertibleTagUsesChangeTime | app.py:229-245 | a tag that does not convert falls back to the change time, skipping the name |
| App.NameBeforeChangeTime | app.py:233-234 | without a tag, a name date wins over the change time |
| App.ChangeTimeLast | app.py:235-245 | without a tag or a name date, the change time decides |
| App.ImpossibleNameDatePassesOver | app.py:234-258 | a name date the calendar lacks passes the file over, with no fallback |
| App.ReplaceWithoutBrace | app.py:262-280 | a placeholder cannot occur in text that has no `{` |
| App.PlainTemplatesKept | app.py:260-283 | a non-empty template without placeholders is used as it is |
| App.DestinationPath | app.py:259-266 | the folder from the template; `App.PlainTemplatesKept` and `App.DefaultPathTemplate` state what it gives |
| App.DefaultPathTemplate | app.py:259-266 | the template `{year}/{month}/{day}` gives the same folder as the empty template |
| App.DestinationFilename | app.py:268-282 | the name from the template; `App.PlainTemplatesKept`, `App.DefaultNameTemplate`, `App.DefaultFilenameShape` and `App.DefaultNameReadsBack` state what it gives |
| App.DefaultNameTemplate | app.py:268-282 | for a name without `{`, the template `IMG_{year}{month}{day}_{originalfile}.{extension}` gives the same name as the empty template |
| App.Subst | app.py:262-280 | substituting a placeholder in a list of pieces keeps the number of pieces and replaces exactly the pieces equal to it |
| App.ReplacePieces | app.py:262-280 | replacing a placeholder in text made of placeholders and brace-free pieces replaces exactly the pieces equal to it |
| App.TwoTextDigits | app.py:250-254 | `str(n).zfill(2)` of n < 100 is its two decimal digits |
| App.YearTextFour | app.py:249 | `str(dt.year)` of a four-digit year is what `isoformat()` prints |
| App.DefaultNameReadsBack | app.py:282 | the default `IMG_<y><m><d>_...` name gives its day back as a name date |
| App.DefaultFilenameShape | app.py:268-282 | the default name is `IMG_`, the year, the two-digit month and day, then `_`, the name without its extension, a dot and the extension without its dot |
| App.PrefixedBlock | app.py:193-197 | `IMG_` + year + month + day reads back, by pattern 1, as that day at midnight |
| App.Decide | app.py:290-320 | absent gives the path itself; `get_md5` raises exactly for an unreadable side; skip exactly for same content; removal exactly with overwrite on and a taken, differing target; a non-removing copy goes to an absent path |
| App.CandidatesNotCompared | app.py:299-318 | with overwrite off, the first free `base(n)ext` is taken, even past a same-content candidate |
| App.PlaceOnTarget | app.py:290-320 | the imperative collision check gives the decision function's answer |
| App.ParenLoop | app.py:305-318 | the loop ends at the first free `base(n)ext` |
| App.ParenTaken | app.py:312-318 | a taken candidate at or below the first free counter is below it |
| App.CopyStep | app.py:322-352 | the pass ends exactly when a copy raises before any copy bound `conn`; a good copy binds `conn` and puts the content at the path; a failed copy is modelled as writing nothing |
| App.RunDecision | app.py:288-352 | carries out the collision decision; `App.Decide` and `App.CopyStep` state each case |
| App.CopyFile | app.py:220-352 | one supported file: time, templates, collision check and copy; `App.VisitFileKeeps` states that with overwrite off it changes no file already there |
| App.FailedCopyEndsPassIffFirst | app.py:328-352 | a copy that raises ends the pass exactly when no earlier copy succeeded |
| App.UnreadableTakenTargetEndsPass | app.py:291-293 | an unreadable source or destination at a taken path ends the pass |
| App.OverwriteLosesFileOnFailedCopy | app.py:306-311 | with overwrite on, a failed copy leaves the old file removed, and (a failing copy being modelled as writing nothing) no new one at the path |
| App.VisitFileFollows | app.py:218-220 | an ended pass stays ended and unchanged, and a bound `conn` stays bound |
| App.VisitFilesFollows | app.py:219-220 | the same over a directory's files |
| App.VisitEntriesFollows | app.py:218-220 | the same over the walk |
| App.VisitFile | app.py:219-220 | one file of the inner loop: an unsupported file, or any file after an exception, changes nothing; `App.VisitFileFollows` and `App.VisitFileKeeps` state it |
| App.VisitFiles | app.py:219-352 | the inner loop; `App.VisitFilesFollows`, `App.VisitFilesKeeps` and `App.VisitFilesAborted` state it |
| App.VisitEntries | app.py:218-352 | the outer loop; `App.VisitEntriesFollows`, `App.VisitEntriesKeeps` and `App.VisitEntriesAborted` state it |
| App.Pass | app.py:215-353 | `copy_photos_with_exif`; `App.PassNeverOverwrites` and `App.CopyPhotosWithExif` state it |
| App.VisitFileKeeps | app.py:300-318 | with overwrite off, one file changes no file already in the destination |
| App.VisitFilesKeeps | app.py:300-318 | the same over a directory's files |
| App.VisitEntriesKeeps | app.py:300-318 | the same over the walk |
| App.PassNeverOverwrites | app.py:215-353 | with overwrite off, a pass never changes or removes a file that was in the destination |
| App.VisitFilesAborted | app.py:219-220 | once the pass has ended, the remaining files change nothing |
| App.VisitEntriesAborted | app.py:218 | once the pass has ended, the remaining directories change nothing |
| App.CopyPhotosWithExif | app.py:215-353 | the nested loops leave the tree the pass function gives, and report whether an exception escaped |
| App.CopyDirectory | app.py:219-352 | the inner loop matches its function, until an exception |
| App.CopyOne | app.py:220-352 | one file matches its function |
| App.DotNameNumbered | app.py:137-139 | the `stem(n).ext` candidates are a numbered family without padding |
| App.FirstFreeDot | app.py:135-143 | the counter the loop stops at: its candidate is absent, and all from 1 below it are present |
| App.FirstFreeDotLeast | app.py:135-143 | that counter is the least free one |
| App.FirstFreeDotIs | app.py:135-143 | the least free counter from 1 is the one found |
| App.UniqueName | app.py:130-145 | the name itself when absent; `IndexError` exactly for a taken name without a dot; otherwise an absent name |
| App.UniqueNameLeast | app.py:135-143 | for a taken name, the answer is the candidate of the least free counter from 1 |
| App.GenerateUniqueFilename | app.py:130-145 | the imperative generator gives the function's answer |
| App.DotLoop | app.py:135-143 | the `while True` loop ends at the first free candidate |
| App.DotTaken | app.py:140-143 | a taken candidate at or below the first free counter is below it |

## Left out

- Hashing: an MD5 digest is modelled as the content itself, or as no digest for an unreadable file, so a hash collision is not modelled.
- The file system:
  - `os.walk` is a given sequence of directories, and `dirs[:] = []` pruning is modelled through `PhotoarcPhoto.Visited`;
  - `os.makedirs` and `os.remove` always succeed;
  - the copy is an update of the map.
- The EXIF readers (exifread and PIL, `_get_exif_data` and `get_exif_data`): their output is an optional map from tag name to string in the file record.
- `datetime.fromtimestamp`: the local time of a stat is an input of the file record.
- `fromisoformat` accepts three forms: `YYYY-MM-DD`, `YYYY-MM-DD?HH:MM:SS` and `YYYY-MM-DD?HH:MM:SS.ffffff`. Offsets and the other forms Python accepts are not modelled.
- Classes of characters: `\d`, `\D` and `\s` are restricted to ASCII, and so are `lower()` and `strip()`.
- The database:
  - the SQLite wrappers and `_load_processed_files` take the loaded set (or the failure of the query) as an input;
  - the insert's result is an input of the file record;
  - in `app.py`, `sqlite3.connect` is treated as succeeding.
- `photoarc/core/video_processor.py` imports `core.database`, whose `insert_photo` takes seven arguments while this module passes twelve, and which has no `get_processed_files`. The model keeps the insert's result and the loaded set as inputs instead of deriving the `TypeError` and the failed load.
- The `uuid4` fallback suffix of `photoarc` is a sequence of tokens in the file record. Termination of the `while True` loops after 999 is proved from the finite tree, not from randomness.
- `_is_excluded_directory` takes paths that `relpath` and `normpath` have already normalised. Its Windows `ValueError` case is not modelled.
- Logging, configuration loading, the CLI, `validate_folder_path`, `validate_directory`, `create_directory`, `is_file_already_processed_by_path` (a plain existence test), `setup_database` and the polling loop of `app.py` are not modelled.
- `photoarc/core/photo_processor.py` cannot import `get_datetime_from_filename`. The model uses `get_date_from_filename` in its place, as if the import had succeeded.
- `core/video_processor.py`'s missing `config.overwrite_existing_rule` is the `overwriteRule: None` case of `CoreVideo.VideoConfig`. A set flag is the `Some` case.
- The outer `except Exception` blocks of the photo passes are reached only by the exceptions modelled here: a failing template, or `fromisoformat` inside `build_destination_path`.
- Templates.Format: Python's `str.format` also accepts a format spec, a conversion, and index or attribute access in a field (`{year:>4}`, `{day!s}`, `{year[2]}`). The model treats every such field as an error. For such a template, `Templates.BuildDestinationPath` reports a raising template and the pass counts an error, where the source formats the field and copies the file.
- The search loops of `_extract_exif_datetime`, `_is_excluded_directory` and `_get_earliest_time`, and the scan of `re.search`, are recursive functions (`PhotoarcPhoto.FirstAccepted`, `PhotoarcPhoto.AnyRelated`, `PhotoarcPhoto.ParsedTimes`, `FilenamePatterns.Search`, `App.Search`), not methods with `while` loops. They only compute a value, and the pass functions that specify the methods call them.
- App.UniqueName: its contract says that the result is absent, not which counter is taken. The counter is stated by `App.UniqueNameLeast`.
- ZFill: its own contract states only the length. That the text comes last, after nothing but `0`, is stated by `Text.ZFillShape`, so that the many proofs that only use a padded number do not carry it.
- Split: its own contract states only that there is a piece. That no piece holds the separator and that the pieces join back to the text is stated by `Text.SplitJoin`.
- Lower: its own contract states only the length. The character-by-character mapping is stated by `Text.LowerPointwise`.
- Join: its own contract states the absolute case and that a relative part ends the result. That the path comes first, with at most one `/` between, is stated by `Paths.JoinPrefix`.
- Media.CopyAndRecord: a raising `shutil.copy2` is modelled as failing before the destination is opened, so the tree is unchanged. `copy2` runs `copyfile` and then `copystat`: an OSError inside `copyfile`'s data loop leaves a partial destination file, and a failing `copystat` leaves the complete new file while `copy2` still raises. Neither leftover is modelled, so in the photo and video passes a file counted as an error is never left at its destination, and the next pass never finds that path taken by it.
- App.CopyStep: for the same reason a raising copy leaves the tree as it was after the optional removal. With overwrite on, `App.OverwriteLosesFileOnFailedCopy` therefore states that the path ends up absent, where a copy that fails in `copyfile`'s loop or in `copystat` leaves a partial or complete new file there.
- GetPhotoModificationTime: its own contract states the `DateTimeOriginal` short-circuit and when no time is found. Which value it returns in general, the EXIF time or the earliest of the filename date and the modification time, is stated by `PhotoarcPhoto.ModificationTimeChoice`, which keeps the per-file proofs of the photo pass small.
