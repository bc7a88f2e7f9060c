# frame-randomizer: episode index and display helpers

This project models the episode index at the core of frame-randomizer, plus the
small display helpers that go with it. Frame-randomizer is a guessing game that
shows a random frame of a TV series.

- `lsAllFiles` (utils/file.ts) reads the list of video files found under the
  media directory. It keeps those whose base name matches the season/episode
  pattern `seasonEpisodeRegex` and records each as (season, episode, filename).
- `joinFileData` joins the episode metadata (season, episode, name, overview)
  to those records on (season, episode). An entry without a file is skipped or
  reported as an error, depending on the `allowMissingEpisodes` setting.
- `findFiles` adds to each joined entry the duration of its video.
- `seasonEpisodeTag`, `episodeName` and `floatIntPartPad` (utils/utils.ts)
  format tags such as "S01E02", full episode names and zero-padded numbers.

The modules follow the program's structure:

- `Wrappers`: Option and Result.
- `StringOps`: the JavaScript string built-ins the core uses.
  - `padStart(n, "0")` and `"0".repeat(n)`.
  - `indexOf`.
  - `parseInt` on a run of decimal digits.
  - `String(n)` on integers.
- `Paths`: POSIX `path.basename`.
- `SeasonEpisodePattern`: the regular expression
  `^.*?([sS](eason)?)?(?<season>\d+)(.|([eE](pisode)?)?)(?<episode>\d+).*?\.(mkv|mp4)$`.
  - It is written as the backtracking search a JavaScript engine performs: the
    lazy prefix grows one character at a time, the greedy digit groups try
    their longest run first, and alternatives are tried in the order written.
    The search runs over Unicode characters, where the engine, without the `u`
    flag, runs over UTF-16 code units (see "## Left out").
  - Beside the search is a declarative description, the ways of cutting a name
    into the pattern's parts (`ValidSplit`).
  - The search is proved sound and complete against that description, and it
    is proved to pick the cut with the shortest prefix.
- `EpisodeFormat`: the helpers of utils/utils.ts. They work on the text
  `String(x)` of their numeric arguments.
- `TaggedNames`: how the pattern reads back a name written with the display tag.
- `FileIndex`: `lsAllFiles`, `joinFileData` and `findFiles`.
  - The two loops that push onto an array (`forEach` with `push`) are methods
    with loop invariants. Each is proved equal to a recursive function, and
    the lemmas are about that function.
  - JavaScript objects are modelled as maps from property names to values, so
    that the object spreads `{ ...found, ...initialData }` and
    `{ ...ep, lengthSec }` can be stated as right-biased map union.

Two consequences of the pattern that the model keeps:

- Season and episode numbers are any run of digits, "0" and "00" included.
- The one-character separator `.` matches any character other than a line
  terminator. So besides "S01E02", names in the "1x02" and "1,02" forms are
  read too, as the comment at nuxt.config.ts:249 describes ("SxxExx or xx,xx
  format or similar"). `CrossSeparatedName` proves the "1x02" case.
- The prefix before the groups is lazy, so the match starts at the first
  position where the rest of the pattern can match. Digits before the tag are
  taken for the numbers: in "Show 2019 S01E02.mkv" the code reads season "201"
  and episode "9" out of the year, and the tag is left to the tail.
  `YearInName` proves this case.

## Model

| member | source | states |
|---|---|---|
| SeasonEpisodePattern.MatchSpec | utils/file.ts:39-40 | the pattern matches a name exactly when the name can be cut into prefix, optional `s`/`season` tag, season digits, separator, episode digits, free tail and `.mkv`/`.mp4`; a match ends in the extension, its two groups are non-empty digit strings, and they are the season and episode parts of such a cut |
| SeasonEpisodePattern.Match | utils/file.ts:57 | `seasonEpisodeRegex.exec` reduced to its two named groups; no contract of its own, its contract is `MatchSpec` |
| SeasonEpisodePattern.Exec | utils/file.ts:40 | the engine-order search for the match; no contract of its own, its contract is `ExecSound`, `ExecComplete` and `ExecCompleteAll` |
| SeasonEpisodePattern.ExecSound | utils/file.ts:40 | every cut the backtracking search returns is a valid cut of the name into the pattern's parts |
| SeasonEpisodePattern.ExecComplete | utils/file.ts:40 | whenever some valid cut exists the search finds one, and its lazy prefix is no longer than that cut's: the match starts as far left as possible |
| SeasonEpisodePattern.ExecCompleteAll | utils/file.ts:40 | a name the pattern describes is never rejected by the search |
| SeasonEpisodePattern.LazyTailMatches | utils/file.ts:40 | the lazy search for `.*?\.(mkv|mp4)$` succeeds exactly when the rest of the name is line-terminator-free text followed by the extension at the very end |
| SeasonEpisodePattern.TailOkStep | utils/file.ts:40 | the tail matches at a position exactly when the extension ends the name there or one non-terminator can be skipped and the tail matches after it |
| SeasonEpisodePattern.DigitRun | utils/file.ts:40 | the greedy `\d+` starts from a run that stays inside the name and is followed by a non-digit or the end |
| SeasonEpisodePattern.DigitRunDigits | utils/file.ts:40 | the run the greedy group starts from consists of digits only |
| SeasonEpisodePattern.DigitRunCovers | utils/file.ts:40 | every digit run at a position is within the longest one, so backtracking from it reaches every candidate group |
| SeasonEpisodePattern.DigitRunExact | utils/file.ts:40 | a digit run ending at a non-digit or the end of the name is the longest one |
| SeasonEpisodePattern.MatchTaggedName | utils/file.ts:40 | a name "S" + digits + "E" + digits + ".mkv"/".mp4" matches with exactly those two digit strings as groups |
| SeasonEpisodePattern.CrossSeparatedName | utils/file.ts:40 | "1x02.mkv" matches with season "1" and episode "02" |
| SeasonEpisodePattern.YearInName | utils/file.ts:40 | "Show 2019 S01E02.mkv" matches with season "201" and episode "9": the lazy prefix stops at the year |
| SeasonEpisodePattern.NoTagAt | utils/file.ts:40 | no attempt of the groups succeeds at a position holding no digit and no season word (and no digit after a leading s/S) |
| Paths.Basename | utils/file.ts:57 | the base name holds no '/' |
| Paths.BasenameIsLastSegment | utils/file.ts:57 | the base name is the last '/'-free segment of the path: it starts at the start of the path or after a '/', and it ends where the run of trailing '/'s begins (it does not end in a '/', and only '/'s follow it) |
| Paths.BasenameOfJoin | utils/file.ts:57 | the base name of dir + "/" + name is name, for any non-empty name without '/' |
| FileIndex.ParsePath | utils/file.ts:57-64 | one iteration of the `forEach` in `lsAllFiles`; no contract of its own, its contract is `ParsePathSpec`, with `DirectoryIgnored` and `TaggedFileParses` |
| FileIndex.ParsePathSpec | utils/file.ts:56-64 | a listed path gives a record exactly when the pattern matches its base name; the record keeps the whole path, the name ends in `.mkv`/`.mp4`, and the numbers are the `parseInt` values of the season and episode digits of a valid cut |
| FileIndex.ParseAll | utils/file.ts:55-66 | there are never more records than listed paths |
| FileIndex.ParseAllRecords | utils/file.ts:56-65 | every record comes from a listed path whose own parse it is, and every matching path contributes its record: non-matching files are ignored, not errors |
| FileIndex.ListEpisodeFiles | utils/file.ts:52-67 | the `forEach`/`push` loop over the listed paths returns exactly `ParseAll` of them |
| FileIndex.ParseAllAppend | utils/file.ts:56-65 | listing order is kept: the records of two listings one after the other are the records of each, in that order |
| FileIndex.ParseAllStep | utils/file.ts:58-64 | a path that does not match adds nothing; one that matches adds exactly its record at the end |
| FileIndex.DirectoryIgnored | utils/file.ts:57 | the directory part of a path does not affect whether it matches or which season and episode it yields |
| FileIndex.TaggedFileParses | utils/file.ts:56-64 | a file named with the display tag `seasonEpisodeTag(season, episode)` plus `.mkv`/`.mp4`, in any directory, is indexed under that season and episode |
| FileIndex.FindFile | utils/file.ts:75-79 | `find` returns the first record of equal season and episode, and returns none exactly when no record is equal |
| FileIndex.Merge | utils/file.ts:92 | the joined record, as an object, is the file record's object overwritten by the metadata entry's object, which is what `{ ...found, ...initialData }` builds |
| FileIndex.JoinOne | utils/file.ts:75-92 | the record pushed for an entry with a file keeps the entry's season, episode, name and overview, and takes its filename from the first file record of that season and episode, as `find` picks it |
| FileIndex.MissingMessage | utils/file.ts:81-84 | the message of the thrown error; no contract of its own, its contract is `MissingMessageNamesEpisode` and `JoinStrictError` |
| FileIndex.JoinStep | utils/file.ts:75-93 | one iteration of the `forEach` in `joinFileData`; no contract of its own, it is the step of `Join`, whose contract is `JoinAllowingMissing`, `JoinStrict`, `JoinStrictError` and `JoinErrorStays` |
| FileIndex.Join | utils/file.ts:69-96 | a successful join has at most one record per metadata entry; with missing episodes allowed it never fails |
| FileIndex.JoinErrorStays | utils/file.ts:89 | once an entry has thrown, later entries change nothing: the first error is the result |
| FileIndex.JoinFileData | utils/file.ts:69-96 | the `forEach` loop, with its early exit by `throw`, returns exactly `Join` of the entries |
| FileIndex.Matched | utils/file.ts:80-93 | the entries kept are those of the metadata that have a file, and only those |
| FileIndex.MatchedAppend | utils/file.ts:74-94 | filtering two lists one after the other gives the filtered lists one after the other |
| FileIndex.JoinAll | utils/file.ts:75-92 | one joined record per entry, each the entry merged with its first matching file |
| FileIndex.JoinAllowingMissing | utils/file.ts:80-93 | with missing episodes allowed, the join returns exactly the entries that have a file, in metadata order, each merged with its first matching file |
| FileIndex.JoinStrict | utils/file.ts:80-93 | with missing episodes not allowed, the join succeeds exactly when every entry has a file, and then it returns every entry in order, merged with its file |
| FileIndex.JoinStrictError | utils/file.ts:80-90 | the error raised is the message for the first entry, in metadata order, that has no file |
| FileIndex.MissingMessageNamesEpisode | utils/file.ts:81-84 | the error message ends with "S" + season + "E" + episode, the numbers written out by `String` |
| FileIndex.WithLength | utils/file.ts:105 | the record is the joined record's object with `lengthSec` added, as `{ ...ep, lengthSec }` builds |
| FileIndex.WithLengths | utils/file.ts:102-108 | the mapped promises all fulfil exactly when every file's probe succeeds; then there is one record per joined entry, in order, with its probed length; otherwise the error names a file whose probe failed |
| FileIndex.FindFiles | utils/file.ts:98-109 | a join error is passed through; after a successful join the result is Ok exactly when every joined file's probe succeeds, and then it holds one record per joined entry, in order, each the joined object plus `lengthSec`, which is exactly what the probe gave for that file; otherwise the error names a joined file whose probe failed |
| TaggedNames.TaggedNameMatches | utils/utils.ts:7-14 | the file-name pattern reads a tag written from two digit strings, followed by `.mkv`/`.mp4`, back as the two zero-padded numbers |
| TaggedNames.TaggedNameHasNoSlash | utils/utils.ts:7-14 | such a tagged file name holds no '/', so it is its own base name |
| EpisodeFormat.SeasonEpisodeTag | utils/utils.ts:7-14 | `seasonEpisodeTag` on the texts of its arguments; no contract of its own, its contract is `TagParts`, `TagHasNoSpace` and `TaggedNames.TaggedNameMatches` |
| EpisodeFormat.TagParts | utils/utils.ts:11-13 | the tag is "S", the season text after as many '0's as it lacks of two places, "E", then the episode text padded the same way: nothing is truncated and only '0's are added |
| EpisodeFormat.TagHasNoSpace | utils/utils.ts:7-14 | the tag of two space-free texts holds no space |
| EpisodeFormat.EpisodeName | utils/utils.ts:23-29 | the full name is the tag, one space, then the episode name, each found at its place |
| EpisodeFormat.EpisodeNameSplits | utils/utils.ts:28 | cutting a full name at its first space gives back the tag and the episode name |
| EpisodeFormat.FloatIntPartPad | utils/utils.ts:38-57 | the padded text is never shorter than `String(num)` |
| EpisodeFormat.FloatIntPartPadNoDotWithFraction | utils/utils.ts:45-47 | without a '.' and with fractional places asked for, the result is the text padded to two places, a '.' (the first one), then `fPartPlaces` zeros, whatever `iPartPlaces` is |
| EpisodeFormat.FloatIntPartPadNoDotNoFraction | utils/utils.ts:46-48 | without a '.' and without fractional places, the result is the text padded to two places, still without a '.' |
| EpisodeFormat.FloatIntPartPadWithDot | utils/utils.ts:50-56 | with a '.', the text is kept whole and only '0's are added around it; the integer part gets max(iPartPlaces, its digits) places and the fractional part max(fPartPlaces, its digits) |
| EpisodeFormat.FloatIntPartPadIgnoresIntPlaces | utils/utils.ts:45-48 | asked for three integer places, the text "5" gets two while the text "5.0" gets three |
| EpisodeFormat.FloatIntPartPadIntended | utils/utils.ts:38-57 | the corrected form is never shorter than the text |
| EpisodeFormat.FloatIntPartPadIntendedIntPlaces | utils/utils.ts:34 | in both branches of the corrected form, the integer part has max(iPartPlaces, its own digits) places |
| EpisodeFormat.FloatIntPartPadIntendedAtDefault | utils/utils.ts:40 | at the default of two integer places, the corrected form and the code as written agree on every input |
| StringOps.DigitsValue | utils/file.ts:60-61 | `parseInt` of a non-empty digit string (0 for the empty string, see "## Left out"); no contract of its own, its contract is `DecimalRoundTrip`, `LeadingZerosValue` and `PadStartZerosValue` |
| StringOps.Max | utils/utils.ts:53-55 | `Math.max`; no contract of its own, it is used by `PadStartZeros`, `FloatIntPartPad` and the lemmas about them |
| StringOps.Zeros | utils/utils.ts:47 | `"0".repeat(n)` is n characters, all '0' |
| StringOps.PadStartZeros | utils/utils.ts:11 | `padStart(width, "0")` has length max(width, length of the text) |
| StringOps.PadStartZerosParts | utils/utils.ts:11 | `padStart(width, "0")` puts exactly the missing number of '0's in front of the unchanged text |
| StringOps.PadStartZerosAdds | utils/utils.ts:11 | padding adds no character other than '0' |
| StringOps.PadStartZerosValue | utils/utils.ts:11 | padding a digit string gives a digit string with the same `DigitsValue`, which is `parseInt` for a non-empty string |
| StringOps.IndexOf | utils/utils.ts:44 | `indexOf` gives the first index holding the character, or -1 exactly when the character is absent |
| StringOps.IndexOfFrom | utils/utils.ts:44 | the first index at or after the start holding the character, or -1 exactly when there is none |
| StringOps.NatToDecimal | utils/file.ts:81-84 | `String(n)` of a natural number is a non-empty digit string without leading zeros |
| StringOps.IntToDecimal | utils/file.ts:81-84 | `String(n)` of an integer is non-empty, and it is all digits exactly when n is not negative |
| StringOps.DecimalRoundTrip | utils/file.ts:60-61 | `parseInt(String(n)) == n` for every natural number n |
| StringOps.LeadingZerosValue | utils/file.ts:60-61 | leading zeros do not change `DigitsValue`, which is the value `parseInt` reads from a non-empty string |

## Left out

- The directory walk is not modelled. In the code it is `glob(path.join(dir, '**/*.{mkv,mp4}'))`, which depends on file system I/O. `ListEpisodeFiles` takes the list of paths it returns, in its order.
- The duration probe is not modelled: the `ffprobe` subprocess and `parseFloat` of its output. `findFiles` takes a probe function that gives a file's duration, or nothing when the subprocess fails. A `NaN` from an unparsable output is not distinguished.
- Concurrency is not modelled: `Promise.all` runs the probes concurrently. `WithLengths` says only that some failing file is reported, not which one is reported when several fail.
- `console.warn` for a skipped entry is output only and is not modelled.
- `config.allowMissingEpisodes` is a parameter. The `config` module is not part of this model.
- The integer-valued numbers (season and episode numbers, and the place counts of `floatIntPartPad`) are modelled as unbounded integers; durations (`lengthSec`) and number-valued properties are `real`, and floating-point rounding is not modelled. `String(n)` is modelled for integers only, in their plain decimal form (JavaScript switches to exponent notation from 10^21). `parseInt` is exact, which JavaScript is only up to 2^53; larger values would be rounded.
- Metadata season and episode numbers are integers. Fractional values, which would then never equal a parsed file number, are not modelled.
- `EpisodeFormat` works on the text `String(x)` of its arguments, as the code does, so number formatting is not itself modelled there.
- `Paths.Basename` is the POSIX `path.basename` with no suffix argument. The win32 variant is not modelled.
- SeasonEpisodePattern.MatchSpec: it describes the match over Unicode characters, not over UTF-16 code units. Names are sequences of Unicode characters here. In JavaScript they are sequences of UTF-16 code units, and since the pattern has no `u` flag its `.` takes one code unit. A character outside the Basic Multilingual Plane, such as U+1F600, is two code units there and one `char` here, so the model and the code differ on names holding one. For "1\u{1F600}2.mkv" the code finds no match and skips the file, while `Match` reads season "1" and episode "2". For "1\u{1F600}02.mkv" the code reads season "0" and episode "2", while the model reads "1" and "02". The lengths that `indexOf` and `padStart` count are code units in the same way, and `char`s here.
- The pattern carries no flags. Its `.` and `.*?` skip every character except the four JavaScript line terminators (\n, \r, U+2028, U+2029), and `\d` is the ASCII digits. Other flags are not modelled, because the code sets none.
- The match result's other groups (`$1`, the extension) are not modelled. The code reads only `season` and `episode`, and `match.length > 0 && match.groups` always holds for a match of this pattern.
- StringOps.DigitsValue: it gives 0 for the empty string, where `parseInt("")` gives `NaN`. The code applies `parseInt` only to the `season` and `episode` groups of a match, which are never empty (`MatchSpec`), so the case does not arise there.
- The server plugin that builds the index at startup is out of scope, and so is the rest of the game: frame extraction, the answer store and its expiry.

## Findings

| source | as written | input that shows it | evidently intended | confidence | as-written member | corrected member |
|---|---|---|---|---|---|---|
| utils/utils.ts:45-48 | without a '.' in `String(myNumber)` the text is padded with `padStart(2, "0")` | `floatIntPartPad(5, 3, 3)` gives "05.000", while `floatIntPartPad("5.0", 3, 3)` gives "005.000" | the integer part padded to `iPartPlaces`, as its doc comment says (line 34) | medium, not executed | EpisodeFormat.FloatIntPartPadIgnoresIntPlaces | EpisodeFormat.FloatIntPartPadIntended, EpisodeFormat.FloatIntPartPadIntendedIntPlaces |
