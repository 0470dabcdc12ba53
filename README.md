# Music library converter, modelled in Dafny

`convert-music-library.py` mirrors a music library into a destination tree.

- An `.mp3` is copied, or, when a cover option is on, remuxed with a re-encoded cover.
- A `.flac` is transcoded to `.mp3`, with or without a cover pass.
- With a cover option on and no cover found, an `.mp3` or `.flac` is skipped: it is neither copied nor transcoded.
- A `.lrc` lyrics file is copied when the lyrics option (`-l`) is on and an `.mp3` or `.flac` with the same stem sits beside it; by default no lyrics are copied.
- Seven counters record what happened to each file, and a summary prints their total.

This project models the decision logic under that I/O and proves properties of it. The modules follow the script's own structure:

- `PyStr`, `PyInt`, `PyPath`: the Python built-ins the script relies on, for the inputs the script gives them.
  - `str.rfind`, `in` between strings, `split`, and `rstrip` of one character.
  - `int()` on text in base 10: the whitespace it skips, an optional sign, digits with single underscores; and `str()` of an integer.
  - `os.path.splitext`, `split`, `basename`, `join`.
- `Arguments`: `isint` and `checkParameters`.
  - Its result is a decision: the run's settings, an exit with code 0 or 2, falling through with no decision, or an exception from `os.makedirs`.
  - `gnu_getopt`'s result, the directory tests on the positional arguments and whether `os.makedirs` can create the destination are inputs.
- `LogFile`: `getLogFileName`, as a method with its `while` loop.
  - The existing files are a finite set of paths, and the date is an input string.
- `CoverProbe`: `getAudioFileCoverFormat`, as a method with its line loop over ffprobe's output.
  - Whether the path is a file, the exit status and the standard output are inputs.
- `CoverImage`: the resize and output-format decisions of `convertCover`.
- `Library`: the main loop.
  - A `Converter` class holds the seven counters and the destination tree (existing files and directories, and the two temporary cover files) as fields.
  - Its methods update those fields in place, one file at a time.
  - `Run` folds them over a given sequence of walked files.
  - `TotalFiles` adds the counters up.
  - Each method is specified by a pure step function (`FileStep`, `RunSteps`), and the properties are lemmas about those functions.

Paths in the destination are lists of components relative to the destination root, so the relative directory `.` is the empty list. Each walked file carries the results of its external runs:

- the ffprobe run;
- the cover extraction;
- whether the imaging library can read the extracted cover;
- the remux or transcode;
- the `shutil.copyfile` call: it raised, possibly leaving part of the copy, or it returned with the copy in place or not.

An exception in the loop that ends the script becomes a `Crashed` outcome, and the loop stops there. Four exceptions are modelled:

- `os.makedirs` under an existing file;
- a copy into a directory that does not exist;
- any other exception from `shutil.copyfile`;
- an unreadable cover.

Before the loop, `os.makedirs` in `checkParameters` can raise too; that is the decision `Raised`.

Behaviours of the code that are easy to miss:

- With a cover option on and no cover found, an audio file is neither copied nor counted. The `if` at lines 291 and 364 has no `else`. It is not a fallback to a plain copy.
- A missing destination directory makes `checkParameters` fail with code 2, even though it creates that directory first. `os.makedirs` returns `None` inside the test at line 103. When it raises instead (an empty name, or a file in the way), the script ends with a traceback.
- A negative `--scale-cover` value is accepted, and then no cover is ever resized.
- The summary total counts one per counted outcome:
  - a file skipped for lack of a cover is not counted;
  - neither is an `.lrc` file that is not acted on;
  - a crash ends the run before the summary.
- An `.lrc` copy never creates its destination directory. When the directory is missing, the copy raises.
- A copy that fails raises, and the script ends. The `FAIL` branches after `copyfile` (lines 337-340 and 432-435) are only reached when `copyfile` returns without the copy in place.

## Model

| member | source | states |
|---|---|---|
| PyStr.RFind | convert-music-library.py:260 | the index of the last occurrence of the character, or -1 when there is none: nothing after it is that character |
| PyStr.Split | convert-music-library.py:182 | `split('\n')` gives at least one piece; no piece contains the separator; joining the pieces with it gives the text back |
| PyStr.Contains | convert-music-library.py:183-186 | definition: `t in s` holds exactly when `t` occurs in `s` at some index; used through StartTagResets and OutsideSectionIgnored |
| PyStr.RStripChar | convert-music-library.py:86 | the result is a prefix of the input without the removed trailing run of that character, and does not end in it |
| PyInt.NatToStr | convert-music-library.py:159 | `str(i)` of a natural number is a nonempty digit string that starts with 0 only when it is "0" |
| PyInt.IntToStr | convert-music-library.py:159 | `str(n)`: nonempty, starts with `-` exactly when `n` is negative, and every other character is a digit |
| PyInt.TrimStart | convert-music-library.py:75 | the result is a suffix of the input, every character removed is whitespace to `int()`, and the result does not start with such whitespace |
| PyInt.TrimEnd | convert-music-library.py:75 | the result is a prefix of the input, every character removed is whitespace to `int()`, and the result does not end with such whitespace |
| PyInt.Trim | convert-music-library.py:75 | the result is no longer than the input, neither starts nor ends with whitespace to `int()`, and is "" for text made only of such whitespace |
| PyInt.TrimUnpadded | convert-music-library.py:75 | a nonempty text with no such whitespace at either end is unchanged by trimming |
| PyInt.TrimPadded | convert-music-library.py:75 | whitespace around a text that neither starts nor ends with whitespace is trimmed off exactly |
| PyInt.PaddedRoundTrip | convert-music-library.py:117-119 | `int(pre + str(n) + post) == n` for every integer `n` and any whitespace `pre` and `post` |
| PyInt.SeparatorIsNotIntSpace | convert-music-library.py:75 | `int("\x1c1")` raises: the separator 0x1C is not whitespace to `int()`, unlike to `str.strip()` |
| PyInt.IsInt | convert-music-library.py:73-78 | definition: `isint(val)` holds exactly when `int(val)` gives a value; stated through EmptyIsNotInt, ValidScaleMeans and ScaleCoverAccepted |
| PyInt.ParseInt | convert-music-library.py:75 | `int(s)`: text that trims to "" raises (no value); a parsed text has a digit right after its optional sign; only the whitespace `int()` skips is trimmed (0x09-0x0D, space, NEL, no-break space) |
| PyInt.IntRoundTrip | convert-music-library.py:117-119 | `int(str(n)) == n` for every integer `n`, negative ones included |
| PyInt.NatToStrInjective | convert-music-library.py:159 | distinct counter values give distinct decimal texts |
| PyInt.EmptyIsNotInt | convert-music-library.py:117 | `isint("")` is false, so the extra `val != ""` test never changes the decision |
| PyInt.DigitsValueOfNatToStr | convert-music-library.py:159 | reading back the digits of `str(i)` gives `i` |
| PyPath.SplitExt | convert-music-library.py:260-261 | stem and extension concatenate back to the name; the extension is empty or one dot followed by no dot and no slash |
| PyPath.Extension | convert-music-library.py:260 | the extension without its dot holds no dot and no slash, and when nonempty, stem, a dot and it give back the name |
| PyPath.Stem | convert-music-library.py:261 | the stem is a prefix of the name |
| PyPath.SplitExtOfDotted | convert-music-library.py:260-261 | `stem.ext` with a dot-free extension splits into exactly `stem` and `ext`, whatever dots the stem holds, unless the stem is only dots |
| PyPath.HiddenNameHasNoExtension | convert-music-library.py:260 | a name such as `.mp3` has no extension: the leading dot does not count |
| PyPath.NoDotNoExtension | convert-music-library.py:260 | a name without a dot has an empty extension |
| PyPath.SplitPath | convert-music-library.py:86 | the tail has no slash, is a suffix of the path, and is the whole path or preceded by a slash |
| PyPath.Basename | convert-music-library.py:87 | the result is the longest slash-free suffix: it has no slash, is a suffix of the path, and is the whole path or preceded by a slash |
| PyPath.PathLeaf | convert-music-library.py:85-87 | the leaf contains no slash |
| PyPath.PathLeafOfName | convert-music-library.py:85-87 | a name without a slash is its own leaf, as `path_leaf(sys.argv[0])` gives for a bare program name |
| PyPath.PathLeafOfComponent | convert-music-library.py:85-87 | `path_leaf(dir/leaf)` is `leaf` |
| PyPath.PathLeafOfDirectory | convert-music-library.py:85-87 | `path_leaf(dir/leaf/)` is still `leaf`: a trailing slash is ignored |
| PyPath.Join | convert-music-library.py:263-269 | the second argument is always a suffix of the result, and the first a prefix unless the second is absolute |
| PyPath.JoinInjective | convert-music-library.py:263-269 | joining two names that start with the same character onto the same directory gives the same path only for the same name; the shared first character is needed, since `join("/", "/z") == join("/", "z")` |
| LogFile.NumberedInjective | convert-music-library.py:159 | the numbered log paths for two counter values coincide only when the values do |
| LogFile.GetLogFileName | convert-music-library.py:151-168 | the result does not exist; it is `base_date.log` when that is free, and otherwise `base_date_i.log` for the smallest `i >= 1` whose name is free; the loop terminates |
| CoverProbe.CodecRun | convert-music-library.py:189 | the longest prefix made of `[a-z\-_]`: a prefix of the input, all in the class, followed by a character outside it or the end |
| CoverProbe.CodecMatch | convert-music-library.py:189-191 | a match exactly when the line starts with `codec_name=` followed by a class character; the group is then the whole nonempty run of class characters after the key |
| CoverProbe.ScanLine | convert-music-library.py:183-191 | definition: one turn of the line loop (a `[STREAM]` line enters a section and resets the codec, `[/STREAM]` leaves it, a matching line inside sets the codec); stated through StartTagResets, OutsideSectionIgnored and ScanKeepsCodecText |
| CoverProbe.ScanLines | convert-music-library.py:182-191 | definition: the loop over all lines, in order; stated through ScanLinesAppend, InsideLastSection and ProbeResult |
| CoverProbe.CoverCodec | convert-music-library.py:175-196 | definition: "" for a missing file or a failed ffprobe, otherwise the scan of the output; stated through ProbeFailure, ProbeResult and CoverCodecIsCodecText |
| CoverProbe.GetAudioFileCoverFormat | convert-music-library.py:175-196 | the loop's result equals the line-by-line scan of the output, and "" when the path is not a file or ffprobe failed |
| CoverProbe.ScanLinesAppend | convert-music-library.py:182-191 | scanning two blocks of lines is scanning the first and then the second from where it ended |
| CoverProbe.ScanKeepsCodecText | convert-music-library.py:189-191 | the scanner's codec stays "" or a run of `[a-z\-_]` |
| CoverProbe.CoverCodecIsCodecText | convert-music-library.py:175-196 | the returned format is always "" or made of `[a-z\-_]`, so never contains a digit |
| CoverProbe.StartTagResets | convert-music-library.py:183-185 | a `[STREAM]` line resets the codec to "": the result then depends only on the lines after it |
| CoverProbe.OutsideSectionIgnored | convert-music-library.py:186-191 | outside a section, lines without `[STREAM]` (including `codec_name=` lines) change nothing |
| CoverProbe.InsideLastSection | convert-music-library.py:186-191 | inside the last section, the result is the value of the last matching line before the first `[/STREAM]`, or the codec held on entry when there is none |
| CoverProbe.ProbeResult | convert-music-library.py:181-192 | with a `[STREAM]` line at `k` and none after it, the result is the value of the last matching `codec_name=` line between `k` and the first `[/STREAM]` line after it, and "" when there is none |
| CoverProbe.ProbeWithoutSection | convert-music-library.py:178-192 | output with no `[STREAM]` line gives "" |
| CoverProbe.ProbeFailure | convert-music-library.py:176-196 | a missing file or a nonzero exit status gives "" |
| CoverProbe.DigitStopsCodec | convert-music-library.py:189 | `codec_name=h264` captures `h` |
| Arguments.CheckParameters | convert-music-library.py:92-143 | the imperative check, with both option loops, gives exactly the decision table `Check` |
| Arguments.Check | convert-music-library.py:92-143 | definition: the decision table; stated through CheckOutcomes, FallThroughExactly and MissingDestinationCreatedYetRejected |
| Arguments.ApplyOption | convert-music-library.py:107-126 | definition: one turn of the option loop; stated through ScaleOption, ScaleUntouched and ScaleNameIsDistinct |
| Arguments.ApplyOptions | convert-music-library.py:107-126 | definition: the option loop in getopt's order; stated through ApplyOptionsStops, ApplyOptionsExitCodes, ApplyOptionsKeepsScaleConsistent and LastScaleWins |
| Arguments.FirstHelpOrVersion | convert-music-library.py:129-137 | definition: the loop without positional arguments, where the first help or version option decides; stated through FirstHelpOrVersionIsNone |
| Arguments.ApplyOptionsStops | convert-music-library.py:107-126 | the option loop runs to the end exactly when no option is help, version or an invalid scale value; otherwise it exits as the first such option says |
| Arguments.ApplyOptionsKeepsScaleConsistent | convert-music-library.py:116-119 | `scale_cover` is set exactly when `cover_scale` is nonzero, before and after the loop |
| Arguments.ApplyOptionsExitCodes | convert-music-library.py:107-126 | the option loop only exits with code 0 or 2 |
| Arguments.FirstHelpOrVersionIsNone | convert-music-library.py:131-137 | the loop without positional arguments decides nothing exactly when no option is `-h`/`--help` or `-v`/`--version` |
| Arguments.CheckOutcomes | convert-music-library.py:92-143 | the run proceeds only with two positional arguments that are directories and with consistent scale settings; every exit code is 0 or 2; the script raises exactly when `os.makedirs` is reached and cannot create the destination |
| Arguments.FallThroughExactly | convert-music-library.py:129-137 | falling through with no decision happens exactly when there are options, no positional argument and no help or version option |
| Arguments.MissingDestinationCreatedYetRejected | convert-music-library.py:103 | a missing destination that can be created is created, and the arguments are still rejected with code 2; one that cannot be created makes the script raise, and nothing is created |
| Arguments.ScaleCoverAccepted | convert-music-library.py:116-122 | `--scale-cover v` proceeds with `cover_scale = int(v)` exactly when `int(v)` parses and is nonzero; zero, empty or non-integer values exit with code 2 |
| Arguments.ValidScaleMeans | convert-music-library.py:117 | the value test is "`int(v)` parses and is nonzero" |
| Arguments.ScaleNameIsDistinct | convert-music-library.py:108-116 | `-s` and `--scale-cover` are not help, version or lyrics options |
| Arguments.ScaleOption | convert-music-library.py:116-122 | the step a scale option makes: both scale settings set from `int(v)`, or exit 2 |
| Arguments.LastScaleWins | convert-music-library.py:116-119 | when the loop runs to the end, the last `--scale-cover` value is the one in force |
| Arguments.ScaleUntouched | convert-music-library.py:114-126 | options other than `--scale-cover` leave both scale settings alone |
| CoverImage.PlanCover | convert-music-library.py:211-219 | resizes only when the size is positive and a side exceeds it; re-encodes to RGB JPEG exactly when converting and the current format is not JPEG; otherwise saves in the original format |
| CoverImage.NegativeScaleAcceptedButInert | convert-music-library.py:116-122 | a negative `--scale-cover` is accepted and stored, and then never resizes a cover |
| Library.Bump | convert-music-library.py:55-63 | a counted outcome raises its own counter by one and no other; any other outcome changes nothing; the total rises by at most one |
| Library.SumOfValues | convert-music-library.py:445-447 | adding up the dictionary's values in order gives the total of all seven counters |
| Library.MakeDirs | convert-music-library.py:278-279 | fails exactly when the path is missing and a leading part of it is a file; otherwise files are unchanged, only directories on the way are added, and the path then exists |
| Library.KindOf | convert-music-library.py:260-267 | the case is mp3, flac or lrc exactly when the dot-less extension is that string, compared case-sensitively |
| Library.Target | convert-music-library.py:260-269 | exactly mp3, flac and lrc files have a destination, and it is one component inside the file's own directory |
| Library.Emit | convert-music-library.py:402-404 | definition: an ffmpeg run leaves its output when it succeeds or leaves a partial file, and only inside an existing directory; stated through CoverStepShape and AudioStepShape |
| Library.Cleanup | convert-music-library.py:325-328 | definition: both temporary cover files are removed; stated through CoverStepTemporaries |
| Library.CoverStep | convert-music-library.py:293-328 | definition: the cover branch (extract, re-encode, remux or transcode, clean up), counting success only for a zero status into an existing directory; stated through CoverStepShape and CoverStepTemporaries |
| Library.CopyStep | convert-music-library.py:331-340 | definition: `copyfile` into an existing directory, crashing when it raises; stated through CopyStepShape |
| Library.AudioStep | convert-music-library.py:267-413 | definition: the mp3 and flac branches; stated through AudioStepShape, AudioStepOutcome and NoCoverWritesNothing |
| Library.LyricStep | convert-music-library.py:414-435 | definition: the lrc branch; stated through LyricsNeedFlagAndSibling and LyricsNeverMakeDirectories |
| Library.FileStep | convert-music-library.py:260-435 | definition: one file of the walk, dispatched on its extension; stated through OutcomeMatchesKind, StepOnlyTouchesTarget and StepKeepsWellFormed |
| Library.RunSteps | convert-music-library.py:258-435 | definition: the walk, stopping at the first exception; stated through RunTotal, RunLength, RunStopsAtFirstCrash and RunGrowsTree |
| Library.Converter.constructor | convert-music-library.py:55-63 | all seven counters start at zero and no temporary cover file exists |
| Library.Converter.Count | convert-music-library.py:275 | `counters[k] += 1`, and the tree unchanged |
| Library.Converter.EnsureDirectory | convert-music-library.py:278-279 | the tree after `makedirs`, or false when it would raise |
| Library.Converter.RunFfmpeg | convert-music-library.py:402-404 | the output file lands when the run leaves output and its directory exists |
| Library.Converter.RemoveTemporaries | convert-music-library.py:325-328 | both temporary cover files are gone |
| Library.Converter.ReplaceCover | convert-music-library.py:293-328 | the cover branch's new state and counters are those of `CoverStep` |
| Library.Converter.ProcessAudio | convert-music-library.py:267-413 | the mp3 and flac branches' new state and counters are those of `AudioStep` |
| Library.Converter.CopyFile | convert-music-library.py:331-340 | the copy's new state and counters are those of `CopyStep` |
| Library.Converter.CopyLyrics | convert-music-library.py:414-435 | the lrc branch's new state and counters are those of `LyricStep` |
| Library.Converter.ProcessFile | convert-music-library.py:260-435 | one file's new state and counters are those of `FileStep` |
| Library.Converter.Run | convert-music-library.py:258-435 | the loop leaves the counters and tree `RunSteps` gives, and reports whether an exception ended it |
| Library.Converter.TotalFiles | convert-music-library.py:445-447 | the total is the sum of all seven counters |
| Library.TargetForms | convert-music-library.py:260-269 | `stem.ext`: mp3 and lrc keep their name, flac becomes `stem.mp3`, any other extension has no destination |
| Library.UpperCaseMp3Ignored | convert-music-library.py:267 | `song.MP3` is not an audio file |
| Library.CapitalizedFlacIgnored | convert-music-library.py:341 | `song.Flac` is not an audio file |
| Library.HiddenFileIgnored | convert-music-library.py:260 | `.mp3` is skipped and changes nothing |
| Library.OtherFilesIgnored | convert-music-library.py:267-414 | a file that is not mp3, flac or lrc has no destination, changes nothing and moves no counter |
| Library.OutcomeMatchesKind | convert-music-library.py:267-435 | the counter a file moves belongs to its case; audio files are never ignored; the no-cover outcome only comes from audio files with a cover option on and an empty probe result |
| Library.ExistingTargetOnlyCountsExists | convert-music-library.py:272-275 | an existing destination only raises `exists` (an lrc file not acted on stays ignored) and changes nothing on disk |
| Library.NoCoverWritesNothing | convert-music-library.py:284-291 | with a cover option on and an empty probe result, an audio file writes no file, touches no temporary file and moves no counter; only `makedirs`' directories remain |
| Library.LyricsNeedFlagAndSibling | convert-music-library.py:417-418 | an lrc file is acted on exactly when `copy_lyrics` is set and `name.mp3` or `name.flac` exists beside it in the source |
| Library.LyricsNeverMakeDirectories | convert-music-library.py:419-424 | an lrc file creates no directory, and crashes exactly when the copy is attempted and either its directory is missing or `copyfile` raises |
| Library.CopyStepShape | convert-music-library.py:331-340 | a copy creates no directory and at most writes its destination; it crashes exactly when `copyfile` raises, counts success exactly when the copy lands, and changes nothing when it returns without the copy |
| Library.CoverStepShape | convert-music-library.py:293-328 | the cover branch creates no directory and at most writes its destination into an existing directory |
| Library.AudioStepShape | convert-music-library.py:267-413 | an audio file changes nothing, or makes `makedirs`' directories and at most writes its destination inside an existing directory |
| Library.StepOnlyTouchesTarget | convert-music-library.py:260-435 | a file removes nothing, writes at most its own destination and creates at most the directories leading to it |
| Library.MakeDirsKeepsWellFormed | convert-music-library.py:278-279 | `makedirs` keeps the destination a tree |
| Library.StepKeepsWellFormed | convert-music-library.py:260-435 | every file keeps the destination a tree |
| Library.CoverStepTemporaries | convert-music-library.py:293-328 | the cover branch crashes exactly when the extraction worked but the cover cannot be read; otherwise both temporary files are gone, on success and on failure |
| Library.CoverBranchReleasesTemporaries | convert-music-library.py:364-400 | the same for an audio file that reaches the cover branch |
| Library.StepLeavesNoTemporaries | convert-music-library.py:291-328 | a file that does not crash leaves no temporary cover file behind |
| Library.SuccessIsRemembered | convert-music-library.py:307-310 | a successful copy or conversion leaves its destination in place, so the same file seen again only raises `exists` |
| Library.RunTotal | convert-music-library.py:445-447 | the reported total is the starting total plus one per counted outcome of the walk, so at most one per walked file; no counter decreases |
| Library.RunLength | convert-music-library.py:258-259 | the walk has at most one outcome per file, and one for every file when no exception ended it |
| Library.RunStopsAtFirstCrash | convert-music-library.py:258-259 | the walk crashed exactly when its last outcome is a crash, and no earlier outcome is one |
| Library.EndsInCrashMeans | convert-music-library.py:258-259 | "ends in a crash" holds exactly for a nonempty sequence whose last outcome is a crash |
| Library.CrashOnlyLastMeans | convert-music-library.py:258-259 | "crash only last" holds exactly when no outcome before the last is a crash |
| Library.RunGrowsTree | convert-music-library.py:258-435 | the walk keeps the destination a tree and never removes a file or a directory |
| Library.RunLeavesNoTemporaries | convert-music-library.py:325-328 | a walk that ends normally leaves no temporary cover file |
| Library.RerunChangesNothing | convert-music-library.py:272-275 | over a library whose every destination exists, a run changes nothing on disk, never crashes and moves no counter but `exists` |

## Left out

- External processes: ffprobe and ffmpeg (lines 177, 233, 297, 305, 370, 377, 402) are not run. Each walked file carries their exit status, their output text and whether a failed run left a partial output file.
- The imaging library: pixel work, thumbnail arithmetic and encoding (lines 208-219) are not modelled. The decoded cover's size and format, and the format after resizing, are inputs. Whether a cover can be opened and saved at all is one boolean per file.
- Printing, terminal colours and logging are left out.
- The clock: elapsed time is left out. The date in the log file name is an input string.
- `os.walk` is replaced by a given sequence of walked files, and `tempfile.mkdtemp` by the two fixed temporary files.
- `os.path.abspath` and `relpath` are left out. Destination paths are component lists relative to the destination root.
- The destination tree is assumed to be disjoint from the source tree.
- `int()`: whitespace and digits beyond Latin-1 (other Unicode spaces, non-ASCII decimal digits) are not modelled.
- `int()` and `str()`: the limit of 4300 digits that newer Python versions enforce is not modelled; beyond it both raise `ValueError`.
- Library.Converter.Run: an exception is a crash outcome that stops the loop. How it propagates out of the script is not modelled.
- Library.MakeDirs: `os.makedirs` fails only because of a file in the way. Permission errors and other failures are left out.
- Library.Converter.ProcessAudio: `os.path.samefile` after `shutil.copyfile` reduces to the `CopyRun` oracle, which says whether the call raised or, if it returned, whether the copy is in place.
- Library.Converter.ProcessAudio: when a file stands where the destination directory should be, an ffmpeg run into it is counted as failed whatever status it reports.
- A missing `ffmpeg` or `ffprobe` executable makes `subprocess.run` raise `FileNotFoundError` (the check at line 233 only prints a warning). Every run here is assumed to start.
- Arguments.CheckParameters: returns the settings instead of writing the global `settings` dictionary. The printed texts are tags, not rendered strings.
- The `settings["replace_files"]` entry is carried along but never read, as in the script.
- The summary text rendering at line 449 is left out. Only the total it prints is modelled.
