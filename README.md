# Diderot examples: test runner and probe generator

This project models two scripts of the Diderot examples repository.

`runtests.py` is the regression runner. The model covers:

- the expansion of the requested test list with prerequisite tests (`_addpreq`, `addpreq`);
- the parser for the directive lines of each test's `.test.sh` script (`#I`, `#tmp`, `#prog`, `#>`);
- `runsave`, which decides whether a script run failed (non-zero exit or a segfault line) and which lines it saves (all but the diderotc warnings);
- `globprogs`, which turns program globs into program names and executable paths;
- create-reference mode, which checks that `ls` and `glob.glob` agree on every `#>` glob before moving the outputs;
- the `-p` option: its range check, its conflict with `-c`, output file naming and the compile target;
- the compare-mode repetition loop with its early exits;
- the pass/fail bookkeeping, which decides what each test deletes and which executables are deleted at the end.

`dprobe/dprobe.py` generates a probing program from a template. The model covers:

- rejection of image input from stdin;
- parsing the image header that `unu dnorm -h` prints;
- building the substitution table;
- the rewrite of the template, line by line.

The generator's `-kern` and `-bc` options keep the behaviour of the code. A default is a plain string. A given value is the one-element list that argparse makes for `nargs=1`. So a given `-kern` makes `str.replace` raise a `TypeError` on the first non-comment line. A given `-bc none` is taken as a border control and wraps the field as `none(`.

The modules follow the scripts:

- `Text`: the Python string operations used;
- `Prereq`: test-list expansion;
- `Directives`: the directive parser and its inverse renderer;
- `Capture`: `runsave`;
- `Programs`: `globprogs`, the listing check, `-p`, output names;
- `Runner`: the per-test loop and the `Suite` class holding `passed`, `failed`, `execs` and the deleted files;
- `Probe`: the generator.

Everything the scripts ask of the operating system is an input:

- subprocess results: the test script's exit status and output, `diff`, `unu diff`, `ls`, `mv`, `unu dnorm`;
- `glob.glob` and `os.path.abspath`;
- file contents.

## Model

| member | source | states |
|---|---|---|
| Prereq.AddPreqOnce | runtests.py:173-185 | one `_addpreq` round returns the first occurrence of each test and of its prerequisites, each prerequisite inserted before the test that needs it |
| Prereq.AddPreq | runtests.py:186-191 | `addpreq` ends; the result holds exactly the requested tests and their prerequisites, has no repeats, lists every prerequisite before its dependents, and is a fixpoint of `_addpreq` |
| Prereq.StepMembers | runtests.py:173-185 | an entry is in a round's result exactly when it was requested or is a prerequisite of a requested test; every requested test stays |
| Prereq.StepClosed | runtests.py:173-185 | with a prerequisite table of depth one, a single round already yields a list without repeats that lists prerequisites first |
| Prereq.GatherFirstOrdered | runtests.py:175-182 | in `plist`, every entry's prerequisites appear before its first occurrence |
| Prereq.DedupOrdered | runtests.py:183-184 | keeping first occurrences turns "prerequisites before first occurrence" into "prerequisites before every entry" |
| Prereq.DedupNoDup | runtests.py:183-184 | a list without repeats passes the de-duplication unchanged |
| Prereq.GatherOrdered | runtests.py:175-182 | a list that already lists prerequisites first gains nothing in `plist` |
| Prereq.ClosedIsFixpoint | runtests.py:187-190 | a closed list (no repeats, prerequisites first) is left unchanged by a round, so the loop stops on it |
| Prereq.FixpointIffClosed | runtests.py:187-190 | for a table of depth one, a round leaves a list unchanged exactly when it is closed |
| Prereq.StepIdempotent | runtests.py:187-190 | a second round changes nothing, so the loop makes at most two rounds |
| Prereq.TableShallow | runtests.py:89-92 | no prerequisite in `PREREQ` has prerequisites of its own |
| Prereq.IsoExpansion | runtests.py:89-92 | requesting `iso2d` alone runs `fs2d` first and then `iso2d` |
| Prereq.Requested | runtests.py:156-163 | with test names given, each loses exactly its trailing `/`; without any, the whole `TESTS` catalogue is used |
| Directives.ParseScript | runtests.py:312-327 | the parsing loop equals `Parse`: the first `#>` line with fewer than two words stops it; a script without `#tmp`/`#prog` lines is refused; otherwise the declarations come out in script order and `dodiff` is cleared by any `#I` line |
| Directives.ParseLine | runtests.py:314-324 | one line extends the declarations exactly as the whole-script definitions do; it fails exactly on a malformed `#>` line |
| Directives.FirstMalformed | runtests.py:322-324 | it finds no bad `#>` line exactly when none exists; any index it reports lies inside the script |
| Directives.FirstMalformedAt | runtests.py:322-324 | a malformed `#>` line after well-formed lines is the one reported |
| Directives.FirstMalformedSpec | runtests.py:322-324 | the reported line is malformed and no earlier line is |
| Directives.ProgramsEmpty | runtests.py:325-327 | no program comes out exactly when no line starts with `#tmp` or `#prog` |
| Directives.ProgramsFrom | runtests.py:316-321 | each declared program is the declaration made by some `#tmp` or `#prog` line of the script |
| Directives.IgnoringIff | runtests.py:315 | the exact comparison is skipped exactly when some line starts with `#I` |
| Directives.NoProgramsRefused | runtests.py:325-327 | a script without program lines is always refused, with the malformed-line error taking precedence |
| Directives.RenderDeclares | runtests.py:314-324 | rendering a set of declarations as directive lines yields lines that declare exactly those programs and outputs, in order, and the given `dodiff` |
| Directives.RenderParse | runtests.py:312-327 | parsing rendered directives gives back the same declarations (round trip) |
| Directives.ProgramsAppend | runtests.py:314-321 | the declarations of concatenated scripts are the concatenation of their declarations |
| Directives.OutputsAppend | runtests.py:322-324 | the same holds for `#>` declarations when both parts are well formed |
| Directives.IgnoringAppend | runtests.py:315 | a concatenated script skips the comparison when either part does |
| Capture.RunSave | runtests.py:229-255 | the saved text always ends in a newline |
| Capture.Find2Matches | runtests.py:107-110 | scanning for the first occurrences finds a match of the two-part line patterns exactly when the regex would |
| Capture.IsFaultIff | runtests.py:107 | the segfault test matches exactly the lines `.*egmentation.*ault.*` matches |
| Capture.IsWarningIff | runtests.py:110 | the warning test matches exactly the lines the diderotc warning regex matches |
| Capture.AnyFaultIff | runtests.py:247 | the captured output reports a fault exactly when one of its lines does |
| Capture.RunSaveFails | runtests.py:229-247 | a run fails exactly when the script exits non-zero or some captured line is a segfault report |
| Capture.KeptAppend | runtests.py:252 | the warning filter distributes over concatenation, so kept lines keep their order |
| Capture.KeptMembers | runtests.py:252 | a line is saved exactly when it was captured and is not a diderotc warning |
| Capture.KeptNoWarnings | runtests.py:252 | output without warnings is saved line for line |
| Capture.SavedLines | runtests.py:240-254 | reading the saved file back line by line yields exactly the kept lines; with nothing kept the file is a lone newline |
| Programs.GlobProgs | runtests.py:257-266 | the loop equals `GlobResult`: one pass over the globs that extends programs and executables, stopping at a glob without matches |
| Programs.GlobStops | runtests.py:259-261 | a glob without matches, after globs that all matched, stops the run with that glob |
| Programs.GlobFailsIff | runtests.py:257-261 | `globprogs` stops exactly when some glob matches nothing, and it names the first such glob |
| Programs.GlobExecsMatch | runtests.py:263-266 | on success every program has exactly one executable, its absolute path, in the same order |
| Programs.GlobCount | runtests.py:263-265 | the number of programs found equals the total number of matches |
| Programs.ProgNameStripped | runtests.py:263 | a match `N.diderot` becomes the program `N`, provided `N` itself holds no `.diderot` (every occurrence is removed) |
| Programs.ListingSameNames | runtests.py:353-359 | an `ls` that lists the same files, one per line, in any order, passes |
| Programs.RunsSpec | runtests.py:169-171 | `-p` is accepted exactly when absent, or in [1,99] without `-c` (the conflict is checked at lines 217-218); each test then runs `-p` times, or once without `-p` (line 370); an out-of-range value is reported as such |
| Programs.Pad2Digits | runtests.py:380 | `%02d` of a number below 100 is its two decimal digits |
| Programs.OutNameDigits | runtests.py:380 | a parallel output file name is `out-` followed by the repetition's two digits and `.txt` |
| Programs.OutNamesDistinct | runtests.py:375-383 | with at most 99 repetitions, each has its own output file, and none is the sequential `out.txt` |
| Programs.TargetOnce | runtests.py:375-382 | only the first parallel repetition compiles (`pthread`); later ones use `noop`; without `-p` the variable is removed |
| Runner.CompareOutputs | runtests.py:400-412 | the tolerance loop leaves the test passing exactly when it passed before and every file each `#>` glob matches is within tolerance; on repetition 0 it adds all compared files to the junk |
| Runner.CompareFiles | runtests.py:401-412 | the inner tolerance loop compares every file one glob matches, so a mismatch clears the verdict without stopping the others; on repetition 0 all the files become junk |
| Runner.RunOnce | runtests.py:375-412 | one pass of the loop body equals `Step`: save the run, find the programs on repetition 0, diff, then compare the outputs |
| Runner.CompareRuns | runtests.py:369-413 | the repetition loop equals `Repeat` from repetition 0 with a fresh passing state |
| Runner.StepPass | runtests.py:383-412 | a repetition leaves the test passing exactly when its script succeeds, its output matches the reference (when compared), and every output is within tolerance |
| Runner.StepStops | runtests.py:384-391 | a repetition stops the whole run exactly when it is repetition 0, its script succeeded, and a program glob matched nothing |
| Runner.StepJunk | runtests.py:383-404 | a repetition adds its output file to the junk; a passing repetition 0 adds the compared files too |
| Runner.RepeatPassIff | runtests.py:373-412 | a test that finishes the loop passes exactly when every repetition passes |
| Runner.RepeatLaterOk | runtests.py:390-391 | from repetition 1 on, the loop never stops the run |
| Runner.RepeatStopsIff | runtests.py:369-413 | the compare loop stops the run exactly when there is a repetition, the first script run succeeds and a program glob matches nothing |
| Runner.OutNames | runtests.py:375-383 | there is one output name per repetition in the range |
| Runner.RepeatPassJunkLater | runtests.py:383 | after repetition 0, a passing loop adds exactly one output file per repetition to the junk |
| Runner.RepeatPassJunk | runtests.py:383-404 | a passing test's junk is exactly each repetition's output file plus the files the `#>` globs matched on repetition 0 |
| Runner.RepeatJunkSources | runtests.py:383-404 | the junk only ever holds repetition output files and files matched on repetition 0 |
| Runner.ScriptFailureEndsLoop | runtests.py:384-389 | a failing script fails the test at once; only its output file is added to the junk |
| Runner.ToleranceFailureEndsLoop | runtests.py:373-412 | a tolerance mismatch on a later repetition fails the test, and no further repetition runs |
| Runner.CreateRef | runtests.py:334-367 | create mode equals `CreateRefResult`: a failed script stops the run; each `#>` glob is then checked and moved in order, the first failure stopping the run; finally `globprogs` runs |
| Runner.MoveAllStops | runtests.py:341-366 | the first output glob that fails its check or its move decides the error |
| Runner.CreateRefOkIff | runtests.py:334-367 | create mode succeeds exactly when the script succeeds; for every `#>` glob, `ls` succeeds, `glob.glob` matches something, both list the same names and `mv` succeeds; and every program glob matches a file |
| Runner.MoveAllIff | runtests.py:341-366 | create mode gets past the outputs exactly when every glob gets through |
| Runner.FailureDeletesNothing | runtests.py:415-429 | a failed test deletes no file |
| Runner.ArtifactSources | runtests.py:420-425 | a `.diderot` file is deleted only for a program the script generated (`#tmp`) |
| Runner.ArtifactsCover | runtests.py:420-425 | every program's `.o` and `.cxx` are deleted, and the `.diderot` source of every generated program |
| Runner.BuildFiles | runtests.py:420-425 | the files to delete after a passing test are exactly the build artifacts of its programs |
| Runner.NoDupOnce | runtests.py:427-429 | a list without repeats holds each name at most once |
| Runner.ExactlyOne | runtests.py:427-429 | when the tests run have no repeats, each one is in exactly one of `passed` and `failed`, and nothing else is |
| Runner.Suite.constructor | runtests.py:296-298 | the run starts with no passed, failed or deleted entries and no executables |
| Runner.FirstRepeatSpec | runtests.py:415-442 | deletion stops at the first name already deleted earlier in the list; the names deleted before it are distinct; the whole list is deleted exactly when it has no repeats |
| Runner.Suite.Remove | runtests.py:416-425 | `os.remove` on each name in order: the names up to the first repeat are recorded, and a repeat stops the run with `RemoveFailed`; nothing else changes |
| Runner.Suite.Record | runtests.py:427-429 | a test goes into `passed` or `failed`, by its verdict, and the two lists stay a partition of the tests run |
| Runner.Suite.Conclude | runtests.py:415-429 | a passing test deletes its junk (unless `-ko`) and its build files (unless `-kc`), and its executables join the final sweep; a failing test deletes nothing; exactly one of `passed`/`failed` grows; a repeated name among the deletions stops the run before the test is recorded or its executables are kept |
| Runner.Suite.FinalSweep | runtests.py:439-442 | at the end every collected executable is deleted, unless `-ke`; an executable listed twice stops the run at its second deletion |
| Runner.Suite.RunTest | runtests.py:299-429 | with the run count that `-p` gives, one test runs from script to verdict: a stop condition ends the run with that reason; otherwise the verdict, the deletions and a possible deletion failure are those of `Conclude` |
| Runner.Suite.RunAll | runtests.py:298-442 | with the run count that `-p` gives, a run that is not stopped handles every test of the expanded list, in order, and keeps the pass/fail partition |
| Probe.Uhead | dprobe/dprobe.py:139 | the header has one entry per output line of `unu dnorm -h` |
| Probe.ParseHeader | dprobe/dprobe.py:140-143 | each header field is taken from the last line that starts with its tag |
| Probe.LatestNone | dprobe/dprobe.py:140-143 | a field is missing exactly when no line starts with its tag |
| Probe.LatestLast | dprobe/dprobe.py:140-143 | the field's value comes from the last line carrying the tag |
| Probe.TagValue | dprobe/dprobe.py:141-143 | a tagged line `tag value`, whose value does not repeat the tag, yields that value |
| Probe.BuildSubs | dprobe/dprobe.py:135-182 | building the table key by key equals `Subs`: 14 keys in the source's insertion order, or the first error among missing space dimension, unknown query type, missing dimension, missing kinds, unknown kind |
| Probe.SubsOkIff | dprobe/dprobe.py:140-182 | the table is built exactly when the header has a space dimension and a dimension, the query type is known, and a non-scalar image has a known first kind |
| Probe.SubsErrorOrder | dprobe/dprobe.py:144-159 | a missing space dimension is reported before an unknown query type, and that before a missing dimension |
| Probe.QueryInitMirrorsType | dprobe/dprobe.py:148-159 | exactly the five known query types have a NaN initializer, and it carries the type's shape |
| Probe.KindShape | dprobe/dprobe.py:170-182 | exactly the four known kinds have a shape: `N-vector` is `[N]` and `ND-matrix` is `[N,N]` |
| Probe.VecnReal | dprobe/dprobe.py:144 | the position type is `real` exactly for a one-dimensional space, else `vec` and the dimension |
| Probe.ShapeScalar | dprobe/dprobe.py:170-171 | the sample shape is `[]` exactly when the image's dimension equals its space dimension |
| Probe.BorderFieldsSpec | dprobe/dprobe.py:161-169 | without `-bc` probes are guarded by an inside test and the field is bare; with `-bc b` the field is wrapped in `b(`…`)` and unguarded |
| Probe.KernListIff | dprobe/dprobe.py:160 | the table holds a list value exactly when `-kern` was given |
| Probe.Rewrite | dprobe/dprobe.py:198-203 | the rewrite loop equals `RewriteLines`: comment lines are dropped; a line too short for the `//` test fails, which for lines read with their `\n` is only a final lone `/` without a newline; every other line has all keys replaced, in table order |
| Probe.RewriteStops | dprobe/dprobe.py:198-203 | the first failing line decides the rewrite's error |
| Probe.RewriteCount | dprobe/dprobe.py:199-203 | the program has one line per non-comment template line |
| Probe.PlainLineUnchanged | dprobe/dprobe.py:200-203 | a line holding no key is copied unchanged |
| Probe.TextTableApplies | dprobe/dprobe.py:200-201 | a table of strings can rewrite every line |
| Probe.ListFails | dprobe/dprobe.py:200-201 | a list anywhere in the table makes every rewritten line fail with a `TypeError` |
| Probe.ListTableOnlyComments | dprobe/dprobe.py:198-203 | with a list in the table, the rewrite succeeds only on a template of comments and then writes nothing |
| Probe.TextTableRewrites | dprobe/dprobe.py:198-203 | a table of strings rewrites any template in which no line is too short for the `//` test |
| Probe.ReadLinesBad | dprobe/dprobe.py:194-200 | in lines as `readlines()` returns them, the only line the `//` test fails on is a final lone `/` without a newline |
| Probe.Probe | dprobe/dprobe.py:135-203 | the generator equals `Generate`: stdin refused first, then the header, the table and the rewrite in turn |
| Probe.StdinRefused | dprobe/dprobe.py:136-137 | `-i -` is refused whatever the header and the template |
| Probe.KernGivenFails | dprobe/dprobe.py:160-203 | with `-kern` given, generation succeeds only on a template of comments |
| Probe.DefaultKernRewrites | dprobe/dprobe.py:160-203 | with the default kernel, a template read by `readlines()` whose final line is not a lone `/` without a newline is rewritten once the table is built |
| Text.SplitOn | dprobe/dprobe.py:143 | `split(' ')` yields at least one piece, no piece holds a space, and joining the pieces with spaces restores the string |
| Text.RStrip | dprobe/dprobe.py:139 | `rstrip()` removes exactly the trailing whitespace |
| Text.SplitLinesJoin | runtests.py:253-254 | lines without line breaks, joined by and ending with a newline, split back into the same lines |

## Left out

- Running subprocesses is not modelled. Their results are inputs of `Runner.Host` and `Probe.Probe`: the test script, `diff`, `unu diff`, `ls`, `mv` and `unu dnorm -h`. The same holds for `glob.glob` and `os.path.abspath`.
- File-system effects are not modelled. Writing an output file is its text in `Capture.Saved`. Deleting a file appends its name to `Suite.removed`. Template lines are the lines `readlines()` returns, each with its `\n`. Moving reference outputs is the `mv` answer.
- The deletion of earlier outputs before the compare loop (runtests.py:372) is not modelled.
- Directory changes, creation of the reference directory and setting `DDRO_TARG` are not modelled; the variable's value is `Programs.Target`.
- The tool and path checks at start-up (runtests.py:271-282) are not modelled.
- Command-line parsing, verbose printing and the final summary are not modelled.
- The runner decodes script output as UTF-8; the model starts from the decoded text.
- Sorting the two file listings and comparing them (runtests.py:357) is modelled as multiset equality, which is the same test.
- A `#>` line with fewer than two words raises an uncaught `IndexError` in the runner; the model reports it as `BadOutputLine` with the line's index.
- Deleting a file that was never created (runtests.py:419, 425, 442) is not modelled: only a name deleted earlier in the same list makes `os.remove` fail. A file deleted by a test and again, under its full path, by the final sweep is not detected either, because the model does not resolve relative names.
- The answers of `ls`, `glob.glob` and `mv` in create mode do not depend on earlier moves. After `mv` (runtests.py:360), a later `#>` glob matching an already moved file would no longer see it; the model cannot tie that to the earlier move.
- Runner.Suite.RunAll: its contract states the tests handled and the pass/fail partition. The deletions of each test are stated by `RunTest` and `FinalSweep` rather than repeated here.
- Runner.StepJunk: for a repetition that fails, it states only that the junk gains the output file, possibly followed on repetition 0 by the compared files. It does not say which of the two happens.
- Probe.Rewrite: when a line fails mid-rewrite, the output file already holds the earlier lines. The model returns only the error, without that partial file.
- The generator's `-nt`, `-s`, `-pg`, `-pi`, `-pp`, `-v` and `-o` options are not modelled. The choice of output name (dprobe/dprobe.py:197) and the removal of the generated `.diderot` file when `-op` is absent (dprobe/dprobe.py:209-212) are not modelled either; the model returns the program's lines.
- A failure of `unu dnorm` itself is not modelled.
- In dprobe/dprobe.py, `_IMG_NAME_` and `_IMG_DIM_` are inserted while the header is read, before `_IMG_VECN_`. The model builds the table after reading the header, in the same key order.
- A header lacking `dimension:` (`NameError` on `DIM`) and a non-scalar header lacking `kinds:` (`NameError` on `KIND`) are modelled as the errors `NoDimension` and `NoKinds`. The same goes for a missing `space dimension:` (`KeyError`).
