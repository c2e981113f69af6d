# ct — the clipboard tee, modelled in Dafny

`ct` sits at the end of a shell pipeline. It reads its standard input, puts a
payload on the X11 clipboard through `xclip`, and echoes the trimmed input to
standard output. The payload depends on the flags:

- by default it is the input;
- with `-c` it is the command that fed the pipe;
- with `-b` it is both, as a small "Command:/Output:" report.

`-m` wraps the payload as inline Markdown code and `-M` as a fenced block.
The command is recovered from the parent process. A shell started with `-c`
has the whole pipeline in its argument vector, so `ct` reads
`/proc/<ppid>/cmdline`. An interactive shell has no `-c`, so `ct` asks `ps`
for the parent's command line. Either text is then cleaned with a regular
expression.

The model is split into six modules:

- `Text` (text.dfy) holds the string primitives. It has Python's whitespace
  class, which `str.strip()` and `\s` share, and `strip()` itself. It also has
  `list.index` and `split`/`join` on one separator, with their round trips.
- `Cleanup` (cleanup.dfy) holds the two `re.sub` cleanups, written out as
  string functions with Python's exact regex semantics. Neither pattern is
  MULTILINE or DOTALL, so `.` stops at a line feed, `^` holds only at
  position 0, `$` holds only at the end or before a final line feed, and `\s`
  also matches line feeds. The engine's leftmost search, lazy and greedy
  quantifiers, and ordered alternation are modelled case by case.
- `Effects` (effects.dfy) holds the visible effects of a run, as events.
- `Resolver` (resolver.dfy) is `get_parent_command`. It has a pure
  specification (`ParentCommand`, `ResolverTrace`) and an imperative method
  with the source's early returns (`ResolveParentCommand`). The method is
  proved equal to the specification.
- `Driver` (driver.dfy) is `main` and `copy_to_clipboard`. It covers flag
  priority, the payload, Markdown wrapping and its inverse, and the strip
  before the clipboard. It also covers the order of effects and the exit
  status. `RunCt` is proved equal to the trace function `RunTrace`.
- `Scenarios` (scenarios.dfy) holds concrete runs: the invocations from the
  tool's help, and the corner cases of the cleanups.

Everything outside the process boundary comes in as a parameter:

- the terminal test;
- the text read from standard input;
- what `/proc` and `ps` returned, with `None` standing for any exception on
  that path;
- how the `xclip` call ended.

What a run does comes out as a list of `Event`s and an exit status.

The `-c` cleanup deletes the *leftmost* match of `\s*\|\s*ct.*$`. On a
single line that match runs to the end of the line, so the cut comes before
the first `| ct`, not the last. More exactly, the cut is at the start of the
whitespace run in front of that bar (`Cleanup.ShellCut`), so the run goes
with the match, and the strip that follows removes any whitespace left
before it.

In the table, a *ct pipe* is a bar, optional whitespace and the letters
`ct`: what the regex `\|\s*ct` matches.

## Model

| member | source | states |
|---|---|---|
| Text.IsSpace | src/ct.py:14 | the whitespace class of `str.strip()` and `\s`: it holds space, tab, line feed and carriage return, and never the bar, the letter `c` or a digit, so backtracking a `\s*` cannot help a pattern that continues with one of those |
| Text.Strip | src/ct.py:82 | `strip()` leaves a string with no whitespace at either end, no longer than its argument |
| Text.StripIsSlice | src/ct.py:82 | the stripped text is a slice of the original with only whitespace cut from either side |
| Text.StripOfPadded | src/ct.py:82 | `strip()` is determined uniquely: a trimmed core between two whitespace runs is exactly what it returns |
| Text.StripOfTrimmed | src/ct.py:14 | a trimmed string is returned unchanged by `strip()` |
| Text.StripIdempotent | src/ct.py:14 | stripping twice is stripping once, so the second strip before `xclip` changes nothing on a trimmed payload |
| Text.StripDropsFinalSpace | src/ct.py:14 | a trimmed text plus one trailing whitespace character strips back to the trimmed text |
| Text.StripIgnoresPadding | src/ct.py:38 | whitespace glued to either end of a text does not change its strip |
| Text.StripSkipsSpace | src/ct.py:51 | skipping a whitespace run before stripping does not change the result |
| Text.StripDropsTrailingSpace | src/ct.py:38 | cutting a text inside a trailing whitespace run does not change its strip |
| Text.SkipSpace | src/ct.py:37 | greedy `\s*` stops at the first non-whitespace character, and everything it skipped is whitespace |
| Text.SkipSpaceStopsAt | src/ct.py:37 | a whitespace run that ends at a non-space character is exactly what `\s*` consumes |
| Text.FirstIndexOf | src/ct.py:33 | `list.index`: the position holds the element and no earlier position does; `\|xs\|` when it is absent |
| Text.Split | src/ct.py:26 | `split` always yields at least one piece |
| Text.SplitPartsLackSep | src/ct.py:26 | no piece of a split contains the separator |
| Text.SplitAtFirst | src/ct.py:26 | `split` cuts at the first separator and continues with the rest |
| Text.JoinSplit | src/ct.py:26 | joining the pieces of a split with the separator gives back the original bytes |
| Text.SplitJoin | src/ct.py:26 | splitting a join of separator-free pieces gives back the pieces |
| Text.JoinCons | src/ct.py:26 | a join of `head` and a non-empty rest is `head`, the separator, then the join of the rest |
| Text.FirstIndexAfterHead | src/ct.py:26 | the first separator of `head + sep + rest` is the one right after a separator-free `head` |
| Cleanup.Leftmost | src/ct.py:37 | the regex search reports the first position in range where the pattern matches, and none only when no position matches |
| Cleanup.LeftmostNone | src/ct.py:37 | when no position in range matches, the search finds nothing |
| Cleanup.LeftmostIs | src/ct.py:37 | a match with no match before it is the one the search finds |
| Cleanup.SkipDigits | src/ct.py:48 | greedy `\d+` stops at the first non-digit and consumed only digits |
| Cleanup.BarThenCt | src/ct.py:37 | a ct pipe at `k`: a bar at `k`, a maximal whitespace run, then `ct` (a prefix test, so `ctags` matches); a match needs at least three characters from `k` |
| Cleanup.AfterCt | src/ct.py:37 | a ct pipe consumes the bar, whitespace only, then the two letters |
| Cleanup.ReachesEnd | src/ct.py:37 | `.*$` or `.*?$` can finish from `i`: no line feed before the last character; on a text without line feeds every position can finish |
| Cleanup.EndAnchor | src/ct.py:37 | `.*$` ends where at most a final line feed is left over |
| Cleanup.EndAnchorIsSpace | src/ct.py:37 | what `.*$` leaves after its match is whitespace only |
| Cleanup.PipeIntoCtAt | src/ct.py:37 | the whole script pattern matches from `p`; a match starts before the end, and on one line it is exactly a ct pipe after the whitespace run at `p` |
| Cleanup.CleanShellCommand | src/ct.py:37-38 | the cleaned `-c` script is trimmed and no longer than the script |
| Cleanup.ShellCut | src/ct.py:37 | the cut is at a full match of the pattern with no match before it, or at the end |
| Cleanup.ShellCommandIsCut | src/ct.py:37-38 | the cleaned script is the stripped text in front of the leftmost match |
| Cleanup.ShellCommandCutAt | src/ct.py:37-38 | given the leftmost match position, the result is the stripped prefix before it; the final line feed `re.sub` keeps disappears in the strip |
| Cleanup.ShellCommandUncut | src/ct.py:37-38 | with no match anywhere, the script is only stripped |
| Cleanup.SingleLineMatch | src/ct.py:37 | on one line, every ct pipe completes a match of the whole pattern |
| Cleanup.ShellCommandSingleLine | src/ct.py:37-38 | on one line, the result is the stripped text before the first ct pipe |
| Cleanup.ShellCommandSingleLineUncut | src/ct.py:37-38 | on one line with no ct pipe, the script is only stripped |
| Cleanup.BarThenCtInSlice | src/ct.py:37 | a ct pipe inside a slice is one of the whole text |
| Cleanup.BarThenCtAfter | src/ct.py:37 | a ct pipe at the start of a suffix is one of the whole text |
| Cleanup.NoMatchBeforeCut | src/ct.py:37 | no match of the pattern starts before the cut |
| Cleanup.NoBarThenCtBeforeCut | src/ct.py:37-38 | on one line, no slice of the text before the cut holds a ct pipe |
| Cleanup.ShellCommandIsSlice | src/ct.py:37-38 | the cleaned script is a slice of the text in front of the cut |
| Cleanup.ShellCommandLeavesNoPipeIntoCt | src/ct.py:37-38 | on one line, the cleaned script contains no ct pipe |
| Cleanup.ShellCommandIdempotent | src/ct.py:37-38 | on one line, cleaning a cleaned script changes nothing |
| Cleanup.NoBarThenCtWithoutBar | src/ct.py:37 | a text without `\|` contains no ct pipe |
| Cleanup.ShellCommandOfPipeline | src/ct.py:37-38 | for a one-line `cmd ws \| ct ...` with a trimmed, bar-free command, the result is exactly the command |
| Cleanup.ShellCommandPipeAtEnd | src/ct.py:37-38 | `cmd\|ct` on one line cleans to `cmd` |
| Cleanup.NoMatchOnFirstLine | src/ct.py:37 | in `cmd\|ct<LF>\|ct` no match starts on the first line, because `.*$` cannot cross the line feed |
| Cleanup.PipeCtTrimmed | src/ct.py:37 | appending `\|ct` keeps a trimmed command trimmed |
| Cleanup.ShellCommandFirstOfTwoLines | src/ct.py:37-38 | `cmd\|ct<LF>\|ct` cleans to `cmd\|ct`: `\s*` crosses the line feed and `.*$` cannot |
| Cleanup.ShellCommandTwiceOnTwoLines | src/ct.py:37-38 | across a line feed the cleanup is not idempotent: a second pass gives `cmd`, not `cmd\|ct` |
| Cleanup.DropsLineAt | src/ct.py:48 | alternative (a) succeeds with its bar at `k`: a ct pipe there whose `.*?$` can finish; on one line, any ct pipe does |
| Cleanup.PromptMarkerAt | src/ct.py:48 | alternative (b)'s literal `└─$` occupies the three characters from `k`, and nothing else is a marker |
| Cleanup.PromptMatchEnd | src/ct.py:48 | the fallback pattern deletes at most a prefix of the line |
| Cleanup.CleanPromptLine | src/ct.py:47-51 | the cleaned `ps` line is trimmed and no longer than the line |
| Cleanup.PromptLineDroppedWhenPipedIntoCt | src/ct.py:48-51 | rule (a): a first line that pipes into `ct`, with `.*?$` reaching the end, cleans to the empty string |
| Cleanup.PromptLineWithPipeIntoCt | src/ct.py:48-51 | on one line, any ct pipe anywhere empties the whole line |
| Cleanup.NoPromptMarkerWithoutCorner | src/ct.py:48 | without the corner character there is no `└─$` marker |
| Cleanup.PromptMarkerRemoved | src/ct.py:48-51 | rule (b), when (a) does not apply: everything up to the first `└─$` of the first line, and the whitespace after it, goes |
| Cleanup.PromptCornerOnly | src/ct.py:48-51 | a bar-free line that starts with `└─$` loses only the corner; rule (c) does not also fire |
| Cleanup.PromptIndexRemoved | src/ct.py:48-51 | rule (c), when neither (a) nor (b) applies: one leading number and the whitespace around it go |
| Cleanup.PromptLineKept | src/ct.py:48-51 | when no rule applies, the line is only stripped |
| Resolver.NonEmpty | src/ct.py:29 | the kept arguments are non-empty elements of the list, and there are no more of them than arguments |
| Resolver.NonEmptyAppend | src/ct.py:29 | dropping empty arguments distributes over concatenation |
| Resolver.NonEmptyKeepsNonEmpty | src/ct.py:29 | a list without empty arguments is kept whole |
| Resolver.Fields | src/ct.py:26-29 | every recovered argument is non-empty and contains no NUL |
| Resolver.FieldsOfCmdline | src/ct.py:25-29 | the kernel's NUL-terminated cmdline gives back exactly the argument vector when no argument is empty |
| Resolver.ShellScript | src/ct.py:32-35 | there is a script iff `-c` occurs before the last argument; it is the argument after the first `-c` |
| Resolver.ParentCommand | src/ct.py:21-55 | a resolved command is trimmed; `None` only when `/proc` or `ps` failed |
| Resolver.ResolverTrace | src/ct.py:21-55 | resolution always starts by reading `/proc/<ppid>/cmdline` |
| Resolver.ResolveParentCommand | src/ct.py:21-55 | the method with early returns yields exactly `ParentCommand` and `ResolverTrace` |
| Resolver.WarnsIffUndetected | src/ct.py:53-55 | the warning is emitted iff the result is `None`, and no exception escapes |
| Resolver.ScriptPathSkipsPs | src/ct.py:32-38 | with a `-c` script, `ps` is never run and the result is the cleaned script |
| Resolver.FallbackUsesPsLine | src/ct.py:40-51 | without a `-c` script, the result is the cleaned, stripped `ps` line |
| Resolver.ShellInvocationResolved | src/ct.py:25-38 | for a parent run as `<shell> ... -c <script> ...`, the result is the cleaned script and `ps` is not consulted |
| Driver.ModeOf | src/ct.py:86-93 | `-c` takes priority over `-b`; with neither the payload is the input |
| Driver.FormatOf | src/ct.py:95-98 | `-m` takes priority over `-M`; with neither there is no wrapping |
| Driver.CommandText | src/ct.py:87 | the shown command is never empty: the resolved text, or the placeholder for `None` and for the empty string |
| Driver.BothPayload | src/ct.py:91 | the `-b` report has a fixed 19-character frame around command and output, and ends like the output (or in a line feed) |
| Driver.BothPayloadInjective | src/ct.py:91 | a one-line command and the output can be read back off a `-b` report |
| Driver.Payload | src/ct.py:84-93 | the payload is the input by default and the shown command for `-c`; for `-b` it is a report of fixed length whose command sits after `Command:\n` and whose last characters are the input |
| Driver.Wrap | src/ct.py:95-98 | inline wrapping adds 2 backticks and block wrapping adds 8 characters, delimited by backticks; raw is the identity |
| Driver.Unwrap | src/ct.py:95-98 | removing the Markdown delimiters never lengthens the text |
| Driver.UnwrapWrap | src/ct.py:95-98 | removing the delimiters of a wrapped payload gives back the payload exactly |
| Driver.WrapUnwrap | src/ct.py:95-98 | a text the delimiters can be taken off is the wrapping of what remains |
| Driver.Output | src/ct.py:84-98 | the text handed to the clipboard call: taking the chosen Markdown delimiters off it gives back exactly the payload |
| Driver.PayloadTrimmed | src/ct.py:82-93 | the composed payload is already trimmed, except a `-b` report of empty input, which ends in one line feed |
| Driver.ClipboardTextExact | src/ct.py:14 | the strip before `xclip` changes the output only for an unwrapped `-b` report of empty input, and then drops exactly its last line feed |
| Driver.RunTrace | src/ct.py:78-101 | every run has at least one visible effect |
| Driver.LookupTrace | src/ct.py:86-90 | the lookup produces only `/proc`, `ps` and warning events, and none at all without `-c` or `-b` |
| Driver.ExitStatus | src/ct.py:17-19 | the exit status is 0 iff stdin is a terminal or the clipboard write succeeded, and 1 otherwise |
| Driver.CopyToClipboard | src/ct.py:9-19 | the stripped text is sent to `xclip`; a failure is reported and ends the run |
| Driver.RunCt | src/ct.py:76-101 | the imperative run produces exactly `RunTrace` and `ExitStatus` |
| Driver.TraceLayout | src/ct.py:86-101 | a piped run is the lookup, one clipboard request, then the echo iff the copy succeeded |
| Driver.EchoOnlyAfterCopy | src/ct.py:100-101 | the trimmed input is echoed last, for every flag set, iff the clipboard write succeeded |
| Driver.ClipboardWrittenOnce | src/ct.py:100 | exactly one clipboard request per piped run, holding the stripped output |
| Driver.LookupOnlyWhenNeeded | src/ct.py:86-93 | the parent process is inspected iff `-c` or `-b` is given |
| Driver.TerminalShowsHelp | src/ct.py:78-80 | with a terminal on stdin, the help text is the only effect and the status is 0 |
| Scenarios.ScriptOfEchoPipeline | src/ct.py:37-38 | `echo hello world \| ct -m` cleans to `echo hello world` |
| Scenarios.ScriptPipingIntoCtags | src/ct.py:37-38 | `ct` is only a prefix test: `ls\|ctags` cleans to `ls` |
| Scenarios.PsLineOfPipeline | src/ct.py:47-51 | the `ps` line `git log \| ct -b` cleans to the empty string |
| Scenarios.PsLineAfterPromptCorner | src/ct.py:47-51 | `└─$ 7 ls` cleans to `7 ls`: the number is not removed after the corner |
| Scenarios.PsLineWithJobNumber | src/ct.py:47-51 | `1 2` cleans to `2`: only one leading number goes |
| Scenarios.ParentIsShellScript | src/ct.py:25-38 | the cmdline of `bash -c 'echo hello world \| ct -m'` resolves to `echo hello world` without running `ps` |
| Scenarios.InlineRun | src/ct.py:95-101 | `echo <text> \| ct -m` copies the text in backticks and echoes the text |
| Scenarios.CommandOnlyRun | src/ct.py:86-88 | `-c` copies the resolved command and still echoes the input |
| Scenarios.BlockReport | src/ct.py:91-98 | a `-b` report in a fence reads "```", Command:, the command, a blank line, Output:, the input, "```" |
| Scenarios.BothAsBlockRun | src/ct.py:89-98 | `-b -M` copies the two-part report inside a fenced block |
| Scenarios.BlankReport | src/ct.py:91 | a `-b` report of empty input is the trimmed report followed by one line feed |
| Scenarios.BothOfBlankInput | src/ct.py:14 | `-b` on blank input copies the report without its final line feed and echoes an empty line |
| Scenarios.CommandNotDetectedRun | src/ct.py:53-55 | with `/proc` unreadable, `-c` warns and copies the placeholder |
| Scenarios.ClipboardFailureRun | src/ct.py:17-19 | a failing `xclip` is reported, nothing is echoed, and the status is 1 |

## Left out

- The process boundary is not modelled. `os.getppid`, reading `/proc`, running `ps`, the terminal test and reading standard input are parameters, and the `xclip` child process is reduced to its outcome.
- Driver.CopyToClipboard: the UTF-8 encoding of the clipboard text is not modelled. Standard input read under the C locale can hold surrogate escapes, and encoding those raises an uncaught error that the model does not have.
- Resolver.ParentCommand: the UTF-8 decoding of `/proc` and `ps` bytes is not modelled. A decoding failure is one of the exceptions folded into `None`, and the text is taken as already decoded.
- Cleanup.SkipDigits: `\d` is modelled as the ASCII digits. Python's `\d` on `str` matches every Unicode decimal digit, so a line starting with, say, an Arabic-Indic digit is cleaned differently.
- Driver.RunCt: an undecodable byte on standard input is not modelled. Under a UTF-8 locale, `sys.stdin.read()` then raises an uncaught `UnicodeDecodeError`. The run ends with a traceback and status 1 before any clipboard write, and the model has no such outcome, because `stdin` arrives as already decoded text.
- Argument parsing, the help text and its error exits are not modelled. Flags arrive as four booleans, and the help is one `Help` event.
- The texts of the stderr messages are not modelled. Their exception details are abstracted to `DetectionWarning` and `ClipboardError`.
- The message written by an uncaught `FileNotFoundError` is not modelled. It is the `Traceback` event with exit status 1.
- Errors while writing to standard output are not modelled. An example is a closed pipe at `print`.
