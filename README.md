# pymtheg clip selection, in Dafny

pymtheg downloads songs with spotdl and turns each into a short video clip with
ffmpeg. The only logic it has of its own decides *which* part of a song becomes
the clip, and how the run ends when an external program fails. This project
models that logic and proves what it promises:

- `Timestamp`: `parse_timestamp`. It turns `[hh:mm:]ss` text into seconds. A
  leading `+` means "relative to a base". Invalid text gives `None`.
  `Timestamp.Parse` is the value the code computes. `Timestamp.ParseTimestamp`
  is the code's own loop (strip the prefix, split on `:`, reverse, accumulate
  with units 1, 60, 3600), proved equal to it.
- `Strings`: the parts of Python's string library the parser depends on.
  `str.split` (with its inverse `join`), `list.reverse`, `str.isnumeric`,
  `int` and `str` on decimal digits.
- `ClipSelection`: the two re-prompt loops of `main`. Both are methods over a
  sequence of typed responses. Each is proved equal to `Select`, the "first
  accepted response" reading of the loop. `Answer` says how one response is
  judged. `PromptClip` runs both loops, as `main` does for each song.
- `Invocation`: `invocate`. It builds the argument vector with the `None`
  entries dropped, and picks between returning, `exit(returncode)` and
  `exit(errcode)`. The outcome of launching the process is an input.
  `RunDisposition` follows the calls in `main`: the first failing call ends
  the run.
- `Pymtheg`: `part_of_day` (the hour is a parameter), the choice of output
  path, and the checks `get_args` makes on `--out` and `--dir`. The
  file-system facts and the overwrite answer are inputs.

Behaviour this version of pymtheg does not have:

- This version has no "to the end" sentinel. The end prompt rejects `-1` as
  invalid text (`EndSentinelRejected`, `MinusOneEndRefused`).
- The end is never compared with the start or with the duration. An end
  before the start is accepted (`EndMayPrecedeStart`), and so is a negative
  `--clip-length`.
- There is no confirm step. pymtheg makes no existence check on the default
  output path; what ffmpeg then does is not modelled.
- `parse_timestamp` defaults `relative_to` to 0, not `None`. The start prompt
  therefore accepts `+n` as `n` (`StartAcceptsPlusPrefix`). Only an explicit
  `None` keeps the `+`, and then the text is invalid.

## Model

| member | source | states |
|---|---|---|
| `Timestamp.Parse` | pymtheg.py:216-246 | an accepted value is at least its base (the `relative_to` for an honoured `+`, else 0), and it was built from at most three all-numeric segments |
| `Timestamp.ParseTimestamp` | pymtheg.py:223-246 | the loop that strips the prefix, reverses the split segments and accumulates `int(seg) * unit` returns exactly `Parse`, with `None` at the first non-numeric segment |
| `Timestamp.ParseJoined` | pymtheg.py:229-243 | one to three digit strings joined by `:` parse to hours*3600 + minutes*60 + seconds, read from the right, whatever the base |
| `Timestamp.TooManySegmentsIsInvalid` | pymtheg.py:235-246 | text with three or more colons (four or more segments) gives `None` |
| `Timestamp.NonNumericSegmentIsInvalid` | pymtheg.py:236-241 | any segment that is not all digits (empty, signed, alphabetic) gives `None` |
| `Timestamp.RelativeAddsBase` | pymtheg.py:225-227 | `+rest` with a base parses to base + the plain value of `rest`, and is `None` when `rest` is invalid |
| `Timestamp.PlusWithoutBaseIsInvalid` | pymtheg.py:225-241 | with `relative_to=None` the `+` stays in the first segment, which is then non-numeric, so the result is `None` |
| `Timestamp.UnprefixedIgnoresBase` | pymtheg.py:225-227 | text without a leading `+` parses the same whatever `relative_to` is |
| `Timestamp.RelativeRoundTrip` | pymtheg.py:126 | a relative end rendered as `+<seconds>` parses back to base + seconds |
| `Timestamp.ExampleMinutes` | pymtheg.py:221 | "2:49" parses to 169 |
| `Timestamp.ExampleHours` | pymtheg.py:221 | "5:18:18" parses to 19098 |
| `Timestamp.RejectsEmpty` | pymtheg.py:236-241 | "" is invalid |
| `Timestamp.RejectsLetters` | pymtheg.py:236-241 | "abc" is invalid |
| `Timestamp.RejectsNegative` | pymtheg.py:236-241 | "-1" is invalid |
| `Timestamp.RejectsEmptySegment` | pymtheg.py:236-241 | "1::2" is invalid |
| `Timestamp.RejectsFourSegments` | pymtheg.py:235-246 | "1:2:3:4" is invalid |
| `Strings.Split` | pymtheg.py:229 | `split(":")` yields one piece more than there are separators, and no piece contains the separator |
| `Strings.JoinSplit` | pymtheg.py:229 | joining the pieces of a split with the separator restores the text |
| `Strings.SplitJoin` | pymtheg.py:229 | separator-free pieces joined and split again come back unchanged |
| `Strings.Reverse` | pymtheg.py:230 | `reverse()` keeps the length and puts element i at position len-1-i |
| `Strings.IsNumeric` | pymtheg.py:237 | a segment accepted by `isnumeric()` is non-empty and holds no sign and no colon |
| `Strings.DecimalValue` | pymtheg.py:238 | `int` of a digit string is 0 iff every digit is '0' |
| `Strings.LeadingZero` | pymtheg.py:238 | a leading '0' does not change the value of `int` (`int("007") == 7`) |
| `Strings.DecimalString` | pymtheg.py:126 | `str(n)` for n ≥ 0, the form of the end prompt's `+<seconds>` hint, is numeric text whose `int` value is n |
| `ClipSelection.Answer` | pymtheg.py:96-141 | an empty response is always accepted; an accepted start is non-negative and, unless empty, below the duration; an accepted `+` end is at or after the start, and an accepted end without `+` is non-negative |
| `ClipSelection.Select` | pymtheg.py:93-144 | a re-prompt loop read as "the first accepted response decides"; the accepting response is among those read |
| `ClipSelection.SelectIsFirstAccepted` | pymtheg.py:93-144 | a loop accepts value t after k responses iff response k is accepted with t and every earlier one was re-prompted |
| `ClipSelection.SelectExhausted` | pymtheg.py:93-94 | input runs out exactly when every response was re-prompted |
| `ClipSelection.PromptStart` | pymtheg.py:90-119 | the start loop (empty accepts 0; otherwise parse with base 0 and require it below the song duration) returns `Select` for the start prompt |
| `ClipSelection.PromptEnd` | pymtheg.py:122-144 | the end loop (empty keeps start + clip length; otherwise parse relative to the start) returns `Select` for the end prompt |
| `ClipSelection.AcceptedStartInRange` | pymtheg.py:96-119 | an accepted start is non-negative; an empty response gives 0, and any other accepted start is below the duration |
| `ClipSelection.StartRejection` | pymtheg.py:97-111 | a non-empty start response is re-prompted iff it does not parse or reaches the duration |
| `ClipSelection.StartAcceptsPlusPrefix` | pymtheg.py:97 | the start prompt reads `+n` as n (base 0), accepted iff n is below the duration |
| `ClipSelection.EndRelativeToStart` | pymtheg.py:128-130 | an end `+n` is start + n |
| `ClipSelection.EndAbsolute` | pymtheg.py:128-141 | an end `[hh:mm:]ss` is its value, independent of the start |
| `ClipSelection.EndSentinelRejected` | pymtheg.py:128-138 | the end "-1" is re-prompted; there is no "to the end" value |
| `ClipSelection.EndMayPrecedeStart` | pymtheg.py:122-144 | with start 10, the end response "5" is accepted as 5: no check against the start |
| `ClipSelection.ChooseClip` | pymtheg.py:90-144 | a clip is chosen only after at least two responses, and two empty responses always choose one |
| `ClipSelection.PromptClip` | pymtheg.py:90-144 | both loops in turn, the end loop reading what the start loop left, give `ChooseClip` |
| `ClipSelection.ChosenStartInRange` | pymtheg.py:90-119 | a chosen clip starts at 0 or later, and below the duration unless it is the default 0 |
| `ClipSelection.DefaultClip` | pymtheg.py:118-144 | two empty responses choose the clip [0, clip length] |
| `ClipSelection.MinusOneEndRefused` | pymtheg.py:93-144 | responses "10", "-1", "" with duration 200 and clip length 15 give [10, 25] |
| `Invocation.Present` | pymtheg.py:270-272 | dropping the `None` entries never lengthens the list, and every kept string was passed as `Some` |
| `Invocation.BuildInvocation` | pymtheg.py:268-272 | the invocation is the program name followed by the non-`None` arguments |
| `Invocation.PresentAppend` | pymtheg.py:270-272 | dropping `None` distributes over concatenation, so argument order is kept |
| `Invocation.PresentMembership` | pymtheg.py:270-272 | a string is in the invocation's arguments iff it was passed as `Some` |
| `Invocation.PresentLength` | pymtheg.py:270-272 | the invocation has one argument per non-`None` entry |
| `Invocation.PresentAllSome` | pymtheg.py:270-272 | with no `None` entries, all arguments are kept as they are |
| `Invocation.ExitPolicy` | pymtheg.py:274-315 | `invocate` returns iff the process completed with return code 0; a non-zero return code exits with that code; `FileNotFoundError` and any other exception exit with `errcode` |
| `Invocation.RunDisposition` | pymtheg.py:67-191 | the calls of `main` in order: the run finishes iff every call returns, and an exit is the disposition of the first call that does not return, every earlier call having returned |
| `Invocation.RunSucceedsIffAllZero` | pymtheg.py:67-191 | with non-zero error codes, a run finishes iff every call completed with 0, and otherwise exits with a non-zero code |
| `Invocation.MainRunSucceedsIffAllZero` | pymtheg.py:67-191 | for any sequence of calls with the error codes `main` passes (2 for spotdl, -1 for ffprobe, 3 for ffmpeg), the run finishes iff every call returned 0; otherwise it exits with a non-zero code that is one of those three or a child's return code |
| `Pymtheg.PartOfDay` | pymtheg.py:198-213 | hours 5-11 give "morning ahead", 12-19 "afternoon ahead", 20-22 "evening ahead", all others "night" |
| `Pymtheg.EveningOverlapUnreachable` | pymtheg.py:207-211 | at 18 and 19 the afternoon test wins, so the evening test's lower part is never reached |
| `Pymtheg.OutPath` | pymtheg.py:150-153 | `--out` is used as is; otherwise the path is the output directory plus `<stem>.mp4` |
| `Pymtheg.StemOfOutPath` | pymtheg.py:150 | the default output file name minus ".mp4" is the song's stem |
| `Pymtheg.DistinctStemsDistinctPaths` | pymtheg.py:150 | without `--out`, songs with different stems get different output paths |
| `Pymtheg.Preflight` | pymtheg.py:371-389 | the run proceeds iff `--out` (if given) is not a directory and, if it exists, the overwrite answer is "y" or "Y", and `--dir` exists and is a directory; every refusal exits with 1 |
| `Pymtheg.ResponseIgnoredWithoutPrompt` | pymtheg.py:376-379 | when the overwrite prompt is not shown, its answer does not affect the result |

## Left out

- Running spotdl, ffprobe and ffmpeg (pymtheg.py:67-69, 79-82, 156-191). These are external processes. Only the outcome `invocate` branches on is modelled (`LaunchOutcome`). The argument lists `main` passes to them are not modelled.
- Reading the duration from ffprobe's JSON and cutting off the fraction (pymtheg.py:83-85). This depends on an external tool's output format. The song duration is an integer input.
- `TemporaryDirectory`, `rglob`, `Path.absolute`, `is_dir` and `exists`. The file-system facts are boolean inputs (`PathFacts`). The output path is the joined path without making it absolute.
- The `argparse` setup (pymtheg.py:323-368). The clip length is any integer input, because `type=int` accepts negative values.
- Terminal output: the prompts with their default hints, the caret markers, the tracebacks, and the captured stdout/stderr `invocate` prints before exiting.
- `datetime.now()` (pymtheg.py:204). The hour is a parameter.
- Strings.IsNumeric: models `str.isnumeric` for ASCII only. Python also accepts other Unicode numerals (such as "½" or "٣"), and `int` raises an error for some of them. Non-ASCII numerals are not modelled.
- `EOFError` from `input()` is not modelled as an exception. A prompt loop that runs out of responses ends with `EndOfInput`, and `PromptClip` then gives `None`.
- Invocation.ExitPolicy: gives the argument passed to `exit`, not the process status the operating system reports. A negative return code or the default `errcode` -1 becomes a status of 256 plus that value.
- Timestamp.Parse: does not model Python's limit on integer string conversion. From Python 3.11 (and in patched earlier releases) `int` raises `ValueError` for a segment of more than 4300 digits, which `main` does not catch; the model returns the value.
