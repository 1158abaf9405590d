# pass-validate, modelled in Dafny

pass-validate reads candidate passwords, one per line, and runs each through a
fixed pipeline of four validators: a minimum length of 8, a maximum length of
64, a 7-bit ASCII character set, and absence from a list of known-weak
passwords. Every validator returns a `{pass, error}` pair. `checkPassword` runs
all four, in that order, with no early exit, and writes the error text of each
validator that fails to the error stream.

This project models that pipeline:

- `wrappers.dfy` (`Wrappers`): `Option`, standing for JavaScript's `null`.
- `text.dfy` (`Text`): strings as sequences of UTF-16 code units, which is what
  `length` and a regular expression without the `u` flag work on. Also the two
  pieces of formatting the template literals perform: a length written in
  decimal, and an array of matches written as its elements joined by commas.
- `diagnostics.dfy` (`Diagnostics`): the four error templates. `Render` writes
  a diagnostic exactly as its template does. `Decode` reads a text back, which
  proves that each message carries the password, the measured length or the
  matched characters it claims to carry.
- `validators.dfy` (`Validators`): `isLongEnough`, `isShortEnough`,
  `isValidCharacters` and `isStrong` as functions. Also the regular-expression
  `test` and `match` calls and `Array.prototype.includes`, as the functions
  they compute.
- `pipeline.dfy` (`Pipeline`): `checkPassword` as a method whose loop runs the
  validators in order. It returns the lines it would write instead of writing
  them. `Violations` states the four rules directly, and the lemmas connect the
  two.

The weak-password list is an explicit parameter, `weaks`, in place of the
module-level constant. An empty list is what the program runs with when no list
file could be read. Every member is a function of its inputs, and
`CheckPassword`'s postcondition fixes its output as a function of `weaks` and
the password. So re-validating the same password against the same list always
yields the same lines, and `weaks` is a value that nothing can change.

Where the source's comments and its code disagree, the model follows the code:

- The comment above `checkPassword` (index.js:35-37) speaks of "early failure".
  In fact every validator always runs (index.js:48-51).
- The comment above `isShortEnough` (index.js:64) says "minimum". In fact the
  check is a maximum of 64.
- A password gets at most 3 diagnostic lines, not 4, because the two length
  checks cannot both fail.
- The reported bad characters form a list in order of occurrence, with repeats,
  not a set.

## Model

| member | source | states |
|---|---|---|
| `Text.Decimal` | index.js:59 | the length written into a message is a non-empty string of decimal digits with no leading zero, so 0 is written as the single digit `0` |
| `Text.DigitsValueOfDecimal` | index.js:59 | the decimal text of a length reads back as that length |
| `Text.JoinUnits` | index.js:81 | writing the match list puts the i-th matched unit at position 2i and a comma at every odd position: one unit more than commas, empty only for no matches |
| `Text.EveryOtherOfJoin` | index.js:81 | the comma-joined match list reads back as the list of matched units |
| `Diagnostics.Render` | index.js:57-92 | the four template literals of index.js:59, 68, 81 and 90: each text starts with its template's fixed prefix, or for the commonality text ends with its fixed suffix; what the text says is stated by `DecodeRender` and `RenderInjective` |
| `Diagnostics.DecodeRenderTooShort` | index.js:59 | the minimum-length message reads back as the password and the length it names |
| `Diagnostics.DecodeRenderTooLong` | index.js:68 | the maximum-length message reads back as the password and the length it names |
| `Diagnostics.DecodeRenderBadChars` | index.js:81 | the character-set message reads back as `null` or as the exact list of matched units |
| `Diagnostics.DecodeRenderCommon` | index.js:90 | the commonality message reads back as the password it names |
| `Diagnostics.DecodeRender` | index.js:57-92 | every message a validator can produce reads back as the diagnostic it reports, whichever of the four templates wrote it |
| `Diagnostics.RenderInjective` | index.js:57-92 | two different diagnostics never produce the same text |
| `Validators.HasNonAscii` | index.js:76 | the regular-expression test holds iff some code unit lies outside 0x00-0x7F |
| `Validators.NonAscii` | index.js:79 | every match is a non-ASCII unit; there are at most as many matches as units; there are none iff the password is all ASCII |
| `Validators.NonAsciiAppend` | index.js:79 | matching a concatenation gives the matches of each part, in order: nothing is reordered |
| `Validators.NonAsciiUnit` | index.js:79 | a single unit is matched iff it is not ASCII; with `NonAsciiAppend` this fixes the match list as the non-ASCII units in order of occurrence |
| `Validators.NonAsciiCounts` | index.js:79 | each non-ASCII unit is matched exactly as often as it occurs in the password, and no ASCII unit is matched |
| `Validators.Includes` | index.js:89 | the scan of the weak list finds the password iff it is an element of the list |
| `Validators.IsLongEnough` | index.js:57-61 | passes iff the length in code units is at least 8; its error text names the password and its length |
| `Validators.IsShortEnough` | index.js:66-70 | passes iff the length in code units is at most 64; its error text names the password and its length |
| `Validators.IsValidCharacters` | index.js:75-83 | passes iff every code unit is at most 0x7F; the error text reports `null` when it passes and exactly the non-ASCII units when it fails |
| `Validators.IsStrong` | index.js:88-92 | passes iff no element of the weak list equals the password, so always with an empty list; its error text names the password |
| `Pipeline.Run` | index.js:49 | calling an entry of the validator list passes iff the rule that entry enforces, stated directly in `Breaks`, is not broken |
| `Pipeline.Written` | index.js:50 | one step writes nothing iff the check passed, and otherwise the one line that is the check's error text |
| `Pipeline.Failures` | index.js:48-51 | running a list of validators writes at most one line per validator |
| `Pipeline.FailureIsWritten` | index.js:48-51 | no early exit: a failing validator's error is written whatever failed before it, right after the lines of the validators before it |
| `Pipeline.ReportUnfolded` | index.js:42-51 | the report is what the four validators write, in the order min-length, max-length, charset, commonality |
| `Pipeline.StepMatches` | index.js:49-50 | each validator writes the text of its rule exactly when that rule is broken, and nothing otherwise |
| `Pipeline.Violations` | index.js:42-51 | at most 3 rules are broken, since both length rules cannot be; none are broken iff the password meets all four rules |
| `Pipeline.ReportMatchesViolations` | index.js:41-52 | the lines written are exactly the texts of the broken rules, in pipeline order |
| `Pipeline.ReportReadsBack` | index.js:48-50 | the i-th line written reads back as the i-th broken rule |
| `Pipeline.ReportSummary` | index.js:48-51 | the report has at most 3 lines, the i-th reading back as the i-th broken rule, and none iff the password meets all four rules |
| `Pipeline.FailOpen` | index.js:20 | with the empty list, a password is reported exactly as with any list that does not contain it |
| `Pipeline.CheckPassword` | index.js:41-52 | the loop writes exactly the report: at most 3 lines, the i-th reading back as the i-th broken rule, and none iff the password meets all four rules |

## Left out

- Loading the weak list (`setUpWeakArray`, index.js:13-22) reads a file named on the command line and falls back to an empty list. That is file I/O and exception handling. Only its outcome is modelled: `weaks` is any list of strings, possibly empty. A trailing empty line or a `\r` that `split('\n')` leaves in the list is simply part of that list.
- The `readline` interface on standard input (index.js:28-33) is stream I/O and event wiring. Each line it delivers is a call of `CheckPassword`.
- `console.error` and `console.log` are output channels. `CheckPassword` returns the lines it would write, in order, instead of writing them. The startup notice is not modelled.
- The regular-expression engine is not modelled: its `test` and `match` calls are the functions `HasNonAscii` and `NonAscii`. The `i` flag has no effect here, because without the `u` flag case folding never maps a non-ASCII unit to an ASCII one. The `g` flag on a fresh literal makes `match` return every match.
- `fn.call(this, password)` is modelled as a plain call of each validator on the password.
- Text outside the Basic Multilingual Plane is just its two surrogate code units, as in JavaScript. Each unit counts in the length and each is matched separately.
