# RALLogger in Dafny

A model of RALLogger, a small leveled logger for Swift applications. Its one class, `Logger`, has three jobs:

- It holds a mutable threshold `topLevel` and a mutable sink flag `logsIntoConsole`.
- It gates every message on the raw value of its `LogLevel`. The levels are critical 0, error 1, warning 2, info 3 and debug 4.
- It formats each admitted message as two lines, `<file base name>[<line>] - <function>` and then `<icon>: <message>`. It writes that text either to the system log (`NSLog`) or to `print`. `print` exists only in builds compiled with `DEBUG`.

On top of `log` sit two helpers. `logAndFail` logs and then raises an assertion failure. `assert` calls `logAndFail` when its condition is false.

The project has three modules:

- `LogLevels` (log_level.dfy): the `LogLevel` enumeration, its raw values and icons, the synthesised `init?(rawValue:)`, and the gate `Admits`.
- `LogFormat` (log_format.dfy): `components(separatedBy: "/")`, the base name taken from it, the decimal rendering of the line number, and the two-line text.
- `RALLogger` (logger.dfy): the `Logger` class. Its methods `Log`, `LogAndFail` and `Assert` write to two ghost fields. `trace` holds every text that reached a sink. `failures` holds the message of every assertion failure. The pure function `Emission` says what one `log` call writes under a given configuration. The lemmas about `Emission` state the gate, the routing and the format. Each method's `ensures` ties the new trace to `Emission`.

Two build settings are constants of the class, fixed by the constructor:

- `debugBuild` says whether the `DEBUG` compilation condition is defined. It decides whether the `print` branch of `log` (lines 30-32) exists.
- `assertionsTrap` says whether `assertionFailure` (line 41) stops the program. It does at `-Onone` and does nothing at `-O`.

The standard debug configuration sets both, and the standard release configuration clears both. Two facts about the code follow:

- In a release build with `logsIntoConsole` cleared, nothing is written. So an admitted level writes one entry only when `logsIntoConsole || debugBuild`.
- `LogAndFail` records its failure only when `assertionsTrap` holds, whatever the filter decides.

`components(separatedBy:)` always returns at least one piece, so the `?? ""` fallback of line 25 is never taken. `BaseName` keeps it anyway.

`DebugBuildScenario` and `ReleaseBuildScenario` in logger.dfy are clients of the class, one for each standard build configuration. They show what a caller can prove from the contracts alone, and they have no rows below.

## Model

| member | source | states |
|---|---|---|
| `LogLevels.FromRawValue` | Sources/RALLogger/RALLogger.swift:54-59 | `LogLevel(rawValue:)` succeeds exactly for raw values 0 to 4 and gives the level with that raw value |
| `LogLevels.RawValueRoundTrip` | Sources/RALLogger/RALLogger.swift:54-59 | the raw value identifies the level, and converting it back gives the same level |
| `LogLevels.AllLevelsIndexedByRawValue` | Sources/RALLogger/RALLogger.swift:54-59 | there are exactly five levels, ordered critical, error, warning, info, debug by raw value 0 to 4 |
| `LogLevels.AdmittedLevelsArePrefix` | Sources/RALLogger/RALLogger.swift:24 | under a threshold, a level is emitted iff it is among the levels from critical up to the threshold (both directions) |
| `LogLevels.AdmitsMonotone` | Sources/RALLogger/RALLogger.swift:24 | a level emitted under some threshold is also emitted under any threshold of higher raw value |
| `LogLevels.CriticalAndDebugGates` | Sources/RALLogger/RALLogger.swift:54-59 | critical passes every threshold; debug passes iff the threshold is debug |
| `LogLevels.IconsDistinct` | Sources/RALLogger/RALLogger.swift:61-68 | every icon is non-empty; the five icons are pairwise distinct, already in their first code point |
| `LogFormat.Components` | Sources/RALLogger/RALLogger.swift:25 | splitting a path on `/` gives at least one piece, and no piece contains `/` |
| `LogFormat.JoinComponents` | Sources/RALLogger/RALLogger.swift:25 | joining the pieces with `/` gives back the original path, so splitting loses nothing |
| `LogFormat.BaseNameIsLastSegment` | Sources/RALLogger/RALLogger.swift:25 | the base name has no `/`, is a suffix of the path, and is either the whole path or directly preceded by `/` |
| `LogFormat.BaseNameUnique` | Sources/RALLogger/RALLogger.swift:25 | conversely, any `/`-free suffix that starts the path or follows a `/` is the base name |
| `LogFormat.BaseNameOfPlainName` | Sources/RALLogger/RALLogger.swift:25 | a path without `/` is its own base name |
| `LogFormat.BaseNameEmpty` | Sources/RALLogger/RALLogger.swift:25 | the empty path, and a path ending in `/`, have an empty base name |
| `LogFormat.BaseNameExamples` | Sources/RALLogger/RALLogger.swift:25 | `/a/b/c/File.ext` gives `File.ext`; `File.ext` gives itself; the empty path gives the empty string |
| `LogFormat.NatToDecimal` | Sources/RALLogger/RALLogger.swift:26 | a rendered number is a non-empty string of decimal digits with no leading zero, except for `0` itself |
| `LogFormat.NatToDecimalRoundTrip` | Sources/RALLogger/RALLogger.swift:26 | reading the rendered digits back gives the number |
| `LogFormat.IntToDecimalRoundTrip` | Sources/RALLogger/RALLogger.swift:26 | the line number, negative ones included, is rendered as a well-formed literal without line breaks that reads back to the same number |
| `LogFormat.FormatHasTwoLines` | Sources/RALLogger/RALLogger.swift:26 | when the file name, function name and message hold no line break, the text has exactly one line break; before it is `<file>[<line>] - <function>`, after it `<icon>: <message>` |
| `LogFormat.FormatDeterminesLevelAndMessage` | Sources/RALLogger/RALLogger.swift:26 | for one call site, equal texts mean equal levels and equal messages |
| `LogFormat.FormatExample` | Sources/RALLogger/RALLogger.swift:25-26 | an error "hello" from `doThing()` at line 42 of `/x/y/Z.swift` gives exactly `Z.swift[42] - doThing()`, a line break, then `📛: hello` |
| `RALLogger.EmissionCharacterised` | Sources/RALLogger/RALLogger.swift:24-34 | one `log` call writes exactly one entry iff the raw value is not above the threshold's and a sink is active, otherwise nothing; the entry is the formatted text, in the system log iff `logsIntoConsole` |
| `RALLogger.SinkFlagOnlyChangesDestination` | Sources/RALLogger/RALLogger.swift:27-33 | in a debug build, toggling `logsIntoConsole` changes only the sink, never the number of entries or their text |
| `RALLogger.SystemLogIgnoresBuildMode` | Sources/RALLogger/RALLogger.swift:27-28 | with `logsIntoConsole` set, the output is the same in debug and release builds |
| `RALLogger.EmissionMonotoneInThreshold` | Sources/RALLogger/RALLogger.swift:24 | whatever a call writes under one threshold, it writes the same under any threshold of higher raw value |
| `RALLogger.Logger.constructor` | Sources/RALLogger/RALLogger.swift:12-20 | the new logger has the given threshold (default info), the sink flag cleared, the given build settings, and nothing logged or failed |
| `RALLogger.Logger.Log` | Sources/RALLogger/RALLogger.swift:22-35 | the trace grows by exactly what `Emission` gives for the current threshold and flag; no field and no failure changes |
| `RALLogger.Logger.LogAndFail` | Sources/RALLogger/RALLogger.swift:38-42 | the trace grows exactly as `Log` would grow it; then, when assertions trap, one failure carrying the message is recorded, whether or not the text was emitted |
| `RALLogger.Logger.Assert` | Sources/RALLogger/RALLogger.swift:45-50 | a true condition changes nothing; a false one has exactly the effect of `LogAndFail` with the same arguments |

## Left out

- `Logger.shared` (the `static let` singleton) is not modelled as a global. The constructor's default threshold `info` is the one fact it adds.
- Call-site capture through `#function`, `#file` and `#line` is not modelled. The three values are explicit parameters.
- `NSLog` and `print` are not performed. Each write is recorded as an entry of the ghost `trace`, holding the formatted text as `log` built it. `NSLog` adds its own timestamp and process prefix, which is not modelled.
- `NSLog(logContent)` (line 28) passes the text as the format string. A message, function name or file name containing a specifier such as `%@` or `%d` makes `NSLog` read arguments that were never passed, which is undefined behaviour. The model does not capture this hazard: Foundation's format-string rules are not part of this model, and the system-log entry is the text itself.
- `assertionFailure` does not stop the program. Each failure is recorded in the ghost `failures`. When assertions trap, the real program stops at the first failure.
- `-Ounchecked` builds are not modelled. There, a reached `assertionFailure` is undefined behaviour rather than a trap or a no-op.
- `Components` splits at every `/` scalar. Foundation's default, non-literal search in `components(separatedBy:)` compares composed character sequences. So it does not split where a `/` begins a grapheme cluster that has more scalars after it, such as `/` followed by U+0301. For such a path the model's pieces and base name differ from the source's. A real `#file` path never contains one.
- The 64-bit width of Swift's `Int` is not modelled for the line number. Rendering an `Int` never overflows.
- Concurrent calls, and the visibility of field changes across threads, are not modelled. The source does nothing to coordinate them.
- Package.swift is not part of this model. It is a build manifest with no logic.
