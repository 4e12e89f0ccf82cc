# spruce-log: stack cleaning, frame parsing and level logic in Dafny

This project models the core of the `@sprucelabs/log` logger.

**Stack utilities** (`src/lib/StackUtils.ts`):

- the `StackUtils` constructor, which fixes the internal frame patterns and the base directory;
- `clean`, which drops internal frames, outdents the trace and holds each non-frame line back until a frame line follows it;
- the post-processing of `parseLine` once the frame regular expression has matched: the backward parenthesis-balance scan, the `name [as alias]` split, `setFile` and the optional fields;
- `escapeStringRegexp` and `ignoredPackagesRegExp`.

**Level and namespace logic of `Log`** (`src/Log.ts`):

- `getLevelFromString` and `parseNamespace`;
- `getDefaultLevelForNamespace`, the scan of a `DEBUG`-style `ns~level,...` list;
- `setLevel`, `setDefaultOptions`, `setOptions` and the constructor, as state changes of a `Log` object;
- the level threshold, the caller condition and the plain-text header of `handleLog`;
- the zero padding of `getDatetimeString`.

**Levels** (`src/logLevel.ts`): the `LogLevel` enum and `stringToLogLevel`.

## Modules and files

| file | module | contents |
|---|---|---|
| `wrappers.dfy` | `Wrappers` | `Option`, `Result` |
| `js_string.dfy` | `JsString` | the JavaScript string operations used, with their ECMAScript behaviour |
| `log_level.dfy` | `LogLevels` | `LogLevel`, `StringToLogLevel` |
| `internals.dfy` | `Internals` | built-in patterns, regex escaping, the ignored-packages pattern |
| `frame_parser.dfy` | `FrameParser` | what `parseLine` computes, as functions |
| `trace_cleaner.dfy` | `TraceCleaner` | what `clean` computes, as functions, and its properties |
| `stack_utils.dfy` | `StackUtils` | the `StackUtils` class and the loops of `clean` and `parseLine` |
| `log.dfy` | `Logging` | level and namespace logic and the `Log` class |

## How the model works

**Regular expressions.**

- A pattern is kept as its source text (`Internals.Pattern`).
- Testing a pattern against a line is a function parameter, `RegexTest`, which stands for `RegExp.prototype.test`.
- `parseLine` receives the capture tuple of its frame expression, or `None` when the expression does not match.
- The capture tuple is typed after the expression's shape:
  - the eval captures are all present or all absent;
  - the location is either `file:line:column` or `native`;
  - line and column captures are non-empty digit strings.
- The small alias expression `^(.*?) \[as (.*?)\]$` is modelled exactly (`MethodMatch`): the lazy first group stops at the first ` [as `, and `.` excludes line terminators.

**The two loops.** The loops of `clean` and `parseLine` are imperative methods, each proved equal to a specification function:

- `StackUtils.EmitLines` and `StackUtils.StackUtils.Clean` compute `TraceCleaner.Cleaned`;
- `StackUtils.FindUnbalancedOpen` computes `FrameParser.UnbalancedOpen`;
- `StackUtils.StackUtils.ParseLine` computes `FrameParser.ParseFrame`.

The properties of `clean` and `parseLine` are then proved about those functions.

**The `Log` object.** It is a class whose fields are the settings the option methods change: `level`, `namespace`, `useColors`, `asJSON`, `showLineNumbersForAll` and `customAdapter`.

- Each method's postcondition gives the new settings as a function of the old ones. These functions are `WithDefaults`, `WithOptions` and `LevelAfterSet`.
- Lemmas about those functions state field-by-field effects, no change without options, and Warn by default for a namespace, as the source does. They also prove that applying the same options twice equals applying them once.
- The `DEBUG` environment string is an explicit `debugStr` parameter.
- The clock readings of `getDatetimeString` are integer parameters.

## Behaviour worth noting

- **Text appended by the parenthesis repair.** The repair appends `" (" + before` to the function name, without a closing parenthesis. A missing function name becomes the text `undefined` first, as JavaScript's `+=` does.
- **When the repair scan runs.** It runs whenever the closing-parenthesis capture is `)` and the file capture is non-empty, whether or not the file holds parentheses.
- **Native frames.** A `native` frame keeps its function name (`FrameParser.NativeFrame`), so `native` is not its only field.
- **Namespace and level given together.** In `setOptions`, a non-empty namespace is applied after the level and reruns `setDefaultOptions`. A namespace supplied together with a level therefore replaces that level with the namespace's default (`Logging.OptionsFieldwise`). A level set in a later call is kept (`Logging.NamespaceThenLevel`).
- **Entries in `DEBUG`.** They are not trimmed: `a, b` has the entry ` b`.
- **The base directory in `clean`.** `clean` removes the first occurrence of `cwd + "/"` anywhere in a line, and with an empty `cwd` that is the first `/`. `setFile` in `parseLine` removes it only as a prefix and only for a non-empty `cwd`.

## Model

| member | source | states |
|---|---|---|
| LogLevels.NamesDistinct | src/logLevel.ts:15-32 | the eight enum members have eight different string values |
| LogLevels.StringToLogLevel | src/logLevel.ts:36-57 | a string that is some member's value gives that member; any other string gives the `INVALID_LOG_LEVEL` error, and then no member has that value |
| LogLevels.StringToLogLevelRoundTrip | src/logLevel.ts:36-53 | every member's value converts back to that member |
| LogLevels.StringToLogLevelInjective | src/logLevel.ts:36-53 | distinct accepted strings give distinct members |
| LogLevels.UpperCaseRejected | src/logLevel.ts:54-55 | the comparison is exact: `TRACE`, `SUPERINFO` and `superinfo` are errors |
| JsString.LeadingWhitespace | src/lib/StackUtils.ts:169 | the longest whitespace prefix (`\s*`): all whitespace, followed by a non-whitespace character or the end |
| JsString.TrimEnd | src/lib/StackUtils.ts:172 | `trimRight` gives a prefix followed only by whitespace, and ends in non-whitespace |
| JsString.Trim | src/lib/StackUtils.ts:174 | `trim` gives the middle part with only whitespace around it, starting and ending in non-whitespace |
| JsString.Drop | src/lib/StackUtils.ts:176 | `slice(n)` is the suffix of the string whose length is the length minus `n`, or zero past the end |
| JsString.Spaces | src/lib/StackUtils.ts:144 | `' '.repeat(n)` is `n` spaces |
| JsString.ReplaceAllChar | src/lib/StackUtils.ts:32 | a global one-character replace changes exactly the matching characters |
| JsString.ForwardSlashes | src/lib/StackUtils.ts:163 | `replace(/\\/g, '/')` turns every backslash into `/` at its place and keeps every other character in place |
| JsString.RemoveChar | src/Log.ts:566 | `replace(/\*/g, '')` leaves no `*`, keeps the count of every other character, deletes a lone `*` and keeps a lone other character |
| JsString.RemoveCharAppend | src/Log.ts:566 | the removal of a concatenation is the concatenation of the removals, so the kept characters keep their order |
| JsString.IndexOf | src/Log.ts:570 | `indexOf` gives the first index where the pattern occurs, or none when it occurs nowhere |
| JsString.ReplaceFirst | src/lib/StackUtils.ts:180 | `replace` with a string pattern: with no occurrence the text is kept; otherwise the occurrence with none before it is replaced, and the text around it kept |
| JsString.RemoveFirst | src/lib/StackUtils.ts:180 | replacing the first occurrence with nothing cuts exactly it out |
| JsString.Split | src/lib/StackUtils.ts:151 | `split` on one character: at least one part, no part holds the separator, and joining the parts gives the input back |
| JsString.SplitWithout | src/Log.ts:581 | a string without the separator splits into itself |
| JsString.SplitAtFirst | src/Log.ts:562 | the text before the first separator is the first part, and the rest splits on its own |
| JsString.RemoveCharTrailing | src/Log.ts:566 | a trailing `*` removed is as if it was never there |
| JsString.ToUpper | src/Log.ts:345 | `toUpperCase` maps `a`-`z` to `A`-`Z` and keeps every other character and the length |
| JsString.NatToString | src/Log.ts:447-451 | `toString` of a non-negative integer is a non-empty digit string without a leading zero, one digit exactly below 10 |
| JsString.DecimalRoundTrip | src/lib/StackUtils.ts:321-327 | `Number` of what `toString` wrote is the number again |
| Internals.NodeInternals | src/lib/StackUtils.ts:16-28 | the built-in list is four distinct patterns, bootstrap frames first and spawn-wrap shims last |
| Internals.EscapeStringRegexp | src/lib/StackUtils.ts:6-14 | escaping never shortens, and a string without operator characters is unchanged |
| Internals.EscapeRoundTrip | src/lib/StackUtils.ts:6-14 | every operator character of the result is backslash-escaped, and unescaping gives the input back |
| Internals.UnescapeRoundTrip | src/lib/StackUtils.ts:6-14 | every well-escaped pattern is the escaping of its literal text, so escaping is a bijection onto them |
| Internals.EscapeAll | src/lib/StackUtils.ts:46 | each package name is escaped, in order |
| Internals.EscapeAllWellEscaped | src/lib/StackUtils.ts:46 | every escaped package name is well escaped |
| Internals.IgnoredPackagesRegExp | src/lib/StackUtils.ts:41-51 | no pattern for an empty list; otherwise exactly one, between the `node_modules` prefix and the `:line:col` suffix, whose alternation branches are the escaped names in order |
| Internals.AlternativesWhole | src/lib/StackUtils.ts:49 | a well-escaped name is one alternation branch |
| Internals.AlternativesSplitBranch | src/lib/StackUtils.ts:49 | a well-escaped name followed by the bar separator is split off whole |
| Internals.JoinedAlternatives | src/lib/StackUtils.ts:49 | joining well-escaped names with the bar separator and splitting at unescaped bars gives the names back |
| Internals.IgnoredPackagesLiteral | src/lib/StackUtils.ts:46-50 | each branch unescapes to its package name, so it matches that name literally |
| FrameParser.UnbalancedOpenIsParen | src/lib/StackUtils.ts:336-347 | where the backward scan stops is a `(` preceded by a space |
| FrameParser.UnbalancedOpenUnique | src/lib/StackUtils.ts:336-347 | the scan stops in at most one place |
| FrameParser.UnbalancedOpen | src/lib/StackUtils.ts:335-349 | the stop is the highest index where the counter, summed from the end, first reaches -1; with no stop, the counter never goes below 0 |
| FrameParser.RepairParens | src/lib/StackUtils.ts:329-350 | with a stop, the file is the text after the `(` and the name gains `" ("` and the text before the space; with none, nothing changes |
| FrameParser.MethodMatch | src/lib/StackUtils.ts:79 | a match splits the name into base and alias around the first ` [as `, on a name ending in `]` with no line terminator; a non-match is one of the ways that can fail |
| FrameParser.SetFile | src/lib/StackUtils.ts:30-39 | only the file changes; an absent or empty name leaves it; otherwise backslashes become `/`, and `cwd + "/"` is removed only as a prefix and only for a non-empty `cwd` |
| FrameParser.SplitAlias | src/lib/StackUtils.ts:352-358 | an absent or empty name is not split; a name the alias expression matches becomes its base, with its alias as the method; a name it does not match is kept, without a method |
| FrameParser.AliasRoundTrip | src/lib/StackUtils.ts:352-358 | `base [as alias]` splits back into `base` and `alias` when ` [as ` does not start inside `base` and neither holds a line terminator |
| FrameParser.Frame | src/lib/StackUtils.ts:362-383 | `native` exactly for a native location; line and column exactly for a file location; no backslash in the file; a method only when it differs from the function |
| FrameParser.ParseFrame | src/lib/StackUtils.ts:300-304 | null exactly for an empty line or a non-match |
| FrameParser.ParseFrameFields | src/lib/StackUtils.ts:319-383 | `native` exactly for a native location, which has no file, line or column; line and column exactly for a file location, with their decimal values; the constructor flag from `new`; all four eval fields exactly when an eval origin is present; no backslash in paths; only non-empty names; the method differs from the function |
| FrameParser.SimpleFrame | src/lib/StackUtils.ts:300-386 | `at foo (bar.js:10:5)` gives function `foo`, file `bar.js`, line 10, column 5 and no flag |
| FrameParser.NativeFrame | src/lib/StackUtils.ts:373-379 | a native frame gets `native` and its function name, and no file, line or column |
| FrameParser.RepairedFrame | src/lib/StackUtils.ts:329-358 | the file capture `asdf) [as foo] (xyz.js` gives file `xyz.js`, function `fn (asdf)` and method `foo` |
| TraceCleaner.IsAtLineMeaning | src/lib/StackUtils.ts:169 | the frame-line test holds exactly when some whitespace prefix is followed by `at ` |
| TraceCleaner.StripIndentedAt | src/lib/StackUtils.ts:172 | for any non-empty whitespace indent followed by `at `, the result is the indent and the text after `at `; a line with no such indent is unchanged |
| TraceCleaner.LineText | src/lib/StackUtils.ts:169-178 | before the outdent a non-frame line is trimmed and a frame line becomes its trimmed text after `at ` (empty for a bare `at`); after it the line is right-trimmed and loses an indented `at ` |
| TraceCleaner.TrimmedAtLine | src/lib/StackUtils.ts:174-177 | a frame line trims to `at ` followed by the rest, or to `at` alone |
| TraceCleaner.Reformat | src/lib/StackUtils.ts:171-180 | the line text with the first `cwd + "/"` removed; its meaning is stated by `CwdRemovedFirst` and `CwdAbsent` |
| TraceCleaner.CwdRemovedFirst | src/lib/StackUtils.ts:180 | the first occurrence of `cwd + "/"`, wherever it lies and even for an empty `cwd`, is cut out of the line text |
| TraceCleaner.CwdAbsent | src/lib/StackUtils.ts:180 | without an occurrence of `cwd + "/"` the line text is kept |
| TraceCleaner.AtLineText | src/lib/StackUtils.ts:174-177 | before the outdent a frame line that trims to `at ` and a text becomes that text |
| TraceCleaner.ReformatAtLine | src/lib/StackUtils.ts:174-180 | before the outdent a frame line that trims to `at ` and a text becomes that text with the first `cwd + "/"` cut out, and is not empty when the text is longer than `cwd + "/"` |
| TraceCleaner.EntryOf | src/lib/StackUtils.ts:163-182 | a line contributes nothing exactly when an internal pattern matches it after `\` becomes `/` or its reformatted text is empty; otherwise its frame-line flag and reformatted text, both from the line with forward slashes |
| TraceCleaner.EntriesOf | src/lib/StackUtils.ts:162-195 | the surviving lines, each cleaned with the `outdent` flag the earlier ones leave (no contract); stated by `EntriesStep`, `EntriesPrefix` and `EntriesAtMostLines` |
| TraceCleaner.Entries | src/lib/StackUtils.ts:162-195 | `EntriesOf` with the line cleaning of `clean` (no contract); stated by `EntriesNonEmpty` and `InternalLinesInvisible` |
| TraceCleaner.EntriesAtMostLines | src/lib/StackUtils.ts:162-195 | each input line gives at most one surviving line |
| TraceCleaner.EntriesNonEmpty | src/lib/StackUtils.ts:182 | no surviving line is empty |
| TraceCleaner.Pending | src/lib/StackUtils.ts:159 | a line is waiting exactly when the last surviving line is not a frame line |
| TraceCleaner.Emit | src/lib/StackUtils.ts:182-194 | if no surviving line is empty, no emitted line is empty |
| TraceCleaner.EmitIsChunks | src/lib/StackUtils.ts:158-194 | the lookahead emitter equals the position-wise rule: each frame line in order, preceded by the non-frame line just before it if there is one |
| TraceCleaner.TrailingNonAtDropped | src/lib/StackUtils.ts:190-193 | non-frame lines at the end are never emitted |
| TraceCleaner.PendingOverwritten | src/lib/StackUtils.ts:184-192 | of two non-frame lines before a frame line only the second is emitted |
| TraceCleaner.EntriesStep | src/lib/StackUtils.ts:162-195 | one more input line adds at most its own entry, cleaned with the flag the earlier lines leave |
| TraceCleaner.EmitStep | src/lib/StackUtils.ts:183-193 | a frame line flushes the waiting line and itself; a non-frame line sets `outdent` and becomes the waiting line |
| TraceCleaner.RemoveInternal | src/lib/StackUtils.ts:165-167 | no kept line is matched by an internal pattern; without internal lines nothing is removed; a single line is removed exactly when it is internal |
| TraceCleaner.RemoveInternalAppend | src/lib/StackUtils.ts:165-167 | removal distributes over concatenation, so every non-internal line is kept and the kept lines stay in order |
| TraceCleaner.InternalLinesInvisible | src/lib/StackUtils.ts:163-167 | deleting every internal line from the input changes neither the surviving lines nor the output |
| TraceCleaner.EntriesPrefix | src/lib/StackUtils.ts:162-195 | the surviving lines of a prefix are a prefix of the surviving lines |
| TraceCleaner.OutdentPersists | src/lib/StackUtils.ts:171-192 | once a non-frame line has survived, `outdent` stays set |
| TraceCleaner.SkipHeader | src/lib/StackUtils.ts:154-156 | only the first line is ever dropped, and exactly when it is not a frame line and the second is |
| TraceCleaner.Render | src/lib/StackUtils.ts:197 | the output is empty exactly when no line is emitted, and otherwise ends in a newline |
| TraceCleaner.RenderLines | src/lib/StackUtils.ts:197 | cut at newlines, the output is the indented lines followed by the empty text after the last newline |
| TraceCleaner.Cleaned | src/lib/StackUtils.ts:143-198 | `undefined` exactly for an absent or empty string; an empty array gives `""` |
| StackUtils.EmitEntry | src/lib/StackUtils.ts:183-193 | one loop step keeps `outdent`, `lastNonAtLine` and `result` equal to their specification on the longer list |
| StackUtils.EmitLines | src/lib/StackUtils.ts:158-195 | the loop's result is the emitted surviving lines |
| StackUtils.FindUnbalancedOpen | src/lib/StackUtils.ts:335-349 | the backward counting loop stops where the specification's scan does |
| StackUtils.StackUtils.constructor | src/lib/StackUtils.ts:104-137 | the internals are the given or built-in patterns followed by the ignored-packages pattern; the base directory is the given or process directory with forward slashes, empty when empty or `undefined`, never holding a backslash |
| StackUtils.StackUtils.Clean | src/lib/StackUtils.ts:143-198 | the method's result is `Cleaned` of the instance's internals and base directory |
| StackUtils.StackUtils.ParseLine | src/lib/StackUtils.ts:300-386 | the method's result is `ParseFrame` of the line, the match and the instance's base directory |
| StackUtils.StackUtils.FillFrame | src/lib/StackUtils.ts:319-383 | filling the result object field by field gives the settled frame |
| Logging.RankOrder | src/Log.ts:77-126 | no two levels share a rank; Trace ranks lowest and SuperInfo highest |
| Logging.LevelFromString | src/Log.ts:283-297 | a level's value gives that level; any other or a missing string gives Debug |
| Logging.LevelAfterSet | src/Log.ts:265-281 | a string naming a level sets it; any other string keeps the current level |
| Logging.NameHasNoSyntax | src/Log.ts:562-566 | no level value contains `,`, `~` or `*` |
| Logging.ParseNamespace | src/Log.ts:580-587 | the namespace part never contains `~` |
| Logging.ParseNamespaceParts | src/Log.ts:580-587 | without `~` the entry is the namespace with level Debug; with one, the text before the first `~` is the namespace and the segment after it names the level |
| Logging.FirstMatchIsFirst | src/Log.ts:563-574 | a level is found exactly when some entry matches, and it is the level of the first matching entry |
| Logging.DefaultLevel | src/Log.ts:559-578 | no level for an empty namespace; a level found is that of a matching entry of the list |
| Logging.DefaultLevelIsFirstMatch | src/Log.ts:559-578 | no level for an empty namespace; otherwise the level of the first comma-separated entry that matches, or none when none matches |
| Logging.GetDefaultLevelForNamespace | src/Log.ts:559-578 | the index loop with early return computes `DefaultLevel` |
| Logging.NoDebugNoDefault | src/Log.ts:559-578 | an empty `DEBUG` gives no namespace a level |
| Logging.WildcardDefault | src/Log.ts:568-572 | `DEBUG=*` gives every non-empty namespace Debug |
| Logging.PrefixWildcardDefault | src/Log.ts:566-572 | `DEBUG=prefix*` gives Debug to every namespace starting with the prefix |
| Logging.ListedLevelApplies | src/Log.ts:562-573 | a leading `ns~level` entry whose `ns` occurs in the namespace gives that level, whatever follows |
| Logging.UnmatchedEntrySkipped | src/Log.ts:563-574 | an entry that does not match is passed over |
| Logging.EmittedMonotone | src/Log.ts:312-315 | raising a message's level never stops it from being written |
| Logging.Emitted | src/Log.ts:312-315 | the threshold test itself (no contract); its properties are `EmittedMonotone`, `ThresholdFacts` and `ReversedRanksAgree` |
| Logging.ThresholdFacts | src/Log.ts:312-315 | SuperInfo is always written, a message at the logger's level is written, and Trace is written only at level Trace |
| Logging.ReversedRanksAgree | tests/LogNamespaceTests.ts:59-61 | the tests' reversed rank table predicts the same outcome as the logger's threshold |
| Logging.ShowsCallerLevels | src/Log.ts:318-321 | the caller is looked up for Trace and Debug, or for every level with `showLineNumbersForAll` |
| Logging.TagLength | src/Log.ts:344 | the length of the namespace tag |
| Logging.HeaderText | src/Log.ts:340-345 | the header is the tag, the level text, the time and the caller tag with seven characters of punctuation, and ends in `"): "` |
| Logging.Header | src/Log.ts:307-345 | the header of one message (no contract); its layout is stated by `HeaderOpening`, `HeaderBody` and `HeaderCaller` |
| Logging.HeaderCaller | src/Log.ts:318-345 | the caller's path follows the time exactly for the messages whose caller is looked up; other headers close right after the time |
| Logging.HeaderOpening | src/Log.ts:344-345 | with a namespace the header opens with `"  ["` and contains `[ns]`; the `(` follows the tag |
| Logging.HeaderBody | src/Log.ts:340-345 | after `(` come the level text, a bar between spaces and the time, then a bar and the caller path only for a non-empty path, then `"): "` |
| Logging.OverrideWins | src/Log.ts:310 | a message's own namespace hides the logger's |
| Logging.Pad2 | src/Log.ts:453-467 | a two-digit field below 100, with a leading `0` exactly below 10, reading back as the number |
| Logging.DatetimeString | src/Log.ts:439-471 | for fields below 100 the timestamp is 16 characters longer than the year and millisecond texts together |
| Logging.DatetimeFields | src/Log.ts:439-471 | `year-MM-DD hh:mm:ss:ms`: the year, each padded field at its fixed place behind its separator, then `:` and the unpadded milliseconds |
| Logging.WithDefaults | src/Log.ts:530-541 | only the level changes; nothing changes without a non-empty namespace; with one that `DEBUG` gives no level, the level is Warn |
| Logging.DefaultsIdempotent | src/Log.ts:530-541 | running `setDefaultOptions` twice is running it once |
| Logging.WithOptions | src/Log.ts:207-212 | no options change nothing; the field-by-field effect is `OptionsFieldwise` |
| Logging.OptionsFieldwise | src/Log.ts:207-239 | each setting takes its supplied value and keeps its old one otherwise; the level is the namespace default when a namespace is supplied, else a supplied valid level, else the old level |
| Logging.NoOptionsNoChange | src/Log.ts:208-212 | no options change nothing |
| Logging.OptionsIdempotent | src/Log.ts:207-239 | applying the same options twice equals applying them once |
| Logging.NamespaceThenLevel | src/Log.ts:235-238 | with an empty `DEBUG`, setting a namespace sets Warn, and a level set later is kept |
| Logging.Log.constructor | src/Log.ts:128-135 | the new logger's settings are the options applied to the field initialisers |
| Logging.Log.SetLevel | src/Log.ts:265-281 | the level becomes `LevelAfterSet`; every other field is unchanged |
| Logging.Log.SetDefaultOptions | src/Log.ts:530-541 | with a non-empty namespace the level becomes its default level or Warn; nothing else changes |
| Logging.Log.SetFlags | src/Log.ts:215-221 | supplied `asJSON` and `useColors` are stored, nothing else changes |
| Logging.Log.SetLevelOption | src/Log.ts:223-225 | a non-empty level string goes through `setLevel` |
| Logging.Log.SetOutput | src/Log.ts:227-233 | a supplied adapter and `showLineNumbersForAll` are stored |
| Logging.Log.SetOptions | src/Log.ts:207-239 | the new settings are `WithOptions` of the old ones |

## Left out

- `capture`, `captureString` and `at` (src/lib/StackUtils.ts:200-298) are not modelled. They call the runtime's `Error.captureStackTrace` and call-site objects, and swap global error hooks.
- `StackUtils.StackUtils.Clean` and `TraceCleaner.Cleaned`: `indentSpaces` is a natural number. In JavaScript `' '.repeat(indentSpaces)` runs before the `!stack` test, so a negative or infinite count throws a `RangeError` even for an absent stack; that error is not modelled.
- Strings are sequences of Unicode scalar values, not of UTF-16 code units. A character outside the Basic Multilingual Plane counts as one here and as two in JavaScript's `length`, `slice` and `indexOf`, and lone surrogates cannot be expressed.
- `RegexTest` is a pure function. A caller-supplied `internals` pattern with the `g` or `y` flag makes `test` depend on the pattern's `lastIndex` from the previous call; that state is not modelled.
- Regular expressions are not modelled:
  - the frame expression `re`;
  - the built-in internal patterns and the ignored-packages pattern.
  Their matching is a parameter (`RegexTest`) or an input (the capture tuple). The `^\s*at ` test and the alias expression are modelled exactly.
- `Internals.EscapeStringRegexp`: the `typeof` guard that throws a `TypeError` for a non-string is not modelled, because the argument is typed as a string.
- The `wrapCallSite` option of the `StackUtils` constructor is not modelled. Only `capture` uses it.
- `getCaller` is not modelled, because it reads `new Error().stack` and `process.cwd()`. The caller path is a parameter of the header.
- `hrtime`, `timerStart` and `timerEnd` are not modelled: floating-point arithmetic on the process clock.
- `getDatetimeString` reads the clock; only the formatting of the integer readings is modelled.
- These parts of `Log` are I/O and are not modelled:
  - `writeLog`, `getAdapter` and `setConsoleAdapter`;
  - the colouring in `colorize`, whose terminal colour table is not part of this model;
  - the JSON branch of `handleLog`;
  - `anyToString`, `replaceErrors` and `jsonStringify`.
- `debugLog` is not modelled, because it only writes diagnostics.
- `getDebugString` is not modelled, because it reads the environment. The `DEBUG` string is the `debugStr` parameter.
- `Log` fields are not modelled:
  - `objectSpaceWidth`;
  - the `StackUtils` instance the constructor creates;
  - the console adapter.
- All `CLIENT` branches are not modelled, because `CLIENT` is the constant `false`.
- `Logging.Log.SetOptions`: an options field of the wrong type counts as absent (`None`). That is what the `typeof` tests on the flags and the namespace do. The adapter is tested only for truthiness, so a truthy value that is not a function is stored; here a custom adapter is an opaque identity (`Adapter`), and such values are not modelled.
- `JsString.ToUpper`: only ASCII letters are mapped, which covers the level names it is applied to.
- `JsString.NatToString` and `JsString.DecimalValue`: numbers are unbounded integers. JavaScript's double precision beyond 2^53 is not modelled.
- `Logging.DatetimeFields`: requires calendar ranges for month, day, hour, minute and second, as `Date` supplies.
