# android-plus-plus core, modelled in Dafny

This project models four components of android-plus-plus, the Visual Studio
extension that builds and debugs Android native and Java code:

- **`JdbClient`**: the bookkeeping of a jdb debugging session. Every
  command written to the jdb process is registered under a fresh token in a
  callback table. One slot holds the synchronous command being waited on.
  The client remembers the tick of the process's last activity, which
  drives the sliding timeout of `SendCommand`. Lines the process prints are
  recorded as activity, and a reported exception is answered with `cont`.
  The process exiting releases the waiting command.
- **`GccUtilities`**: the GCC command-line and dependency-file helpers.
  They cover escaping of spaces and backslashes, quoting of arguments, the
  Windows/POSIX path conversions, and the make-style dependency-file parser
  `DependencyParser`.
- **`TrackedFileManager`**: the MSBuild tracking-log table. It maps each
  upper-cased source path to its duplicate-free list of upper-cased
  dependencies. It has add, remove and add-dependency operations, and it
  reads and writes the `^SOURCE1|SOURCE2` / dependency-line format of a
  `.tlog` file.
- **`CLangDebuggeeProgram`**: the program object of the GDB-backed debug
  engine. It keeps the module and thread lists, the thread GDB has selected
  and the running flag. It also applies the run-control rules of
  `SelectThread`, `Continue`, `Step` and the engine broadcasts.

`Text.dfy` holds the .NET string operations the components use:
`String.Trim`, `String.IsNullOrWhiteSpace`, `StringBuilder.Replace`,
`String.Split(char)`, `ToUpperInvariant` and `uint.ToString`.

Where the source updates fields in place, the model is a class whose methods do the same. Each
method is proved against a function of the old state. The properties the
source promises are proved as lemmas about those functions: round trips,
preserved invariants, idempotence, and what an operation leaves untouched.

## Model

| member | source | states |
|---|---|---|
| JdbClient.NextToken | src/AndroidPlusPlus.Common/Java/JdbClient.cs:284 | `++` on the `uint` counter is the successor modulo 2^32 |
| JdbClient.InitRegistered | src/AndroidPlusPlus.Common/Java/JdbClient.cs:67-80 | a new client has no tokens in use and its counter is 1, so 0 is never handed out first |
| JdbClient.SendAsyncRegistered | src/AndroidPlusPlus.Common/Java/JdbClient.cs:267-290 | registering a command keeps the invariant "the tokens in use are exactly 1..n and the counter is n+1 (mod 2^32)"; with a process, `Dictionary.Add` throws exactly when all 2^32 tokens are in use |
| JdbClient.TokensBelowCounter | src/AndroidPlusPlus.Common/Java/JdbClient.cs:282-286 | before the counter wraps, every registered token is at least 1 and below the counter, and the counter itself is free |
| JdbClient.EventRegistered | src/AndroidPlusPlus.Common/Java/JdbClient.cs:296-368 | stdout, stderr and exit events keep the token invariant (an exception line registers `cont` under the next token) |
| JdbClient.EventsRegistered | src/AndroidPlusPlus.Common/Java/JdbClient.cs:296-368 | any sequence of events keeps the token invariant |
| JdbClient.AwaitRegistered | src/AndroidPlusPlus.Common/Java/JdbClient.cs:236-257 | the waiting loop of `SendCommand`, whatever is delivered meanwhile, keeps the token invariant |
| JdbClient.CallRegistered | src/AndroidPlusPlus.Common/Java/JdbClient.cs:86-368 | every public operation keeps the token invariant |
| JdbClient.RunRegistered | src/AndroidPlusPlus.Common/Java/JdbClient.cs:86-368 | any sequence of public operations keeps the token invariant |
| JdbClient.CollisionIffWrapped | src/AndroidPlusPlus.Common/Java/JdbClient.cs:282 | from a new client, after any calls, `Dictionary.Add` of the next token collides if and only if the 2^32 tokens have all been used |
| JdbClient.InactiveIsNoOp | src/AndroidPlusPlus.Common/Java/JdbClient.cs:213-216 | without a process, `SendAsyncCommand` and `Continue` change nothing and send nothing, and `SendCommand` returns null at once without installing a wait |
| JdbClient.SendIsVerbatim | src/AndroidPlusPlus.Common/Java/JdbClient.cs:282-288 | a command is written exactly as given (the token is not embedded); its handler is stored under the current token, the counter advances, and the wait slot and timestamp are unchanged |
| JdbClient.ExceptionLineSendsCont | src/AndroidPlusPlus.Common/Java/JdbClient.cs:300-313 | a stdout line containing `Exception occurred:` sends exactly one `cont`, registers it under one new token without a handler, leaves the wait alone and records the activity |
| JdbClient.QuietLinesOnlyTouchClock | src/AndroidPlusPlus.Common/Java/JdbClient.cs:300-336 | stderr lines, and stdout lines without the exception marker (empty ones included), change only the last-activity tick |
| JdbClient.ExitSignalsWait | src/AndroidPlusPlus.Common/Java/JdbClient.cs:347-362 | the process exiting records the activity and sets a pending wait |
| JdbClient.EventsKeepWait | src/AndroidPlusPlus.Common/Java/JdbClient.cs:296-368 | no event clears a pending wait or unsets a set one |
| JdbClient.ExitInEventsSignals | src/AndroidPlusPlus.Common/Java/JdbClient.cs:359-362 | an exit anywhere among the events delivered leaves the pending wait set |
| JdbClient.ExitAnswersCommand | src/AndroidPlusPlus.Common/Java/JdbClient.cs:236-260 | if the process exits while `SendCommand` waits with time left, the command returns null and clears the wait slot |
| JdbClient.AwaitResults | src/AndroidPlusPlus.Common/Java/JdbClient.cs:236-260 | the waiting loop either returns the result slot, which is always null, and clears the wait, or throws a timeout and leaves the unset wait installed |
| JdbClient.SendCommandResults | src/AndroidPlusPlus.Common/Java/JdbClient.cs:203-261 | `SendCommand` never returns a record (no code here runs a stored callback); after a timeout the unset wait stays installed |
| JdbClient.Wrap32 | src/AndroidPlusPlus.Common/Java/JdbClient.cs:236-245 | the C# `int` result of an overflowing addition or subtraction is congruent to the exact value modulo 2^32 |
| JdbClient.DeadlineAfterElapsed | src/AndroidPlusPlus.Common/Java/JdbClient.cs:236-247 | with wrap-around tick arithmetic, the wait has no time left exactly when the ticks elapsed since the last activity reach the timeout |
| JdbClient.IdleSessionTimesOut | src/AndroidPlusPlus.Common/Java/JdbClient.cs:222-257 | if the deadline measured from the last activity has already passed, `SendCommand` still sends the command, then throws a timeout without waiting and leaves the unset wait installed |
| JdbClient.EventsStampActivity | src/AndroidPlusPlus.Common/Java/JdbClient.cs:295-355 | every line or exit from the process is activity: after a batch of events the last activity is the tick of the batch's last event |
| JdbClient.ActivityKeepsWaiting | src/AndroidPlusPlus.Common/Java/JdbClient.cs:234-257 | while each wake-up of the wait brings output from the process and reads the clock fewer than `timeout` ticks after the last of it (across a wrap of the tick counter too), the wait never times out |
| JdbClient.TimeoutMeansDeadlinePassed | src/AndroidPlusPlus.Common/Java/JdbClient.cs:234-257 | conversely, a timeout only happens at a clock reading where the deadline measured from the last recorded activity has passed |
| JdbClient.ActivityKeepsCommandWaiting | src/AndroidPlusPlus.Common/Java/JdbClient.cs:222-257 | `SendCommand` on a client last active fewer than `timeout` ticks before the call, and kept busy as above, never throws a timeout |
| JdbClient.DisposeIdempotent | src/AndroidPlusPlus.Common/Java/JdbClient.cs:86-105 | after `Dispose` there is no process and no wait; every later `SendAsyncCommand` and a second `Dispose` change nothing |
| JdbClient.DisposeBeforeStart | src/AndroidPlusPlus.Common/Java/JdbClient.cs:86-105 | disposing a client that never started changes nothing and sends nothing |
| JdbClient.DisposeSendsQuit | src/AndroidPlusPlus.Common/Java/JdbClient.cs:90 | disposing a running client sends exactly `quit` |
| JdbClient.JdbClient.constructor | src/AndroidPlusPlus.Common/Java/JdbClient.cs:67-80 | no process, no wait, an empty table and token 1 |
| JdbClient.JdbClient.Dispose | src/AndroidPlusPlus.Common/Java/JdbClient.cs:86-105 | the new state is `Disposed` of the old |
| JdbClient.JdbClient.Start | src/AndroidPlusPlus.Common/Java/JdbClient.cs:111-142 | the process becomes active and the start tick is the last activity; it reports success |
| JdbClient.JdbClient.Attach | src/AndroidPlusPlus.Common/Java/JdbClient.cs:148-153 | always throws `NotImplementedException` |
| JdbClient.JdbClient.Detach | src/AndroidPlusPlus.Common/Java/JdbClient.cs:159-164 | always throws `NotImplementedException` |
| JdbClient.JdbClient.Stop | src/AndroidPlusPlus.Common/Java/JdbClient.cs:170-175 | always throws `NotImplementedException` |
| JdbClient.JdbClient.Terminate | src/AndroidPlusPlus.Common/Java/JdbClient.cs:192-197 | always throws `NotImplementedException` |
| JdbClient.JdbClient.Continue | src/AndroidPlusPlus.Common/Java/JdbClient.cs:181-186 | `SendAsyncCommand("cont")` with no handler |
| JdbClient.JdbClient.SendCommand | src/AndroidPlusPlus.Common/Java/JdbClient.cs:203-261 | the loop that recomputes the time left from the last activity ends in the state and result of `AfterSendCommand` |
| JdbClient.JdbClient.SendAsyncCommand | src/AndroidPlusPlus.Common/Java/JdbClient.cs:267-290 | the new state and exception are those of `AfterSendAsync` |
| JdbClient.JdbClient.ProcessStdout | src/AndroidPlusPlus.Common/Java/JdbClient.cs:296-320 | the new state is that of `AfterStdout` |
| JdbClient.JdbClient.ProcessStderr | src/AndroidPlusPlus.Common/Java/JdbClient.cs:326-341 | the new state is that of `AfterStderr` |
| JdbClient.JdbClient.ProcessExited | src/AndroidPlusPlus.Common/Java/JdbClient.cs:347-368 | the new state is that of `AfterExited` |
| GccUtilities.UnescapeEscape | msbuild/src/AndroidPlusPlus.MsBuild.Common/Tasks/GccUtilities.cs:111-135 | `Unescape(Escape(s)) == s` for every string |
| GccUtilities.EscapeLength | msbuild/src/AndroidPlusPlus.MsBuild.Common/Tasks/GccUtilities.cs:111-120 | `Escape` adds one character per backslash and one per space |
| GccUtilities.EscapeIsPerChar | msbuild/src/AndroidPlusPlus.MsBuild.Common/Tasks/GccUtilities.cs:111-120 | the two `StringBuilder.Replace` passes of `Escape` equal escaping each character on its own |
| GccUtilities.EscapedSpacesAreEscaped | msbuild/src/AndroidPlusPlus.MsBuild.Common/Tasks/GccUtilities.cs:111-120 | every space in an escaped string follows a backslash |
| GccUtilities.QuoteIfNeeded | msbuild/src/AndroidPlusPlus.MsBuild.Common/Tasks/GccUtilities.cs:86-105 | the argument is returned unchanged if and only if it starts with `"` or holds none of space, tab, `;`, `&`; otherwise it is wrapped in double quotes; the result never needs quoting again |
| GccUtilities.QuoteIfNeededIdempotent | msbuild/src/AndroidPlusPlus.MsBuild.Common/Tasks/GccUtilities.cs:86-105 | quoting twice is quoting once |
| GccUtilities.ConvertPathWindowsToPosix | msbuild/src/AndroidPlusPlus.MsBuild.Common/Tasks/GccUtilities.cs:41-50 | backslashes become slashes, and no backslash is left; the result is that path, or it wrapped in double quotes, and it is unquoted exactly when it already starts with a quote or holds none of space, tab, `;` and `&` |
| GccUtilities.ConvertPathWindowsToGccDependency | msbuild/src/AndroidPlusPlus.MsBuild.Common/Tasks/GccUtilities.cs:56-61 | unescaping the result gives the path with every `\` turned into `/`; one character is added per space |
| GccUtilities.ConvertPathPosixToWindows | msbuild/src/AndroidPlusPlus.MsBuild.Common/Tasks/GccUtilities.cs:67-80 | the result holds no `/` and is never longer than the path |
| GccUtilities.EndOfFilenameFrom | msbuild/src/AndroidPlusPlus.MsBuild.Common/Tasks/GccUtilities.cs:361-388 | the first unescaped space from a position on, or the end of the line |
| GccUtilities.EndOfFilenameUnique | msbuild/src/AndroidPlusPlus.MsBuild.Common/Tasks/GccUtilities.cs:361-388 | the end of the first file name is the only index with no unescaped space before it and an unescaped space, or the end of the line, at it |
| GccUtilities.LineDependenciesOfJoin | msbuild/src/AndroidPlusPlus.MsBuild.Common/Tasks/GccUtilities.cs:328-354 | round trip: a line of file names separated by single spaces (each without white space at its ends, unescaped spaces or a trailing backslash) is read back name by name, in order, each unescaped and converted to a Windows path |
| GccUtilities.LineDependenciesWindowsPaths | msbuild/src/AndroidPlusPlus.MsBuild.Common/Tasks/GccUtilities.cs:328-354 | no dependency read from a line holds a `/` |
| GccUtilities.DependencyLineOfJoin | msbuild/src/AndroidPlusPlus.MsBuild.Common/Tasks/GccUtilities.cs:303-355 | `ParseDependencyLine` on such a line, with or without the trailing backslash of a continued line, appends exactly its names, converted, in order |
| GccUtilities.DependencyLineWindowsPaths | msbuild/src/AndroidPlusPlus.MsBuild.Common/Tasks/GccUtilities.cs:303-355 | no dependency `ParseDependencyLine` appends holds a `/` |
| GccUtilities.DependenciesWindowsPaths | msbuild/src/AndroidPlusPlus.MsBuild.Common/Tasks/GccUtilities.cs:279-296 | no dependency `Parse` records holds a `/` |
| GccUtilities.DependencyParser.constructor | msbuild/src/AndroidPlusPlus.MsBuild.Common/Tasks/GccUtilities.cs:222-225 | the output file is that of the first entry, if not blank, and the dependencies are those of every later entry, in order |
| GccUtilities.DependencyParser.Parse | msbuild/src/AndroidPlusPlus.MsBuild.Common/Tasks/GccUtilities.cs:273-296 | only entry 0 can set the output file (unescaped); a blank entry 0 keeps the old one; every later entry's dependencies are appended in order |
| GccUtilities.DependencyParser.ParseDependencyLine | msbuild/src/AndroidPlusPlus.MsBuild.Common/Tasks/GccUtilities.cs:303-355 | one trailing `\` is dropped; one dependency per unescaped-space-separated name is appended in order, unescaped and converted to a Windows path; the output file is untouched |
| GccUtilities.DependencyParser.FindEndOfFilename | msbuild/src/AndroidPlusPlus.MsBuild.Common/Tasks/GccUtilities.cs:361-388 | the result is within the line, every space before it is escaped, and at it is an unescaped space or the end of the line |
| TrackedFileManager.ConvertToTrackerFormat | msbuild/src/AndroidPlusPlus.MsBuild.Common/Tasks/TrackedFileManager.cs:376-379 | the path upper-cased: same length, no lower-case letter left, every other character kept |
| TrackedFileManager.ConvertToTrackerFormatIdempotent | msbuild/src/AndroidPlusPlus.MsBuild.Common/Tasks/TrackedFileManager.cs:376-379 | converting twice is converting once |
| TrackedFileManager.AddSources | msbuild/src/AndroidPlusPlus.MsBuild.Common/Tasks/TrackedFileManager.cs:174-198 | every source's key is in the table; existing keys keep their lists; new keys map to empty lists; no key is removed and no other key appears |
| TrackedFileManager.AddSourcesWellFormed | msbuild/src/AndroidPlusPlus.MsBuild.Common/Tasks/TrackedFileManager.cs:174-198 | adding sources keeps keys and dependencies upper-case and the lists free of duplicates |
| TrackedFileManager.AppendIfMissing | msbuild/src/AndroidPlusPlus.MsBuild.Common/Tasks/TrackedFileManager.cs:222-225 | the dependency is in the list afterwards, nothing else is added, and a list free of duplicates stays so |
| TrackedFileManager.AddDependencyToAll | msbuild/src/AndroidPlusPlus.MsBuild.Common/Tasks/TrackedFileManager.cs:214-226 | the keys are unchanged; the lists of the given sources get the dependency once; all other lists are untouched |
| TrackedFileManager.AddDependencySpec | msbuild/src/AndroidPlusPlus.MsBuild.Common/Tasks/TrackedFileManager.cs:204-232 | after `AddDependencyForSources`, each source is a key whose list holds the upper-cased dependency exactly once; sources not named keep their lists; the table stays well formed |
| TrackedFileManager.RemoveSources | msbuild/src/AndroidPlusPlus.MsBuild.Common/Tasks/TrackedFileManager.cs:238-259 | none of the given keys remains, and every other entry is untouched |
| TrackedFileManager.RemoveAbsentSources | msbuild/src/AndroidPlusPlus.MsBuild.Common/Tasks/TrackedFileManager.cs:246-253 | removing keys that are absent changes nothing |
| TrackedFileManager.RemoveSourcesWellFormed | msbuild/src/AndroidPlusPlus.MsBuild.Common/Tasks/TrackedFileManager.cs:238-259 | removing sources keeps the table well formed |
| TrackedFileManager.DependencyRun | msbuild/src/AndroidPlusPlus.MsBuild.Common/Tasks/TrackedFileManager.cs:120-135 | the dependency lines of a group run up to the first blank or `^` line |
| TrackedFileManager.CollectDependencies | msbuild/src/AndroidPlusPlus.MsBuild.Common/Tasks/TrackedFileManager.cs:120-135 | the dependencies read for a group are upper-case and free of duplicates |
| TrackedFileManager.CollectDependenciesMembers | msbuild/src/AndroidPlusPlus.MsBuild.Common/Tasks/TrackedFileManager.cs:120-135 | a dependency is collected if and only if some line of the group, upper-cased, is that dependency |
| TrackedFileManager.ImportWellFormed | msbuild/src/AndroidPlusPlus.MsBuild.Common/Tasks/TrackedFileManager.cs:81-148 | importing a log keeps the table well formed |
| TrackedFileManager.ImportGroupWellFormed | msbuild/src/AndroidPlusPlus.MsBuild.Common/Tasks/TrackedFileManager.cs:91-147 | one pass of the outer reading loop keeps the table well formed |
| TrackedFileManager.ImportHangsIff | msbuild/src/AndroidPlusPlus.MsBuild.Common/Tasks/TrackedFileManager.cs:89-148 | the import loop spins forever if and only if the first line is neither blank nor a `^` line |
| TrackedFileManager.ImportNeverHangsAfterGroup | msbuild/src/AndroidPlusPlus.MsBuild.Common/Tasks/TrackedFileManager.cs:89-148 | from a blank or `^` line on, the import always ends |
| TrackedFileManager.SaveLinesAppend | msbuild/src/AndroidPlusPlus.MsBuild.Common/Tasks/TrackedFileManager.cs:295-303 | each entry is written as `^` and its key, then its dependencies, after the entries before it |
| TrackedFileManager.CollectSavable | msbuild/src/AndroidPlusPlus.MsBuild.Common/Tasks/TrackedFileManager.cs:120-135 | reading back a list of upper-case dependencies free of duplicates gives the same list |
| TrackedFileManager.ImportOneGroup | msbuild/src/AndroidPlusPlus.MsBuild.Common/Tasks/TrackedFileManager.cs:91-147 | importing one saved entry adds exactly that entry and goes on with the next `^` line, provided its key and dependencies are single lines (no CR or LF), the key holds no `|` and no dependency is blank or starts with `^` |
| TrackedFileManager.SaveImportRoundTrip | msbuild/src/AndroidPlusPlus.MsBuild.Common/Tasks/TrackedFileManager.cs:55-305 | importing the saved entries adds exactly those entries, provided every key and dependency is a single line (no CR or LF), no key holds `|` and no dependency is blank or starts with `^` |
| TrackedFileManager.SaveImportIdentity | msbuild/src/AndroidPlusPlus.MsBuild.Common/Tasks/TrackedFileManager.cs:55-305 | importing what `Save` wrote into an empty manager gives back the table, provided every key and dependency is a single line (no CR or LF), no key holds `|` and no dependency is blank or starts with `^` |
| TrackedFileManager.TrackedFileManager.constructor | msbuild/src/AndroidPlusPlus.MsBuild.Common/Tasks/TrackedFileManager.cs:46-49 | the table is empty |
| TrackedFileManager.TrackedFileManager.ImportFromExistingTLog | msbuild/src/AndroidPlusPlus.MsBuild.Common/Tasks/TrackedFileManager.cs:55-159 | a missing log changes nothing; otherwise the nested loops leave the table of `ImportLines` and report the hang it predicts |
| TrackedFileManager.TrackedFileManager.ReadDependencies | msbuild/src/AndroidPlusPlus.MsBuild.Common/Tasks/TrackedFileManager.cs:120-135 | the inner loop reads the maximal run of dependency lines and collects them upper-cased without duplicates |
| TrackedFileManager.TrackedFileManager.AddSourcesToTable | msbuild/src/AndroidPlusPlus.MsBuild.Common/Tasks/TrackedFileManager.cs:174-198 | the new table is `AddSources` of the old |
| TrackedFileManager.TrackedFileManager.AddDependencyForSources | msbuild/src/AndroidPlusPlus.MsBuild.Common/Tasks/TrackedFileManager.cs:204-232 | the new table is `AddDependency` of the old |
| TrackedFileManager.TrackedFileManager.RemoveSourcesFromTable | msbuild/src/AndroidPlusPlus.MsBuild.Common/Tasks/TrackedFileManager.cs:238-259 | the new table is `RemoveSources` of the old |
| TrackedFileManager.TrackedFileManager.Save | msbuild/src/AndroidPlusPlus.MsBuild.Common/Tasks/TrackedFileManager.cs:265-305 | the lines written are `SaveLines` of the table in the given key order |
| Text.DecimalRoundTrip | src/AndroidPlusPlus.VsDebugEngine/C/CLangDebuggeeProgram.cs:84 | the decimal form of a thread id reads back as the id |
| CLangDebuggeeProgram.AddKeepsDistinct | src/AndroidPlusPlus.VsDebugEngine/C/CLangDebuggeeProgram.cs:94-112 | an add succeeds if and only if the element is absent; afterwards it is listed and the list stays free of duplicates |
| CLangDebuggeeProgram.RemoveFirstSplits | src/AndroidPlusPlus.VsDebugEngine/C/CLangDebuggeeProgram.cs:151-169 | `List.Remove` takes out exactly the first occurrence; the elements before and after it keep their order |
| CLangDebuggeeProgram.RemoveFirstMultiset | src/AndroidPlusPlus.VsDebugEngine/C/CLangDebuggeeProgram.cs:151-169 | removing takes one copy of the element out and nothing else |
| CLangDebuggeeProgram.RemoveKeepsDistinct | src/AndroidPlusPlus.VsDebugEngine/C/CLangDebuggeeProgram.cs:234-252 | a remove succeeds if and only if the element is listed; afterwards it is gone and the list stays free of duplicates |
| CLangDebuggeeProgram.AddThenRemove | src/AndroidPlusPlus.VsDebugEngine/C/CLangDebuggeeProgram.cs:94-169 | removing the element just added gives the list back |
| CLangDebuggeeProgram.FirstMatch | src/AndroidPlusPlus.VsDebugEngine/C/CLangDebuggeeProgram.cs:118-134 | none if and only if no element satisfies the test; otherwise the index of an element that does, with no earlier element that does (the search of `GetModule` and `GetThread`) |
| CLangDebuggeeProgram.ThreadSelectCommandInjective | src/AndroidPlusPlus.VsDebugEngine/C/CLangDebuggeeProgram.cs:82 | two ids give the same `-thread-select` command if and only if they are equal |
| CLangDebuggeeProgram.DebuggeeModule.constructor | src/AndroidPlusPlus.VsDebugEngine/C/CLangDebuggeeProgram.cs:126 | a module with the given name |
| CLangDebuggeeProgram.DebuggeeThread.constructor | src/AndroidPlusPlus.VsDebugEngine/C/CLangDebuggeeProgram.cs:209 | a thread whose id query gives the given result |
| CLangDebuggeeProgram.CLangDebuggeeProgram.constructor | src/AndroidPlusPlus.VsDebugEngine/C/CLangDebuggeeProgram.cs:39-50 | the program is running and both lists are empty |
| CLangDebuggeeProgram.CLangDebuggeeProgram.SelectThread | src/AndroidPlusPlus.VsDebugEngine/C/CLangDebuggeeProgram.cs:74-88 | GDB is sent `-thread-select <id>` only when the id differs from the current one; afterwards the current id is the requested one; a failed id query, a null thread or a failing command throws and changes nothing |
| CLangDebuggeeProgram.CLangDebuggeeProgram.AddModule | src/AndroidPlusPlus.VsDebugEngine/C/CLangDebuggeeProgram.cs:94-112 | null throws `ArgumentNullException`; a listed module throws `ArgumentException` and leaves the list; any other is appended; the list stays free of duplicates |
| CLangDebuggeeProgram.CLangDebuggeeProgram.GetModule | src/AndroidPlusPlus.VsDebugEngine/C/CLangDebuggeeProgram.cs:118-134 | the loop returns the first module with the name, or null |
| CLangDebuggeeProgram.CLangDebuggeeProgram.RemoveModule | src/AndroidPlusPlus.VsDebugEngine/C/CLangDebuggeeProgram.cs:151-169 | null throws `ArgumentNullException`; an absent module throws `ArgumentException`; otherwise its first occurrence is removed; the list stays free of duplicates |
| CLangDebuggeeProgram.CLangDebuggeeProgram.AddThread | src/AndroidPlusPlus.VsDebugEngine/C/CLangDebuggeeProgram.cs:175-193 | as `AddModule`, on the thread list |
| CLangDebuggeeProgram.CLangDebuggeeProgram.GetThread | src/AndroidPlusPlus.VsDebugEngine/C/CLangDebuggeeProgram.cs:199-217 | the loop returns the first thread whose id query succeeds with the id, or null |
| CLangDebuggeeProgram.CLangDebuggeeProgram.RemoveThread | src/AndroidPlusPlus.VsDebugEngine/C/CLangDebuggeeProgram.cs:234-252 | as `RemoveModule`, on the thread list |
| CLangDebuggeeProgram.CLangDebuggeeProgram.SetRunning | src/AndroidPlusPlus.VsDebugEngine/C/CLangDebuggeeProgram.cs:258-263 | sets the running flag and nothing else |
| CLangDebuggeeProgram.CLangDebuggeeProgram.Attach | src/AndroidPlusPlus.VsDebugEngine/C/CLangDebuggeeProgram.cs:275-308 | broadcasts start-server then attach-client and returns `S_OK`; if the first broadcast throws, nothing is sent and it returns `E_FAIL`; if the second throws, start-server stays sent and it returns `E_FAIL` |
| CLangDebuggeeProgram.CLangDebuggeeProgram.CanDetach | src/AndroidPlusPlus.VsDebugEngine/C/CLangDebuggeeProgram.cs:314-319 | always `S_OK` |
| CLangDebuggeeProgram.CLangDebuggeeProgram.CauseBreak | src/AndroidPlusPlus.VsDebugEngine/C/CLangDebuggeeProgram.cs:325-345 | broadcasts stop-client; `S_OK`, or `E_FAIL` if the broadcast throws |
| CLangDebuggeeProgram.CLangDebuggeeProgram.Continue | src/AndroidPlusPlus.VsDebugEngine/C/CLangDebuggeeProgram.cs:351-374 | broadcasts continue-client only when the program is not running; `S_OK` unless that broadcast throws, then `E_FAIL` |
| CLangDebuggeeProgram.CLangDebuggeeProgram.Detach | src/AndroidPlusPlus.VsDebugEngine/C/CLangDebuggeeProgram.cs:380-403 | broadcasts detach-client then stop-server and returns `S_OK`; if the first broadcast throws, nothing is sent and it returns `E_FAIL`; if the second throws, detach-client stays sent and it returns `E_FAIL` |
| CLangDebuggeeProgram.CLangDebuggeeProgram.Execute | src/AndroidPlusPlus.VsDebugEngine/C/CLangDebuggeeProgram.cs:569-589 | `Continue` on the current thread, its failure reported as `E_FAIL` |
| CLangDebuggeeProgram.CLangDebuggeeProgram.ExecuteOnThread | src/AndroidPlusPlus.VsDebugEngine/C/CLangDebuggeeProgram.cs:848-870 | selects the thread, then `Execute`; a failed selection gives `E_FAIL` and changes nothing |
| CLangDebuggeeProgram.CLangDebuggeeProgram.Step | src/AndroidPlusPlus.VsDebugEngine/C/CLangDebuggeeProgram.cs:720-776 | selects the thread first (a failing switch returns `E_FAIL` with nothing changed); backwards then returns `E_NOTIMPL`; into, over and out ask GDB to step and return `S_OK`, or `E_FAIL` if the step throws, the thread switch staying in effect |
| CLangDebuggeeProgram.CLangDebuggeeProgram.Terminate | src/AndroidPlusPlus.VsDebugEngine/C/CLangDebuggeeProgram.cs:782-806 | broadcasts terminate-client; `S_OK`, or `E_FAIL` if the broadcast throws |
| CLangDebuggeeProgram.CLangDebuggeeProgram.EnumCodeContexts | src/AndroidPlusPlus.VsDebugEngine/C/CLangDebuggeeProgram.cs:409-429 | `E_NOTIMPL`, the enumerator null |
| CLangDebuggeeProgram.CLangDebuggeeProgram.EnumCodePaths | src/AndroidPlusPlus.VsDebugEngine/C/CLangDebuggeeProgram.cs:435-457 | `E_NOTIMPL`, both out-parameters null |
| CLangDebuggeeProgram.CLangDebuggeeProgram.GetDebugProperty | src/AndroidPlusPlus.VsDebugEngine/C/CLangDebuggeeProgram.cs:543-563 | `E_NOTIMPL`, the property null |
| CLangDebuggeeProgram.CLangDebuggeeProgram.GetENCUpdate | src/AndroidPlusPlus.VsDebugEngine/C/CLangDebuggeeProgram.cs:608-620 | `E_NOTIMPL`, the update null |
| CLangDebuggeeProgram.CLangDebuggeeProgram.WriteDump | src/AndroidPlusPlus.VsDebugEngine/C/CLangDebuggeeProgram.cs:812-830 | `E_NOTIMPL` |

## Left out

- **I/O and processes.** Reading and writing files, `File.Exists`,
  `Path.GetFullPath`, `ITaskItem` metadata and spawning the jdb process are
  not modelled. Logs and dependency files are given as their lines or
  contents. Sources are given as path strings. `Start` is reduced to "the
  process is active, and now is its last activity", always reporting
  success.
- **`ImportFromExistingTLog`:** a null log item is not modelled. A log
  file that does not exist is the `None` argument. Where the source would
  spin forever on a first line that is neither blank nor a `^` line, the
  method stops and reports `hung`.
- **`Save`:** the enumeration order of the `Dictionary` is a parameter.
- **Culture-sensitive prefix and suffix tests.** `String.StartsWith(string)`
  and `String.EndsWith(string)` compare under the current culture, which
  skips ignorable code points such as U+00AD and U+200B. The model compares
  character by character. So a line holding such a code point before its
  `^` is a root line for `ImportFromExistingTLog` but not for the model,
  and `QuoteIfNeeded` and the continued-line test of `ParseDependencyLine`
  differ in the same way.
- **Line breaks inside a key or a dependency.** A tracking log is given as
  its lines. `Save` writes each key and dependency with `WriteLine`, and
  the import reads them with `ReadLine`, which splits at CR and LF. So the
  round-trip lemmas require every key and dependency to be a single line.
- **`ToUpperInvariant`:** only ASCII letters are upper-cased. The culture
  tables for other letters are not modelled.
- **The discarded `line.Trim()`.** In `ParseDependencyLine` the result of
  `line.Trim()` is discarded. The model applies no trim at that point,
  exactly as the code behaves.
- **Not modelled in `GccUtilities`:** `ConvertGccOutputToVS` depends on
  the .NET `Regex` engine and on `Path.GetFullPath`.
  `ConvertJavaDependencyFileToGcc` is file rewriting only.
- **`ComputeSourcesNeedingCompilation`:** it only throws.
- **Time and threads in `JdbClient`.**
  - `Environment.TickCount` is a parameter.
  - The reader threads that deliver output are a schedule of events.
  - `ManualResetEvent.WaitOne` is a schedule entry saying whether the wait
    woke or timed out.
  - `Thread.Yield` has no effect in the model.
  - `JdbClient.AwaitResponse`: a schedule that runs out while time is left
    ends the wait as `Unfinished`, standing for a wait that continues
    beyond the modelled steps.
- **`MiResultRecord` and the stored callbacks.** The record type is opaque
  (`ResultRecord`). Nothing in the modelled code ever runs a stored
  callback, so only their presence in the table is tracked.
- **COM and the debug engine in `CLangDebuggeeProgram`.**
  - Engine broadcasts and GDB requests are recorded as `Request` values.
  - Whether a foreign call throws is a parameter of the operation. An
    operation that makes one such call takes a flag. `Attach` and
    `Detach`, which broadcast twice, take the index of the broadcast
    that throws. `Step` takes one flag for the thread switch and one for
    the step. A call that throws is not recorded; the calls before it
    are.
  - The COM out-parameters of the not-implemented members are `Option`
    values.
  - `EnumModules`, `EnumThreads`, `GetDisassemblyStream`, `GetEngineInfo`,
    `GetMemoryBytes`, `GetName`, `GetProcess` and `GetProgramId` are COM
    plumbing over the lists or the program object. They are not part of
    this model.
- **Aliasing of the lists.** `GetModules` and `GetThreads` hand out the
  internal lists by reference, so callers could change them. The model
  keeps the lists as values, without that aliasing.
- **`lock` blocks** only give mutual exclusion. The operations are
  modelled one at a time.
- **Unmodelled thread objects.** A thread passed to `Step`, `Continue` or
  `ExecuteOnThread` that is not a `CLangDebuggeeThread` becomes null under
  `as`. The model represents it as the null argument.
- **Step units.** The step unit is passed through to GDB unchanged, as a
  number.
- **The `ParseEntry`, `AppendFirstName`, `ReadDependencies`,
  `AppendAllToSources`, `AppendToSources`, `BroadcastAll` and `DeliverAll`
  methods** are helper
  methods of the model, each proved against the function that specifies
  it. They correspond to parts of the loops of the source methods cited
  for them.
