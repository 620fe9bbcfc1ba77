# afdsmgrd staging scheduler and logger, in Dafny

This project models the core of **afdsmgrd**, the analysis-facility data set
manager daemon. The model covers two parts of the daemon.

**The staging scheduler** (`src/AfDataSetsManager.cc`). Data set sources
enqueue URLs of files that must be brought onto the local pool. The manager
keeps a *staging queue*: an ordered list of `(URL, status)` entries, where a
status is Queue, Staging, Done or Fail, and an untracked URL reads as Absent.
It also keeps the list of running *staging commands*, one thread per URL.
`ProcessTransferQueue` runs in two passes:

- the *reap* pass settles every Staging entry whose command thread has
  finished, to Done or Fail according to the thread's verdict, and drops that
  command;
- the *admit* pass starts a command for each Queue entry while fewer than
  `parallelXfrs` commands run.

A command's line is the configured `stagecmd` with `$URLTOSTAGE` replaced by
the URL, or the URL appended, followed by `2> /dev/null`. The command succeeds
iff its standard output begins with `OK `. The main loop runs the transfer
queue on every iteration and scans the data set sources every
`scandseveryloops + 1` iterations. `ReadConf` reads the tunables, the staging
command and the `xpd.datasetsrc` lines.

**The logger** (`AfLog.cc`). It writes lines of the form
`[stamp] *** LVL *** message` to a log file, or to standard error when no
file is open. Before each message it checks whether the date has changed
since the file was last opened. If so, it renames the file to
`<name>.YYYYMMDD`, reopens it, and writes a notice saying whether the
rotation worked.

Modules, one per file:

| file | module | contents |
|---|---|---|
| `wrappers.dfy` | `Wrappers` | `Option` |
| `text.dfy` | `Text` | blanks and prefixes |
| `stage_queue.dfy` | `StageQueue` | queue entries, statuses, commands, enqueue and dequeue |
| `transfer_tick.dfy` | `TransferTick` | the two passes as left folds over the queue; one tick; the sources' enqueues and dequeues; the bounded-concurrency invariant |
| `stage_command.dfy` | `StageCommand` | the command line built by `Stage`, and its verdict |
| `conf.dfy` | `DataSetsConf` | directive defaults; `key:value` token lookup; `xpd.datasetsrc` parsing |
| `manager.dfy` | `Manager` | the `DataSetsManager` class, imperative; the loop cadence counter; the main loop as a fold of ticks and scans |
| `log_format.dfy` | `LogFormat` | level prefixes, the line format, zero-padded dates, the rotated name |
| `logger.dfy` | `Logging` | the rotation state machine; the `Logger` class, imperative |

The classes hold the state the source mutates: `DataSetsManager` holds the
queue, the commands and the tunables, and `Logger` holds the sink, file name,
rotatable flag and last-rotation instant. Their methods are proved against
pure functions: `Tick`, `Reap`, `Admit`, `Enqueued`, `Dequeued`, `ApplyOps`,
`LoopRun`, `Collect` and `CheckRotateSpec`. The meaning is proved as lemmas about those functions.

Inputs the model receives as parameters:

- the state of each command thread, as `poll: nat -> CmdState`, keyed by a
  model-only command id that stands for the thread object's identity;
- the enqueues and dequeues each data set scan performs, as
  `scanOps: nat -> seq<QueueOp>`, one list per loop iteration;
- the URL validity check applied to an MSS URL, as `mssValid`;
- the outcome of opening and renaming files, as booleans;
- the clock, as an instant `now` in seconds with a date function `dateOf`,
  and the printed timestamp `stamp`;
- the parsed configuration file, as a `ConfFile` value.

Where the daemon's documentation and its code disagree, the model follows
the code:

- A command whose output is exactly `OK` fails. The code tests
  `BeginsWith("OK ")`, with the space (`VerdictExamples`).
- A Staging entry removed by `DequeueUrl` leaves its command in the command
  list. The command keeps its slot until the reap pass, which finds it only
  through an entry with the same URL (`TickKeepsOrphan`). So "a command
  exists iff its entry is Staging" does not hold. What holds is the weaker
  direction: every Staging entry has a command (`StagingCovered`).
- The rotated file name is dated one second before the rotation. That is the
  current day unless the rotation happens in the first second of a day, not
  "the previous day" (`RotatedNameDatedNow`).
- The default sleep, scan period and parallel-transfer values (60, 10 and 10)
  are assumed from the daemon's documentation. The header that defines them
  (`AfDataSetsManager.h`) is not part of this model, so the code's own
  values could not be read.

## Model

| member | source | states |
|---|---|---|
| StageQueue.StatusOf | src/AfDataSetsManager.cc:259-270 | Absent exactly when no entry has the URL; otherwise an entry with that URL has the returned status |
| StageQueue.Enqueued | src/AfDataSetsManager.cc:272-283 | an untracked URL is appended as a Queue entry; a tracked URL leaves the queue unchanged; URLs stay unique |
| StageQueue.Dequeued | src/AfDataSetsManager.cc:285-294 | an untracked URL leaves the queue unchanged; a tracked one removes exactly one entry; URLs stay unique |
| StageQueue.EnqueueTracks | src/AfDataSetsManager.cc:272-283 | after enqueue the URL is Queue if it was new, else keeps its status; every other URL keeps its status |
| StageQueue.EnqueueIdempotent | src/AfDataSetsManager.cc:276-280 | enqueueing the same URL twice is the same as once |
| StageQueue.DequeueMakesAbsent | src/AfDataSetsManager.cc:285-294 | after dequeue the URL is Absent and every other URL keeps its status |
| StageQueue.DequeueUndoesEnqueue | src/AfDataSetsManager.cc:272-294 | dequeueing a URL just enqueued restores the queue |
| StageQueue.DequeueStatus | src/AfDataSetsManager.cc:285-294 | with unique URLs, dequeue makes its URL Absent and every other URL keeps its status |
| StageQueue.StatusAfterRemove | src/AfDataSetsManager.cc:289 | removing one entry makes its URL Absent and leaves the others' statuses |
| StageQueue.DequeueKeepsOrder | src/AfDataSetsManager.cc:285-294 | dequeueing a tracked URL removes one entry of that URL and keeps every other entry, in its order |
| TransferTick.ReapStepEffect | src/AfDataSetsManager.cc:340-374 | reaping a finished Staging entry sets Done or Fail from the thread's verdict, removes exactly its first command, and leaves other URLs' commands |
| TransferTick.ReapUpToEntries | src/AfDataSetsManager.cc:334-383 | after the reap pass over n entries each of them holds its verdict; the rest and their commands are untouched |
| TransferTick.ReapUpToDrops | src/AfDataSetsManager.cc:367-373 | the reap pass removes exactly the reaped commands (as a multiset) |
| TransferTick.ReapedCmdsFinished | src/AfDataSetsManager.cc:340-374 | every reaped command belongs to a Staging entry; if some entry is reapable, some command is reaped |
| TransferTick.ReapKeepsUnsettled | src/AfDataSetsManager.cc:340-348 | a Staging entry whose thread still runs keeps its command through the reap pass |
| TransferTick.ReapKeepsIdsOrdered | src/AfDataSetsManager.cc:367 | removing commands keeps them in creation order |
| TransferTick.RemoveKeepsIdsOrdered | src/AfDataSetsManager.cc:367 | removing one command keeps the rest in creation order under the same next id |
| TransferTick.ReapStepIds | src/AfDataSetsManager.cc:340-374 | one reap step keeps the commands in creation order |
| TransferTick.ReapSpec | src/AfDataSetsManager.cc:334-383 | the whole reap pass: every entry holds its verdict, commands shrink by the reaped ones, the Queue entries are unchanged |
| TransferTick.AdmitStepSpec | src/AfDataSetsManager.cc:390-406 | one admit step: a Queue entry under the limit becomes Staging and gets the next command, named by its URL, with a fresh id |
| TransferTick.AdmitUpToSpec | src/AfDataSetsManager.cc:385-410 | the admit pass admits exactly the earliest Queue entries, as many as there are free slots; commands are only appended, the m-th admitted entry gets the m-th new command |
| TransferTick.AdmittedEarliestFirst | src/AfDataSetsManager.cc:388-392 | no Queue entry is passed over for a later one |
| TransferTick.FirstQueuedAdmitted | src/AfDataSetsManager.cc:390-392 | with a free slot and a Queue entry, some entry is admitted |
| TransferTick.AppendKeepsIdsOrdered | src/AfDataSetsManager.cc:402-404 | appending a command with the next id keeps creation order and advances the next id |
| TransferTick.AdmitKeepsIdsOrdered | src/AfDataSetsManager.cc:402-404 | new commands are appended with increasing fresh ids |
| TransferTick.TickEntries | src/AfDataSetsManager.cc:314-412 | a tick keeps every URL in place; statuses only advance Queue to Staging to Done or Fail; Done and Fail are never touched; URLs stay unique |
| TransferTick.TickBound | src/AfDataSetsManager.cc:390-392 | a tick never raises the command count above the limit, or above its old value if that was higher; the admit pass only appends |
| TransferTick.TickReusesFreedSlot | src/AfDataSetsManager.cc:334-410 | when a finished command is reaped and a Queue entry waits, the same tick starts a command |
| TransferTick.TickKeepsOrphan | src/AfDataSetsManager.cc:285-294 | a command with no Staging entry of its URL is never reaped |
| TransferTick.StagingAtMostCmds | src/AfDataSetsManager.cc:340-343 | when every Staging entry has a command, there are at most as many Staging entries as commands |
| TransferTick.TickKeepsIdsOrdered | src/AfDataSetsManager.cc:334-410 | a tick keeps the commands in creation order, all ids below the next id |
| TransferTick.CoveredAdmitted | src/AfDataSetsManager.cc:390-404 | an entry admitted in a tick has a command of its URL afterwards |
| TransferTick.UnadmittedWasUnsettled | src/AfDataSetsManager.cc:334-348 | an entry Staging after a tick without being admitted was already Staging and its thread had not finished |
| TransferTick.CoveredUnsettled | src/AfDataSetsManager.cc:334-410 | such an entry still has a command of its URL after the tick |
| TransferTick.TickKeepsCovered | src/AfDataSetsManager.cc:334-406 | a tick keeps "every Staging entry has a command of its URL" |
| TransferTick.EnqueueKeepsCovered | src/AfDataSetsManager.cc:272-283 | enqueue keeps "every Staging entry has a command" |
| TransferTick.DequeueKeepsCovered | src/AfDataSetsManager.cc:285-294 | dequeue keeps "every Staging entry has a command" |
| TransferTick.DequeueKeepsValid | src/AfDataSetsManager.cc:285-294 | dequeue keeps unique URLs, ordered ids and coverage; the URL becomes Absent; an entry is found exactly when the URL was tracked |
| TransferTick.ApplyOpEffect | src/AfDataSetsManager.cc:272-294 | one enqueue or dequeue by a source keeps unique URLs, ordered ids and coverage, leaves the commands alone, sets the URL to Queue (if new) or Absent, and keeps every other URL's status |
| TransferTick.ApplyOpsKeepsValid | src/AfDataSetsManager.cc:236-241 | any sequence of source enqueues and dequeues keeps unique URLs, ordered ids and coverage, and leaves the commands alone |
| TransferTick.TickPreserves | src/AfDataSetsManager.cc:314-412 | a tick preserves unique URLs, ordered ids and coverage, and Staging entries ≤ commands ≤ the limit (or the old count) |
| TransferTick.TickNInvariants | src/AfDataSetsManager.cc:224-256 | over any number of consecutive ticks with no scan in between, at most `limit` commands run, at most as many entries are Staging, URLs stay in place and statuses only advance |
| StageCommand.SubstituteNone | src/AfDataSetsManager.cc:420-426 | the substitution count is zero exactly when the template holds no `$URLTOSTAGE` followed by a blank or the end; then the text is unchanged |
| StageCommand.SubstitutePlain | src/AfDataSetsManager.cc:420-422 | text in which no match starts passes through the substitution unchanged, whatever follows it |
| StageCommand.HeadNoMatch | src/AfDataSetsManager.cc:420 | a match cannot start before a placeholder and reach into it, so no match starts in the head, whatever follows the placeholder |
| StageCommand.DollarFreeNoMatch | src/AfDataSetsManager.cc:420 | text without `$` starts no match |
| StageCommand.SubstitutePlaceholderBlank | src/AfDataSetsManager.cc:420-422 | `$URLTOSTAGE` and its blank are replaced together by the URL and a space |
| StageCommand.SubstituteOnce | src/AfDataSetsManager.cc:420-422 | one placeholder and its blank, in text where no other match starts (other `$` words allowed), are replaced once, by the replacement |
| StageCommand.SubstitutePlaceholderLast | src/AfDataSetsManager.cc:420-422 | `$URLTOSTAGE` at the end is replaced by the URL and a space |
| StageCommand.SubstitutePlaceholderNewline | src/AfDataSetsManager.cc:420-422 | `$URLTOSTAGE` before a final newline is replaced and the newline kept |
| StageCommand.StageCommandAppends | src/AfDataSetsManager.cc:422-427 | without a placeholder the line is the command, a space, the URL, a space, and the redirect |
| StageCommand.StageCommandReplaces | src/AfDataSetsManager.cc:420-427 | in text with no other match, a placeholder followed by a blank is replaced by the URL, and the redirect is appended to the end of the line |
| StageCommand.StageCommandReplacesLast | src/AfDataSetsManager.cc:420-427 | after a head where no match starts, a trailing placeholder gives the head, the URL, a space, and the redirect |
| StageCommand.StageCommandReplacesNewline | src/AfDataSetsManager.cc:420-427 | a placeholder before a final newline gives the head, the URL, a space, the newline, and the redirect |
| StageCommand.StageCommandShellVariable | src/AfDataSetsManager.cc:420-427 | other shell variables stay: `$HOME/bin/stage $URLTOSTAGE` gives `$HOME/bin/stage URL 2> /dev/null` |
| StageCommand.VerdictExamples | src/AfDataSetsManager.cc:434-440 | output starting with `OK ` succeeds; `OK` alone, empty output, and other output fail |
| StageCommand.RedirectGluedToLastWord | src/AfDataSetsManager.cc:427 | as written, `run $URLTOSTAGE --verbose` becomes `run URL --verbose2> /dev/null` |
| StageCommand.StageCommandSeparated | src/AfDataSetsManager.cc:420-427 | the corrected line always ends in a blank and then the redirect |
| StageCommand.GapAgrees | src/AfDataSetsManager.cc:427 | adding the gap before the redirect keeps the as-written line or inserts exactly one space; nothing is inserted when a blank already precedes it |
| StageCommand.SeparatedAgrees | src/AfDataSetsManager.cc:420-427 | the corrected line equals the as-written line, or inserts exactly one space before the redirect; it is the same whenever a blank already precedes the redirect, and with no placeholder |
| StageCommand.SeparatedReplaces | src/AfDataSetsManager.cc:420-427 | in text with no other match and words after the placeholder, the corrected line is the head, the URL, a space, the tail, a space, and the redirect |
| DataSetsConf.NumericDirective | src/AfDataSetsManager.cc:36-87 | a positive value is taken; a missing or non-positive value gives the default; a positive default gives a positive result |
| DataSetsConf.DirectiveValueSpec | src/AfDataSetsManager.cc:113-117 | the lookup fails exactly when no `key` token starts the line or follows a blank; otherwise it returns the maximal blank-free run after the leftmost such token |
| DataSetsConf.FindKeyLeftmost | src/AfDataSetsManager.cc:113-117 | no key token occurs between the search start and the found position |
| DataSetsConf.SkipToken | src/AfDataSetsManager.cc:113-117 | a leading token not starting with the key does not change the lookup |
| DataSetsConf.HeadToken | src/AfDataSetsManager.cc:113-117 | a line starting with `key` + value, then a blank or the end, answers that value |
| DataSetsConf.JoinLookup | src/AfDataSetsManager.cc:113-117 | on a line of blank-free tokens, the lookup returns the rest of the first token starting with the key |
| DataSetsConf.ParseSource | src/AfDataSetsManager.cc:124-204 | a source is accepted exactly when it has a valid MSS URL and a `url:`; accepted sources carry the data set masks |
| DataSetsConf.ParseSources | src/AfDataSetsManager.cc:121-206 | the result is empty exactly when no line is a valid source, and it holds only parsed lines |
| DataSetsConf.ParseSourcesComplete | src/AfDataSetsManager.cc:121-206 | every line that is a valid source contributes that source |
| DataSetsConf.ParseSourcesConcat | src/AfDataSetsManager.cc:121-206 | the sources of two runs of lines are the first run's followed by the second's, so the file order is kept |
| DataSetsConf.ParseSourcesLast | src/AfDataSetsManager.cc:196-204 | the last line adds its source after those of the earlier lines, or nothing when it is invalid |
| DataSetsConf.Collect | src/AfDataSetsManager.cc:121-206 | the collected list is empty exactly when no line parses, and holds only the parses of lines |
| DataSetsConf.CollectComplete | src/AfDataSetsManager.cc:121-206 | every line that parses contributes its value |
| DataSetsConf.CollectConcat | src/AfDataSetsManager.cc:121-206 | collecting two runs of lines is collecting each and concatenating |
| DataSetsConf.SourceTokenValues | src/AfDataSetsManager.cc:137-191 | a line built from the five directives reads each of them back |
| DataSetsConf.SourceLineValues | src/AfDataSetsManager.cc:113-191 | the lookups on such a line return the directives it was built from |
| DataSetsConf.ParseSourceRoundTrip | src/AfDataSetsManager.cc:137-191 | a source line built from its fields parses back to them; a missing `destpath:` gives `/alien`; missing `opt:` gives `Ar:Av:` with `rw=1` and `-Ar:-Av:` without |
| Manager.CounterAt | src/AfDataSetsManager.cc:222-248 | the loop counter never exceeds the scan period |
| Manager.CounterClosedForm | src/AfDataSetsManager.cc:222-248 | after i iterations the counter is (period + i) mod (period + 1) |
| Manager.ScanCadence | src/AfDataSetsManager.cc:232-247 | iteration i scans the sources exactly when i is a multiple of period + 1, starting with the first |
| Manager.DataSetsManager.constructor | src/AfDataSetsManager.cc:3-14 | empty lists and the default tunables |
| Manager.DataSetsManager.ReadConf | src/AfDataSetsManager.cc:21-218 | a missing file changes nothing and fails; the numeric tunables come from NumericDirective; a missing stage command empties the sources and fails; otherwise the sources are the valid lines and the result is whether there is one |
| Manager.DataSetsManager.GetStageStatus | src/AfDataSetsManager.cc:259-270 | Absent exactly when the URL is untracked; otherwise its entry's status |
| Manager.DataSetsManager.EnqueueUrl | src/AfDataSetsManager.cc:272-283 | returns whether the URL was untracked; the queue becomes Enqueued; invariants kept; only the queue changes |
| Manager.DataSetsManager.DequeueUrl | src/AfDataSetsManager.cc:285-294 | returns whether the URL was tracked; the queue becomes Dequeued, so the URL becomes Absent; only the queue changes; invariants kept |
| Manager.DataSetsManager.ProcessTransferQueue | src/AfDataSetsManager.cc:314-412 | the new state is one Tick of the old (whose bounds `TickPreserves` states); unique URLs, ordered ids and coverage kept; only the queue, commands and next id change |
| Manager.DataSetsManager.ReapPass | src/AfDataSetsManager.cc:331-383 | the first loop leaves the state `Reap` of the old one |
| Manager.DataSetsManager.AdmitPass | src/AfDataSetsManager.cc:385-410 | the second loop leaves the state `Admit` of the old one |
| Manager.DataSetsManager.ScanSources | src/AfDataSetsManager.cc:236-241 | the sources' enqueues and dequeues, performed in order, leave the state `ApplyOps` of the old one; invariants kept |
| Manager.DataSetsManager.Iteration | src/AfDataSetsManager.cc:226-247 | one iteration: a tick, then the sources' queue operations exactly when the counter scans; the state advances one `LoopRun` step and the counter to the next iteration's |
| Manager.DataSetsManager.Loop | src/AfDataSetsManager.cc:220-257 | with runOnce one iteration, else `fuel`; the recorded scans are `ScanFlags` of the period; the state is `LoopRun` of the old over that many iterations, each a tick followed, on scanning iterations, by the sources' queue operations; only the queue, commands and next id change |
| Manager.LoopRunValid | src/AfDataSetsManager.cc:224-247 | every iteration of the main loop, ticks and scans together, keeps unique URLs, ordered ids and coverage, and at most `limit` commands |
| Manager.IterationValid | src/AfDataSetsManager.cc:226-241 | one iteration (a tick, then the sources' queue operations when it scans) keeps the invariants and the command bound |
| Manager.LoopRunBounded | src/AfDataSetsManager.cc:224-247 | after any number of iterations, scans included, the state is valid and Staging entries ≤ commands ≤ `limit` |
| Manager.LoopRunNoScanOps | src/AfDataSetsManager.cc:224-247 | when the sources perform no queue operations, the loop is just consecutive ticks |
| Manager.CollectSources | src/AfDataSetsManager.cc:121-206 | the loop over the `xpd.datasetsrc` lines collects exactly the lines' parses, in order |
| Manager.ScanFlagsCadence | src/AfDataSetsManager.cc:222-247 | in the scan record of n iterations, iteration k scans exactly when k is a multiple of period + 1 |
| Manager.EnqueueThree | src/AfDataSetsManager.cc:272-283 | three distinct URLs enqueue in order as Queue |
| Manager.ScenarioFirstTick | src/AfDataSetsManager.cc:385-410 | with two slots, the first tick stages the first two URLs |
| Manager.ScenarioSecondTick | src/AfDataSetsManager.cc:334-410 | on the second tick one success and one failure settle, and the third URL takes the freed slot |
| Manager.TwoSlotScenario | src/AfDataSetsManager.cc:314-412 | the two ticks together: Done, Fail and Staging, with one command left |
| LogFormat.Prefix | AfLog.cc:116-132 | every level prints as a three-letter tag |
| LogFormat.LevelOf | AfLog.cc:116-132 | a tag read back names a level that prints as that tag |
| LogFormat.PrefixRoundTrip | AfLog.cc:116-132 | the tags are distinct: each level's tag reads back as that level |
| LogFormat.FormatLine | AfLog.cc:133-137 | a line is 16 characters longer than stamp and message, starts with `[` and ends with a newline |
| LogFormat.ParseLineSound | AfLog.cc:134-136 | any line that parses is the formatted line of its parts |
| LogFormat.ParseFormatLine | AfLog.cc:134-136 | a formatted line parses back to its stamp, level and message |
| LogFormat.PadValue | AfLog.cc:77-78 | zero padding keeps the number's value and gives exactly the field width when the number fits |
| LogFormat.DateKeyOrder | AfLog.cc:73 | comparing the packed dates is comparing year, then month, then day; equal keys mean equal dates |
| LogFormat.RotatedName | AfLog.cc:75-78 | the rotated name never exceeds the 199 characters the buffer holds |
| LogFormat.RotatedNameRoundTrip | AfLog.cc:75-78 | for a short name and a four-digit year, the rotated name is the name, a dot and 8 digits that read back as year, month and day |
| Logging.SetFileState | AfLog.cc:36-63 | opening a file leaves a consistent, rotatable state, and failing to open leaves the fallback state |
| Logging.CheckRotateSpec | AfLog.cc:65-97 | the code is -1, 0 or 1; it is non-zero exactly when rotation is due; a zero code leaves the state and renames nothing; the state stays consistent |
| Logging.NotRotatableNoOp | AfLog.cc:67-69 | a logger on the fallback stream never rotates |
| Logging.RotationEffect | AfLog.cc:73-94 | a due rotation renames to the name dated one second before now; it reports 1 iff rename and reopen worked; a reopened file is stamped now; a failed reopen falls back |
| Logging.RotatedNameDatedNow | AfLog.cc:76-78 | unless the rotation runs in the first second of a day, the rotated name carries the current date |
| Logging.NoSecondRotationSameDay | AfLog.cc:45-47 | after a rotation that reopened the file, no rotation happens again the same day |
| Logging.RotatesOnNewDay | AfLog.cc:36-53 | a file opened at one instant rotates at a later one exactly when the date has moved past the opening date |
| Logging.MessageOrder | AfLog.cc:99-110 | the caller's line comes last; a notice precedes it exactly when rotation was due; the error notice on -1, the success notice on 1 |
| Logging.FailedReopenFallsBack | AfLog.cc:38-40 | a rotation whose reopen fails reports -1 and writes to the fallback stream |
| Logging.CheckRotateCodeAsWritten | AfLog.cc:65-97 | as written, the rotatable, not-due path returns an arbitrary leftover value; every other path agrees with the model |
| Logging.MissingReturnSpuriousNotice | AfLog.cc:95-110 | with a leftover value of 1, a logger that did not rotate writes "Logfile rotated"; the model writes only the caller's line |
| Logging.Logger.constructor | AfLog.cc:12-17 | a new logger is in the fallback state and has written nothing |
| Logging.Logger.SetStdErr | AfLog.cc:55-63 | the fallback state: standard error, no name, not rotatable, no stamp |
| Logging.Logger.SetFile | AfLog.cc:36-53 | returns whether the open worked; the state becomes that of SetFileState |
| Logging.Logger.CheckRotate | AfLog.cc:65-97 | the new state, code and rename target are those of CheckRotateSpec |
| Logging.Logger.Message | AfLog.cc:99-110 | the state rotates as CheckRotateSpec says; the written lines grow by MessageLines, all on the sink after the check |
| Logging.Logger.Format | AfLog.cc:112-138 | appends one formatted line to the current sink and changes nothing else |

## Left out

- Threads are not modelled. A command's life is reduced to the state its thread reports when polled (`poll`). Cancelling, joining and deleting threads are not modelled, nor is `TThread` identity beyond a model-only id.
- `GetFromPipe` (running the shell command) and `gSystem->Sleep` are not modelled. The command's output is a parameter of `Verdict`, and the sleep has no effect on the state.
- `AfDataSetSrc::Process`, the data set scan itself, is not part of this model. Only its effect on the manager is: the enqueues and dequeues a scan performs arrive as the parameter `scanOps(i)` for iteration i. Its `GetStageStatus` calls change nothing.
- Manager.DataSetsManager.Loop: the source loops forever. The model runs `fuel` iterations, or one when `runOnce` is set, so it says nothing about an unbounded run beyond every finite prefix.
- `TUrl` parsing and URL flattening are not modelled. The check that an MSS URL is a valid `root://` URL is the parameter `mssValid`. The data set source records the MSS text as given, not the flattened `proto://host:port` URL carrying the destination path.
- `AfConfReader` and `TString::Atoi` are not modelled. A numeric directive arrives as `Option<int>`: None when missing, else the converted value.
- DataSetsConf.ParseSource: the data set mask list is always recorded. The source installs it only when it is non-empty and otherwise keeps the source object's own default, which is not part of this model.
- The `rw=1` pattern matches any token beginning with `rw=1` (`HasKey`), as the regular expression does. The text after it is ignored.
- Logging calls from the manager (`AfLogInfo` and the others), `PrintStageList` and the debug flag only produce text. They are not modelled.
- `TDatime` is not modelled. The clock is an instant in seconds (`now`), its calendar date is the parameter `dateOf`, and the printed timestamp is the parameter `stamp`.
- Logging.Logger.Message: both lines of one message carry the same `stamp`. The source reads the clock again for each line.
- `vfprintf` formatting of the caller's arguments is not modelled. The message text arrives already formatted.
- `fopen`, `fclose`, `fflush` and `gSystem->Rename` are not modelled. Their success is given as booleans, and file contents are not modelled beyond the list of lines written to each sink.
- `AfLog::Init`, the global `gLog`, the destructors and the ownership of list elements (`SetOwner`, `delete`) have no observable effect on the modelled state. They are not modelled.
- Update in place and aliasing of the ROOT lists are not modelled. The queue and command lists are sequence fields that the methods reassign.

## Findings

| source | as written | input that shows it | evidently intended | confidence | as-written member | corrected member |
|---|---|---|---|---|---|---|
| AfLog.cc:95-97 | when the logger is rotatable but the date has not changed, `CheckRotate` reaches the end of a non-void function without a return, so `Message` reads an indeterminate value | a logger writing to a file opened today; any message; a leftover register value of 1 makes `Message` log "Logfile rotated", and -1 makes it log "Can't rotate logfile!" | return 0 ("no need to rotate", as `Message`'s comment says) | not executed | Logging.MissingReturnSpuriousNotice | Logging.CheckRotateSpec |
| src/AfDataSetsManager.cc:427 | `2> /dev/null` is appended with no separating space. After a substitution followed by more text, the redirect is glued to the last word | `stagecmd = run $URLTOSTAGE --verbose` gives `run URL --verbose2> /dev/null`. The shell reads the argument `--verbose2` and a redirect of standard output, so the daemon reads empty output and the staging fails | a blank before the redirect, as in the no-placeholder and trailing-placeholder cases, where the URL's appended space provides it | not executed | StageCommand.RedirectGluedToLastWord | StageCommand.StageCommandSeparated |
