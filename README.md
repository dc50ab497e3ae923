# StreamCapture scheduling and capture supervision, in Dafny

StreamCapture records live broadcast streams. It works in three stages:

- It matches a published programme schedule against keyword rules.
- It keeps a long-lived map of candidate recordings.
- Under a cap on simultaneous captures, it decides which candidates to queue.

Each queued show gets a capture supervisor. The supervisor runs an external capture tool and switches channel when a stream keeps dying early. At the end it stitches the segment files together and remuxes them into an `.mp4`.

This project models that core and proves properties of the model:

- **`Keywords`** models the keyword matcher, as the code behaves:
  - a row's comma-separated terms are AND-ed;
  - every row resets the verdict, so of a rule's keyword rows only the last one decides, and likewise for its exclusion rows;
  - exclusion rows veto a match, and the first qualifying rule wins.
- **`Records`** covers the candidate record and how it is filled from a schedule entry. That includes the channel list and the sanitised file name.
- **`Admission`** covers admission:
  - the insert that keeps the queue in start order;
  - the insertion sort by keyword position;
  - the end-time sweep that enforces the concurrency cap;
  - the admission pass. It is related to an independent definition: the number of captures running at any instant.
- **`Scheduling`** holds the `Recordings` object. Its dictionary and queue are updated in place by reconciliation, pruning and `GetShowsToQueue`.
- **`Monitor`** models one pass of the monitor loop. The pass refreshes the schedule and flags each queued record that is due, and a record handed to a capture task is not handed over again while it stays in the map. The pass also computes the next schedule check.
- **`Capture`** models the supervisor's retry loop:
  - the failure bookkeeping;
  - the quality ratio;
  - channel failover and the best-channel lock;
  - the timers given to each restart;
  - the channel history.
- **`Finalize`** models the file-system side of a capture:
  - moving an old file aside before reuse;
  - the capture command line;
  - the `|`-separated segment list;
  - concatenation, remuxing and cleanup.
- **`Text`** models the string operations those stages use: `String.Split`, `String.Replace`, `Replace(char, char)`, character stripping and decimal rendering. It also models C#'s truncating integer division.

Modelling conventions:

- **Time.** Instants and spans are whole seconds (`Time = int`).
- **Library calls.**
  - Regular-expression matching and lower-casing are a `TextMatcher` parameter.
  - The platform's invalid file-name characters are a parameter.
  - So is the random file name used when a file is moved aside.
- **External processes.**
  - The end instants of the capture processes are a sequence `endTimes`, one per process.
  - Whether concatenation or remuxing produced its output file is a boolean.
- **The file system** is a `Disk` object holding a set of paths.
- **Shared records.** C# shares each `RecordInfo` object between the dictionary and the queue. Here records are values, written back to both. `QueueBacked` states the invariant that makes this write-back faithful: every queued record is the dictionary's entry under its own key.

## Model

| member | source | states |
|---|---|---|
| Keywords.CheckForMatchHelper | Keywords.cs:59-89 | the verdict of a row list is that of its last row (every row resets the flag); a missing or empty list never matches |
| Keywords.VerdictIsLastRow | Keywords.cs:68-88 | appending a row makes the list's verdict exactly that row's verdict, whatever came before |
| Keywords.VerdictVersusAnyRow | Keywords.cs:59-89 | the as-written verdict implies that some row matches, and a concrete list where an earlier row matches but the verdict is false |
| Keywords.FirstMatchFrom | Keywords.cs:37-53 | result is None iff no rule from `from` on qualifies; otherwise the earliest qualifying rule and its index |
| Keywords.FirstMatch | Keywords.cs:33-56 | no match iff no rule qualifies; otherwise the rule at the returned index qualifies and no earlier rule does |
| Keywords.MissingRowsNeverMatch | Keywords.cs:40-50 | a rule without keyword rows never qualifies; a rule without exclusion rows qualifies exactly on its keyword verdict |
| Keywords.RowMatches | Keywords.cs:74-85 | a row matches when every comma-separated term, read as a regular expression, matches the lower-cased title |
| Keywords.FindMatch | Keywords.cs:33-56 | the loop returns the first qualifying rule with its position, or nothing |
| Text.Split | Keywords.cs:74 | splitting yields at least one part and no part contains the separator |
| Text.JoinSplit | Keywords.cs:74 | joining the parts of a split with the separator gives back the original text |
| Text.SplitJoin | Recorder.cs:381-383 | splitting a join of separator-free parts gives back the parts |
| Text.SplitWithoutSeparator | Keywords.cs:74 | a text without the separator splits into itself alone |
| Text.SplitAtFirstSeparator | Keywords.cs:74 | split cuts at the first separator and continues on the rest |
| Text.ReplaceSkipsPlain | Recorder.cs:302-304 | a prefix holding no pattern start passes through `Replace` unchanged |
| Text.ReplaceLeavesPlain | Recorder.cs:302-304 | text without the pattern's first character is left unchanged |
| Text.ReplaceAtHead | Recorder.cs:302-304 | an occurrence at the head is replaced and scanning resumes after it |
| Text.ReplaceSkipsOther | Recorder.cs:412-415 | a bracketed word that differs from the placeholder is kept and scanning resumes after it |
| Text.ReplaceChar | Recordings.cs:92 | same length; each `from` character becomes `to` and every other character is kept |
| Text.StripChars | Recordings.cs:95-98 | the result is no longer than the input, and each of its characters comes from the input and is not stripped |
| Text.StripCharsCounts | Recordings.cs:95-98 | a stripped character occurs zero times in the result, and every other character exactly as often as in the input |
| Text.StripCharsAppend | Recordings.cs:95-98 | stripping a concatenation strips each part, keeping the order of the kept characters |
| Text.StripCharsSingle | Recordings.cs:97 | a single character is kept exactly when it is not stripped |
| Text.ReplaceByEmptyStrips | Recordings.cs:97 | replacing a one-character string by the empty string removes that character |
| Text.StripNothing | Recordings.cs:95-98 | stripping no characters is the identity |
| Text.StripCharsStep | Recordings.cs:95-98 | stripping character by character equals stripping the whole set at once |
| Text.NatToDecimal | Recorder.cs:383 | a non-negative number renders as a non-empty string of digits |
| Text.DecimalRoundTrip | Recorder.cs:383 | reading the rendering of `n` back gives `n` |
| Text.TruncDiv | Recorder.cs:218 | C# integer division truncates toward zero: `q·b <= a < q·b + b` for a non-negative dividend and `q·b - b < a <= q·b` for a negative one |
| Text.TruncRem | Recorder.cs:217 | C# remainder: smaller than the divisor in magnitude, with the dividend's sign |
| Records.SanitizedFileNameProperties | Recordings.cs:91-102 | the body is the title with spaces turned into underscores and the unsafe characters stripped; it holds no unsafe character; the name starts with `+_` iff the show is starred |
| Records.AddUpdateChannel | Recordings.cs:70 | the new channel is present; other channel numbers are kept; nothing else is added |
| Records.AddUpdateChannelIdempotent | Recordings.cs:70 | adding the same channel twice equals adding it once |
| Records.FillRecord | Recordings.cs:67-89 | the filled record is keyed by the show, carries its title, times, keyword position and file name and one of its channels, and keeps both flags of the old record |
| Records.FillRecordIdempotent | Recordings.cs:67-89 | filling a record twice from the same entry equals filling it once |
| Admission.StartInsertPos | Recordings.cs:222-232 | the insert point follows every entry starting no later and precedes the first that starts later |
| Admission.InsertAtIndex | Recordings.cs:226 | `List.Insert`: one longer, the new element at the index, elements before it kept, elements after it shifted by one |
| Admission.InsertAtContents | Recordings.cs:226 | the insert adds exactly one occurrence of the new element |
| Admission.InsertByStartSorted | Recordings.cs:218-234 | inserting into a start-sorted list keeps it start-sorted |
| Admission.InsertAtDistinct | Recordings.cs:226 | inserting a new element keeps a list free of duplicates |
| Admission.AppendDistinct | Recordings.cs:232 | appending a new element keeps a list free of duplicates |
| Admission.AddToSortedList | Recordings.cs:218-234 | the loop inserts before the first entry starting later, or appends |
| Admission.PosInsertPos | Recordings.cs:292-300 | the insert point follows every entry of lower position and precedes the first entry of equal or higher position |
| Admission.InsertByPosSorted | Recordings.cs:284-310 | inserting keeps a position-sorted list sorted |
| Admission.SortByPos | Recordings.cs:284-310 | the sort keeps the length |
| Admission.SortByPosSortsAndPermutes | Recordings.cs:284-310 | the result is sorted by keyword position and is a permutation of the input |
| Admission.InsertByPosAt | Recordings.cs:292-306 | inserting at the first entry of equal or higher position, or at the end |
| Admission.SortByPosStep | Recordings.cs:288-307 | sorting one more element is inserting it into the sorted prefix |
| Admission.SortBasedOnKeywordPos | Recordings.cs:284-310 | the nested loops compute the sort |
| Admission.WithPosAppend | Recordings.cs:284-310 | picking out one position distributes over concatenation |
| Admission.WithPosNone | Recordings.cs:284-310 | a list with no entry at a position contributes nothing at that position |
| Admission.InsertByPosWithPos | Recordings.cs:294 | an inserted record lands ahead of all earlier records of its position |
| Admission.SortByPosReversesTies | Recordings.cs:284-310 | records of equal position come out in reverse input order |
| Admission.FilterAboveKeeps | Recordings.cs:262-269 | the end-time stack keeps exactly the entries after the new start |
| Admission.RemoveFirstAfter | Recordings.cs:267 | `List.Remove` drops the first occurrence, past entries that differ |
| Admission.SweepOuterStep | Recordings.cs:256-277 | the counter at element `n` is one plus the stack entries after its start; the stack then gains its end |
| Admission.SweepDropStep | Recordings.cs:262-269 | one inner step removes the entry iff the start is at or after it, and the counter drops by one |
| Admission.DropEnded | Recordings.cs:261-269 | the inner loop leaves exactly the end times after the start and counts the rest |
| Admission.IsConcurrencyOk | Recordings.cs:240-280 | the flag is the sweep verdict over the trial list with the candidate inserted by start |
| Admission.FilterAboveAppend | Recordings.cs:262-269 | filtering distributes over concatenation |
| Admission.FilterAboveTwice | Recordings.cs:262-269 | filtering at an earlier instant and then at a later one equals filtering at the later one |
| Admission.StackCountsRunning | Recordings.cs:256-277 | at any instant no earlier than the starts seen, the surviving stack entries are the records still running |
| Admission.SweepOkIffNoOverload | Recordings.cs:240-280 | on a start-sorted list the sweep accepts iff no record starts while the cap of earlier records is still running |
| Admission.ActiveIsEndingAfter | Recordings.cs:240-280 | when every record has started by `t`, those running at `t` are those ending after `t` |
| Admission.CountEndingAfterAntitone | Recordings.cs:240-280 | fewer records end after a later instant |
| Admission.NoOverloadAtEveryInstant | Recordings.cs:236-280 | an accepted queue never has more than the cap of captures running at any instant |
| Admission.TrialOk | Recordings.cs:172 | the trial inserts the candidate by start into the queue so far and runs the sweep |
| Admission.Admit | Recordings.cs:170-193 | one candidate: queued by start when it is neither finished nor too far ahead and its trial passes |
| Admission.AdmissionInvariant | Recordings.cs:161-194 | the admitted queue is start-sorted, passes the sweep, holds only eligible candidates, and is duplicate-free when the candidates are |
| Admission.LastNotEarlier | Recordings.cs:168 | in a duplicate-free list the last element is not among the others |
| Admission.AdmissionMembership | Recordings.cs:168-194 | a candidate is queued iff it is neither finished nor too far ahead and passes the trial against the queue built before it; the spawned flag plays no part |
| Scheduling.Recordings.SanitizeFileName | Recordings.cs:91-102 | the loop builds the sanitised file name |
| Scheduling.Recordings.RemoveEach | Recordings.cs:95-98 | the removal loop strips exactly the unsafe and platform-invalid characters |
| Scheduling.ReconcileShowEffect | Recordings.cs:58-107 | an unmatched entry changes nothing; a matched one is filled from its rule and position under its key, keeps the key's flags and leaves every other key alone |
| Scheduling.ReconcileShowIdempotent | Recordings.cs:58-107 | reconciling the same entry twice equals reconciling it once |
| Scheduling.ReconcileAllKeeps | Recordings.cs:58-107 | a refresh never drops a key and never changes the spawned or best-channel flags of existing keys |
| Scheduling.Prune | Recordings.cs:170-178 | a key stays iff its record has not finished, and kept records are unchanged |
| Scheduling.SortByPosKeeps | Recordings.cs:167 | the sort keeps membership and duplicate-freedom |
| Scheduling.QueueProperties | Recordings.cs:153-216 | the queue is start-sorted, within the cap at every start, duplicate-free, and every entry is an eligible record still in the pruned dictionary under its own key |
| Scheduling.QueueMembership | Recordings.cs:167-194 | candidates are tried in keyword order; one is queued iff it is eligible and passes the trial |
| Scheduling.PruneKeepsUnfinished | Recordings.cs:170-178 | finished keys are removed; the others are kept unchanged |
| Scheduling.DoneKeysStep | Recordings.cs:174-178 | the loop removes one more key exactly when that record has finished |
| Scheduling.MinusStep | Recordings.cs:177 | removing keys one at a time equals removing them all at once |
| Scheduling.AdmitAllStep | Recordings.cs:168-194 | admitting one more candidate is one more admission step |
| Scheduling.DoneKeysPrune | Recordings.cs:168-178 | deleting the finished records met in the loop equals pruning the dictionary |
| Scheduling.Recordings.constructor | Recordings.cs:26-31 | a new object has an empty dictionary and queue |
| Scheduling.Recordings.GetRecordInfo | Recordings.cs:115-125 | the stored record for a known key, a fresh record otherwise |
| Scheduling.Recordings.AddUpdateRecordInfo | Recordings.cs:136-142 | the dictionary maps the key to the record; nothing else changes |
| Scheduling.Recordings.DeleteRecordInfo | Recordings.cs:144-147 | the record's key is removed; nothing else changes |
| Scheduling.Recordings.ValuesToList | Recordings.cs:167 | the list enumerates the dictionary's values, each once |
| Scheduling.Recordings.TryQueue | Recordings.cs:170-193 | one candidate: a finished one is deleted, and the queue takes one admission step |
| Scheduling.Recordings.GetShowsToQueue | Recordings.cs:153-216 | the queue is the admission of the keyword-sorted values, and the dictionary is pruned of finished shows |
| Scheduling.Recordings.BuildRecordSchedule | Recordings.cs:38-113 | reconcile every schedule entry, then queue; the result is the admission over the reconciled and pruned dictionary |
| Monitor.MarkQueue | Recorder.cs:37-53 | marking keeps the queue's length |
| Monitor.MarkQueueEach | Recorder.cs:37-53 | each queued record is flagged iff it was due, and is otherwise unchanged |
| Monitor.SpawnedAreTheDue | Recorder.cs:41-47 | the records handed to capture tasks are exactly the due ones, flagged, each starting after now and within the horizon |
| Monitor.SecondPassSpawnsNothing | Recorder.cs:41-43 | going over the marked queue again hands over nothing |
| Monitor.MarkDictEntries | Recorder.cs:43 | the flag set on a queued record also shows in the dictionary under its key; other keys are unchanged |
| Monitor.MarkDictEffect | Recorder.cs:43 | marking keeps records under their own keys and keeps the queue backed by the dictionary |
| Monitor.RefreshBacksQueue | Recordings.cs:38-113 | after a refresh every queued record is the dictionary's entry under its key, and the queue is duplicate-free |
| Monitor.SpawnedStaysSpawned | Recorder.cs:41-43 | a record whose key was already spawned is never due again after any later refresh |
| Monitor.NeverSpawnedTwice | Recorder.cs:41-43 | a record handed over in one pass is not due in the queue of the next refresh |
| Monitor.PassKeepsSpawnFlags | Recorder.cs:31-53 | over a whole turn of the monitor loop, a flagged key stays flagged while it stays in the map, no record with a flagged key is handed over, and every record handed over is flagged afterwards |
| Monitor.FlagPersists | Recorder.cs:31-53 | a key handed over keeps its flag through every later turn while it stays in the map |
| Monitor.NeverHandedOverAgain | Recorder.cs:31-53 | over any run of turns, a show handed over in one turn is not handed over in a later turn while its key stays in the map |
| Monitor.HandOverDue | Recorder.cs:37-53 | the loop flags the due records in the queue and in the dictionary, and hands over exactly those |
| Monitor.MonitorPass | Recorder.cs:31-53 | a refresh followed by the hand-over; the dictionary still backs the queue, and the spawn flags are kept as `PassKeepsSpawnFlags` states |
| Monitor.FirstLater | Recorder.cs:62-70 | the first check hour later than now, or the end of the list |
| Monitor.NextCheckTime | Recorder.cs:56-78 | the next check: the first later hour today when the current hour is before the last configured hour, else the first hour tomorrow |
| Monitor.NextCheck | Recorder.cs:56-78 | the loop finds the next check time |
| Monitor.NextCheckIsLater | Recorder.cs:56-78 | the next check is a configured hour, today or tomorrow, strictly after now; every hour valid means a check is always found |
| Monitor.NextCheckSortedIsEarliest | Recorder.cs:56-78 | with ascending hours: the earliest later hour today, or else the first hour tomorrow |
| Monitor.UnsortedHoursSkipToday | Recorder.cs:60 | with unsorted hours, the test on the last entry can skip a later hour today |
| Capture.MinutesComponent | Recorder.cs:217 | `TimeSpan.Minutes`: between -59 and 59, with the span's sign; for a span under an hour either way, its whole minutes truncated toward zero |
| Capture.RetryTimeoutCoversTimeLeft | Recorder.cs:246 | a restart's timer, in whole minutes plus one, outlasts the time left and is at most a minute too long |
| Capture.NotesUpdateTheirChannel | Recorder.cs:187-188 | an attempt, an error and a success update their own counters and timestamps and nothing else |
| Capture.NotesTouchOnlyTheirChannel | Recorder.cs:206 | the history of every other channel is unchanged |
| Capture.ScanFindsLastBest | Recorder.cs:272-281 | if some ratio is non-negative, the scan locks the last channel holding the highest ratio; otherwise it changes nothing |
| Capture.NextChannelChoice | Recorder.cs:259-286 | move to the next channel while one is left; then the last best channel, locked; with every ratio negative, the lock is left alone and the index one past the list stands for the exception the log line at Recorder.cs:282 throws |
| Capture.GetNextChannel | Recorder.cs:259-286 | the method computes the failover choice |
| Capture.RetryStep | Recorder.cs:203-246 | one pass of the retry loop: count the failure, rate and switch a short-lived unlocked channel, and restart or crash |
| Capture.RetryStepShape | Recorder.cs:201-247 | a pass adds a segment number and, unless it crashes, restarts on a valid channel with the retry timer |
| Capture.StepSwitchRule | Recorder.cs:205-230 | every failure counts an error; a short-lived unlocked channel gets the ratio minutes / failures and resets the count; otherwise channel, ratios and lock are kept |
| Capture.RetryLoopBounds | Recorder.cs:200-247 | the segment count stays within the retries allowed |
| Capture.RetryLoopRuns | Recorder.cs:201 | every retry began before the target end; the loop stops at the target end or when the retries are used up |
| Capture.RetryLoopAttempts | Recorder.cs:191-246 | one process per segment number, in order |
| Capture.RetryLoopTimers | Recorder.cs:235-246 | each restart's timer is computed from the time left at its start |
| Capture.LockIsPermanent | Recorder.cs:214-227 | once the best channel is locked, neither the channel nor the ratios change again |
| Capture.NoCrashWithMonotoneClock | Recorder.cs:217-282 | if the clock never runs backwards and ratios are non-negative, the failover always finds a channel, so the log line at Recorder.cs:282 never throws |
| Capture.CaptureSessionFacts | Recorder.cs:168-257 | a session's bounds, stop condition, one process per segment, and timers that cover the time left |
| Capture.CaptureNeverCrashesWithMonotoneClock | Recorder.cs:168-257 | a session with a monotone clock ends normally |
| Capture.ClockGoingBackCrashes | Recorder.cs:217-282 | a concrete run whose clock runs backwards makes the ratio negative, the failover finds no channel, and the session crashes where the source throws on the log line at Recorder.cs:282 |
| Capture.RetryPass | Recorder.cs:203-246 | one iteration on the ratio array is one pass |
| Capture.TraceExtends | Recorder.cs:201-247 | the passes taken so far extend by the next pass |
| Capture.TraceReachesLoop | Recorder.cs:201-247 | the loop from the start equals the loop from any state reached by passes |
| Capture.LoopCrashes | Recorder.cs:225-282 | a run ending in a crash (the exception thrown at Recorder.cs:282 while logging a failover that found no channel) is the loop's result |
| Capture.LoopFinishes | Recorder.cs:248-256 | a run that stops normally records a success for the final channel |
| Capture.RetryUntilDone | Recorder.cs:200-256 | the loop over the ratio array computes the session |
| Capture.CaptureStream | Recorder.cs:168-257 | the whole supervisor computes the capture session from its first run to the final success |
| Finalize.CombineKeepsName | Recorder.cs:293 | a combined path is the directory prefix plus the name, and distinct names give distinct paths |
| Finalize.CombineKeepsExtension | Recorder.cs:293 | the combined path ends with the name's extension |
| Finalize.ExtensionsExclude | Recorder.cs:426-434 | a path cannot end in two extensions with different last characters |
| Finalize.Disk.constructor | Recorder.cs:296 | the disk holds the given files |
| Finalize.Disk.Move | Recorder.cs:299 | the source is gone and the destination exists |
| Finalize.Disk.Delete | Recorder.cs:426 | the path is gone and nothing else changes |
| Finalize.Disk.Write | Recorder.cs:419 | the path exists and nothing else changes |
| Finalize.MoveAsideFreesSlot | Recorder.cs:295-300 | after moving aside, the target name is free, an old file survives under the aside name, and no other file changes |
| Finalize.BuildCaptureCmdLineArgs | Recorder.cs:288-307 | the command line with the output path, channel and token substituted; an existing output moved aside |
| Finalize.SegmentPaths | Recorder.cs:381-383 | one path per segment, numbered 0 to `numFiles` |
| Finalize.SegmentPathsDistinct | Recorder.cs:381-386 | segment paths are pairwise distinct, and differ from the joined stream and the movie |
| Finalize.SegmentNamesDiffer | Recorder.cs:383 | different segment numbers give different paths |
| Finalize.SegmentList | Recorder.cs:380-383 | the loop joins the segment paths with the bar separator |
| Finalize.SanitizedHasNoBar | Recordings.cs:93-98 | a sanitised file name never contains the bar character |
| Finalize.SegmentPathHasNoBar | Recorder.cs:383 | a segment path has no bar character when the directory and the name have none |
| Finalize.SegmentListRoundTrip | Recorder.cs:380-390 | splitting the file list at the bar gives back exactly the segment paths |
| Finalize.FixUpEffect | Recorder.cs:359-437 | concatenation when there are several segments, moving an old movie aside, the remux, and deleting the streams once the movie exists |
| Finalize.FixUp | Recorder.cs:359-437 | the method computes the concatenation and remux arguments, the removed files and the new disk |
| Finalize.DeleteStreams | Recorder.cs:421-437 | the input stream is removed, and every segment when there were several |
| Finalize.FixUpIsSafe | Recorder.cs:400-437 | files are removed only after the movie exists; only `.ts` files are removed; an old movie survives aside; a failed remux keeps every file |
| Finalize.FixUpCleansUp | Recorder.cs:376-437 | when the remux writes its output from an existing input, the movie exists and the stream and every segment are gone |
| Finalize.QuotedMuxTemplate | Recorder.cs:411-415 | the documented remux template comes out with video and output substituted and `[FULLFFMPEGPATH]` left as it was |

## Left out

- Authentication, the HTTP call and its JSON parsing (Recorder.cs:128-166): network I/O. The token is a parameter.
- `ExecProcess`, the kill timer and `OnCaptureTimer` (Recorder.cs:309-357) are external processes. Their effect is the end instants `endTimes` and the booleans saying whether concatenation or remuxing wrote its output.
- The remux output is produced only when its input exists.
- `QueueRecording` (Recorder.cs:88-126):
  - it waits for the start time, then runs capture and fix-up in sequence;
  - task spawning, sleeping and log files are left out;
  - `CaptureStream` and `FixUp` are modelled separately.
- Logging, `DumpRecordInfo` and every mail (`Mailer`) are output only.
- Loading `keywords.json` and the schedule feed (Keywords.cs:15-30, Recordings.cs:44-51) is file and network input. The rules and the schedule entries are parameters.
- The parsing done by `GetStartDT`, `GetEndDT` and `GetDuration` (including the configured offset) is outside the core. Schedule entries carry the parsed instants beside the raw strings.
- `Convert.ToInt32` on configuration values is left out. Its parse failure is excluded: hours, the horizon and the retry count are integers.
- The concurrency cap is parsed with `Convert.ToInt16` (Recordings.cs:252), which throws above 32767 or below -32768. The model's `concurrentCaptures` is an unbounded integer, so that failure is not modelled.
- Records.NewRecordInfo: `RecordInfo.cs` is not part of this model. The fresh record's two flags are `false`, which is C#'s default for `bool` fields. Its numbers are `0` and its strings `""` where C# would hold `null`. FillRecord overwrites every one of those strings before use.
- `ChannelInfo.AddUpdateChannel` is not part of this model's sources: only its call at Recordings.cs:70 is. Records.AddUpdateChannel assumes that it updates the entry with the same channel number or appends the channel when none has it.
- Each `DateTime.Now` read within one comparison is one reading `now`. In the capture loop, one reading is taken per process end.
- Enumeration order:
  - `Dictionary.ToArray` and `Values` order is left unspecified. The keyword rules are an ordered sequence.
  - The dictionary's values are any enumeration of it (`IsEnumeration`).
- `hoursRecorded` and `TotalHours` (Recorder.cs:233, 238, 251-252) are floating point and left out. `ChannelHistory.Save` is persistence.
- `qualityRatio` is an integer division stored in a double. It is modelled as that integer.
- `Path.Combine` is modelled for `/` separators and non-rooted names: a rooted name, which would discard the directory, is not modelled.
- `Path.GetRandomFileName` is a parameter. `File.Move` throwing when the aside name already exists is not modelled.
- The NAS relocation at the end of `FixUp` (Recorder.cs:439-451) is not modelled.
- The metadata string built at Recorder.cs:368-373 is never used, so it is left out.
- `CaptureProcessInfo.cs` is not part of this model.
- Capture.CaptureStream:
  - an empty channel list, where the source throws on its first index, ends as a crashed session;
  - the exception thrown inside GetNextChannel is a `crashed` flag on the session rather than an exception;
  - `endTimes` must hold one instant more than the retries allowed.
- Capture.GetNextChannel, Capture.NextChannel: when every ratio is negative, the source throws `IndexOutOfRangeException` at the log line (Recorder.cs:282) and never returns. The model returns the index one past the list instead, as a stand-in for that exception. Its callers turn it into a `crashed` session.
- Capture.RetryPass, Capture.RetryUntilDone: the loop is split into helper methods. This keeps each proof small.
- Monitor.NextCheck: gives the next check as days ahead and an hour, not as a sleep span. An hour outside 0..23, which makes the `DateTime` constructor throw, gives `None`.

## Behaviour of the code worth knowing

The model follows the code in each case:

- **Keyword rows.** The comments at Keywords.cs:39 and Keywords.cs:58 describe looping through all keyword rows to see if there is a match in the list. `CheckForMatchHelper` resets its flag for every row (Keywords.cs:71), so only the last row decides. `Keywords.VerdictVersusAnyRow` gives a rule list where an earlier row matches and the verdict is false.
- **Sort ties.** `SortBasedOnKeywordPos` inserts at the first entry of equal or higher position (Recordings.cs:294), so records of equal position come out in reverse of the order they were met (`Admission.SortByPosReversesTies`). That order is the dictionary's enumeration order.
- **Already-spawned candidates.** Admission queues a candidate that was already spawned like any other (Recordings.cs:190). The spawned flag only affects logging there. The monitor loop's own test keeps such a record from being handed over again (`Monitor.PassKeepsSpawnFlags`, `Monitor.NeverHandedOverAgain`).
- **Unsorted check hours.** The test at Recorder.cs:60 compares the current hour with the last configured hour only, which is the latest hour only when the hours are ascending. With unsorted hours, a later hour today can be skipped (`Monitor.UnsortedHoursSkipToday`).
- **The remux template.** The template in the comment at Recorder.cs:411 starts with `[FULLFFMPEGPATH]`, which `FixUp` never substitutes (`Finalize.QuotedMuxTemplate`).
- **A clock running backwards.** This makes the elapsed minutes negative. When every channel then has a negative ratio, the failover finds no channel and its log line at Recorder.cs:282 throws on the index one past the channel list (`Capture.ClockGoingBackCrashes`). With a monotone clock this cannot happen (`Capture.CaptureNeverCrashesWithMonotoneClock`).
