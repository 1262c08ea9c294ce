# MultiTalk demo: job queue, progress capture and status views in Dafny

This project models the bookkeeping behind the MultiTalk Gradio demo and proves properties of it:

- The job queue manager. It is a class holding a jobs map, a FIFO order of ids, one active job, a
  history of at most 100 finished jobs, and a running average of processing time per job type.
- The progress and log capture. This covers:
  - a hand-written parser for tqdm progress lines and tqdm's time strings;
  - the holder of the current progress and the captured lines, with the callbacks that forward
    progress to the queue;
  - the bounded log buffer;
  - the routing of stdout and stderr lines;
  - the per-job tracker.
- The status panels:
  - the duration text;
  - the colour-coded log view;
  - the queue and progress panels, as structured views rather than HTML;
  - the three refresh getters with their error fallbacks.
- The rewording of exception messages for users.
- The image and audio validation ladders, and the validate-then-raise guard in front of image and
  audio processing.

Modules:
- `Wrappers`: Option and Result.
- `Text`: digits, strip, split and join, ASCII lower-casing, Python's whitespace, and Python's
  `int()`/`float()` on ASCII digits.
- `Seqs`: Python's `list.index`, `list.remove` and slices.
- `Queue`: the queue manager.
- `ProgressParse`: the line and time parsers.
- `ProgressCapture`: the capture classes and the tracker.
- `UiComponents`: the status panels.
- `ErrorMessages`: the rewording of exception messages.
- `InputValidation`: the validation ladders and the guard.

The wall clock, fresh job ids and the timestamp text are parameters (`now`, `jobId`, `stamp`).
Durations, progress and averages are `real`. A file's existence, what the image library reads
from it and what the audio library reads from it are parameters of the validation functions.

## Model

| member | source | states |
|---|---|---|
| `Queue.InitialAverages` | gradio_demo/queue_manager.py:43-46 | the average table starts with exactly the types "single" (120 s) and "multi" (180 s) |
| `Queue.EstimatedDurationFor` | gradio_demo/queue_manager.py:61 | a new job's estimate is the average for its type, or 150 s for a type the table lacks |
| `Queue.SessionOrDefault` | gradio_demo/queue_manager.py:52-53 | a given session is kept; a missing one becomes a "session_" name |
| `Queue.EmaBetween` | gradio_demo/queue_manager.py:177-182 | the new average lies between the old average and the observed duration, and moves 30% of the way towards the duration |
| `Queue.UpdatedAverages` | gradio_demo/queue_manager.py:177-182 | the average update keeps the set of types, changes only the given type, and leaves a type not in the table alone |
| `Queue.EstimateRemainingTime` | gradio_demo/queue_manager.py:165-175 | not started or no progress gives the estimate (150 s if unset); progress of 1 or more gives 0; otherwise the result is non-negative; it is never negative when the estimate is not |
| `Queue.RemainingMidRun` | gradio_demo/queue_manager.py:170-175 | mid-run, the remaining time is elapsed·(1−p)/p |
| `Queue.RemainingShrinksWithProgress` | gradio_demo/queue_manager.py:165-175 | at a fixed time, more progress never gives a longer remaining time |
| `Queue.FinishedRecord` | gradio_demo/queue_manager.py:102-108 | a finished job is completed or failed by the flag, stamped with the completion time, at progress 1 on success and unchanged on failure, with the error message replaced only by a non-empty one; nothing else changes |
| `Queue.WithProgress` | gradio_demo/queue_manager.py:89-94 | a progress update touches only the given job's progress and step; an unknown id changes nothing and creates no job |
| `Queue.QueuedJobs` | gradio_demo/queue_manager.py:132 | the queued jobs are at most as many as the ids in the order, and all are live jobs |
| `Queue.QueuedJobsAllLive` | gradio_demo/queue_manager.py:132 | when every id in the order is live, the queued jobs are those jobs in FIFO order |
| `Queue.QueuedJobsIgnoresAbsent` | gradio_demo/queue_manager.py:132 | a job whose id is not in the order does not appear among the queued jobs |
| `Queue.SumDurationsNonNegative` | gradio_demo/queue_manager.py:142 | a sum of non-negative estimates is non-negative |
| `Queue.QueueWaitIdle` | gradio_demo/queue_manager.py:135-142 | with no active job the wait is the sum of the queued estimates |
| `Queue.QueueWaitAppend` | gradio_demo/queue_manager.py:135-142 | one more queued job adds its own estimate, unless it is the first job, whose term is the active job's remaining time when there is an active job |
| `Queue.QueueWaitNonNegative` | gradio_demo/queue_manager.py:135-147 | the reported wait is never negative |
| `Queue.FilterRecent` | gradio_demo/queue_manager.py:190-193 | the history filter never grows the history |
| `Queue.FilterRecentMembers` | gradio_demo/queue_manager.py:190-193 | the history keeps exactly the entries completed after the cutoff |
| `Queue.ProcessingAfterStart` | gradio_demo/queue_manager.py:77-80 | starting a job adds exactly its id to the processing set |
| `Queue.ProcessingAfterRemove` | gradio_demo/queue_manager.py:125 | deleting a job removes exactly its id from the processing set |
| `Queue.WithProgressKeepsValid` | gradio_demo/queue_manager.py:89-94 | a progress update keeps the queue invariant |
| `Queue.AddKeepsValid` | gradio_demo/queue_manager.py:64-66 | admitting a queued job keeps the queue invariant |
| `Queue.StartKeepsValid` | gradio_demo/queue_manager.py:73-84 | starting a known job keeps the queue invariant |
| `Queue.CompleteKeepsValid` | gradio_demo/queue_manager.py:98-125 | completing a known job keeps the queue invariant |
| `Queue.HistoryKeepsFinished` | gradio_demo/queue_manager.py:116-118 | the history stays at most 100 entries long, and each entry is a finished job with a completion time |
| `Queue.CleanupKeepsValid` | gradio_demo/queue_manager.py:184-204 | in a valid state no live job is completed or failed, so the purge deletes no live job and keeps the invariant |
| `Queue.StaleKeepsUnfinished` | gradio_demo/queue_manager.py:196-199 | a queued or processing job is never chosen for deletion, however old it is |
| `Queue.DropIds` | gradio_demo/queue_manager.py:201-204 | deleting the stale ids leaves the other jobs, keeps every other id in the order and adds none |
| `Queue.AppendPositions` | gradio_demo/queue_manager.py:152-158 | an appended fresh id takes the last position, and earlier ids keep theirs |
| `Queue.AppendQueued` | gradio_demo/queue_manager.py:64-66 | admitting a fresh job appends exactly that job to the queued jobs |
| `Queue.QueueManager.constructor` | gradio_demo/queue_manager.py:35-46 | a new manager has no jobs, an empty order, no active job, an empty history and the initial averages |
| `Queue.QueueManager.AddJob` | gradio_demo/queue_manager.py:48-69 | the job is stored as queued at progress 0 with the type's estimate, and its id is appended to the order; nothing else changes |
| `Queue.QueueManager.StartJob` | gradio_demo/queue_manager.py:71-87 | an unknown id gives false and changes nothing; otherwise the job becomes processing with its start time, becomes the active job, and leaves the order with the other ids in place, whatever status it had before |
| `Queue.QueueManager.UpdateJobProgress` | gradio_demo/queue_manager.py:89-94 | only the named job's progress and step change; an unknown id changes nothing |
| `Queue.QueueManager.UpdateAvgProcessingTime` | gradio_demo/queue_manager.py:177-182 | the table becomes the moving-average update of the old table |
| `Queue.QueueManager.CompleteJob` | gradio_demo/queue_manager.py:96-127 | an unknown id, including a second completion, changes nothing; otherwise the finished record joins the capped history, the job leaves the map, the active marker clears only if it named this job, the average moves only on success with a start time, and the order is untouched |
| `Queue.QueueManager.ActiveJobInfo` | gradio_demo/queue_manager.py:133 | the active job's record when the marker names a live job |
| `Queue.QueueManager.GetQueueStatus` | gradio_demo/queue_manager.py:129-150 | the length counts only live queued jobs; the list holds the first 5 of them in FIFO order; the wait is the queue-wait function of the queued jobs and the active job; the averages are copied |
| `Queue.QueueManager.GetJobPosition` | gradio_demo/queue_manager.py:152-158 | the 1-based position of the first occurrence of the id in the order, or none when absent; it reads the order alone, so an id a completion left in the order still has a position |
| `Queue.QueueManager.GetJobInfo` | gradio_demo/queue_manager.py:160-163 | the job's record exactly when the id is live |
| `Queue.QueueManager.CleanupOldJobs` | gradio_demo/queue_manager.py:184-204 | the history keeps the entries completed after the cutoff; the deleted jobs are exactly the stale finished ones; the order only loses ids; in a valid state no live job is deleted |
| `Queue.SingleJobAverageScenario` | gradio_demo/queue_manager.py:110-113 | a single job that runs 100 s moves the "single" average from 120 to 114 |
| `ProgressParse.ParseTqdmLine` | gradio_demo/progress_capture.py:56-90 | a parse keeps the stripped line as the description, never sets the rate, and gives non-negative numbers |
| `ProgressParse.ParseNoneIff` | gradio_demo/progress_capture.py:56-90 | parsing fails exactly when the line has no run of digits directly followed by '%' (a blank line has none) |
| `ProgressParse.PercentRunSurvivesStrip` | gradio_demo/progress_capture.py:58 | stripping neither creates nor destroys a digits-then-'%' run |
| `ProgressParse.FallbackHasNoSteps` | gradio_demo/progress_capture.py:82-88 | a line without a bar parses to the percentage alone: no steps, no ETA, no elapsed time |
| `ProgressParse.SearchPercent` | gradio_demo/progress_capture.py:82-84 | the fallback pattern finds a non-empty digit run exactly when the line has a digits-then-'%' run |
| `ProgressParse.SearchPercentFirst` | gradio_demo/progress_capture.py:82-84 | the fallback takes the digits before the first '%' that follows a digit |
| `ProgressParse.MatchRich` | gradio_demo/progress_capture.py:40-42 | a rich match anchored at the start gives non-empty digit groups for percentage, current and total steps |
| `ProgressParse.SearchRich` | gradio_demo/progress_capture.py:63 | a rich match anywhere in the line gives non-empty digit groups, and the line has a bar and a digits-then-'%' run |
| `ProgressParse.SplitTimingOf` | gradio_demo/progress_capture.py:41 | the bracket "elapsed<eta,rate" splits back into its elapsed and ETA parts |
| `ProgressParse.SplitEtaOf` | gradio_demo/progress_capture.py:41 | the ETA is the text before the comma that starts the rate |
| `ProgressParse.ParseWellFormedLine` | gradio_demo/progress_capture.py:63-79 | a line built from tqdm's fields parses back to those fields: percentage, steps, ETA, the line itself, and the elapsed time through the time parser |
| `ProgressParse.ParseExampleLine` | gradio_demo/progress_capture.py:63-79 | "45%\|███ \| 12/30 [00:12<00:18, 2.50it/s]" gives 45, 12, 30, ETA "00:18", elapsed 12 and no rate |
| `ProgressParse.ParseTimeMinutesSeconds` | gradio_demo/progress_capture.py:95-98 | "M:S" is 60·M+S |
| `ProgressParse.ParseTimeHoursMinutesSeconds` | gradio_demo/progress_capture.py:95-100 | "H:M:S" is 3600·H+60·M+S |
| `ProgressParse.ParseTimeSeconds` | gradio_demo/progress_capture.py:101 | a plain number, with or without a trailing 's', is its own value |
| `ProgressParse.ParseTimeTooManyParts` | gradio_demo/progress_capture.py:95-103 | more than three colon-separated parts falls through to the numeric parse, which fails, giving 0 |
| `ProgressCapture.StampAll` | gradio_demo/progress_capture.py:152-153 | stamping keeps the number of lines |
| `ProgressCapture.StampAllAt` | gradio_demo/progress_capture.py:152-153 | each stamped line is the stamp prefix followed by the original line |
| `ProgressCapture.ApplyCallbacks` | gradio_demo/progress_capture.py:113-118 | running the callbacks never adds or removes a job |
| `ProgressCapture.ApplyCallbacksUntouched` | gradio_demo/progress_capture.py:264-272 | a job with no registered forwarder is not changed |
| `ProgressCapture.ApplyCallbacksForwards` | gradio_demo/progress_capture.py:264-272 | a job with a registered forwarder gets the percentage divided by 100 and the description |
| `ProgressCapture.ApplyCallbacksKeepsValid` | gradio_demo/progress_capture.py:264-270 | forwarding progress keeps the queue invariant |
| `ProgressCapture.LogAllIsLastN` | gradio_demo/progress_capture.py:150-158 | logging a run of lines one by one leaves the last max-lines of the old and new lines |
| `ProgressCapture.ParsableIsCandidate` | gradio_demo/progress_capture.py:235 | every line the parser accepts passes the indicator test |
| `ProgressCapture.PercentRunIsCandidate` | gradio_demo/progress_capture.py:235 | a line with a '%' passes the indicator test |
| `ProgressCapture.RouteStdoutKeepsValid` | gradio_demo/progress_capture.py:228-238 | routing stdout keeps the queue invariant |
| `ProgressCapture.LogRouted` | gradio_demo/progress_capture.py:232-238 | what stdout routing logs is non-blank and never passes the indicator test |
| `ProgressCapture.ParsedRoutedParse` | gradio_demo/progress_capture.py:235-236 | the lines that reach the progress holder are indicator lines that parse; an indicator line that fails to parse is dropped |
| `ProgressCapture.RouteStdoutLogs` | gradio_demo/progress_capture.py:228-238 | the log after routing is the last max-lines of the old log and the stamped non-indicator lines |
| `ProgressCapture.RouteStdoutCaptured` | gradio_demo/progress_capture.py:105-111 | the captured output grows by exactly one stamped line per parsable indicator line, with no bound on its length |
| `ProgressCapture.ParsedProgressOfLines` | gradio_demo/progress_capture.py:107-110 | each parsed progress record is the parse of the corresponding routed line |
| `ProgressCapture.RouteStdoutCurrentKept` | gradio_demo/progress_capture.py:105-110 | with no parsable line, the current progress is unchanged |
| `ProgressCapture.RouteStdoutCurrentLast` | gradio_demo/progress_capture.py:105-110 | otherwise the current progress is the parse of the last parsable line |
| `ProgressCapture.RouteStdoutKeys` | gradio_demo/progress_capture.py:228-238 | routing never adds or removes a job |
| `ProgressCapture.StderrEntries` | gradio_demo/progress_capture.py:240-246 | stderr yields at most one entry per line |
| `ProgressCapture.StderrEntriesTagged` | gradio_demo/progress_capture.py:246 | every stderr entry starts with "[STDERR] " and holds a non-blank line |
| `ProgressCapture.TqdmCapture.constructor` | gradio_demo/progress_capture.py:33-37 | a new holder has no output, the default progress and no callbacks |
| `ProgressCapture.TqdmCapture.AddCallback` | gradio_demo/progress_capture.py:45-48 | the callback is appended and nothing else changes |
| `ProgressCapture.TqdmCapture.RemoveCallback` | gradio_demo/progress_capture.py:50-54 | the first occurrence is removed, if any, and nothing else changes |
| `ProgressCapture.TqdmCapture.UpdateProgress` | gradio_demo/progress_capture.py:105-118 | a parsable line becomes the current progress, adds exactly one stamped captured line and runs every callback in order; an unparsable line changes nothing |
| `ProgressCapture.TqdmCapture.NotifyCallbacks` | gradio_demo/progress_capture.py:113-118 | the queue's jobs become the callbacks applied in registration order; the rest of the queue is untouched |
| `ProgressCapture.TqdmCapture.RecentOutput` | gradio_demo/progress_capture.py:125-128 | the last max-lines captured lines, in order |
| `ProgressCapture.TqdmCapture.ClearOutput` | gradio_demo/progress_capture.py:130-134 | output and progress are reset; the callbacks are kept |
| `ProgressCapture.LogCapture.constructor` | gradio_demo/progress_capture.py:139-143 | an empty buffer with the given bound |
| `ProgressCapture.LogCapture.AddLogLine` | gradio_demo/progress_capture.py:150-158 | the stamped line is appended and the oldest dropped beyond the bound, so the buffer never exceeds the bound |
| `ProgressCapture.LogCapture.RecentLogs` | gradio_demo/progress_capture.py:167-172 | none gives every line; n > 0 gives the last n lines in order |
| `ProgressCapture.LogCapture.ClearLogs` | gradio_demo/progress_capture.py:174-177 | the buffer becomes empty |
| `ProgressCapture.StreamCapture.constructor` | gradio_demo/progress_capture.py:182-188 | the stream processors share the tracker's holder and log buffer |
| `ProgressCapture.StreamCapture.ProcessStdout` | gradio_demo/progress_capture.py:228-238 | holder, log and jobs end as the line-by-line routing of the split text; the bound holds and the queue's order, marker, history and averages are untouched |
| `ProgressCapture.StreamCapture.ProcessStderr` | gradio_demo/progress_capture.py:240-246 | the log receives the tagged, stamped non-blank lines in order, within its bound |
| `ProgressCapture.ProgressTracker.constructor` | gradio_demo/progress_capture.py:251-255 | no active job, empty buffers, a log bound of 100 |
| `ProgressCapture.ProgressTracker.StartJobTracking` | gradio_demo/progress_capture.py:257-274 | the job becomes active, output, progress and logs are emptied, and one more forwarder is registered with the earlier ones kept |
| `ProgressCapture.ProgressTracker.JobProgressInfo` | gradio_demo/progress_capture.py:282-302 | inactive exactly for ids other than the active one; otherwise the current progress without its rate, the last 20 log lines and the last 10 captured lines |
| `ProgressCapture.TrackThenQuery` | gradio_demo/progress_capture.py:257-302 | right after tracking starts, the job is active with no progress, logs or output, and any other id is inactive |
| `UiComponents.DurationParts` | gradio_demo/ui_components.py:14-25 | the three forms are chosen exactly by the thresholds 60 and 3600 |
| `UiComponents.DurationPartsMeaning` | gradio_demo/ui_components.py:16-25 | below a minute, the whole seconds; below an hour, minutes and seconds that recompose the whole seconds; from an hour on, hours and minutes, with seconds dropped |
| `UiComponents.FormatDuration` | gradio_demo/ui_components.py:14-25 | the text ends in 's' below an hour and in 'm' from an hour on |
| `UiComponents.ReadFormatDuration` | gradio_demo/ui_components.py:17-25 | the text reads back to the numbers it shows ("Ns", "Mm Ss", "Hh Mm") |
| `UiComponents.ClassifyFirstMatch` | gradio_demo/ui_components.py:143-152 | a line is an error iff it holds ERROR, a warning iff WARNING and not ERROR, info iff INFO and neither earlier word, progress iff '%' and none of the words, plain otherwise |
| `UiComponents.DecorateKeeps` | gradio_demo/ui_components.py:143-152 | only plain lines are left unchanged, and decoration adds no line break |
| `UiComponents.FormatLogLineKeeps` | gradio_demo/ui_components.py:143-152 | a line is shown unchanged iff it is plain |
| `UiComponents.FormatAllAt` | gradio_demo/ui_components.py:141-152 | the i-th shown line is the i-th kept line, coloured |
| `UiComponents.ShownLines` | gradio_demo/ui_components.py:141 | min(20, n) lines are shown: the last ones, in order |
| `UiComponents.LogDisplayLines` | gradio_demo/ui_components.py:140-154 | the view splits back on '\n' into exactly the shown, coloured lines |
| `UiComponents.CreateLogDisplay` | gradio_demo/ui_components.py:134-154 | the loop builds the log view: "No recent activity" for no lines, otherwise the coloured last 20 joined by '\n' |
| `UiComponents.TitleChangesOnlyCase` | gradio_demo/ui_components.py:51 | title-casing the job type changes only letter case |
| `UiComponents.TwoDigits` | gradio_demo/ui_components.py:74 | a clock field is two digits that read back as the number |
| `UiComponents.ClockText` | gradio_demo/ui_components.py:74 | the HH:MM:SS text has its colons in place |
| `UiComponents.ClockTextRoundTrip` | gradio_demo/ui_components.py:74 | the HH:MM:SS text reads back as the seconds of the day |
| `UiComponents.NextJobEntries` | gradio_demo/ui_components.py:73-75 | one entry per listed job |
| `UiComponents.QueuePanelOf` | gradio_demo/ui_components.py:27-79 | with line 74 corrected, the idle panel is produced exactly when the queue is empty and nothing is active |
| `UiComponents.QueuePanelActiveFirst` | gradio_demo/ui_components.py:43-58 | a busy panel opens with the processing section exactly when a job is active |
| `UiComponents.QueuePanelNextJobs` | gradio_demo/ui_components.py:61-76 | the panel ends with a "Next Jobs" list exactly when jobs are queued and some are listed; the list shows the first min(3, n) listed jobs in order |
| `UiComponents.ProcessingPercentInRange` | gradio_demo/ui_components.py:45 | the shown percentage is 0 to 100 for progress in [0, 1] |
| `UiComponents.ListNextJobs` | gradio_demo/ui_components.py:73-75 | the loop builds exactly the next-jobs entries |
| `UiComponents.CreateQueueStatusHtml` | gradio_demo/ui_components.py:27-79 | with line 74 corrected, the builder produces exactly the queue panel of the status |
| `UiComponents.QueueViewOf` | gradio_demo/ui_components.py:156-167 | the getter shows the error view exactly when building fails, with the failure's message |
| `UiComponents.QueueViewAsWrittenFails` | gradio_demo/ui_components.py:74 | as written, the queue getter shows the error view exactly when jobs are queued and listed |
| `UiComponents.QueueViewCorrected` | gradio_demo/ui_components.py:156-167 | with the timestamp read as a time, the queue getter always shows a panel, idle exactly when nothing is queued or active |
| `UiComponents.OneQueuedJob` | gradio_demo/ui_components.py:74 | one queued job: the panel as written is the error view, the corrected one lists the job |
| `UiComponents.ProgressPanelOf` | gradio_demo/ui_components.py:81-132 | "No active job" exactly when inactive; otherwise the percentage, the step line only when both step counts are non-zero, the description only when non-empty, the timing only with an ETA |
| `UiComponents.BarePercentageShowsNoSteps` | gradio_demo/ui_components.py:109-114 | progress from a bare percentage line never shows a step line or timing |
| `UiComponents.GetProgressStatus` | gradio_demo/ui_components.py:169-190 | live progress exactly when the given id, or else the active job's id, is the tracked one; the shown percentage is the tracker's |
| `UiComponents.GetLiveLogs` | gradio_demo/ui_components.py:192-210 | the log view of the tracked job when the given id or the active job is tracked, "No active job logs" otherwise |
| `UiComponents.StaleIdGettersDiffer` | gradio_demo/ui_components.py:169-206 | for a given id that is not tracked, the progress getter shows no active job while the log getter falls back to the active job's logs |
| `UiComponents.UpdateStatusComponents` | gradio_demo/ui_components.py:240-245 | the refresh returns the three getters' views, each computed on its own; the queue view is the getter as written, so it is the error view exactly when a job is queued and the corrected panel otherwise |
| `UiComponents.QueueFailureLeavesOthers` | gradio_demo/ui_components.py:240-245 | a failing queue panel does not blank the progress panel or the logs |
| `UiComponents.NextJobsAreFirstQueued` | gradio_demo/ui_components.py:71-75 | the next jobs shown are the first queued jobs, at most 3 |
| `ErrorMessages.FormatErrorMessage` | gradio_demo/utils.py:23-39 | fixed texts for out-of-memory, missing files and missing modules; the prefixes "Audio processing error: ", "Image processing error: " and "Error: " before the original message otherwise |
| `ErrorMessages.FirstFiringIsLeast` | gradio_demo/utils.py:28-39 | a priority chain yields the kind of the earliest matching rule, and the generic kind when none matches |
| `ErrorMessages.CategorizeFollowsRules` | gradio_demo/utils.py:28-39 | the if/elif chain is the rule table read in order |
| `ErrorMessages.CategorizeFirstMatch` | gradio_demo/utils.py:28-39 | out of memory wins whatever else the message holds; missing files are reported iff no out-of-memory text is present; the generic text iff no rule matches |
| `ErrorMessages.FirstFiringGeneric` | gradio_demo/utils.py:38-39 | the fallback is taken exactly when no test passes |
| `ErrorMessages.OriginalRecoverable` | gradio_demo/utils.py:34-39 | the audio, image and generic texts keep the original message after their prefix |
| `ErrorMessages.FixedTextsForget` | gradio_demo/utils.py:28-33 | two messages of the same fixed kind display the same text |
| `InputValidation.LastIndexOf` | gradio_demo/input_processor.py:37 | the last occurrence of a character, or none exactly when it is absent |
| `InputValidation.FinalComponent` | gradio_demo/input_processor.py:37 | the path's last component has no '/' and ends the path |
| `InputValidation.SuffixShape` | gradio_demo/input_processor.py:37 | a suffix is empty or a '.' followed by at least one character with no '.' or '/' |
| `InputValidation.SuffixOfName` | gradio_demo/input_processor.py:37 | "dir/stem.ext" has the suffix ".ext" |
| `InputValidation.PictureVerdictIff` | gradio_demo/input_processor.py:45-58 | an opened image is valid iff each side is 64 to 2048 and it converts; the size-too-large message comes first |
| `InputValidation.ImageVerdictIff` | gradio_demo/input_processor.py:32-58 | valid iff present, the extension is listed and the picture passes; a missing file or unlisted extension is decided without opening the file |
| `InputValidation.ImageValidIff` | gradio_demo/input_processor.py:22-58 | validate_image accepts iff the file exists, its lower-cased suffix is .jpg/.jpeg/.png/.bmp/.tiff/.webp, it opens with both sides in 64..2048 and it converts |
| `InputValidation.ImageFormatIgnoresCase` | gradio_demo/input_processor.py:37-38 | extensions differing only in case get the same verdict |
| `InputValidation.PeakIsMaximum` | gradio_demo/input_processor.py:97 | the peak is the largest absolute sample |
| `InputValidation.SilentIffAllQuiet` | gradio_demo/input_processor.py:97 | silence means every sample is below 1e-6 in absolute value |
| `InputValidation.Duration` | gradio_demo/input_processor.py:89 | the duration is samples/rate, and a zero rate fails with division by zero |
| `InputValidation.EmptyIsShort` | gradio_demo/input_processor.py:93-97 | a recording long enough to pass the length checks is not empty |
| `InputValidation.RecordingVerdictIff` | gradio_demo/input_processor.py:84-103 | loaded audio is valid iff the rate is non-zero, the length is 0.5 to 60 s and some sample reaches 1e-6; a zero rate is reported as an invalid file |
| `InputValidation.AudioLengthBeforeSilence` | gradio_demo/input_processor.py:90-98 | over-long audio is reported as too long even when silent |
| `InputValidation.AudioVerdictIff` | gradio_demo/input_processor.py:74-103 | valid iff present, the extension is listed and the recording passes; the first two checks are decided without loading |
| `InputValidation.AudioValidIff` | gradio_demo/input_processor.py:64-103 | validate_audio accepts iff the file exists, its lower-cased suffix is .wav/.mp3/.m4a/.flac/.aac/.ogg and the recording passes |
| `InputValidation.GuardKeepsMessage` | gradio_demo/input_processor.py:144-146 | the guard raises iff validation failed, and the raised text is the kind's "processing failed: " prefix followed by the validation message |
| `InputValidation.ProcessImageGuard` | gradio_demo/input_processor.py:119-146 | process_image raises before any processing iff validate_image rejects, carrying its message |
| `InputValidation.ProcessAudioGuard` | gradio_demo/input_processor.py:158-193 | process_single_audio raises before any processing iff validate_audio rejects, carrying its message |
| `Seqs.IndexOf` | gradio_demo/queue_manager.py:156 | the first occurrence, or none exactly when absent |
| `Seqs.RemoveFirst` | gradio_demo/queue_manager.py:83-84 | list.remove: drops the first occurrence and keeps the rest in order |
| `Seqs.RemoveFirstKeepsOthers` | gradio_demo/queue_manager.py:83-84 | removal keeps every other element and shortens the list by one when the element was present |
| `Seqs.PyTail` | gradio_demo/progress_capture.py:125-128 | the slice [-n:] is the last n elements (all of them for n = 0) |
| `Seqs.AppendEvictBounded` | gradio_demo/progress_capture.py:156-158 | appending with eviction keeps the bound and ends with the new element |
| `Text.Strip` | gradio_demo/progress_capture.py:232 | the stripped text has no surrounding whitespace, whitespace being every character `str.isspace()` accepts |
| `Text.StripIdempotent` | gradio_demo/progress_capture.py:58 | stripping twice is stripping once |
| `Text.JoinSplit` | gradio_demo/progress_capture.py:230 | joining the split parts gives back the text |
| `Text.SplitJoin` | gradio_demo/ui_components.py:154 | splitting the joined lines gives back the lines when none holds the separator |
| `Text.ParseIntToString` | gradio_demo/progress_capture.py:98-100 | int() reads back any printed integer |

## Left out

- HTML and CSS markup. The panels are modelled as the sections and values they show. The `.1f`
  formatting of the percentage is not modelled.
- The wall clock, `uuid` ids and `strftime` stamps. `now`, the job id and the stamp text are
  parameters. An id that collides with a live one overwrites it as in the source; the position
  properties assume a fresh id.
- Thread locks and concurrency. Every method is atomic.
- The regular-expression engine. Both patterns have a hand-written parser, with the greedy
  groups resolved as the engine resolves them on these patterns.
- Python's set iteration order in the "Supported formats" listing. The listing is a parameter
  that must list the format set once each.
- The stdout/stderr swap, `CaptureStream` and its `write`/`flush`/attribute forwarding.
- `LogCapture.add_callback` and the log callbacks: nothing registers one.
- `EnhancedProgressTracker.add_job_callback`: the callbacks it stores are never called.
- `get_current_progress`, the `{"active": False}` dictionary form and other dictionary shapes.
  Records are datatypes.
- The exception fallback of `get_progress_status` and `get_live_logs`. These fallbacks cannot be
  reached in the model, so the model has no failing path for them. The queue getter's fallback is
  modelled, because the finding below reaches it.
- The outer `except` of both validators ("Image validation failed", "Audio validation failed").
  They wrap errors in existence and suffix checks that the model treats as total.
- Image and audio decoding and conversion. What PIL and librosa return, or the error text they
  raise, is a parameter.
- The processing after the guard: resizing, loudness normalisation and file writes.
- `cleanup` and `__del__`.
- `pathlib` path normalisation. The suffix is taken from the text after the last '/'. Trailing
  slashes and "." components are not normalised.
- Unicode case mapping. `lower()` and `title()` map ASCII letters only.
- ProgressParse.ParseNoneIff: digits are ASCII only; `\d`, `int()` and `float()` also accept the other Unicode decimal digits, so a line whose percentage is written in such digits parses in the program but not in the model. The same holds for every parser built on `Text.IsDigit`.
- Python's `int()` and `float()`. Only unsigned, signed and decimal forms are modelled; no
  underscores, exponents, "inf" or "nan".
- IEEE floating point. Durations, progress and averages are exact reals, so NaN and rounding are
  absent.
- `JobInfo.estimated_duration` as `None`. `add_job` always sets it, and an estimate of 0 falls
  back to 150 s as `or 150.0` does.
- `Queue.DropIds`: does not state that the order keeps its relative order after deletions, only
  which ids remain.
- `Queue.QueueManager.UpdateJobProgress`: does not state that the queue invariant is preserved.
  `Queue.WithProgressKeepsValid` states it about the same update.
- `Queue.QueueManager.CleanupOldJobs`: for a state that breaks the invariant, states only that
  every remaining id was in the old order.
- `UiComponents.FormatDuration`: negative durations are truncated toward zero as `int()` does. No
  property is stated for them beyond the branch taken.

## Findings

| source | as written | input that shows it | evidently intended | confidence | as-written member | corrected member |
|---|---|---|---|---|---|---|
| gradio_demo/ui_components.py:74 | `job["created_at"].replace('Z', '+00:00')` is called on a `datetime` (`asdict` keeps it one), which raises a `TypeError`, so the queue panel turns into its error view | one job queued, listed in `queue_jobs` | read the creation time and show it as HH:MM:SS in the "Next Jobs" list | not executed | `UiComponents.QueueViewAsWrittenFails` | `UiComponents.QueueViewCorrected` |
