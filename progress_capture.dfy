/** Capture of progress output: the tqdm holder, the bounded log buffer, the per-line router for
    stdout and stderr, and the tracker that resets them per job and reports on the active job. */
module ProgressCapture {
  import opened Wrappers
  import opened Text
  import opened Seqs
  import opened ProgressParse
  import opened Queue

  /** The only progress callback the tracker registers: forward the percentage (as a fraction)
      and the line to the queue's record of this job. */
  datatype Callback = ForwardToQueue(jobId: string)

  /** The progress fields the tracker reports (the rate is not reported). */
  datatype ProgressSummary = ProgressSummary(
    percentage: real,
    currentStep: int,
    totalSteps: int,
    eta: Option<string>,
    description: string,
    elapsedTime: real)

  /** get_job_progress_info: {"active": False}, or the progress with recent logs and output. */
  datatype JobProgressView =
    | Inactive
    | Active(progress: ProgressSummary, recentLogs: seq<string>, tqdmOutput: seq<string>)

  /** "[HH:MM:SS] line"; the clock reading is passed in as `stamp`. */
  function Stamped(stamp: string, line: string): string {
    "[" + stamp + "] " + line
  }

  /** Each line stamped, in order. */
  function StampAll(stamp: string, lines: seq<string>): (r: seq<string>)
    ensures |r| == |lines|
  {
    if lines == [] then [] else StampAll(stamp, lines[..|lines| - 1]) + [Stamped(stamp, lines[|lines| - 1])]
  }

  lemma StampAllSnoc(stamp: string, lines: seq<string>, x: string)
    ensures StampAll(stamp, lines + [x]) == StampAll(stamp, lines) + [Stamped(stamp, x)]
  {
    assert (lines + [x])[..|lines|] == lines;
  }

  /** The i-th stamped line is the i-th line, stamped. */
  lemma {:induction false} StampAllAt(stamp: string, lines: seq<string>, i: nat)
    requires i < |lines|
    ensures StampAll(stamp, lines)[i] == Stamped(stamp, lines[i])
  {
    if i < |lines| - 1 {
      StampAllAt(stamp, lines[..|lines| - 1], i);
    }
  }

  /** The effect of one callback run per registered callback, in registration order. */
  function ApplyCallbacks(jobs: map<string, JobInfo>, callbacks: seq<Callback>, p: ProgressInfo)
    : (r: map<string, JobInfo>)
    ensures r.Keys == jobs.Keys
  {
    if callbacks == [] then jobs
    else
      var prev := ApplyCallbacks(jobs, callbacks[..|callbacks| - 1], p);
      var cb := callbacks[|callbacks| - 1];
      WithProgress(prev, cb.jobId, p.percentage / 100.0, p.description)
  }

  lemma ApplyCallbacksSnoc(jobs: map<string, JobInfo>, callbacks: seq<Callback>, i: nat, p: ProgressInfo)
    requires i < |callbacks|
    ensures ApplyCallbacks(jobs, callbacks[..i + 1], p)
         == WithProgress(ApplyCallbacks(jobs, callbacks[..i], p), callbacks[i].jobId, p.percentage / 100.0, p.description)
  {
    assert callbacks[..i + 1][..i] == callbacks[..i];
  }

  /** A job without a callback keeps its record. */
  lemma {:induction false} ApplyCallbacksUntouched(jobs: map<string, JobInfo>, callbacks: seq<Callback>,
                                                   p: ProgressInfo, id: string)
    requires id in jobs && ForwardToQueue(id) !in callbacks
    ensures ApplyCallbacks(jobs, callbacks, p)[id] == jobs[id]
  {
    if callbacks != [] {
      var prefix := callbacks[..|callbacks| - 1];
      assert ForwardToQueue(id) !in prefix by {
        forall i | 0 <= i < |prefix|
          ensures prefix[i] != ForwardToQueue(id)
        {
          assert prefix[i] == callbacks[i];
        }
      }
      ApplyCallbacksUntouched(jobs, prefix, p, id);
    }
  }

  /** A job whose id has a callback ends with the fraction and line of the parsed progress. */
  lemma {:induction false} ApplyCallbacksForwards(jobs: map<string, JobInfo>, callbacks: seq<Callback>,
                                                  p: ProgressInfo, id: string)
    requires id in jobs && ForwardToQueue(id) in callbacks
    ensures ApplyCallbacks(jobs, callbacks, p)[id]
         == jobs[id].(progress := p.percentage / 100.0, currentStep := p.description)
  {
    var prefix := callbacks[..|callbacks| - 1];
    var prev := ApplyCallbacks(jobs, prefix, p);
    if callbacks[|callbacks| - 1] != ForwardToQueue(id) {
      assert ForwardToQueue(id) in prefix;
      ApplyCallbacksForwards(jobs, prefix, p, id);
    } else if ForwardToQueue(id) in prefix {
      ApplyCallbacksForwards(jobs, prefix, p, id);
      assert prev[id] == jobs[id].(progress := p.percentage / 100.0, currentStep := p.description);
    } else {
      ApplyCallbacksUntouched(jobs, prefix, p, id);
      assert prev[id] == jobs[id];
    }
  }

  /** Appends each line to a buffer kept by AppendEvict, in order. */
  function LogAll(logs: seq<string>, lines: seq<string>, maxLines: nat): seq<string> {
    if lines == [] then logs
    else AppendEvict(LogAll(logs, lines[..|lines| - 1], maxLines), lines[|lines| - 1], maxLines)
  }

  lemma LastNOfLastN(a: seq<string>, x: string, m: nat)
    ensures LastN(LastN(a, m) + [x], m) == LastN(a + [x], m)
  {
    if m < |a| {
      var t := a[|a| - m..];
      assert (a + [x])[|a| + 1 - m..] == (t + [x])[1..];
    }
  }

  /** The log buffer is always the last maxLines of everything ever logged into it. */
  lemma {:induction false} LogAllIsLastN(logs: seq<string>, lines: seq<string>, maxLines: nat)
    requires |logs| <= maxLines
    ensures LogAll(logs, lines, maxLines) == LastN(logs + lines, maxLines)
    ensures |LogAll(logs, lines, maxLines)| <= maxLines
  {
    if lines == [] {
      assert logs + lines == logs;
    } else {
      var init := lines[..|lines| - 1];
      var x := lines[|lines| - 1];
      LogAllIsLastN(logs, init, maxLines);
      var prev := LogAll(logs, init, maxLines);
      assert LogAll(logs, lines, maxLines) == LastN(prev + [x], maxLines);
      assert LastN(prev + [x], maxLines) == LastN(logs + lines, maxLines) by {
        LastNOfLastN(logs + init, x, maxLines);
        assert logs + init + [x] == logs + lines;
      }
    }
  }

  /** Forwarding progress keeps the queue's invariant: it changes no id, status or start time. */
  lemma ApplyCallbacksKeepsValid(jobs: map<string, JobInfo>, callbacks: seq<Callback>,
                                 p: ProgressInfo, queueOrder: seq<string>,
                                 activeJob: Option<string>, jobHistory: seq<JobInfo>)
    requires ValidState(jobs, queueOrder, activeJob, jobHistory)
    ensures ValidState(ApplyCallbacks(jobs, callbacks, p), queueOrder, activeJob, jobHistory)
  {
    var r := ApplyCallbacks(jobs, callbacks, p);
    forall id | id in jobs
      ensures r[id].jobId == jobs[id].jobId && r[id].status == jobs[id].status
      ensures r[id].startedAt == jobs[id].startedAt
    {
      if ForwardToQueue(id) in callbacks {
        ApplyCallbacksForwards(jobs, callbacks, p, id);
      } else {
        ApplyCallbacksUntouched(jobs, callbacks, p, id);
      }
    }
  }

  /** The stdout routing test: the lower-cased line mentions '%', "it/s", "step" or "epoch". */
  predicate IsProgressCandidate(line: string) {
    var low := Lower(line);
    Contains(low, "%") || Contains(low, "it/s") || Contains(low, "step") || Contains(low, "epoch")
  }

  /** Every line the parser accepts is routed to progress, never to the log. */
  lemma ParsableIsCandidate(line: string)
    requires ParseTqdmLine(line).Some?
    ensures IsProgressCandidate(line)
  {
    ParseNoneIff(line);
    PercentRunIsCandidate(line);
  }

  lemma PercentRunIsCandidate(line: string)
    requires HasPercentRun(line)
    ensures IsProgressCandidate(line)
  {
    var k :| 1 <= k < |line| && IsDigit(line[k - 1]) && line[k] == '%';
    LowerAt(line, k);
    ContainsChar(Lower(line), '%');
  }

  /** The state the capture classes and the queue hold, as one value. */
  datatype Buffers = Buffers(captured: seq<string>, current: ProgressInfo, logs: seq<string>,
                             jobs: map<string, JobInfo>)

  /** update_progress on a value: an unparsable line changes nothing. */
  function TqdmStep(b: Buffers, line: string, stamp: string, callbacks: seq<Callback>): Buffers {
    match ParseTqdmLine(line)
    case None => b
    case Some(p) =>
      b.(captured := b.captured + [Stamped(stamp, line)], current := p,
         jobs := ApplyCallbacks(b.jobs, callbacks, p))
  }

  /** One stdout line: blank lines are dropped, candidates go to progress, the rest to the log. */
  function StdoutStep(b: Buffers, raw: string, stamp: string, callbacks: seq<Callback>, maxLines: nat)
    : Buffers
  {
    var line := Strip(raw);
    if line == [] then b
    else if IsProgressCandidate(line) then TqdmStep(b, line, stamp, callbacks)
    else b.(logs := AppendEvict(b.logs, Stamped(stamp, line), maxLines))
  }

  /** _process_stdout on a value, over the lines of the text in order. */
  function RouteStdout(b: Buffers, lines: seq<string>, stamp: string, callbacks: seq<Callback>, maxLines: nat)
    : Buffers
  {
    if lines == [] then b
    else StdoutStep(RouteStdout(b, lines[..|lines| - 1], stamp, callbacks, maxLines),
                    lines[|lines| - 1], stamp, callbacks, maxLines)
  }

  lemma RouteStdoutSnoc(b: Buffers, lines: seq<string>, i: nat, stamp: string, callbacks: seq<Callback>,
                        maxLines: nat)
    requires i < |lines|
    ensures RouteStdout(b, lines[..i + 1], stamp, callbacks, maxLines)
         == StdoutStep(RouteStdout(b, lines[..i], stamp, callbacks, maxLines), lines[i], stamp, callbacks, maxLines)
  {
    assert lines[..i + 1][..i] == lines[..i];
  }

  /** Routing keeps the queue's invariant: progress reports never add, remove or re-key a job. */
  lemma {:induction false} RouteStdoutKeepsValid(b: Buffers, lines: seq<string>, stamp: string,
                                                 callbacks: seq<Callback>, maxLines: nat,
                                                 queueOrder: seq<string>, activeJob: Option<string>,
                                                 jobHistory: seq<JobInfo>)
    requires ValidState(b.jobs, queueOrder, activeJob, jobHistory)
    ensures ValidState(RouteStdout(b, lines, stamp, callbacks, maxLines).jobs, queueOrder, activeJob, jobHistory)
  {
    if lines != [] {
      var prev := RouteStdout(b, lines[..|lines| - 1], stamp, callbacks, maxLines);
      RouteStdoutKeepsValid(b, lines[..|lines| - 1], stamp, callbacks, maxLines, queueOrder, activeJob, jobHistory);
      var report := StdoutReport(lines[|lines| - 1]);
      if report.Some? {
        ApplyCallbacksKeepsValid(prev.jobs, callbacks, report.value, queueOrder, activeJob, jobHistory);
      }
    }
  }

  /** The stripped stdout lines that go to the log. */
  function LogRouted(lines: seq<string>): (r: seq<string>)
    ensures forall x :: x in r ==> x != [] && !IsProgressCandidate(x)
  {
    if lines == [] then []
    else
      var line := Strip(lines[|lines| - 1]);
      var rest := LogRouted(lines[..|lines| - 1]);
      if line != [] && !IsProgressCandidate(line) then rest + [line] else rest
  }

  /** The stripped stdout lines that reach update_progress and parse. */
  function ParsedRouted(lines: seq<string>): (r: seq<string>)
    ensures |r| <= |lines|
  {
    if lines == [] then []
    else
      var rest := ParsedRouted(lines[..|lines| - 1]);
      if StdoutReport(lines[|lines| - 1]).Some? then rest + [Strip(lines[|lines| - 1])] else rest
  }

  /** Every line that reaches the captured output is a candidate that parses. */
  lemma {:induction false} ParsedRoutedParse(lines: seq<string>)
    ensures forall x :: x in ParsedRouted(lines) ==> IsProgressCandidate(x) && ParseTqdmLine(x).Some?
  {
    if lines != [] {
      ParsedRoutedParse(lines[..|lines| - 1]);
    }
  }

  /** The log receives exactly the stripped non-candidate lines, stamped, in order. */
  lemma {:induction false} RouteStdoutLogs(b: Buffers, lines: seq<string>, stamp: string,
                                           callbacks: seq<Callback>, maxLines: nat)
    ensures RouteStdout(b, lines, stamp, callbacks, maxLines).logs
         == LogAll(b.logs, StampAll(stamp, LogRouted(lines)), maxLines)
  {
    if lines != [] {
      var init := lines[..|lines| - 1];
      RouteStdoutLogs(b, init, stamp, callbacks, maxLines);
      var line := Strip(lines[|lines| - 1]);
      if line != [] && !IsProgressCandidate(line) {
        StampAllSnoc(stamp, LogRouted(init), line);
        var s := StampAll(stamp, LogRouted(init) + [line]);
        assert s[..|s| - 1] == StampAll(stamp, LogRouted(init));
      }
    }
  }

  /** One stdout line adds to the captured output exactly when it is a candidate that parses. */
  lemma StdoutStepCaptured(b: Buffers, raw: string, stamp: string, callbacks: seq<Callback>, maxLines: nat)
    ensures StdoutStep(b, raw, stamp, callbacks, maxLines).captured
        == if StdoutReport(raw).Some? then b.captured + [Stamped(stamp, Strip(raw))] else b.captured
  {
  }

  /** The captured output receives exactly the stripped candidates that parse, stamped, in order:
      a candidate that does not parse reaches neither buffer. */
  lemma {:induction false} RouteStdoutCaptured(b: Buffers, lines: seq<string>, stamp: string,
                                               callbacks: seq<Callback>, maxLines: nat)
    ensures RouteStdout(b, lines, stamp, callbacks, maxLines).captured
         == b.captured + StampAll(stamp, ParsedRouted(lines))
  {
    if lines != [] {
      var init := lines[..|lines| - 1];
      RouteStdoutCaptured(b, init, stamp, callbacks, maxLines);
      StdoutStepCaptured(RouteStdout(b, init, stamp, callbacks, maxLines), lines[|lines| - 1], stamp, callbacks, maxLines);
      var line := Strip(lines[|lines| - 1]);
      StampAllSnoc(stamp, ParsedRouted(init), line);
    }
  }

  /** The progress report one stdout line yields: its stripped form parsed, when that is
      non-blank and a candidate. */
  function StdoutReport(raw: string): Option<ProgressInfo> {
    var line := Strip(raw);
    if line != [] && IsProgressCandidate(line) then ParseTqdmLine(line) else None
  }

  /** The progress reports those lines produce, in order. */
  function ParsedProgress(lines: seq<string>): (r: seq<ProgressInfo>)
    ensures |r| == |ParsedRouted(lines)|
  {
    if lines == [] then []
    else
      var rest := ParsedProgress(lines[..|lines| - 1]);
      match StdoutReport(lines[|lines| - 1])
      case Some(p) => rest + [p]
      case None => rest
  }

  lemma ParsedProgressStep(lines: seq<string>)
    requires lines != []
    ensures ParsedProgress(lines)
        == match StdoutReport(lines[|lines| - 1])
           case Some(p) => ParsedProgress(lines[..|lines| - 1]) + [p]
           case None => ParsedProgress(lines[..|lines| - 1])
  {
  }

  /** Each report is the parse of the captured line at the same position. */
  lemma {:induction false} ParsedProgressOfLines(lines: seq<string>)
    ensures forall i :: 0 <= i < |ParsedRouted(lines)| ==>
      ParseTqdmLine(ParsedRouted(lines)[i]) == Some(ParsedProgress(lines)[i])
  {
    if lines != [] {
      var init := lines[..|lines| - 1];
      ParsedProgressOfLines(init);
    }
  }

  /** When no line parses, the current progress is left as it was. */
  lemma {:induction false} RouteStdoutCurrentKept(b: Buffers, lines: seq<string>, stamp: string,
                                                  callbacks: seq<Callback>, maxLines: nat)
    requires ParsedProgress(lines) == []
    ensures RouteStdout(b, lines, stamp, callbacks, maxLines).current == b.current
  {
    if lines != [] {
      var init := lines[..|lines| - 1];
      var prev := RouteStdout(b, init, stamp, callbacks, maxLines);
      StdoutStepCurrent(prev, lines[|lines| - 1], stamp, callbacks, maxLines);
      RouteStdoutCurrentKept(b, init, stamp, callbacks, maxLines);
    }
  }

  /** Otherwise the current progress is the last report. */
  lemma {:induction false} RouteStdoutCurrentLast(b: Buffers, lines: seq<string>, stamp: string,
                                                  callbacks: seq<Callback>, maxLines: nat)
    requires ParsedProgress(lines) != []
    ensures RouteStdout(b, lines, stamp, callbacks, maxLines).current
         == ParsedProgress(lines)[|ParsedProgress(lines)| - 1]
  {
    var init := lines[..|lines| - 1];
    var prev := RouteStdout(b, init, stamp, callbacks, maxLines);
    StdoutStepCurrent(prev, lines[|lines| - 1], stamp, callbacks, maxLines);
    ParsedProgressStep(lines);
    if StdoutReport(lines[|lines| - 1]).None? {
      RouteStdoutCurrentLast(b, init, stamp, callbacks, maxLines);
    }
  }

  lemma StdoutStepCurrent(b: Buffers, raw: string, stamp: string, callbacks: seq<Callback>, maxLines: nat)
    ensures StdoutStep(b, raw, stamp, callbacks, maxLines).current
        == match StdoutReport(raw)
           case Some(p) => p
           case None => b.current
  {
  }

  /** Routing creates and removes no job. */
  lemma {:induction false} RouteStdoutKeys(b: Buffers, lines: seq<string>, stamp: string,
                                           callbacks: seq<Callback>, maxLines: nat)
    ensures RouteStdout(b, lines, stamp, callbacks, maxLines).jobs.Keys == b.jobs.Keys
  {
    if lines != [] {
      RouteStdoutKeys(b, lines[..|lines| - 1], stamp, callbacks, maxLines);
    }
  }

  /** The stderr entries: every non-blank stripped line, tagged. */
  function StderrEntries(lines: seq<string>): (r: seq<string>)
    ensures |r| <= |lines|
  {
    if lines == [] then []
    else
      var line := Strip(lines[|lines| - 1]);
      var rest := StderrEntries(lines[..|lines| - 1]);
      if line != [] then rest + ["[STDERR] " + line] else rest
  }

  /** Every stderr entry carries the tag and a non-blank stripped line after it. */
  lemma {:induction false} StderrEntriesTagged(lines: seq<string>)
    ensures forall x :: x in StderrEntries(lines) ==> StartsWith(x, "[STDERR] ") && |x| > 9
  {
    if lines != [] {
      StderrEntriesTagged(lines[..|lines| - 1]);
      var line := Strip(lines[|lines| - 1]);
      assert ("[STDERR] " + line)[..9] == "[STDERR] ";
    }
  }

  /** One more stderr line adds at most one entry, stamped, at the end. */
  lemma StderrStep(stamp: string, lines: seq<string>, i: nat)
    requires i < |lines|
    ensures var before := StampAll(stamp, StderrEntries(lines[..i]));
      var line := Strip(lines[i]);
      StampAll(stamp, StderrEntries(lines[..i + 1]))
        == if line != [] then before + [Stamped(stamp, "[STDERR] " + line)] else before
  {
    assert lines[..i + 1][..i] == lines[..i];
    var line := Strip(lines[i]);
    if line != [] {
      StampAllSnoc(stamp, StderrEntries(lines[..i]), "[STDERR] " + line);
    }
  }

  /** One more stderr line appends at most one stamped entry to the log buffer. */
  lemma StderrLogStep(start: seq<string>, stamp: string, lines: seq<string>, i: nat, maxLines: nat)
    requires i < |lines|
    ensures var logs := LogAll(start, StampAll(stamp, StderrEntries(lines[..i])), maxLines);
      var line := Strip(lines[i]);
      LogAll(start, StampAll(stamp, StderrEntries(lines[..i + 1])), maxLines)
        == if line != [] then AppendEvict(logs, Stamped(stamp, "[STDERR] " + line), maxLines) else logs
  {
    StderrStep(stamp, lines, i);
    var before := StampAll(stamp, StderrEntries(lines[..i]));
    var line := Strip(lines[i]);
    if line != [] {
      var x := Stamped(stamp, "[STDERR] " + line);
      assert (before + [x])[..|before|] == before;
    }
  }

  /** The tqdm holder: the current progress, the (unbounded) captured lines and the callbacks. */
  class TqdmCapture {
    var capturedOutput: seq<string>
    var currentProgress: ProgressInfo
    var callbacks: seq<Callback>

    constructor ()
      ensures capturedOutput == [] && currentProgress == EmptyProgress && callbacks == []
    {
      capturedOutput := [];
      currentProgress := EmptyProgress;
      callbacks := [];
    }

    method AddCallback(cb: Callback)
      modifies this
      ensures callbacks == old(callbacks) + [cb]
      ensures capturedOutput == old(capturedOutput) && currentProgress == old(currentProgress)
    {
      callbacks := callbacks + [cb];
    }

    method RemoveCallback(cb: Callback)
      modifies this
      ensures callbacks == RemoveFirst(old(callbacks), cb)
      ensures capturedOutput == old(capturedOutput) && currentProgress == old(currentProgress)
    {
      if cb in callbacks {
        callbacks := RemoveFirst(callbacks, cb);
      }
    }

    /** update_progress: on a parsable line, the new current progress, one stamped captured line,
        and every callback run in order; otherwise nothing changes. */
    method UpdateProgress(line: string, stamp: string, queue: QueueManager)
      modifies this, queue
      ensures callbacks == old(callbacks)
      ensures ParseTqdmLine(line).None? ==>
        capturedOutput == old(capturedOutput) && currentProgress == old(currentProgress) && queue.jobs == old(queue.jobs)
      ensures ParseTqdmLine(line).Some? ==>
        && currentProgress == ParseTqdmLine(line).value
        && capturedOutput == old(capturedOutput) + [Stamped(stamp, line)]
        && queue.jobs == ApplyCallbacks(old(queue.jobs), callbacks, currentProgress)
      ensures queue.queueOrder == old(queue.queueOrder) && queue.activeJob == old(queue.activeJob)
      ensures queue.jobHistory == old(queue.jobHistory) && queue.avgProcessingTimes == old(queue.avgProcessingTimes)
    {
      var info := ParseTqdmLine(line);
      if info.Some? {
        currentProgress := info.value;
        capturedOutput := capturedOutput + [Stamped(stamp, line)];
        NotifyCallbacks(info.value, queue);
      }
    }

    /** The callback loop of update_progress: each registered callback, in registration order. */
    method NotifyCallbacks(p: ProgressInfo, queue: QueueManager)
      modifies queue
      ensures queue.jobs == ApplyCallbacks(old(queue.jobs), callbacks, p)
      ensures queue.queueOrder == old(queue.queueOrder) && queue.activeJob == old(queue.activeJob)
      ensures queue.jobHistory == old(queue.jobHistory) && queue.avgProcessingTimes == old(queue.avgProcessingTimes)
    {
      var cbs := callbacks;
      ghost var start := queue.jobs;
      var i := 0;
      while i < |cbs|
        invariant 0 <= i <= |cbs|
        invariant queue.jobs == ApplyCallbacks(start, cbs[..i], p)
        invariant queue.queueOrder == old(queue.queueOrder) && queue.activeJob == old(queue.activeJob)
        invariant queue.jobHistory == old(queue.jobHistory)
        invariant queue.avgProcessingTimes == old(queue.avgProcessingTimes)
      {
        ApplyCallbacksSnoc(start, cbs, i, p);
        queue.UpdateJobProgress(cbs[i].jobId, p.percentage / 100.0, p.description);
        i := i + 1;
      }
      assert cbs[..i] == cbs;
    }

    /** get_recent_output: the last maxLines captured lines (Python's slice [-maxLines:]). */
    function RecentOutput(maxLines: int): (r: seq<string>)
      reads this
      ensures maxLines > 0 ==> |r| == if maxLines < |capturedOutput| then maxLines else |capturedOutput|
      ensures |r| <= |capturedOutput| && r == capturedOutput[|capturedOutput| - |r|..]
    {
      PyTail(capturedOutput, maxLines)
    }

    /** clear_output: no captured lines and the default progress; callbacks are kept. */
    method ClearOutput()
      modifies this
      ensures capturedOutput == [] && currentProgress == EmptyProgress && callbacks == old(callbacks)
    {
      capturedOutput := [];
      currentProgress := EmptyProgress;
    }
  }

  /** The bounded log buffer. */
  class LogCapture {
    const maxLines: nat
    var logLines: seq<string>

    ghost predicate Valid()
      reads this
    {
      |logLines| <= maxLines
    }

    constructor (maxLines: nat)
      ensures Valid() && this.maxLines == maxLines && logLines == []
    {
      this.maxLines := maxLines;
      logLines := [];
    }

    /** add_log_line: append the stamped line, dropping the oldest when over the bound. */
    method AddLogLine(line: string, stamp: string)
      requires Valid()
      modifies this
      ensures Valid()
      ensures logLines == AppendEvict(old(logLines), Stamped(stamp, line), maxLines)
    {
      logLines := logLines + [Stamped(stamp, line)];
      if |logLines| > maxLines {
        logLines := logLines[1..];
      }
    }

    /** get_recent_logs: all lines for None, otherwise Python's slice [-n:]. */
    function RecentLogs(n: Option<int>): (r: seq<string>)
      reads this
      ensures n.None? ==> r == logLines
      ensures n.Some? && n.value > 0 ==> |r| == if n.value < |logLines| then n.value else |logLines|
      ensures |r| <= |logLines| && r == logLines[|logLines| - |r|..]
    {
      match n
      case None => logLines
      case Some(k) => PyTail(logLines, k)
    }

    method ClearLogs()
      modifies this
      ensures logLines == []
    {
      logLines := [];
    }
  }

  /** The capture buffers and the queue as one value. */
  function Snap(t: TqdmCapture, l: LogCapture, q: QueueManager): Buffers
    reads t, l, q
  {
    Buffers(t.capturedOutput, t.currentProgress, l.logLines, q.jobs)
  }

  /** The line processors behind the redirected stdout and stderr. */
  class StreamCapture {
    const tqdm: TqdmCapture
    const log: LogCapture

    constructor (tqdm: TqdmCapture, log: LogCapture)
      ensures this.tqdm == tqdm && this.log == log
    {
      this.tqdm := tqdm;
      this.log := log;
    }

    /** _process_stdout: each line of the text, stripped; blank lines dropped; progress candidates
        to update_progress, everything else to the log. */
    method ProcessStdout(text: string, stamp: string, queue: QueueManager)
      requires log.Valid()
      modifies tqdm, log, queue
      ensures log.Valid()
      ensures tqdm.callbacks == old(tqdm.callbacks)
      ensures Snap(tqdm, log, queue)
           == RouteStdout(old(Snap(tqdm, log, queue)), Split(text, '\n'), stamp, tqdm.callbacks, log.maxLines)
      ensures queue.queueOrder == old(queue.queueOrder) && queue.activeJob == old(queue.activeJob)
      ensures queue.jobHistory == old(queue.jobHistory) && queue.avgProcessingTimes == old(queue.avgProcessingTimes)
    {
      var lines := Split(text, '\n');
      ghost var start := Snap(tqdm, log, queue);
      ghost var cbs := tqdm.callbacks;
      var i := 0;
      while i < |lines|
        invariant 0 <= i <= |lines|
        invariant log.Valid()
        invariant tqdm.callbacks == cbs
        invariant Snap(tqdm, log, queue) == RouteStdout(start, lines[..i], stamp, cbs, log.maxLines)
        invariant queue.queueOrder == old(queue.queueOrder) && queue.activeJob == old(queue.activeJob)
        invariant queue.jobHistory == old(queue.jobHistory)
        invariant queue.avgProcessingTimes == old(queue.avgProcessingTimes)
      {
        RouteStdoutSnoc(start, lines, i, stamp, cbs, log.maxLines);
        var line := Strip(lines[i]);
        if line != [] {
          if IsProgressCandidate(line) {
            StripIdempotent(lines[i]);
            tqdm.UpdateProgress(line, stamp, queue);
          } else {
            log.AddLogLine(line, stamp);
          }
        }
        i := i + 1;
      }
      assert lines[..i] == lines;
    }

    /** _process_stderr: every non-blank stripped line is logged with the "[STDERR] " tag and
        never parsed. */
    method ProcessStderr(text: string, stamp: string)
      requires log.Valid()
      modifies log
      ensures log.Valid()
      ensures log.logLines == LogAll(old(log.logLines), StampAll(stamp, StderrEntries(Split(text, '\n'))), log.maxLines)
    {
      var lines := Split(text, '\n');
      ghost var start := log.logLines;
      var i := 0;
      while i < |lines|
        invariant 0 <= i <= |lines|
        invariant log.Valid()
        invariant log.logLines == LogAll(start, StampAll(stamp, StderrEntries(lines[..i])), log.maxLines)
      {
        var line := Strip(lines[i]);
        StderrLogStep(start, stamp, lines, i, log.maxLines);
        if line != [] {
          log.AddLogLine("[STDERR] " + line, stamp);
        }
        i := i + 1;
      }
      assert lines[..i] == lines;
    }
  }

  /** The tracker: one tqdm holder and one log buffer of 100 lines, reset for each job. */
  class ProgressTracker {
    const tqdm: TqdmCapture
    const log: LogCapture
    var activeJobId: Option<string>

    ghost predicate Valid()
      reads this, log
    {
      log.Valid() && log.maxLines == 100
    }

    constructor ()
      ensures Valid() && fresh(tqdm) && fresh(log)
      ensures activeJobId == None && tqdm.callbacks == [] && tqdm.capturedOutput == [] && log.logLines == []
    {
      tqdm := new TqdmCapture();
      log := new LogCapture(100);
      activeJobId := None;
    }

    /** start_job_tracking: the job becomes the active one, the buffers are emptied, and one more
        callback forwarding to the queue is registered (earlier ones stay). */
    method StartJobTracking(jobId: string) returns (sc: StreamCapture)
      requires Valid()
      modifies this, tqdm, log
      ensures Valid()
      ensures activeJobId == Some(jobId)
      ensures tqdm.capturedOutput == [] && tqdm.currentProgress == EmptyProgress && log.logLines == []
      ensures tqdm.callbacks == old(tqdm.callbacks) + [ForwardToQueue(jobId)]
      ensures fresh(sc) && sc.tqdm == tqdm && sc.log == log
    {
      activeJobId := Some(jobId);
      tqdm.ClearOutput();
      log.ClearLogs();
      tqdm.AddCallback(ForwardToQueue(jobId));
      sc := new StreamCapture(tqdm, log);
    }

    /** get_job_progress_info: inactive for any id but the active one; otherwise the current
        progress without its rate, the last 20 log lines and the last 10 captured lines. */
    function JobProgressInfo(jobId: string): (r: JobProgressView)
      reads this, tqdm, log
      ensures r.Active? <==> activeJobId == Some(jobId)
      ensures r.Active? ==>
        && r.progress.percentage == tqdm.currentProgress.percentage
        && r.progress.currentStep == tqdm.currentProgress.currentStep
        && r.progress.totalSteps == tqdm.currentProgress.totalSteps
        && r.progress.eta == tqdm.currentProgress.eta
        && r.progress.description == tqdm.currentProgress.description
        && r.progress.elapsedTime == tqdm.currentProgress.elapsedTime
      ensures r.Active? ==> |r.recentLogs| == (if |log.logLines| < 20 then |log.logLines| else 20)
      ensures r.Active? ==> r.recentLogs == log.logLines[|log.logLines| - |r.recentLogs|..]
      ensures r.Active? ==> |r.tqdmOutput| == (if |tqdm.capturedOutput| < 10 then |tqdm.capturedOutput| else 10)
      ensures r.Active? ==> r.tqdmOutput == tqdm.capturedOutput[|tqdm.capturedOutput| - |r.tqdmOutput|..]
    {
      if activeJobId != Some(jobId) then Inactive
      else
        var p := tqdm.currentProgress;
        Active(ProgressSummary(p.percentage, p.currentStep, p.totalSteps, p.eta, p.description, p.elapsedTime),
               log.RecentLogs(Some(20)), tqdm.RecentOutput(10))
    }
  }

  /** Tracking a job and then asking about it: active, with the default progress and nothing
      logged or captured yet; any other id is inactive. */
  method TrackThenQuery(jobId: string, other: string) returns (mine: JobProgressView, theirs: JobProgressView)
    requires other != jobId
    ensures mine.Active? && mine.progress.percentage == 0.0 && mine.recentLogs == [] && mine.tqdmOutput == []
    ensures theirs == Inactive
  {
    var tracker := new ProgressTracker();
    var sc := tracker.StartJobTracking(jobId);
    mine := tracker.JobProgressInfo(jobId);
    theirs := tracker.JobProgressInfo(other);
  }
}
