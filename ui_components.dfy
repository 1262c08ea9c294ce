/** The status panels: the duration text, the log view, the queue and progress panels (as
    structured views rather than markup), and the three refresh getters with their error fallbacks. */
module UiComponents {
  import opened Wrappers
  import opened Text
  import opened Seqs
  import opened ProgressParse
  import opened Queue
  import opened ProgressCapture

  // ---------------------------------------------------------------- durations

  /** Python's a // b on floats, for a positive divisor. */
  function PyFloorDiv(a: real, b: real): real
    requires b > 0.0
  {
    (a / b).Floor as real
  }

  /** Python's a % b on floats, for a positive divisor: the result takes the divisor's sign. */
  function PyMod(a: real, b: real): real
    requires b > 0.0
  {
    a - b * PyFloorDiv(a, b)
  }

  /** The numbers format_duration prints: whole seconds, minutes and seconds, or hours and minutes. */
  datatype Duration = Secs(s: int) | MinSecs(m: int, s: int) | HourMins(h: int, m: int)

  function DurationParts(seconds: real): (d: Duration)
    ensures d.Secs? <==> seconds < 60.0
    ensures d.MinSecs? <==> 60.0 <= seconds < 3600.0
    ensures d.HourMins? <==> seconds >= 3600.0
  {
    if seconds < 60.0 then Secs(Trunc(seconds))
    else if seconds < 3600.0 then MinSecs(Trunc(PyFloorDiv(seconds, 60.0)), Trunc(PyMod(seconds, 60.0)))
    else HourMins(Trunc(PyFloorDiv(seconds, 3600.0)), Trunc(PyFloorDiv(PyMod(seconds, 3600.0), 60.0)))
  }

  /** What the printed numbers mean: below a minute the truncated seconds; below an hour whole
      minutes and the remaining whole seconds; from an hour on, hours and minutes with the
      seconds dropped. */
  lemma DurationPartsMeaning(seconds: real)
    ensures 0.0 <= seconds < 60.0 ==> DurationParts(seconds) == Secs(seconds.Floor) && 0 <= seconds.Floor < 60
    ensures 60.0 <= seconds < 3600.0 ==>
      var d := DurationParts(seconds);
      1 <= d.m < 60 && 0 <= d.s < 60 && 60 * d.m + d.s == seconds.Floor
    ensures seconds >= 3600.0 ==>
      var d := DurationParts(seconds);
      d.h >= 1 && 0 <= d.m < 60 && (3600 * d.h + 60 * d.m) as real <= seconds < (3600 * d.h + 60 * d.m + 60) as real
  {
    if 60.0 <= seconds < 3600.0 {
      var m := (seconds / 60.0).Floor;
      assert 60 * m <= seconds.Floor;
      var rest := seconds - 60.0 * m as real;
      assert rest.Floor == seconds.Floor - 60 * m;
    } else if seconds >= 3600.0 {
      var h := (seconds / 3600.0).Floor;
      var rest := seconds - 3600.0 * h as real;
      assert 0.0 <= rest < 3600.0;
    }
  }

  /** "<x><u> <y><w>", as in f"{minutes}m {secs}s". */
  function UnitPair(x: int, u: char, y: int, w: char): string {
    (IntToString(x) + [u]) + " " + (IntToString(y) + [w])
  }

  /** format_duration: "Ns", "Mm Ss" or "Hh Mm". */
  function FormatDuration(seconds: real): (text: string)
    ensures text != [] && text[|text| - 1] == (if seconds < 3600.0 then 's' else 'm')
  {
    match DurationParts(seconds)
    case Secs(s) => IntToString(s) + "s"
    case MinSecs(m, s) => UnitPair(m, 'm', s, 's')
    case HourMins(h, m) => UnitPair(h, 'h', m, 'm')
  }

  /** Reads a duration text back into its numbers: the inverse of FormatDuration. */
  function ReadDuration(text: string): Option<Duration> {
    var parts := Split(text, ' ');
    if |parts| == 1 && parts[0] != [] && parts[0][|parts[0]| - 1] == 's' then
      match ParseInt(parts[0][..|parts[0]| - 1])
      case Some(n) => Some(Secs(n))
      case None => None
    else if |parts| == 2 && parts[0] != [] && parts[1] != [] then
      var a := parts[0];
      var b := parts[1];
      match (ParseInt(a[..|a| - 1]), ParseInt(b[..|b| - 1]))
      case (Some(x), Some(y)) =>
        if a[|a| - 1] == 'm' && b[|b| - 1] == 's' then Some(MinSecs(x, y))
        else if a[|a| - 1] == 'h' && b[|b| - 1] == 'm' then Some(HourMins(x, y))
        else None
      case _ => None
    else None
  }

  lemma NoSpaceInInt(i: int)
    ensures ' ' !in IntToString(i)
  {
    IntToStringChars(i);
  }

  /** "<number><unit>" without spaces ends in the unit and reads back as the number. */
  lemma NumberWithUnit(i: int, unit: char)
    requires unit != ' '
    ensures var p := IntToString(i) + [unit];
      ' ' !in p && p[..|p| - 1] == IntToString(i) && p[|p| - 1] == unit && ParseInt(p[..|p| - 1]) == Some(i)
  {
    NoSpaceInInt(i);
    ParseIntToString(i);
    var p := IntToString(i) + [unit];
    assert p[..|p| - 1] == IntToString(i);
  }

  /** Two numbers with units, separated by one space, split into the two halves. */
  lemma TwoNumbers(x: int, u: char, y: int, w: char)
    requires u != ' ' && w != ' '
    ensures Split(UnitPair(x, u, y, w), ' ') == [IntToString(x) + [u], IntToString(y) + [w]]
  {
    var a := IntToString(x) + [u];
    var b := IntToString(y) + [w];
    NumberWithUnit(x, u);
    NumberWithUnit(y, w);
    SplitAfterPart(a, b, ' ');
    SplitNoSeparator(b, ' ');
  }

  lemma ReadSeconds(x: int)
    ensures ReadDuration(IntToString(x) + "s") == Some(Secs(x))
  {
    NumberWithUnit(x, 's');
    SplitNoSeparator(IntToString(x) + "s", ' ');
  }

  lemma ReadUnitPair(x: int, u: char, y: int, w: char)
    requires (u == 'm' && w == 's') || (u == 'h' && w == 'm')
    ensures ReadDuration(UnitPair(x, u, y, w)) == Some(if u == 'm' then MinSecs(x, y) else HourMins(x, y))
  {
    NumberWithUnit(x, u);
    NumberWithUnit(y, w);
    TwoNumbers(x, u, y, w);
  }

  /** The duration text determines the numbers it was printed from. */
  lemma ReadFormatDuration(seconds: real)
    ensures ReadDuration(FormatDuration(seconds)) == Some(DurationParts(seconds))
  {
    match DurationParts(seconds)
    case Secs(s) => ReadSeconds(s);
    case MinSecs(m, s) => ReadUnitPair(m, 'm', s, 's');
    case HourMins(h, m) => ReadUnitPair(h, 'h', m, 'm');
  }

  // ---------------------------------------------------------------- the log view

  /** The colour class of a log line. */
  datatype Severity = Error | Warning | Info | Progress | Plain

  /** The first of the tests that matches, in the order the view checks them. */
  function Classify(line: string): Severity {
    if Contains(line, "[ERROR]") || Contains(line, "ERROR") then Error
    else if Contains(line, "[WARNING]") || Contains(line, "WARNING") then Warning
    else if Contains(line, "[INFO]") || Contains(line, "INFO") then Info
    else if Contains(line, "%") then Progress
    else Plain
  }

  /** A bracketed tag "[X]" holds the bare word X. */
  lemma BracketedHoldsWord(line: string, word: string)
    requires Contains(line, "[" + word + "]")
    ensures Contains(line, word)
  {
    var b := "[" + word + "]";
    assert b[1..1 + |word|] == word;
    ContainsAt(b, word, 1);
    ContainsTransitive(line, b, word);
  }

  /** Classification is the first match of the bare words ERROR, WARNING, INFO and the
      character '%' (the bracketed tags are covered by the bare words). */
  lemma ClassifyFirstMatch(line: string)
    ensures Classify(line) == Error <==> Contains(line, "ERROR")
    ensures Classify(line) == Warning <==> !Contains(line, "ERROR") && Contains(line, "WARNING")
    ensures Classify(line) == Info <==> !Contains(line, "ERROR") && !Contains(line, "WARNING") && Contains(line, "INFO")
    ensures Classify(line) == Progress <==>
      !Contains(line, "ERROR") && !Contains(line, "WARNING") && !Contains(line, "INFO") && '%' in line
    ensures Classify(line) == Plain <==>
      !Contains(line, "ERROR") && !Contains(line, "WARNING") && !Contains(line, "INFO") && '%' !in line
  {
    if Contains(line, "[ERROR]") {
      assert "[ERROR]" == "[" + "ERROR" + "]";
      BracketedHoldsWord(line, "ERROR");
    }
    if Contains(line, "[WARNING]") {
      assert "[WARNING]" == "[" + "WARNING" + "]";
      BracketedHoldsWord(line, "WARNING");
    }
    if Contains(line, "[INFO]") {
      assert "[INFO]" == "[" + "INFO" + "]";
      BracketedHoldsWord(line, "INFO");
    }
    ContainsChar(line, '%');
  }

  function Colour(sev: Severity): string {
    match sev
    case Error => "#dc2626"
    case Warning => "#d97706"
    case Info => "#059669"
    case Progress => "#2563eb"
    case Plain => ""
  }

  /** The opening span: the colour, and bold for progress lines. */
  function OpenTag(sev: Severity): string {
    if sev == Plain then ""
    else "<span style=\"color: " + Colour(sev) + ";" + (if sev == Progress then " font-weight: bold;" else "") + "\">"
  }

  function CloseTag(sev: Severity): string {
    if sev == Plain then "" else "</span>"
  }

  /** A line inside the span of a colour, or the line itself when plain. */
  function Decorate(sev: Severity, line: string): string {
    OpenTag(sev) + line + CloseTag(sev)
  }

  /** One displayed line, decorated by its class. */
  function FormatLogLine(line: string): string {
    Decorate(Classify(line), line)
  }

  /** Decorating changes a line exactly when it is not plain, and adds no newline. */
  lemma DecorateKeeps(sev: Severity, line: string)
    ensures Decorate(sev, line) == line <==> sev == Plain
    ensures '\n' !in line ==> '\n' !in Decorate(sev, line)
  {
    if sev != Plain {
      assert |Decorate(sev, line)| > |line|;
    }
    TagsHaveNoNewline(sev);
  }

  lemma TagsHaveNoNewline(sev: Severity)
    ensures '\n' !in OpenTag(sev) && '\n' !in CloseTag(sev)
  {
    assert '\n' !in Colour(sev) by {
      match sev
      case Error =>
      case Warning =>
      case Info =>
      case Progress =>
      case Plain =>
    }
    SpanPiecesHaveNoNewline();
  }

  lemma SpanPiecesHaveNoNewline()
    ensures '\n' !in "<span style=\"color: " && '\n' !in " font-weight: bold;" && '\n' !in "</span>"
  {
  }

  /** Only plain lines are shown unchanged, and a line without a newline gains none. */
  lemma FormatLogLineKeeps(line: string)
    ensures FormatLogLine(line) == line <==> Classify(line) == Plain
    ensures '\n' !in line ==> '\n' !in FormatLogLine(line)
  {
    DecorateKeeps(Classify(line), line);
  }

  /** The displayed lines, one per input line. */
  function FormatAll(lines: seq<string>): (r: seq<string>)
    ensures |r| == |lines|
  {
    if lines == [] then [] else FormatAll(lines[..|lines| - 1]) + [FormatLogLine(lines[|lines| - 1])]
  }

  lemma {:induction false} FormatAllAt(lines: seq<string>, i: nat)
    requires i < |lines|
    ensures FormatAll(lines)[i] == FormatLogLine(lines[i])
  {
    if i < |lines| - 1 {
      FormatAllAt(lines[..|lines| - 1], i);
    }
  }

  const LogLinesShown: nat := 20

  /** create_log_display: "No recent activity", or the last 20 lines formatted and joined by newlines. */
  function LogDisplay(logLines: seq<string>): string {
    if logLines == [] then "No recent activity"
    else Join(FormatAll(LastN(logLines, LogLinesShown)), "\n")
  }

  /** The formatted lines are the last min(20, n) input lines, in their original order, each
      classified and decorated. */
  lemma ShownLines(logLines: seq<string>)
    ensures var n := if |logLines| < LogLinesShown then |logLines| else LogLinesShown;
      && |FormatAll(LastN(logLines, LogLinesShown))| == n
      && LastN(logLines, LogLinesShown) == logLines[|logLines| - n..]
    ensures forall i :: 0 <= i < |FormatAll(LastN(logLines, LogLinesShown))| ==>
      FormatAll(LastN(logLines, LogLinesShown))[i] == FormatLogLine(LastN(logLines, LogLinesShown)[i])
  {
    var last := LastN(logLines, LogLinesShown);
    forall i | 0 <= i < |last|
      ensures FormatAll(last)[i] == FormatLogLine(last[i])
    {
      FormatAllAt(last, i);
    }
  }

  /** The view of a non-empty buffer splits at its newlines into exactly the formatted lines (for
      log lines without newlines, as the buffers hold them). */
  lemma LogDisplayLines(logLines: seq<string>)
    requires logLines != []
    requires forall i :: 0 <= i < |logLines| ==> '\n' !in logLines[i]
    ensures Split(LogDisplay(logLines), '\n') == FormatAll(LastN(logLines, LogLinesShown))
  {
    var last := LastN(logLines, LogLinesShown);
    var parts := FormatAll(last);
    forall i | 0 <= i < |parts|
      ensures '\n' !in parts[i]
    {
      FormatAllAt(last, i);
      FormatLogLineKeeps(last[i]);
    }
    SplitJoin(parts, '\n');
  }

  /** create_log_display, building the formatted list line by line. */
  method CreateLogDisplay(logLines: seq<string>) returns (text: string)
    ensures text == LogDisplay(logLines)
  {
    if logLines == [] {
      return "No recent activity";
    }
    var shown := PyTail(logLines, LogLinesShown);
    var formatted: seq<string> := [];
    for i := 0 to |shown|
      invariant formatted == FormatAll(shown[..i])
    {
      assert shown[..i + 1][..i] == shown[..i];
      formatted := formatted + [FormatLogLine(shown[i])];
    }
    assert shown[..|shown|] == shown;
    text := Join(formatted, "\n");
  }

  // ---------------------------------------------------------------- the queue panel

  predicate IsLetter(c: char) { 'a' <= c <= 'z' || 'A' <= c <= 'Z' }

  function UpperChar(c: char): char {
    if 'a' <= c <= 'z' then (c as int - 32) as char else c
  }

  /** Python's str.title() on ASCII text: a letter is upper-cased at the start of a run of
      letters and lower-cased inside one. */
  function Title(s: string): (r: string)
    ensures |r| == |s|
  {
    if s == [] then []
    else
      var init := s[..|s| - 1];
      var c := s[|s| - 1];
      Title(init) + [if init != [] && IsLetter(init[|init| - 1]) then LowerChar(c) else UpperChar(c)]
  }

  lemma {:induction false} TitleAt(s: string, i: nat)
    requires i < |s|
    ensures Title(s)[i] == if i > 0 && IsLetter(s[i - 1]) then LowerChar(s[i]) else UpperChar(s[i])
  {
    if i < |s| - 1 {
      TitleAt(s[..|s| - 1], i);
    }
  }

  /** Title-casing changes only the case of letters. */
  lemma TitleChangesOnlyCase(s: string)
    ensures Lower(Title(s)) == Lower(s)
  {
    var t := Title(s);
    var a := Lower(t);
    var b := Lower(s);
    forall i | 0 <= i < |s|
      ensures a[i] == b[i]
    {
      TitleAt(s, i);
      LowerAt(t, i);
      LowerAt(s, i);
      FoldCase(s[i]);
    }
    assert a == b;
  }

  /** Lower-casing forgets an earlier change of case. */
  lemma FoldCase(c: char)
    ensures LowerChar(UpperChar(c)) == LowerChar(c) && LowerChar(LowerChar(c)) == LowerChar(c)
  {
  }

  /** Two decimal digits, as strftime prints hours, minutes and seconds. */
  function TwoDigits(n: nat): (s: string)
    requires n < 100
    ensures |s| == 2 && AllDigits(s) && DigitsValue(s) == n
  {
    var s := [DigitChar(n / 10), DigitChar(n % 10)];
    assert s[..1][..0] == [];
    assert DigitsValue(s[..1]) == n / 10;
    s
  }

  const SecondsPerDay: int := 86400

  /** strftime('%H:%M:%S') of a wall-clock reading in seconds. */
  function ClockText(t: real): (s: string)
    ensures |s| == 8 && s[2] == ':' && s[5] == ':'
  {
    var sod := t.Floor % SecondsPerDay;
    var rest := sod % 3600;
    TwoDigits(sod / 3600) + ":" + TwoDigits(rest / 60) + ":" + TwoDigits(rest % 60)
  }

  /** Reading the clock text as a time string gives back the second of the day. */
  lemma ClockTextRoundTrip(t: real)
    ensures ParseTime(ClockText(t)) == (t.Floor % SecondsPerDay) as real
  {
    var sod := t.Floor % SecondsPerDay;
    var rest := sod % 3600;
    var h := TwoDigits(sod / 3600);
    var m := TwoDigits(rest / 60);
    var sec := TwoDigits(rest % 60);
    ParseTimeHoursMinutesSeconds(h, m, sec);
    assert sod == 3600 * (sod / 3600) + rest;
    assert rest == 60 * (rest / 60) + rest % 60;
  }

  /** One "Next Jobs" entry. */
  datatype NextJob = NextJob(jobId: string, jobType: string, addedAt: string)

  /** The sections of the busy panel, in the order the builder appends them. */
  datatype QueueSection =
    | CurrentJob(jobId: string, jobType: string, currentStep: string, progressPct: int)
    | Waiting(queueLength: nat, waitTime: string)
    | NextJobs(entries: seq<NextJob>)

  datatype QueuePanel = IdlePanel | BusyPanel(sections: seq<QueueSection>)

  const NextJobsShown: nat := 3

  function NextJobOf(job: JobInfo): NextJob {
    NextJob(job.jobId, job.jobType, ClockText(job.createdAt))
  }

  /** The entries of the "Next Jobs" list, one per job given. */
  function NextJobEntries(jobs: seq<JobInfo>): (r: seq<NextJob>)
    ensures |r| == |jobs|
  {
    if jobs == [] then [] else NextJobEntries(jobs[..|jobs| - 1]) + [NextJobOf(jobs[|jobs| - 1])]
  }

  lemma {:induction false} NextJobEntriesAt(jobs: seq<JobInfo>, i: nat)
    requires i < |jobs|
    ensures NextJobEntries(jobs)[i] == NextJobOf(jobs[i])
  {
    if i < |jobs| - 1 {
      NextJobEntriesAt(jobs[..|jobs| - 1], i);
    }
  }

  /** The "Currently Processing" section: id, title-cased type, step text and whole percent. */
  function ProcessingSection(active: JobInfo): QueueSection {
    CurrentJob(active.jobId, Title(active.jobType), active.currentStep, Trunc(active.progress * 100.0))
  }

  /** The "Jobs in Queue" part: the count and wait, then the next jobs when any are listed. */
  function WaitingSections(st: QueueStatus): seq<QueueSection> {
    if st.queueLength == 0 then []
    else
      [Waiting(st.queueLength, FormatDuration(st.estimatedWaitTime))]
        + if st.queueJobs != [] then [NextJobs(NextJobEntries(Take(st.queueJobs, NextJobsShown)))] else []
  }

  /** create_queue_status_html, with each next job's creation time read from its timestamp. */
  function QueuePanelOf(st: QueueStatus): (p: QueuePanel)
    ensures p.IdlePanel? <==> st.queueLength == 0 && st.activeJob.None?
  {
    if st.queueLength == 0 && st.activeJob.None? then IdlePanel
    else
      BusyPanel((if st.activeJob.Some? then [ProcessingSection(st.activeJob.value)] else []) + WaitingSections(st))
  }

  /** The busy panel opens with the active job's section exactly when a job is active. */
  lemma QueuePanelActiveFirst(st: QueueStatus)
    requires QueuePanelOf(st).BusyPanel?
    ensures var secs := QueuePanelOf(st).sections;
      && (st.activeJob.Some? <==> secs != [] && secs[0].CurrentJob?)
      && (st.activeJob.Some? ==> secs[0] == ProcessingSection(st.activeJob.value))
  {
    var tail := WaitingSections(st);
    assert tail != [] ==> tail[0].Waiting?;
  }

  /** The busy panel ends with a "Next Jobs" list exactly when jobs wait and some are listed; the
      list holds at most three entries, for the first listed jobs in order. */
  lemma QueuePanelNextJobs(st: QueueStatus)
    requires QueuePanelOf(st).BusyPanel?
    ensures var secs := QueuePanelOf(st).sections;
      && ((st.queueLength > 0 && st.queueJobs != []) <==> secs != [] && secs[|secs| - 1].NextJobs?)
      && (secs != [] && secs[|secs| - 1].NextJobs? ==>
           var e := secs[|secs| - 1].entries;
           && |e| == (if |st.queueJobs| < NextJobsShown then |st.queueJobs| else NextJobsShown)
           && forall k :: 0 <= k < |e| ==> e[k] == NextJobOf(st.queueJobs[k]))
  {
    var shown := Take(st.queueJobs, NextJobsShown);
    forall k | 0 <= k < |shown|
      ensures NextJobEntries(shown)[k] == NextJobOf(st.queueJobs[k])
    {
      NextJobEntriesAt(shown, k);
    }
  }

  /** A job reported at a progress fraction between 0 and 1 shows a whole percentage between 0 and 100. */
  lemma ProcessingPercentInRange(active: JobInfo)
    requires 0.0 <= active.progress <= 1.0
    ensures 0 <= ProcessingSection(active).progressPct <= 100
  {
  }

  /** The "Next Jobs" loop: one entry per job shown, in order. */
  method ListNextJobs(shown: seq<JobInfo>) returns (entries: seq<NextJob>)
    ensures entries == NextJobEntries(shown)
  {
    entries := [];
    for i := 0 to |shown|
      invariant entries == NextJobEntries(shown[..i])
    {
      assert shown[..i + 1][..i] == shown[..i];
      entries := entries + [NextJobOf(shown[i])];
    }
    assert shown[..|shown|] == shown;
  }

  /** create_queue_status_html with line 74 corrected (the creation time read as a time), appending
      the sections one by one as the builder grows its text. */
  method CreateQueueStatusHtml(st: QueueStatus) returns (panel: QueuePanel)
    ensures panel == QueuePanelOf(st)
  {
    if st.queueLength == 0 && st.activeJob.None? {
      return IdlePanel;
    }
    var sections: seq<QueueSection> := [];
    if st.activeJob.Some? {
      sections := sections + [ProcessingSection(st.activeJob.value)];
    }
    ghost var head := sections;
    if st.queueLength > 0 {
      var waitTime := FormatDuration(st.estimatedWaitTime);
      sections := sections + [Waiting(st.queueLength, waitTime)];
      if st.queueJobs != [] {
        var entries := ListNextJobs(Take(st.queueJobs, NextJobsShown));
        sections := sections + [NextJobs(entries)];
      }
    }
    assert sections == head + WaitingSections(st);
    panel := BusyPanel(sections);
  }

  /** The message of the TypeError the as-written builder raises on a job's creation time. */
  const CreatedAtTypeError: string := "'str' object cannot be interpreted as an integer"

  /** The creation time as the builder computes it: the record holds a datetime, not text, so
      the string replace it calls on it raises a TypeError for every job. */
  function AddedAtAsWritten(job: JobInfo): Result<string> {
    Failure(CreatedAtTypeError)
  }

  /** The "Next Jobs" loop as written: rendering the first job's time raises, which ends the
      loop (and the builder) before any entry is added. */
  function NextJobEntriesAsWritten(jobs: seq<JobInfo>): Result<seq<NextJob>> {
    if jobs == [] then Success([])
    else
      match AddedAtAsWritten(jobs[0])
      case Failure(e) => Failure(e)
  }

  /** create_queue_status_html as written. */
  function QueuePanelAsWritten(st: QueueStatus): Result<QueuePanel> {
    if st.queueLength == 0 && st.activeJob.None? then Success(IdlePanel)
    else if st.queueLength > 0 && st.queueJobs != [] then
      match NextJobEntriesAsWritten(Take(st.queueJobs, NextJobsShown))
      case Failure(e) => Failure(e)
      case Success(entries) =>
        Success(BusyPanel((if st.activeJob.Some? then [ProcessingSection(st.activeJob.value)] else [])
          + [Waiting(st.queueLength, FormatDuration(st.estimatedWaitTime)), NextJobs(entries)]))
    else Success(QueuePanelOf(st))
  }

  /** What the queue getter shows: the panel, or the error view with the exception's text. */
  datatype QueueView = QueueShown(panel: QueuePanel) | QueueStatusError(message: string)

  /** get_queue_status's try/except around the builder. */
  function QueueViewOf(built: Result<QueuePanel>): (v: QueueView)
    ensures v.QueueStatusError? <==> built.Failure?
    ensures built.Failure? ==> v.message == built.error
    ensures built.Success? ==> v.panel == built.value
  {
    match built
    case Success(p) => QueueShown(p)
    case Failure(e) => QueueStatusError(e)
  }

  /** get_queue_status with the creation time rendered from the timestamp. */
  function GetQueueStatusView(st: QueueStatus): QueueView {
    QueueViewOf(Success(QueuePanelOf(st)))
  }

  /** get_queue_status as written. */
  function GetQueueStatusViewAsWritten(st: QueueStatus): QueueView {
    QueueViewOf(QueuePanelAsWritten(st))
  }

  /** As written, the queue view is the error view exactly when jobs wait and some are listed;
      everywhere else it agrees with the corrected view. */
  lemma QueueViewAsWrittenFails(st: QueueStatus)
    ensures GetQueueStatusViewAsWritten(st).QueueStatusError? <==> st.queueLength > 0 && st.queueJobs != []
    ensures GetQueueStatusViewAsWritten(st).QueueStatusError? ==> GetQueueStatusViewAsWritten(st).message == CreatedAtTypeError
    ensures !(st.queueLength > 0 && st.queueJobs != []) ==> GetQueueStatusViewAsWritten(st) == GetQueueStatusView(st)
  {
    if st.queueLength > 0 && st.queueJobs != [] {
      assert Take(st.queueJobs, NextJobsShown) != [];
    }
  }

  /** The corrected view is never the error view; it is idle exactly when nothing waits or runs. */
  lemma QueueViewCorrected(st: QueueStatus)
    ensures GetQueueStatusView(st).QueueShown?
    ensures GetQueueStatusView(st).panel == IdlePanel <==> st.queueLength == 0 && st.activeJob.None?
  {
  }

  /** With one job waiting and none running, the panel lists the count, the wait and that job. */
  lemma PanelOfOneJob(st: QueueStatus, job: JobInfo)
    requires st.queueLength == 1 && st.activeJob.None? && st.queueJobs == [job]
    ensures QueuePanelOf(st) == BusyPanel([Waiting(1, FormatDuration(st.estimatedWaitTime)), NextJobs([NextJobOf(job)])])
  {
    assert Take(st.queueJobs, NextJobsShown) == [job];
    assert NextJobEntries([job]) == [NextJobOf(job)] by {
      assert [job][..0] == [];
    }
  }

  /** Adding one job to a new queue and asking for its status: as written the panel is the error
      view; corrected, it is the busy panel listing that job. */
  method OneQueuedJob() returns (asWritten: QueueView, corrected: QueueView)
    ensures asWritten == QueueStatusError(CreatedAtTypeError)
    ensures corrected == QueueShown(BusyPanel([Waiting(1, FormatDuration(120.0)),
                                               NextJobs([NextJob("job1", "single", ClockText(0.0))])]))
  {
    var m := new QueueManager();
    var id := m.AddJob("job1", "single", None, 0.0);
    var st := m.GetQueueStatus(0.0);
    var job := m.jobs["job1"];
    assert m.queueOrder == ["job1"];
    assert QueuedJobs(m.queueOrder, m.jobs) == [job];
    assert job.estimatedDuration == 120.0;
    assert st.queueJobs == [job] && st.activeJob == None;
    assert st.estimatedWaitTime == 120.0 by {
      assert [job][1..] == [];
    }
    PanelOfOneJob(st, job);
    QueueViewAsWrittenFails(st);
    asWritten := GetQueueStatusViewAsWritten(st);
    corrected := GetQueueStatusView(st);
  }

  // ---------------------------------------------------------------- the progress panel

  /** create_progress_display_html: "No active job", or the live panel with the percentage, a
      step line, the description and the timing line where the progress has them. */
  datatype ProgressPanel =
    | NoActiveJob
    | LiveProgress(percentage: real, steps: Option<(int, int)>, description: Option<string>,
                   timing: Option<(string, string)>)

  function ProgressPanelOf(info: JobProgressView): (p: ProgressPanel)
    ensures p.NoActiveJob? <==> info.Inactive?
    ensures p.LiveProgress? ==> p.percentage == info.progress.percentage
    ensures p.LiveProgress? ==>
      (p.steps.Some? <==> info.progress.currentStep != 0 && info.progress.totalSteps != 0)
    ensures p.LiveProgress? ==> (p.description.Some? <==> info.progress.description != [])
    ensures p.LiveProgress? ==> (p.timing.Some? <==> info.progress.eta.Some? && info.progress.eta.value != [])
  {
    match info
    case Inactive => NoActiveJob
    case Active(pr, _, _) =>
      LiveProgress(
        pr.percentage,
        if pr.currentStep != 0 && pr.totalSteps != 0 then Some((pr.currentStep, pr.totalSteps)) else None,
        if pr.description != [] then Some(pr.description) else None,
        if pr.eta.Some? && pr.eta.value != [] then Some((pr.eta.value, FormatDuration(pr.elapsedTime))) else None)
  }

  /** A progress summary taken from a parsed line. */
  function SummaryOf(p: ProgressInfo): ProgressSummary {
    ProgressSummary(p.percentage, p.currentStep, p.totalSteps, p.eta, p.description, p.elapsedTime)
  }

  /** A job whose last progress line was a bare percentage (no tqdm bar) shows neither a step
      line nor a timing line, only its percentage and the line itself. */
  lemma BarePercentageShowsNoSteps(line: string, logs: seq<string>, output: seq<string>)
    requires '|' !in line && ParseTqdmLine(line).Some?
    ensures var p := ProgressPanelOf(Active(SummaryOf(ParseTqdmLine(line).value), logs, output));
      p.LiveProgress? && p.steps.None? && p.timing.None?
      && (p.description.Some? ==> p.description.value == Strip(line))
  {
    FallbackHasNoSteps(line);
  }

  // ---------------------------------------------------------------- the getters

  /** A job id argument counts only when given and non-empty. */
  predicate IsGiven(jobId: Option<string>) {
    jobId.Some? && jobId.value != []
  }

  /** get_progress_status: the given job's progress, or else the queue's active job's. */
  function GetProgressStatus(jobId: Option<string>, active: Option<JobInfo>, tracker: ProgressTracker): (p: ProgressPanel)
    reads tracker, tracker.tqdm, tracker.log
    ensures IsGiven(jobId) ==> (p.LiveProgress? <==> tracker.activeJobId == Some(jobId.value))
    ensures !IsGiven(jobId) ==> (p.LiveProgress? <==> active.Some? && tracker.activeJobId == Some(active.value.jobId))
    ensures p.LiveProgress? ==> p.percentage == tracker.tqdm.currentProgress.percentage
  {
    if IsGiven(jobId) then ProgressPanelOf(tracker.JobProgressInfo(jobId.value))
    else if active.Some? then ProgressPanelOf(tracker.JobProgressInfo(active.value.jobId))
    else ProgressPanelOf(Inactive)
  }

  /** Whether the log getter finds a tracked job: the given one, or else the queue's active one. */
  predicate LogsFound(jobId: Option<string>, active: Option<JobInfo>, tracker: ProgressTracker)
    reads tracker
  {
    (IsGiven(jobId) && tracker.activeJobId == Some(jobId.value))
      || (active.Some? && tracker.activeJobId == Some(active.value.jobId))
  }

  /** get_live_logs: the tracked job's last log lines, or "No active job logs". */
  function GetLiveLogs(jobId: Option<string>, active: Option<JobInfo>, tracker: ProgressTracker): (text: string)
    reads tracker, tracker.tqdm, tracker.log
    ensures text == if LogsFound(jobId, active, tracker) then LogDisplay(LastN(tracker.log.logLines, LogLinesShown))
                    else "No active job logs"
  {
    var given := if IsGiven(jobId) then tracker.JobProgressInfo(jobId.value) else Inactive;
    if given.Active? then LogDisplay(given.recentLogs)
    else if active.Some? && tracker.JobProgressInfo(active.value.jobId).Active? then
      LogDisplay(tracker.JobProgressInfo(active.value.jobId).recentLogs)
    else "No active job logs"
  }

  /** Given the id of a job that is no longer tracked, the progress getter reports no active job
      while the log getter falls back to the queue's active job. */
  lemma StaleIdGettersDiffer(jobId: string, active: JobInfo, tracker: ProgressTracker)
    requires jobId != [] && tracker.activeJobId != Some(jobId) && tracker.activeJobId == Some(active.jobId)
    ensures GetProgressStatus(Some(jobId), Some(active), tracker) == NoActiveJob
    ensures GetLiveLogs(Some(jobId), Some(active), tracker) == LogDisplay(LastN(tracker.log.logLines, LogLinesShown))
  {
  }

  /** The status snapshot the getters read from the queue. */
  function StatusOf(queue: QueueManager, now: real): QueueStatus
    reads queue
  {
    var queued := QueuedJobs(queue.queueOrder, queue.jobs);
    QueueStatus(|queued|, queue.ActiveJobInfo(), QueueWait(queued, queue.ActiveJobInfo(), now),
                Take(queued, StatusListed), queue.avgProcessingTimes)
  }

  /** update_status_components: the three views, each from its own query. The queue view is the
      getter as written, so it is the error view whenever a job is queued, and the corrected view
      otherwise. */
  method UpdateStatusComponents(queue: QueueManager, tracker: ProgressTracker, now: real)
    returns (queueView: QueueView, progress: ProgressPanel, logs: string)
    requires queue.Valid()
    ensures queueView == GetQueueStatusViewAsWritten(StatusOf(queue, now))
    ensures queueView.QueueStatusError? <==> QueuedJobs(queue.queueOrder, queue.jobs) != []
    ensures queueView.QueueStatusError? ==> queueView.message == CreatedAtTypeError
    ensures !queueView.QueueStatusError? ==> queueView == GetQueueStatusView(StatusOf(queue, now))
    ensures progress == GetProgressStatus(None, queue.ActiveJobInfo(), tracker)
    ensures logs == GetLiveLogs(None, queue.ActiveJobInfo(), tracker)
  {
    var st := queue.GetQueueStatus(now);
    QueueViewAsWrittenFails(st);
    queueView := GetQueueStatusViewAsWritten(st);
    var st2 := queue.GetQueueStatus(now);
    progress := GetProgressStatus(None, st2.activeJob, tracker);
    var st3 := queue.GetQueueStatus(now);
    logs := GetLiveLogs(None, st3.activeJob, tracker);
  }

  /** Each getter falls back on its own: when the as-written queue builder fails, the progress and
      log views of the tracked active job are still shown. */
  lemma QueueFailureLeavesOthers(st: QueueStatus, tracker: ProgressTracker)
    requires st.queueLength > 0 && st.queueJobs != []
    requires st.activeJob.Some? && tracker.activeJobId == Some(st.activeJob.value.jobId)
    ensures GetQueueStatusViewAsWritten(st).QueueStatusError?
    ensures GetProgressStatus(None, st.activeJob, tracker).LiveProgress?
    ensures GetLiveLogs(None, st.activeJob, tracker) == LogDisplay(LastN(tracker.log.logLines, LogLinesShown))
  {
    QueueViewAsWrittenFails(st);
  }

  /** Over a valid queue, the "Next Jobs" list holds the first (up to) three queued jobs in FIFO
      order, and appears exactly when jobs wait. */
  lemma NextJobsAreFirstQueued(queue: QueueManager, now: real)
    ensures var queued := QueuedJobs(queue.queueOrder, queue.jobs);
      var p := QueuePanelOf(StatusOf(queue, now));
      queued != [] ==>
        && p.BusyPanel? && |p.sections| > 0 && p.sections[|p.sections| - 1].NextJobs?
        && var e := p.sections[|p.sections| - 1].entries;
           && |e| == (if |queued| < NextJobsShown then |queued| else NextJobsShown)
           && forall k :: 0 <= k < |e| ==> e[k].jobId == queued[k].jobId
  {
    var queued := QueuedJobs(queue.queueOrder, queue.jobs);
    var st := StatusOf(queue, now);
    if queued != [] {
      assert st.queueJobs != [] && st.queueLength > 0;
      QueuePanelNextJobs(st);
    }
  }
}
