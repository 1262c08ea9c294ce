/** The job queue: admission, the single active job, progress, completion into a bounded
    history, wait-time estimation and the per-type running average of processing time. */
module Queue {
  import opened Wrappers
  import opened Text
  import opened Seqs

  /** Fallback duration, in seconds, for a job type with no running average. */
  const DefaultDuration: real := 150.0
  /** Number of finished jobs the history keeps. */
  const MaxHistory: nat := 100
  /** Number of queued jobs a status snapshot lists. */
  const StatusListed: nat := 5

  datatype JobStatus = Queued | Processing | Completed | Failed {
    predicate IsTerminal() { this == Completed || this == Failed }
  }

  /** One generation request. Timestamps are seconds on the wall clock. */
  datatype JobInfo = JobInfo(
    jobId: string,
    userSession: string,
    jobType: string,
    status: JobStatus,
    createdAt: real,
    startedAt: Option<real>,
    completedAt: Option<real>,
    progress: real,
    currentStep: string,
    estimatedDuration: real,
    errorMessage: Option<string>)

  /** What the status query reports. */
  datatype QueueStatus = QueueStatus(
    queueLength: nat,
    activeJob: Option<JobInfo>,
    estimatedWaitTime: real,
    queueJobs: seq<JobInfo>,
    avgProcessingTimes: map<string, real>)

  /** The seeded running averages: two minutes for "single", three for "multi". */
  function InitialAverages(): (avg: map<string, real>)
    ensures avg.Keys == {"single", "multi"}
    ensures avg["single"] == 120.0 && avg["multi"] == 180.0
  {
    map["single" := 120.0, "multi" := 180.0]
  }

  /** `estimated_duration or 150.0`: a zero duration is falsy and falls back to the default. */
  function DurationOrDefault(d: real): real {
    if d != 0.0 then d else DefaultDuration
  }

  /** The duration a new job of this type is expected to take. */
  function EstimatedDurationFor(avg: map<string, real>, jobType: string): (d: real)
    ensures jobType in avg ==> d == avg[jobType]
    ensures jobType !in avg ==> d == DefaultDuration
  {
    if jobType in avg then avg[jobType] else DefaultDuration
  }

  /** The session tag: the caller's, or "session_<unix seconds>" when none is given. */
  function SessionOrDefault(userSession: Option<string>, now: real): (s: string)
    ensures userSession.Some? ==> s == userSession.value
    ensures userSession.None? ==> StartsWith(s, "session_")
  {
    match userSession
    case Some(u) => u
    case None => "session_" + IntToString(Trunc(now))
  }

  /** Exponential moving average giving weight 0.3 to the newest observation. */
  function Ema(current: real, duration: real): real {
    0.7 * current + 0.3 * duration
  }

  /** The new average lies between the old average and the observation. */
  lemma EmaBetween(current: real, duration: real)
    ensures current <= duration ==> current <= Ema(current, duration) <= duration
    ensures duration <= current ==> duration <= Ema(current, duration) <= current
    ensures Ema(current, duration) - duration == 0.7 * (current - duration)
  {
  }

  /** The averages table after observing one duration: only a known type changes. */
  function UpdatedAverages(avg: map<string, real>, jobType: string, duration: real): (r: map<string, real>)
    ensures r.Keys == avg.Keys
    ensures forall t :: t in avg && t != jobType ==> r[t] == avg[t]
    ensures jobType in avg ==> r[jobType] == Ema(avg[jobType], duration)
  {
    if jobType in avg then avg[jobType := Ema(avg[jobType], duration)] else avg
  }

  /** Remaining time of a job: its expected duration while it has no start or no progress,
      nothing once done, else the elapsed time extrapolated by the progress fraction. */
  function EstimateRemainingTime(job: JobInfo, now: real): (r: real)
    ensures job.startedAt.None? || job.progress <= 0.0 ==> r == DurationOrDefault(job.estimatedDuration)
    ensures job.startedAt.Some? && job.progress >= 1.0 ==> r == 0.0
    ensures job.startedAt.Some? && 0.0 < job.progress < 1.0 ==> r >= 0.0
    ensures job.estimatedDuration >= 0.0 ==> r >= 0.0
  {
    if job.startedAt.None? || job.progress <= 0.0 then DurationOrDefault(job.estimatedDuration)
    else
      var elapsed := now - job.startedAt.value;
      if job.progress >= 1.0 then 0.0
      else
        var estimatedTotal := elapsed / job.progress;
        if estimatedTotal - elapsed > 0.0 then estimatedTotal - elapsed else 0.0
  }

  /** Mid-run, the remaining time is the elapsed time scaled by the fraction still to do over
      the fraction done. */
  lemma RemainingMidRun(job: JobInfo, now: real)
    requires job.startedAt.Some? && 0.0 < job.progress < 1.0 && now >= job.startedAt.value
    ensures EstimateRemainingTime(job, now) == (now - job.startedAt.value) * (1.0 - job.progress) / job.progress
  {
    var e := now - job.startedAt.value;
    var p := job.progress;
    assert e / p - e == e * (1.0 - p) / p by {
      assert e / p * p == e;
      assert e * (1.0 - p) / p * p == e * (1.0 - p);
    }
    assert e * (1.0 - p) >= 0.0;
  }

  /** With the same start and clock, more progress never means more remaining time. */
  lemma RemainingShrinksWithProgress(job: JobInfo, p: real, q: real, now: real)
    requires job.startedAt.Some? && now >= job.startedAt.value
    requires 0.0 < p <= q
    ensures EstimateRemainingTime(job.(progress := q), now) <= EstimateRemainingTime(job.(progress := p), now)
  {
    var e := now - job.startedAt.value;
    if q < 1.0 {
      assert e / q <= e / p by {
        assert e / q * q == e;
        assert e / p * p == e;
        assert e / q * p <= e / q * q;
      }
    }
  }

  /** The record a job becomes when it finishes. */
  function FinishedRecord(job: JobInfo, success: bool, errorMessage: Option<string>, now: real): (r: JobInfo)
    ensures r.status == (if success then Completed else Failed)
    ensures r.completedAt == Some(now)
    ensures success ==> r.progress == 1.0
    ensures !success ==> r.progress == job.progress
    ensures r.errorMessage == if errorMessage.Some? && errorMessage.value != "" then errorMessage else job.errorMessage
    ensures r.(status := job.status, completedAt := job.completedAt, progress := job.progress,
               errorMessage := job.errorMessage) == job
  {
    job.(status := if success then Completed else Failed,
         completedAt := Some(now),
         progress := if success then 1.0 else job.progress,
         errorMessage := if errorMessage.Some? && errorMessage.value != "" then errorMessage else job.errorMessage)
  }

  /** The jobs map after a progress report: only the named job's progress and step change. */
  function WithProgress(jobs: map<string, JobInfo>, jobId: string, progress: real, step: string)
    : (r: map<string, JobInfo>)
    ensures r.Keys == jobs.Keys
    ensures forall id :: id in jobs && id != jobId ==> r[id] == jobs[id]
    ensures jobId in jobs ==> r[jobId] == jobs[jobId].(progress := progress, currentStep := step)
  {
    if jobId in jobs then jobs[jobId := jobs[jobId].(progress := progress, currentStep := step)] else jobs
  }

  /** The records of the ids in queue order that are still live, in that order. */
  function QueuedJobs(order: seq<string>, jobs: map<string, JobInfo>): (q: seq<JobInfo>)
    ensures |q| <= |order|
    ensures forall j :: j in q ==> j in jobs.Values
  {
    if order == [] then []
    else
      var prev := QueuedJobs(order[..|order| - 1], jobs);
      var id := order[|order| - 1];
      if id in jobs then prev + [jobs[id]] else prev
  }

  /** When every id of the order is live, the listing has exactly one record per id. */
  lemma {:induction false} QueuedJobsAllLive(order: seq<string>, jobs: map<string, JobInfo>)
    requires forall id :: id in order ==> id in jobs
    ensures |QueuedJobs(order, jobs)| == |order|
    ensures forall i :: 0 <= i < |order| ==> QueuedJobs(order, jobs)[i] == jobs[order[i]]
  {
    if order != [] {
      var prefix := order[..|order| - 1];
      QueuedJobsAllLive(prefix, jobs);
      assert QueuedJobs(order, jobs) == QueuedJobs(prefix, jobs) + [jobs[order[|order| - 1]]];
      forall i | 0 <= i < |order|
        ensures QueuedJobs(order, jobs)[i] == jobs[order[i]]
      {
        if i < |prefix| {
          assert order[i] == prefix[i];
        }
      }
    }
  }

  /** An id that is not in the order does not affect the listing, whatever it maps to. */
  lemma {:induction false} QueuedJobsIgnoresAbsent(order: seq<string>, jobs: map<string, JobInfo>, id: string, job: JobInfo)
    requires id !in order
    ensures QueuedJobs(order, jobs[id := job]) == QueuedJobs(order, jobs)
  {
    if order != [] {
      QueuedJobsIgnoresAbsent(order[..|order| - 1], jobs, id, job);
    }
  }

  /** Sum of the expected durations of the jobs (with the 150-second fallback). */
  function SumDurations(js: seq<JobInfo>): real
  {
    if js == [] then 0.0 else SumDurations(js[..|js| - 1]) + DurationOrDefault(js[|js| - 1].estimatedDuration)
  }

  lemma {:induction false} SumDurationsFirst(js: seq<JobInfo>)
    requires js != []
    ensures SumDurations(js) == DurationOrDefault(js[0].estimatedDuration) + SumDurations(js[1..])
  {
    if |js| > 1 {
      SumDurationsFirst(js[..|js| - 1]);
      assert js[..|js| - 1][1..] == js[1..][..|js[1..]| - 1];
    }
  }

  lemma {:induction false} SumDurationsNonNegative(js: seq<JobInfo>)
    requires forall i :: 0 <= i < |js| ==> js[i].estimatedDuration >= 0.0
    ensures SumDurations(js) >= 0.0
  {
    if js != [] {
      SumDurationsNonNegative(js[..|js| - 1]);
    }
  }

  /** The first queued job's term of the wait: the active job's remaining time when there is
      an active job (replacing that queued job's own duration), else its own duration. */
  function FirstWaitTerm(first: JobInfo, active: Option<JobInfo>, now: real): real {
    if active.Some? then EstimateRemainingTime(active.value, now) else DurationOrDefault(first.estimatedDuration)
  }

  /** The total estimated wait the status reports for the queued jobs. */
  function QueueWait(queued: seq<JobInfo>, active: Option<JobInfo>, now: real): real {
    if queued == [] then 0.0 else FirstWaitTerm(queued[0], active, now) + SumDurations(queued[1..])
  }

  /** Without an active job the wait is the plain sum of the queued durations. */
  lemma QueueWaitIdle(queued: seq<JobInfo>, now: real)
    ensures QueueWait(queued, None, now) == SumDurations(queued)
  {
    if queued != [] {
      SumDurationsFirst(queued);
    }
  }

  /** Admitting one more job adds exactly one term to the wait: its own duration, or the active
      job's remaining time when it is the first in line behind an active job. */
  lemma QueueWaitAppend(queued: seq<JobInfo>, job: JobInfo, active: Option<JobInfo>, now: real)
    ensures QueueWait(queued + [job], active, now) == QueueWait(queued, active, now) +
      (if queued == [] then FirstWaitTerm(job, active, now) else DurationOrDefault(job.estimatedDuration))
  {
    if queued != [] {
      var q := queued + [job];
      assert q[1..][..|q[1..]| - 1] == queued[1..];
      assert q[0] == queued[0];
    } else {
      assert ([] + [job])[1..] == [];
    }
  }

  /** The wait is never negative when no duration is. */
  lemma QueueWaitNonNegative(queued: seq<JobInfo>, active: Option<JobInfo>, now: real)
    requires forall i :: 0 <= i < |queued| ==> queued[i].estimatedDuration >= 0.0
    requires active.Some? ==> active.value.estimatedDuration >= 0.0
    ensures QueueWait(queued, active, now) >= 0.0
  {
    if queued != [] {
      SumDurationsNonNegative(queued[1..]);
    }
  }

  /** History entries completed strictly after the cutoff. */
  function FilterRecent(history: seq<JobInfo>, cutoff: real): (r: seq<JobInfo>)
    ensures |r| <= |history|
  {
    if history == [] then []
    else
      var prev := FilterRecent(history[..|history| - 1], cutoff);
      var h := history[|history| - 1];
      if h.completedAt.Some? && h.completedAt.value > cutoff then prev + [h] else prev
  }

  /** The filtered history holds exactly the entries completed after the cutoff. */
  lemma {:induction false} FilterRecentMembers(history: seq<JobInfo>, cutoff: real)
    ensures forall j :: j in FilterRecent(history, cutoff) ==>
      j in history && j.completedAt.Some? && j.completedAt.value > cutoff
    ensures forall j :: j in history && j.completedAt.Some? && j.completedAt.value > cutoff ==>
      j in FilterRecent(history, cutoff)
  {
    if history != [] {
      var init := history[..|history| - 1];
      FilterRecentMembers(init, cutoff);
      assert history == init + [history[|history| - 1]];
    }
  }

  /** Live records created before the cutoff that are already finished. */
  function StaleIds(jobs: map<string, JobInfo>, cutoff: real): set<string> {
    set id | id in jobs.Keys && jobs[id].createdAt < cutoff && jobs[id].status.IsTerminal()
  }

  /** The ids of a jobs map whose records say Processing. */
  ghost function ProcessingIn(jobs: map<string, JobInfo>): set<string> {
    set id | id in jobs.Keys && jobs[id].status == Processing
  }

  lemma ProcessingAfterRemove(jobs: map<string, JobInfo>, jobId: string)
    ensures ProcessingIn(jobs - {jobId}) == ProcessingIn(jobs) - {jobId}
  {
  }

  lemma ProcessingAfterStart(jobs: map<string, JobInfo>, jobId: string, job: JobInfo)
    requires job.status == Processing
    ensures ProcessingIn(jobs[jobId := job]) == ProcessingIn(jobs) + {jobId}
  {
  }

  /** Every live record is keyed by its id and not finished; a queued record is in the queue
      order; a processing record has a start time; the active id is live; the history is
      bounded and holds only finished records. */
  ghost predicate ValidState(jobs: map<string, JobInfo>, queueOrder: seq<string>, activeJob: Option<string>,
                             jobHistory: seq<JobInfo>)
  {
    && |jobHistory| <= MaxHistory
    && (forall id :: id in jobs ==> jobs[id].jobId == id && !jobs[id].status.IsTerminal())
    && (forall id :: id in jobs && jobs[id].status == Queued ==> id in queueOrder)
    && (forall id :: id in jobs && jobs[id].status == Processing ==> jobs[id].startedAt.Some?)
    && (activeJob.Some? ==> activeJob.value in jobs)
    && (forall i :: 0 <= i < |jobHistory| ==>
          jobHistory[i].status.IsTerminal() && jobHistory[i].completedAt.Some?)
  }

  /** Progress reports touch neither ids nor statuses, so they keep the invariant. */
  lemma WithProgressKeepsValid(jobs: map<string, JobInfo>, queueOrder: seq<string>, activeJob: Option<string>,
                               jobHistory: seq<JobInfo>, jobId: string, progress: real, step: string)
    requires ValidState(jobs, queueOrder, activeJob, jobHistory)
    ensures ValidState(WithProgress(jobs, jobId, progress, step), queueOrder, activeJob, jobHistory)
  {
  }

  /** Admitting a queued record at the back of the queue order keeps the invariant. */
  lemma AddKeepsValid(jobs: map<string, JobInfo>, queueOrder: seq<string>, activeJob: Option<string>,
                      jobHistory: seq<JobInfo>, job: JobInfo)
    requires ValidState(jobs, queueOrder, activeJob, jobHistory)
    requires job.status == Queued
    ensures ValidState(jobs[job.jobId := job], queueOrder + [job.jobId], activeJob, jobHistory)
  {
  }

  /** Starting a live job (it leaves the queue order, gains a start time, becomes the active
      one) keeps the invariant. */
  lemma StartKeepsValid(jobs: map<string, JobInfo>, queueOrder: seq<string>, activeJob: Option<string>,
                        jobHistory: seq<JobInfo>, jobId: string, now: real)
    requires ValidState(jobs, queueOrder, activeJob, jobHistory)
    requires jobId in jobs
    ensures ValidState(jobs[jobId := jobs[jobId].(status := Processing, startedAt := Some(now))],
                       RemoveFirst(queueOrder, jobId), Some(jobId), jobHistory)
  {
    RemoveFirstKeepsOthers(queueOrder, jobId);
  }

  /** Finishing a live job (its record moves to the bounded history, and it stops being the
      active one) keeps the invariant. */
  lemma CompleteKeepsValid(jobs: map<string, JobInfo>, queueOrder: seq<string>, activeJob: Option<string>,
                           jobHistory: seq<JobInfo>, jobId: string, success: bool,
                           errorMessage: Option<string>, now: real)
    requires ValidState(jobs, queueOrder, activeJob, jobHistory)
    requires jobId in jobs
    ensures ValidState(jobs - {jobId}, queueOrder, if activeJob == Some(jobId) then None else activeJob,
                       AppendEvict(jobHistory, FinishedRecord(jobs[jobId], success, errorMessage, now), MaxHistory))
  {
    HistoryKeepsFinished(jobHistory, FinishedRecord(jobs[jobId], success, errorMessage, now));
  }

  /** The bounded history stays bounded and holds only finished records. */
  lemma HistoryKeepsFinished(jobHistory: seq<JobInfo>, done: JobInfo)
    requires |jobHistory| <= MaxHistory
    requires forall i :: 0 <= i < |jobHistory| ==> jobHistory[i].status.IsTerminal() && jobHistory[i].completedAt.Some?
    requires done.status.IsTerminal() && done.completedAt.Some?
    ensures |AppendEvict(jobHistory, done, MaxHistory)| <= MaxHistory
    ensures forall i :: 0 <= i < |AppendEvict(jobHistory, done, MaxHistory)| ==>
      AppendEvict(jobHistory, done, MaxHistory)[i].status.IsTerminal() &&
      AppendEvict(jobHistory, done, MaxHistory)[i].completedAt.Some?
  {
    var h := AppendEvict(jobHistory, done, MaxHistory);
    forall i | 0 <= i < |h|
      ensures h[i].status.IsTerminal() && h[i].completedAt.Some?
    {
      if i < |h| - 1 {
        assert h[i] == jobHistory[i + |jobHistory| + 1 - |h|];
      }
    }
  }

  /** In a valid state no live record is finished, so the cleanup finds nothing stale, and
      filtering the history keeps the invariant. */
  lemma CleanupKeepsValid(jobs: map<string, JobInfo>, queueOrder: seq<string>, activeJob: Option<string>,
                          jobHistory: seq<JobInfo>, cutoff: real)
    requires ValidState(jobs, queueOrder, activeJob, jobHistory)
    ensures StaleIds(jobs, cutoff) == {}
    ensures ValidState(jobs, queueOrder, activeJob, FilterRecent(jobHistory, cutoff))
  {
    var h := FilterRecent(jobHistory, cutoff);
    FilterRecentMembers(jobHistory, cutoff);
    forall i | 0 <= i < |h|
      ensures h[i].status.IsTerminal() && h[i].completedAt.Some?
    {
      assert h[i] in jobHistory;
    }
  }

  /** Cleanup never drops an unfinished live record. */
  lemma StaleKeepsUnfinished(jobs: map<string, JobInfo>, cutoff: real)
    ensures forall id :: id in jobs && !jobs[id].status.IsTerminal() ==>
      id in jobs - StaleIds(jobs, cutoff) && (jobs - StaleIds(jobs, cutoff))[id] == jobs[id]
  {
  }

  /** The cleanup's deletion loop: each id leaves the live records and, when queued, the queue
      order (its first occurrence, as `list.remove` does). */
  method DropIds(jobs: map<string, JobInfo>, order: seq<string>, ids: set<string>)
    returns (live: map<string, JobInfo>, kept: seq<string>)
    ensures live == jobs - ids
    ensures forall y :: y in kept ==> y in order
    ensures forall y :: y in order && y !in ids ==> y in kept
    ensures ids == {} ==> kept == order
  {
    live := jobs;
    kept := order;
    var remaining := ids;
    while remaining != {}
      invariant remaining <= ids
      invariant live == jobs - (ids - remaining)
      invariant forall y :: y in kept ==> y in order
      invariant forall y :: y in order && y !in ids - remaining ==> y in kept
      invariant remaining == ids ==> kept == order
      decreases remaining
    {
      var id :| id in remaining;
      RemoveFirstKeepsOthers(kept, id);
      live := live - {id};
      if id in kept {
        kept := RemoveFirst(kept, id);
      }
      remaining := remaining - {id};
    }
  }

  /** Appending an id to the queue order puts it last and moves no one already queued. */
  lemma AppendPositions(order: seq<string>, jobId: string)
    ensures jobId !in order ==> IndexOf(order + [jobId], jobId) == Some(|order|)
    ensures forall x :: x in order ==> IndexOf(order + [jobId], x) == IndexOf(order, x)
  {
    IndexOfAppend(order, jobId, jobId);
    forall x | x in order
      ensures IndexOf(order + [jobId], x) == IndexOf(order, x)
    {
      IndexOfAppend(order, jobId, x);
    }
  }

  /** Admitting a job under a new id adds its record at the end of the listing. */
  lemma AppendQueued(order: seq<string>, jobs: map<string, JobInfo>, job: JobInfo)
    requires job.jobId !in order
    ensures QueuedJobs(order + [job.jobId], jobs[job.jobId := job]) == QueuedJobs(order, jobs) + [job]
  {
    QueuedJobsIgnoresAbsent(order, jobs, job.jobId, job);
    assert (order + [job.jobId])[..|order|] == order;
  }

  class QueueManager {
    var jobs: map<string, JobInfo>
    var queueOrder: seq<string>
    var activeJob: Option<string>
    var jobHistory: seq<JobInfo>
    var avgProcessingTimes: map<string, real>

    ghost predicate Valid()
      reads this
    {
      ValidState(jobs, queueOrder, activeJob, jobHistory)
    }

    /** The ids whose live records say Processing. */
    ghost function ProcessingIds(): set<string>
      reads this
    {
      ProcessingIn(jobs)
    }

    constructor ()
      ensures Valid()
      ensures jobs == map[] && queueOrder == [] && activeJob == None && jobHistory == []
      ensures avgProcessingTimes == InitialAverages()
    {
      jobs := map[];
      queueOrder := [];
      activeJob := None;
      jobHistory := [];
      avgProcessingTimes := InitialAverages();
    }

    /** Admits a job under the given (fresh) id: a queued record at the back of the queue. */
    method AddJob(jobId: string, jobType: string, userSession: Option<string>, now: real) returns (id: string)
      requires Valid()
      modifies this
      ensures Valid() && id == jobId
      ensures jobs == old(jobs)[jobId := JobInfo(jobId, SessionOrDefault(userSession, now), jobType, Queued,
        now, None, None, 0.0, "", EstimatedDurationFor(old(avgProcessingTimes), jobType), None)]
      ensures queueOrder == old(queueOrder) + [jobId]
      ensures activeJob == old(activeJob) && jobHistory == old(jobHistory)
      ensures avgProcessingTimes == old(avgProcessingTimes)
    {
      var job := JobInfo(jobId, SessionOrDefault(userSession, now), jobType, Queued,
        now, None, None, 0.0, "", EstimatedDurationFor(avgProcessingTimes, jobType), None);
      AddKeepsValid(jobs, queueOrder, activeJob, jobHistory, job);
      jobs := jobs[jobId := job];
      queueOrder := queueOrder + [jobId];
      id := jobId;
    }

    /** Marks a job as started: it becomes the active job and leaves the queue order. The job's
        current status is not checked, and the previous active job keeps its status. */
    method StartJob(jobId: string, now: real) returns (ok: bool)
      requires Valid()
      modifies this
      ensures Valid()
      ensures ok <==> jobId in old(jobs)
      ensures !ok ==> jobs == old(jobs) && queueOrder == old(queueOrder) && activeJob == old(activeJob)
      ensures ok ==> jobs == old(jobs)[jobId := old(jobs)[jobId].(status := Processing, startedAt := Some(now))]
      ensures ok ==> activeJob == Some(jobId) && queueOrder == RemoveFirst(old(queueOrder), jobId)
      ensures ok ==> ProcessingIds() == old(ProcessingIds()) + {jobId}
      ensures jobHistory == old(jobHistory) && avgProcessingTimes == old(avgProcessingTimes)
    {
      if jobId !in jobs {
        return false;
      }
      StartKeepsValid(jobs, queueOrder, activeJob, jobHistory, jobId, now);
      ProcessingAfterStart(jobs, jobId, jobs[jobId].(status := Processing, startedAt := Some(now)));
      jobs := jobs[jobId := jobs[jobId].(status := Processing, startedAt := Some(now))];
      activeJob := Some(jobId);
      if jobId in queueOrder {
        queueOrder := RemoveFirst(queueOrder, jobId);
      }
      ok := true;
    }

    /** Records a progress report; an unknown id changes nothing and creates no record. */
    method UpdateJobProgress(jobId: string, progress: real, currentStep: string)
      modifies this
      ensures jobs == WithProgress(old(jobs), jobId, progress, currentStep)
      ensures jobId !in old(jobs) ==> jobs == old(jobs)
      ensures queueOrder == old(queueOrder) && activeJob == old(activeJob)
      ensures jobHistory == old(jobHistory) && avgProcessingTimes == old(avgProcessingTimes)
    {
      if jobId in jobs {
        jobs := jobs[jobId := jobs[jobId].(progress := progress, currentStep := currentStep)];
      }
    }

    /** Folds a successful duration into the running average of its type (known types only). */
    method UpdateAvgProcessingTime(jobType: string, duration: real)
      modifies this`avgProcessingTimes
      ensures avgProcessingTimes == UpdatedAverages(old(avgProcessingTimes), jobType, duration)
    {
      if jobType in avgProcessingTimes {
        var currentAvg := avgProcessingTimes[jobType];
        avgProcessingTimes := avgProcessingTimes[jobType := 0.7 * currentAvg + 0.3 * duration];
      }
    }

    /** Finishes a job: it leaves the live records for the bounded history, the average of its
        type absorbs its duration on success, and it stops being the active job. An unknown id
        (for one, a second completion) changes nothing. The queue order is left as it was. */
    method CompleteJob(jobId: string, success: bool, errorMessage: Option<string>, now: real)
      requires Valid()
      modifies this
      ensures Valid()
      ensures jobId !in old(jobs) ==>
        jobs == old(jobs) && activeJob == old(activeJob) && jobHistory == old(jobHistory) &&
        avgProcessingTimes == old(avgProcessingTimes)
      ensures jobId in old(jobs) ==>
        var done := FinishedRecord(old(jobs)[jobId], success, errorMessage, now);
        && jobs == old(jobs) - {jobId}
        && jobHistory == AppendEvict(old(jobHistory), done, MaxHistory)
        && activeJob == (if old(activeJob) == Some(jobId) then None else old(activeJob))
        && avgProcessingTimes == (if success && old(jobs)[jobId].startedAt.Some?
             then UpdatedAverages(old(avgProcessingTimes), old(jobs)[jobId].jobType,
                                  now - old(jobs)[jobId].startedAt.value)
             else old(avgProcessingTimes))
      ensures queueOrder == old(queueOrder)
      ensures ProcessingIds() == old(ProcessingIds()) - {jobId}
    {
      if jobId !in jobs {
        return;
      }
      var started := jobs[jobId];
      var job := FinishedRecord(started, success, errorMessage, now);
      var remaining := jobs - {jobId};
      var history := jobHistory + [job];
      if |history| > MaxHistory {
        history := history[1..];
      }
      CompleteKeepsValid(jobs, queueOrder, activeJob, jobHistory, jobId, success, errorMessage, now);
      ProcessingAfterRemove(jobs, jobId);
      if success && started.startedAt.Some? {
        var duration := now - started.startedAt.value;
        UpdateAvgProcessingTime(started.jobType, duration);
      }
      jobHistory := history;
      if activeJob == Some(jobId) {
        activeJob := None;
      }
      jobs := remaining;
    }

    /** The active job's record, when the active id is set (and non-empty) and still live. */
    function ActiveJobInfo(): (r: Option<JobInfo>)
      reads this
      ensures r.Some? ==> activeJob.Some? && activeJob.value in jobs && r.value == jobs[activeJob.value]
      ensures Valid() && activeJob.Some? && activeJob.value != "" ==> r.Some?
    {
      if activeJob.Some? && activeJob.value != "" && activeJob.value in jobs then Some(jobs[activeJob.value])
      else None
    }

    /** Snapshot of the queue: the live queued jobs in order (at most five listed), the active
        job, and the estimated total wait accumulated over the queued jobs. */
    method GetQueueStatus(now: real) returns (st: QueueStatus)
      requires Valid()
      ensures st.queueLength == |QueuedJobs(queueOrder, jobs)|
      ensures st.queueJobs == Take(QueuedJobs(queueOrder, jobs), StatusListed)
      ensures st.activeJob == ActiveJobInfo()
      ensures st.estimatedWaitTime == QueueWait(QueuedJobs(queueOrder, jobs), ActiveJobInfo(), now)
      ensures st.avgProcessingTimes == avgProcessingTimes
    {
      var queued := QueuedJobs(queueOrder, jobs);
      var active := ActiveJobInfo();
      var total := 0.0;
      for i := 0 to |queued|
        invariant i == 0 ==> total == 0.0
        invariant i > 0 ==> total == FirstWaitTerm(queued[0], active, now) + SumDurations(queued[1..i])
      {
        if i == 0 && active.Some? {
          total := total + EstimateRemainingTime(active.value, now);
        } else {
          total := total + DurationOrDefault(queued[i].estimatedDuration);
        }
        if i > 0 {
          assert queued[1..i + 1][..i - 1] == queued[1..i];
        }
      }
      assert queued != [] ==> queued[1..|queued|] == queued[1..];
      st := QueueStatus(|queued|, active, total, Take(queued, StatusListed), avgProcessingTimes);
    }

    /** 1-based position in the queue order, or None when the id is not there. */
    function GetJobPosition(jobId: string): (r: Option<nat>)
      reads this
      ensures r.None? <==> jobId !in queueOrder
      ensures r.Some? ==> 1 <= r.value <= |queueOrder| && queueOrder[r.value - 1] == jobId
      ensures r.Some? ==> jobId !in queueOrder[..r.value - 1]
    {
      match IndexOf(queueOrder, jobId)
      case Some(i) => Some(i + 1)
      case None => None
    }

    /** The live record of a job, if any. */
    function GetJobInfo(jobId: string): (r: Option<JobInfo>)
      reads this
      ensures r.Some? <==> jobId in jobs
      ensures r.Some? ==> r.value == jobs[jobId]
    {
      if jobId in jobs then Some(jobs[jobId]) else None
    }

    /** Drops history entries completed at or before the cutoff (now minus the age) and live
        records that are finished and were created before it; queued and processing records
        are never removed. In a valid state no live record is finished, so only the history
        shrinks. */
    method CleanupOldJobs(now: real, maxAgeHours: int)
      modifies this
      ensures old(Valid()) ==> Valid()
      ensures var cutoff := now - maxAgeHours as real * 3600.0;
        && jobHistory == FilterRecent(old(jobHistory), cutoff)
        && jobs == old(jobs) - StaleIds(old(jobs), cutoff)
      ensures forall y :: y in queueOrder ==> y in old(queueOrder)
      ensures old(Valid()) ==> jobs == old(jobs) && queueOrder == old(queueOrder)
      ensures activeJob == old(activeJob) && avgProcessingTimes == old(avgProcessingTimes)
    {
      var cutoff := now - maxAgeHours as real * 3600.0;
      if Valid() {
        CleanupKeepsValid(jobs, queueOrder, activeJob, jobHistory, cutoff);
      }
      var history := FilterRecent(jobHistory, cutoff);
      var stale := StaleIds(jobs, cutoff);
      var live, order := DropIds(jobs, queueOrder, stale);
      jobHistory := history;
      jobs := live;
      queueOrder := order;
    }
  }

  /** One "single" job run for 100 seconds moves its average from the seeded 120 to 114. */
  method SingleJobAverageScenario() returns (avg: real)
    ensures avg == 114.0
  {
    var m := new QueueManager();
    var id := m.AddJob("job1", "single", None, 0.0);
    var ok := m.StartJob(id, 0.0);
    m.CompleteJob(id, true, None, 100.0);
    avg := m.avgProcessingTimes["single"];
  }
}
