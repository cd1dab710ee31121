/** Where a mailbox sync has got to: one pure reading of two records, and what its two worker flags
    promise over time. Times are seconds. */
module SyncProgress {
  import opened Prelude

  const WORKER_FRESH := 300.0
  const WORKER_STARTING := 240.0
  const SETTLED_VISIBLE := 3600.0
  const BROKEN_CHAIN_GRACE := 120.0

  datatype PollState = Waiting | Running

  /** What the job queue says of one source. */
  datatype Jobs = Jobs(pollState: Option<PollState>, pollAttempts: nat, pollError: string,
                       pollEnqueuedAt: Option<real>, extractOpen: nat, extractFailed: nat, extractRunning: nat)

  datatype Status = Listing | Failed | Finished

  /** What the poll handlers recorded of the run. */
  datatype RunRecord = RunRecord(status: Status, startedAt: Option<real>, updatedAt: Option<real>,
                                 queued: nat, listed: nat, pages: nat, error: string)

  datatype Stage = Queued | Retrying | Connecting | ListingStage | Fetching | Done | FailedStage

  datatype Progress = Progress(stage: Stage, startedAt: Option<real>, listed: nat, found: nat, lowerBound: bool,
                               pulledIn: nat, remaining: nat, failed: nat, pages: nat, error: string,
                               waitingOnWorker: bool, workerStarting: bool)

  const STOPPED := "The sync stopped before it finished listing. Sync now resumes it."

  predicate WorkerAlive(seen: Option<real>, now: real) { seen.Some? && now - seen.value <= WORKER_FRESH }

  /** A worker was asked for recently enough that it may still be booting. Read off the poll job alone. */
  predicate WorkerStarting(jobs: Jobs, now: real, enabled: bool) {
    enabled && jobs.pollEnqueuedAt.Some? && 0.0 <= now - jobs.pollEnqueuedAt.value <= WORKER_STARTING
  }

  /** An open poll that starts a new sync: the old run's numbers are not shown. */
  function NewSync(jobs: Jobs, alive: bool, starting: bool): Progress
    requires jobs.pollState.Some?
  {
    var stage :=
      if jobs.pollState == Some(Running) then Connecting
      else if jobs.pollAttempts > 0 && jobs.pollError != "" then Retrying else Queued;
    Progress(stage, None, 0, 0, true, 0, 0, 0, 0, if stage.Retrying? then jobs.pollError else "",
             !stage.Connecting? && !alive && !starting, !stage.Connecting? && !alive && starting)
  }

  function RunStage(run: RunRecord, jobs: Jobs, now: real, updatedAt: Option<real>): Stage {
    if run.status.Failed? then FailedStage
    else if run.status.Listing? then
      if jobs.pollState.Some? || (updatedAt.Some? && now - updatedAt.value <= BROKEN_CHAIN_GRACE)
      then ListingStage else FailedStage
    else if jobs.extractOpen > 0 then Fetching else Done
  }

  /** `sync_progress`. */
  function Read(record: Option<RunRecord>, jobs: Jobs, now: real, seen: Option<real>, enabled: bool)
    : Option<Progress>
  {
    var continuing := record.Some? && record.value.status.Listing?;
    var starting := WorkerStarting(jobs, now, enabled);
    var alive := WorkerAlive(seen, now);
    if jobs.pollState.Some? && !continuing then Some(NewSync(jobs, alive, starting))
    else if record.None? || record.value.startedAt.None? then None
    else
      var run := record.value;
      var updatedAt := if run.updatedAt.Some? then run.updatedAt else run.startedAt;
      var pulledIn: nat := if run.queued >= jobs.extractOpen + jobs.extractFailed
                           then run.queued - jobs.extractOpen - jobs.extractFailed else 0;
      var stage := RunStage(run, jobs, now, updatedAt);
      if (stage.Done? || stage.FailedStage?) && (updatedAt.None? || now - updatedAt.value > SETTLED_VISIBLE) then None
      else
        var error := if stage.FailedStage? then (if run.error != "" then run.error else STOPPED)
                     else if stage.ListingStage? && jobs.pollAttempts > 0 then jobs.pollError else "";
        var inFlight := stage.ListingStage? || stage.Fetching?;
        var someoneOnIt := jobs.pollState == Some(Running) || jobs.extractRunning > 0;
        var unattended := inFlight && !someoneOnIt && !alive;
        Some(Progress(stage, run.startedAt, run.listed, run.queued, stage.ListingStage?, pulledIn,
                      jobs.extractOpen, jobs.extractFailed, run.pages, error,
                      unattended && !starting, unattended && starting))
  }

  // ---- Heartbeats ----

  predicate Ordered(beats: seq<real>) { forall i, j | 0 <= i <= j < |beats| :: beats[i] <= beats[j] }

  /** The last heartbeat written by `now`. */
  function LastSeen(beats: seq<real>, now: real): Option<real> {
    if beats == [] then None
    else if beats[|beats| - 1] <= now then Some(beats[|beats| - 1])
    else LastSeen(beats[..|beats| - 1], now)
  }

  lemma {:induction false} SeenSince(beats: seq<real>, now: real, i: nat)
    requires Ordered(beats) && i < |beats| && beats[i] <= now
    ensures LastSeen(beats, now).Some? && LastSeen(beats, now).value >= beats[i]
  {
    if beats[|beats| - 1] > now {
      SeenSince(beats[..|beats| - 1], now, i);
    }
  }

  lemma {:induction false} SeenWasWritten(beats: seq<real>, now: real)
    ensures LastSeen(beats, now).Some? ==> LastSeen(beats, now).value in beats && LastSeen(beats, now).value <= now
  {
    if beats != [] && beats[|beats| - 1] > now {
      SeenWasWritten(beats[..|beats| - 1], now);
    }
  }

  /** From the i-th on, heartbeats are never more than five minutes apart, up to and past the last. */
  predicate Beating(beats: seq<real>, i: nat, now: real) {
    && i < |beats| && now <= beats[|beats| - 1] + WORKER_FRESH
    && forall j | i <= j < |beats| - 1 :: beats[j + 1] - beats[j] <= WORKER_FRESH
  }

  /** While the heart beats the worker reads as alive. */
  lemma {:induction false} BeatingIsAlive(beats: seq<real>, i: nat, now: real)
    requires Ordered(beats) && Beating(beats, i, now) && beats[i] <= now
    ensures WorkerAlive(LastSeen(beats, now), now)
  {
    var last := |beats| - 1;
    if beats[last] > now {
      BeatingIsAlive(beats[..last], i, now);
    }
  }

  // ---- What the flags promise ----

  /** A poll written by a worker within a minute of its heartbeat is never read as a worker starting,
      whenever it is read and whatever else either record says. */
  lemma {:induction false} WorkerWrittenNeverStarting(record: Option<RunRecord>, jobs: Jobs, beats: seq<real>,
                                                      i: nat, now: real, enabled: bool)
    requires Ordered(beats) && i < |beats|
    requires jobs.pollEnqueuedAt.Some? && beats[i] <= jobs.pollEnqueuedAt.value <= now
    requires jobs.pollEnqueuedAt.value - beats[i] <= WORKER_FRESH - WORKER_STARTING
    ensures var p := Read(record, jobs, now, LastSeen(beats, now), enabled); p.Some? ==> !p.value.workerStarting
  {
    SeenSince(beats, now, i);
  }

  /** The minute is tight: a handler any slower than it leaves a moment at which its own poll, with no
      later heartbeat, reads as a worker starting. */
  lemma TheMinuteIsTight(jobs: Jobs, beat: real, enqueued: real)
    requires enqueued - beat > WORKER_FRESH - WORKER_STARTING
    requires jobs.pollEnqueuedAt == Some(enqueued) && jobs.pollState == Some(Waiting)
    ensures var p := Read(None, jobs, enqueued + WORKER_STARTING, LastSeen([beat], enqueued + WORKER_STARTING), true);
            p.Some? && p.value.workerStarting
  {
  }

  /** With the trigger on, a poll the API enqueued at `enqueued` never reads as waiting on a worker, if a
      heartbeat comes within four minutes and then at most five minutes apart. Until that first
      heartbeat the open poll is still the one the API wrote. */
  lemma {:induction false} NeverWaitingWhileWorked(record: Option<RunRecord>, jobs: Jobs, beats: seq<real>,
                                                   i: nat, enqueued: real, now: real)
    requires Ordered(beats) && i < |beats| && enqueued <= beats[i] <= enqueued + WORKER_STARTING
    requires enqueued <= now && Beating(beats, i, now)
    requires now < beats[i] ==> jobs.pollEnqueuedAt == Some(enqueued)
    ensures var p := Read(record, jobs, now, LastSeen(beats, now), true); p.Some? ==> !p.value.waitingOnWorker
  {
    if beats[i] <= now {
      BeatingIsAlive(beats, i, now);
    }
  }

  /** And it is raised on every read past four minutes if no worker came and the last one is stale. */
  lemma WaitingWhenNobodyCame(record: Option<RunRecord>, jobs: Jobs, beats: seq<real>,
                              enqueued: real, now: real, enabled: bool)
    requires jobs.pollState == Some(Waiting) && jobs.pollEnqueuedAt == Some(enqueued) && jobs.extractRunning == 0
    requires record.Some? && record.value.status.Listing? ==> record.value.startedAt.Some?
    requires now > enqueued + WORKER_STARTING
    requires forall b | b in beats :: b <= now ==> now - b > WORKER_FRESH
    ensures var p := Read(record, jobs, now, LastSeen(beats, now), enabled);
            p.Some? && p.value.waitingOnWorker && !p.value.workerStarting
  {
    SeenWasWritten(beats, now);
  }

  /** What a reading may be trusted for. It says done only when both records agree, the search exhausted and
      nothing it queued in flight, and for an hour; it is silent only when no poll is open; a failure carries a
      reason and a stage that goes well none; the two flags are never raised together, nor over a live worker
      or a running poll; and what was found is pulled in, open or failed until more is open and failed. */
  lemma ReadingIsHonest(record: Option<RunRecord>, jobs: Jobs, now: real, seen: Option<real>, enabled: bool)
    ensures var p := Read(record, jobs, now, seen, enabled);
            p.Some? && p.value.stage.Done?
            <==> (record.Some? && record.value.status.Finished? && record.value.startedAt.Some?
                  && jobs.pollState.None? && jobs.extractOpen == 0
                  && now - (if record.value.updatedAt.Some? then record.value.updatedAt.value
                            else record.value.startedAt.value) <= SETTLED_VISIBLE)
    ensures Read(record, jobs, now, seen, enabled).None? && (record.Some? ==> record.value.startedAt.Some?) ==>
              jobs.pollState.None? && (record.Some? && record.value.status.Finished? ==> jobs.extractOpen == 0)
    ensures Read(record, jobs, now, seen, enabled).Some? ==>
              var p := Read(record, jobs, now, seen, enabled).value;
              && (p.stage.FailedStage? ==> p.error != "" && jobs.pollState.None?)
              && (p.stage.Queued? || p.stage.Connecting? || p.stage.Fetching? || p.stage.Done? ==> p.error == "")
              && (p.stage.Retrying? ==> p.error == jobs.pollError != "")
              && (p.waitingOnWorker || p.workerStarting ==>
                    && !(p.waitingOnWorker && p.workerStarting)
                    && !WorkerAlive(seen, now) && jobs.pollState != Some(Running)
                    && (p.workerStarting <==> WorkerStarting(jobs, now, enabled)))
              && (p.found >= p.remaining + p.failed ==> p.found == p.pulledIn + p.remaining + p.failed)
              && (p.found < p.remaining + p.failed ==> p.pulledIn == 0)
  {
  }

  /** A worker is coming for four minutes from the moment the poll was written, on a deployment that asks for
      one, and is there for five from its last heartbeat. */
  lemma ComingThenThere(jobs: Jobs, seen: Option<real>, now: real, enabled: bool)
    ensures WorkerStarting(jobs, now, enabled)
        <==> enabled && exists at :: jobs.pollEnqueuedAt == Some(at) && at <= now <= at + 4.0 * 60.0
    ensures WorkerAlive(seen, now) <==> exists at :: seen == Some(at) && now <= at + 5.0 * 60.0
  {
    if jobs.pollEnqueuedAt.Some? {
      assert jobs.pollEnqueuedAt == Some(jobs.pollEnqueuedAt.value);
    }
    if seen.Some? {
      assert seen == Some(seen.value);
    }
  }

  // ---- What is reported ----

  /** An open poll that is not the next link of a run under way. */
  predicate OpensNewSync(record: Option<RunRecord>, jobs: Jobs) {
    jobs.pollState.Some? && (record.Some? ==> !record.value.status.Listing?)
  }

  /** When the run was last heard of. */
  function LastHeard(run: RunRecord): Option<real> {
    if run.updatedAt.Some? then run.updatedAt else run.startedAt
  }

  predicate HeardWithin(run: RunRecord, now: real, span: real) {
    LastHeard(run).Some? && now - LastHeard(run).value <= span
  }

  /** A listing with no poll open, beyond what two reads a moment apart explain. */
  predicate Broken(run: RunRecord, jobs: Jobs, now: real) {
    run.status.Listing? && jobs.pollState.None? && !HeardWithin(run, now, BROKEN_CHAIN_GRACE)
  }

  /** A new sync shows none of the old run's numbers: whatever was recorded of that run, the reading is the
      same, with every count at zero and the total yet to be known. */
  lemma NewSyncForgetsTheOldRun(a: Option<RunRecord>, b: Option<RunRecord>, jobs: Jobs, now: real, seen: Option<real>,
                                enabled: bool)
    requires OpensNewSync(a, jobs) && OpensNewSync(b, jobs)
    ensures Read(a, jobs, now, seen, enabled) == Read(b, jobs, now, seen, enabled) != None
    ensures var p := Read(a, jobs, now, seen, enabled).value;
            && p.startedAt.None? && p.lowerBound
            && p.listed == p.found == p.pulledIn == p.remaining == p.failed == p.pages == 0
            && (p.stage.Connecting? <==> jobs.pollState == Some(Running))
            && (p.stage.Retrying? <==> jobs.pollState != Some(Running) && jobs.pollAttempts > 0 && jobs.pollError != "")
            && (p.stage.Connecting? || p.stage.Retrying? || p.stage.Queued?)
            && p.error == (if p.stage.Retrying? then jobs.pollError else "")
            && (p.workerStarting || p.waitingOnWorker
                <==> jobs.pollState != Some(Running) && !WorkerAlive(seen, now))
  {
  }

  /** Any other reading is of the recorded run: what is open and what failed is the queue's count, the rest is
      the record's, and the total is a lower bound for as long as the listing goes on. */
  lemma RunIsReported(record: Option<RunRecord>, jobs: Jobs, now: real, seen: Option<real>, enabled: bool)
    requires !OpensNewSync(record, jobs) && Read(record, jobs, now, seen, enabled).Some?
    ensures var p := Read(record, jobs, now, seen, enabled).value;
            && p.remaining == jobs.extractOpen && p.failed == jobs.extractFailed
            && record.Some? && record.value.startedAt.Some? && p.startedAt == record.value.startedAt
            && p.listed == record.value.listed && p.pages == record.value.pages && p.found == record.value.queued
            && (p.lowerBound <==> p.stage.ListingStage?)
            && (p.stage.ListingStage? <==> record.value.status.Listing? && !Broken(record.value, jobs, now))
            && (p.stage.FailedStage? <==> record.value.status.Failed? || Broken(record.value, jobs, now))
            && (p.stage.Fetching? <==> record.value.status.Finished? && jobs.extractOpen > 0)
            && (p.stage.FailedStage? ==> p.error == if record.value.error != "" then record.value.error else STOPPED)
            && (p.stage.ListingStage? ==> p.error == if jobs.pollAttempts > 0 then jobs.pollError else "")
            && (p.workerStarting || p.waitingOnWorker
                <==> (p.stage.ListingStage? || p.stage.Fetching?) && jobs.pollState != Some(Running)
                     && jobs.extractRunning == 0 && !WorkerAlive(seen, now))
  {
  }

  /** Nothing is reported exactly when there is no run to report, or it settled more than an hour ago. */
  lemma SilentIff(record: Option<RunRecord>, jobs: Jobs, now: real, seen: Option<real>, enabled: bool)
    ensures Read(record, jobs, now, seen, enabled).None?
        <==> (&& !OpensNewSync(record, jobs)
              && (record.None? || record.value.startedAt.None?
                  || (!HeardWithin(record.value, now, SETTLED_VISIBLE)
                      && (record.value.status.Failed? || Broken(record.value, jobs, now)
                          || (record.value.status.Finished? && jobs.extractOpen == 0)))))
  {
  }
}
