/** `BackupRestore::SystemInterface`: the object a backup or restore uses to
    put the site into maintenance and back, wait for Sidekiq to drain, purge
    the site's queued jobs and wipe Redis. */
module SystemInterface {
  import opened Outcomes
  import opened RubyText
  import opened SidekiqJobs
  import opened Environment

  const LogsMessageIdKey := "start_logs_message_id"

  /** `wait_for_sidekiq` polls every 6 seconds for at most 60 seconds. */
  const MaxWaitSeconds: nat := 60
  const WaitSeconds: nat := 6

  /** `(max_wait_seconds / wait_seconds).ceil` */
  function CeilDiv(a: nat, b: nat): (q: nat)
    requires b > 0
    ensures (q - 1) * b < a <= q * b
  {
    if a % b == 0 then a / b else a / b + 1
  }

  const MaxIterations: nat := CeilDiv(MaxWaitSeconds, WaitSeconds)

  /** The keys `flush_redis` leaves in place. */
  function IgnoredKeys(keys: KeyNames): (ignored: set<string>)
    ensures keys.paused in ignored && keys.operationRunning in ignored && LogsMessageIdKey in ignored
    ensures keys.backupKeys <= ignored
    ensures forall k :: k in ignored ==> k in keys.backupKeys || k in {keys.paused, keys.operationRunning, LogsMessageIdKey}
  {
    {keys.paused, keys.operationRunning, LogsMessageIdKey} + keys.backupKeys
  }

  /** One line handed to the logger; `failed` marks a line logged with an exception. */
  datatype LogLine = LogLine(message: string, failed: bool)

  class SystemInterface {
    const host: Host
    /** `RailsMultisite::ConnectionManagement.current_db` at construction. */
    const currentDb: string
    /** Whether readonly mode was already on at construction. */
    const readonlyModeWasEnabled: bool
    /** What was handed to the logger. */
    var log: seq<LogLine>

    constructor (host: Host, currentDb: string)
      ensures this.host == host && this.currentDb == currentDb
      ensures readonlyModeWasEnabled == host.readonly && log == []
    {
      this.host := host;
      this.currentDb := currentDb;
      readonlyModeWasEnabled := host.readonly;
      log := [];
    }

    /** `enable_readonly_mode`; `fails` says whether `Discourse.enable_readonly_mode`
        raises. Nothing happens when readonly mode was on at construction; the
        error is logged and never raised. */
    method EnableReadonlyMode(fails: bool)
      modifies host`readonly, this`log
      ensures readonlyModeWasEnabled ==> host.readonly == old(host.readonly) && log == old(log)
      ensures !readonlyModeWasEnabled ==> host.readonly == (old(host.readonly) || !fails)
      ensures !readonlyModeWasEnabled ==>
        log == old(log) + [LogLine("Enabling readonly mode...", false)]
               + (if fails then [LogLine("Something went wrong while enabling readonly mode", true)] else [])
    {
      if readonlyModeWasEnabled {
        return;
      }
      log := log + [LogLine("Enabling readonly mode...", false)];
      if fails {
        log := log + [LogLine("Something went wrong while enabling readonly mode", true)];
      } else {
        host.readonly := true;
      }
    }

    /** `disable_readonly_mode`: never turns off a readonly mode that was on at
        construction; a failure is logged and never raised. */
    method DisableReadonlyMode(fails: bool)
      modifies host`readonly, this`log
      ensures readonlyModeWasEnabled ==> host.readonly == old(host.readonly) && log == old(log)
      ensures !readonlyModeWasEnabled ==> host.readonly == (old(host.readonly) && fails)
      ensures !readonlyModeWasEnabled ==>
        log == old(log) + [LogLine("Disabling readonly mode...", false)]
               + (if fails then [LogLine("Something went wrong while disabling readonly mode", true)] else [])
    {
      if readonlyModeWasEnabled {
        return;
      }
      log := log + [LogLine("Disabling readonly mode...", false)];
      if fails {
        log := log + [LogLine("Something went wrong while disabling readonly mode", true)];
      } else {
        host.readonly := false;
      }
    }

    /** `pause_sidekiq(reason)`: a no-op when Sidekiq is paused already;
        otherwise Sidekiq ends up paused with `reason` under the pause key. */
    method PauseSidekiq(reason: string)
      modifies host`redis, this`log
      ensures old(host.SidekiqPaused()) ==> host.redis == old(host.redis) && log == old(log)
      ensures !old(host.SidekiqPaused()) ==> host.redis == old(host.redis)[host.keys.paused := reason]
      ensures !old(host.SidekiqPaused()) ==> log == old(log) + [LogLine("Pausing Sidekiq...", false)]
      ensures host.SidekiqPaused()
    {
      if host.SidekiqPaused() {
        return;
      }
      log := log + [LogLine("Pausing Sidekiq...", false)];
      host.redis := host.redis[host.keys.paused := reason];
    }

    /** `unpause_sidekiq`; `fails` says whether `Sidekiq.unpause!` raises. A
        no-op when Sidekiq is not paused; a failure is logged and never raised. */
    method UnpauseSidekiq(fails: bool)
      modifies host`redis, this`log
      ensures !old(host.SidekiqPaused()) ==> host.redis == old(host.redis) && log == old(log)
      ensures old(host.SidekiqPaused()) && !fails ==> host.redis == old(host.redis) - {host.keys.paused}
      ensures old(host.SidekiqPaused()) && fails ==> host.redis == old(host.redis)
      ensures old(host.SidekiqPaused()) ==>
        log == old(log) + [LogLine("Unpausing Sidekiq...", false)]
               + (if fails then [LogLine("Something went wrong while unpausing Sidekiq.", true)] else [])
      ensures !fails ==> !host.SidekiqPaused()
    {
      if !host.SidekiqPaused() {
        return;
      }
      log := log + [LogLine("Unpausing Sidekiq...", false)];
      if fails {
        log := log + [LogLine("Something went wrong while unpausing Sidekiq.", true)];
      } else {
        host.redis := host.redis - {host.keys.paused};
      }
    }

    /** `wait_for_sidekiq`. `workersAt(p)` is what `Sidekiq::Workers` lists at
        poll `p` (the poll after the `p`-th sleep); `naps` are the `sleep` calls.
        It sleeps at least once and at most `MaxIterations` times, stops at the
        first poll that finds no blocking job, and raises after the last one. */
    method WaitForSidekiq(workersAt: nat -> seq<Job>) returns (outcome: Outcome, naps: seq<nat>)
      ensures 1 <= |naps| <= MaxIterations
      ensures forall i :: 0 <= i < |naps| ==> naps[i] == WaitSeconds
      ensures forall p :: 1 <= p < |naps| ==> HasRunningJobs(workersAt(p), currentDb)
      ensures outcome == Done <==> !HasRunningJobs(workersAt(|naps|), currentDb)
      ensures outcome != Done ==> outcome == Failed(RunningSidekiqJobsError) && |naps| == MaxIterations
    {
      var iterations := 1;
      naps := [];
      while true
        invariant 1 <= iterations <= MaxIterations
        invariant |naps| == iterations - 1
        invariant forall i :: 0 <= i < |naps| ==> naps[i] == WaitSeconds
        invariant forall p :: 1 <= p < iterations ==> HasRunningJobs(workersAt(p), currentDb)
        decreases MaxIterations - iterations
      {
        naps := naps + [WaitSeconds];
        if !HasRunningJobs(workersAt(iterations), currentDb) {
          return Done, naps;
        }
        iterations := iterations + 1;
        if iterations > MaxIterations {
          return Failed(RunningSidekiqJobsError), naps;
        }
      }
    }

    /** `flush_redis`: walks every key and deletes it unless it is ignored, so
        the pause reason, the running flag, the shutdown signal and the logs
        message id all survive. */
    method FlushRedis()
      requires host.keys.Valid()
      modifies host`redis
      ensures host.redis.Keys == old(host.redis).Keys * IgnoredKeys(host.keys)
      ensures forall k :: k in host.redis ==> host.redis[k] == old(host.redis)[k]
      ensures host.SidekiqPaused() == old(host.SidekiqPaused())
      ensures host.OperationRunning() == old(host.OperationRunning())
      ensures host.ShutdownRequested() == old(host.ShutdownRequested())
      ensures StartLogsMessageId() == old(StartLogsMessageId())
    {
      var ignored := IgnoredKeys(host.keys);
      var pending := host.redis.Keys;
      while pending != {}
        invariant pending <= old(host.redis).Keys
        invariant host.redis.Keys == pending + (old(host.redis).Keys - pending) * ignored
        invariant forall k :: k in host.redis ==> host.redis[k] == old(host.redis)[k]
        decreases pending
      {
        var key :| key in pending;
        if key !in ignored {
          host.redis := host.redis - {key};
        }
        pending := pending - {key};
      }
    }

    /** One pass of `each { delete_job_if_it_belongs_to_current_site }` over a
        job set: the jobs left behind. */
    method DeleteSiteJobs(jobs: seq<Job>) returns (kept: seq<Job>)
      ensures kept == WithoutSiteJobs(jobs, currentDb)
    {
      kept := [];
      var i := 0;
      while i < |jobs|
        invariant 0 <= i <= |jobs|
        invariant kept == WithoutSiteJobs(jobs[..i], currentDb)
      {
        WithoutSiteJobsSnoc(jobs[..i], jobs[i], currentDb);
        assert jobs[..i + 1] == jobs[..i] + [jobs[i]];
        if !BelongsToCurrentSite(jobs[i], currentDb) {
          kept := kept + [jobs[i]];
        }
        i := i + 1;
      }
      assert jobs[..i] == jobs;
    }

    /** `clear_sidekiq_queues`: deletes the current site's jobs from every
        queue and from the retry, scheduled and dead sets, nothing else. */
    method ClearSidekiqQueues()
      modifies host`queues, host`retrySet, host`scheduledSet, host`deadSet
      ensures |host.queues| == |old(host.queues)|
      ensures forall i :: 0 <= i < |host.queues| ==>
        host.queues[i].name == old(host.queues[i].name)
        && host.queues[i].jobs == WithoutSiteJobs(old(host.queues[i].jobs), currentDb)
      ensures host.retrySet == WithoutSiteJobs(old(host.retrySet), currentDb)
      ensures host.scheduledSet == WithoutSiteJobs(old(host.scheduledSet), currentDb)
      ensures host.deadSet == WithoutSiteJobs(old(host.deadSet), currentDb)
    {
      var i := 0;
      while i < |host.queues|
        invariant 0 <= i <= |host.queues| == |old(host.queues)|
        invariant forall j :: 0 <= j < i ==>
          host.queues[j].name == old(host.queues[j].name)
          && host.queues[j].jobs == WithoutSiteJobs(old(host.queues[j].jobs), currentDb)
        invariant forall j :: i <= j < |host.queues| ==> host.queues[j] == old(host.queues[j])
        invariant host.retrySet == old(host.retrySet) && host.scheduledSet == old(host.scheduledSet)
        invariant host.deadSet == old(host.deadSet)
      {
        var queue := host.queues[i];
        var kept := DeleteSiteJobs(queue.jobs);
        host.queues := host.queues[i := queue.(jobs := kept)];
        i := i + 1;
      }
      host.retrySet := DeleteSiteJobs(host.retrySet);
      host.scheduledSet := DeleteSiteJobs(host.scheduledSet);
      host.deadSet := DeleteSiteJobs(host.deadSet);
    }

    /** `save_start_logs_message_id`: stores the logs channel's last message id. */
    method SaveStartLogsMessageId(lastId: int)
      modifies host`redis
      ensures host.redis == old(host.redis)[LogsMessageIdKey := IntToString(lastId)]
      ensures StartLogsMessageId() == lastId
    {
      host.redis := host.redis[LogsMessageIdKey := IntToString(lastId)];
      IntRoundTrip(lastId);
    }

    /** `start_logs_message_id`: the stored id read back with `to_i`; a missing
        value reads as 0. */
    function StartLogsMessageId(): (r: int)
      reads host
      ensures LogsMessageIdKey !in host.redis ==> r == 0
      ensures forall n: int :: LogsMessageIdKey in host.redis && host.redis[LogsMessageIdKey] == IntToString(n) ==> r == n
    {
      IntRoundTrips();
      if LogsMessageIdKey in host.redis then ToI(host.redis[LogsMessageIdKey]) else 0
    }
  }

  /** The drain scenarios of the Sidekiq tests, where the running workers do
      not change between polls: with nothing blocking, a single 6-second sleep
      and a normal return; with a job of the current site or of all sites
      still running, ten 6-second sleeps and `RunningSidekiqJobsError`. */
  method WaitForSidekiqWithSteadyWorkers(system: SystemInterface, workers: seq<Job>)
    returns (outcome: Outcome, naps: seq<nat>)
    ensures !HasRunningJobs(workers, system.currentDb) ==> outcome == Done && naps == [6]
    ensures HasRunningJobs(workers, system.currentDb) ==>
      outcome == Failed(RunningSidekiqJobsError) && naps == [6, 6, 6, 6, 6, 6, 6, 6, 6, 6]
  {
    var workersAt: nat -> seq<Job> := _ => workers;
    outcome, naps := system.WaitForSidekiq(workersAt);
    assert MaxIterations == 10;
    assert workersAt(1) == workersAt(|naps|) == workers;
    if HasRunningJobs(workers, system.currentDb) {
      assert naps == [6, 6, 6, 6, 6, 6, 6, 6, 6, 6];
    } else {
      assert naps == [6];
    }
  }

  /** Entering and leaving readonly mode through a fresh interface, with no
      failures, restores the readonly flag as it was before construction,
      whether it was on or off. */
  method ReadonlyRoundTrip(host: Host, currentDb: string)
    modifies host`readonly
    ensures host.readonly == old(host.readonly)
  {
    var system := new SystemInterface(host, currentDb);
    system.EnableReadonlyMode(false);
    assert host.readonly;
    system.DisableReadonlyMode(false);
  }

  /** Pausing and then unpausing, with no failures, leaves Sidekiq unpaused
      and keeps every other Redis key as it was. */
  method PauseRoundTrip(host: Host, currentDb: string, reason: string)
    modifies host`redis
    ensures !host.SidekiqPaused()
    ensures host.redis == old(host.redis) - {host.keys.paused}
  {
    var system := new SystemInterface(host, currentDb);
    system.PauseSidekiq(reason);
    system.UnpauseSidekiq(false);
  }
}
