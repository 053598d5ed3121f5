/** How the backup code decides which Sidekiq jobs concern the current site:
    the running-job test used while draining, and the ownership test used
    when purging queued jobs. The two differ on jobs without a site id. */
module SidekiqJobs {
  import opened Outcomes
  import opened RubyText

  /** A Sidekiq job as the backup code sees it: its id and the
      `current_site_id` entry of its first argument (`None` when the job has
      no arguments, its first argument has no such entry, or the entry is nil). */
  datatype Job = Job(jid: string, siteId: Option<string>)

  /** A queue of `Sidekiq::Queue.all`, by name. */
  datatype Queue = Queue(name: string, jobs: seq<Job>)

  /** The test of `delete_job_if_it_belongs_to_current_site`: the job's site id
      is the current database. A job without a site id never belongs. */
  function BelongsToCurrentSite(job: Job, currentDb: string): (r: bool)
    ensures r ==> BlocksDrain(job, currentDb)
    ensures r ==> job.siteId.Some? && !IsBlank(job.siteId.value) ==> job.siteId.value == currentDb
    ensures job.siteId.None? ==> !r
  {
    job.siteId == Some(currentDb)
  }

  /** The test inside `sidekiq_has_running_jobs?`: a running job holds up the
      drain when its site id is missing or blank (jobs for all sites) or is the
      current database. */
  function BlocksDrain(job: Job, currentDb: string): (r: bool)
    ensures job.siteId.None? ==> r
    ensures job.siteId == Some(currentDb) ==> r
    ensures job.siteId.Some? && IsBlank(job.siteId.value) ==> r
    ensures r && job.siteId.Some? && !IsBlank(job.siteId.value) ==> job.siteId.value == currentDb
  {
    match job.siteId
    case None => true
    case Some(id) => IsBlank(id) || id == currentDb
  }

  /** `sidekiq_has_running_jobs?` over the running workers: true as soon as one
      blocks the drain. */
  function HasRunningJobs(workers: seq<Job>, currentDb: string): (r: bool)
    ensures r <==> exists i :: 0 <= i < |workers| && BlocksDrain(workers[i], currentDb)
  {
    if workers == [] then false
    else if BlocksDrain(workers[0], currentDb) then true
    else HasRunningJobs(workers[1..], currentDb)
  }

  /** The jobs a set keeps after every job of the current site was deleted from it. */
  function WithoutSiteJobs(jobs: seq<Job>, currentDb: string): (kept: seq<Job>)
    ensures |kept| <= |jobs|
    ensures forall j :: j in kept <==> j in jobs && !BelongsToCurrentSite(j, currentDb)
  {
    if jobs == [] then []
    else if BelongsToCurrentSite(jobs[0], currentDb) then WithoutSiteJobs(jobs[1..], currentDb)
    else [jobs[0]] + WithoutSiteJobs(jobs[1..], currentDb)
  }

  /** `s` is `t` with some elements deleted, the rest in their original order. */
  ghost predicate SubsequenceOf<T>(s: seq<T>, t: seq<T>)
    decreases |t|
  {
    if s == [] then true
    else if t == [] then false
    else (s[0] == t[0] && SubsequenceOf(s[1..], t[1..])) || SubsequenceOf(s, t[1..])
  }

  /** Deleting jobs one by one while walking the set: the purge of a prefix
      extends by the next job unless that job belongs to the current site. */
  lemma {:induction false} WithoutSiteJobsSnoc(jobs: seq<Job>, job: Job, currentDb: string)
    ensures WithoutSiteJobs(jobs + [job], currentDb)
         == WithoutSiteJobs(jobs, currentDb) + (if BelongsToCurrentSite(job, currentDb) then [] else [job])
  {
    if jobs == [] {
      assert jobs + [job] == [job];
    } else {
      assert (jobs + [job])[1..] == jobs[1..] + [job];
      WithoutSiteJobsSnoc(jobs[1..], job, currentDb);
    }
  }

  /** The purge deletes every copy of a current-site job and keeps every copy
      of every other job (other sites' jobs and jobs without a site id). */
  lemma {:induction false} WithoutSiteJobsMultiplicity(jobs: seq<Job>, currentDb: string, j: Job)
    ensures multiset(WithoutSiteJobs(jobs, currentDb))[j]
         == if BelongsToCurrentSite(j, currentDb) then 0 else multiset(jobs)[j]
  {
    if jobs != [] {
      WithoutSiteJobsMultiplicity(jobs[1..], currentDb, j);
      assert jobs == [jobs[0]] + jobs[1..];
    }
  }

  /** The jobs that survive keep their relative order. */
  lemma {:induction false} WithoutSiteJobsKeepsOrder(jobs: seq<Job>, currentDb: string)
    ensures SubsequenceOf(WithoutSiteJobs(jobs, currentDb), jobs)
  {
    if jobs != [] {
      var rest := WithoutSiteJobs(jobs[1..], currentDb);
      WithoutSiteJobsKeepsOrder(jobs[1..], currentDb);
      if BelongsToCurrentSite(jobs[0], currentDb) {
        assert WithoutSiteJobs(jobs, currentDb) == rest;
      } else {
        assert WithoutSiteJobs(jobs, currentDb) == [jobs[0]] + rest;
        assert ([jobs[0]] + rest)[1..] == rest;
      }
    }
  }

  /** Purging twice is purging once: a second `clear_sidekiq_queues` changes nothing. */
  lemma {:induction false} WithoutSiteJobsIdempotent(jobs: seq<Job>, currentDb: string)
    ensures WithoutSiteJobs(WithoutSiteJobs(jobs, currentDb), currentDb) == WithoutSiteJobs(jobs, currentDb)
  {
    if jobs != [] {
      WithoutSiteJobsIdempotent(jobs[1..], currentDb);
      var rest := WithoutSiteJobs(jobs[1..], currentDb);
      if !BelongsToCurrentSite(jobs[0], currentDb) {
        assert ([jobs[0]] + rest)[1..] == rest;
      }
    }
  }

  /** A job without a site id holds up the drain but survives the purge. */
  lemma UntaggedJobBlocksButSurvives(job: Job, currentDb: string)
    requires job.siteId == None
    ensures BlocksDrain(job, currentDb) && !BelongsToCurrentSite(job, currentDb)
  {
  }

  /** Running jobs of other sites never hold up the drain; nor does an empty
      worker set. */
  lemma OtherSitesNeverBlock(workers: seq<Job>, currentDb: string)
    requires forall i :: 0 <= i < |workers| ==>
      workers[i].siteId.Some? && !IsBlank(workers[i].siteId.value) && workers[i].siteId.value != currentDb
    ensures !HasRunningJobs(workers, currentDb)
  {
  }
}
