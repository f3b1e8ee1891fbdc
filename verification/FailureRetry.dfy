/** How the Redis monitor visits job keys, and what failures do to them. */
module FailureRetry {
  import opened Options

  /** What a visit to a job comes to: not its time yet, handled, or an exception. */
  datatype Outcome = NotYet | Handled | Raised

  datatype Settings = Settings(retryFailures: bool, retryFailuresMax: nat)

  /** A job key and its failure count. */
  datatype Job = Job(present: bool, failures: Option<nat>)

  /** One visit, of a job that is there. */
  function Visit(c: Settings, job: Job, outcome: Outcome): Job {
    if !job.present then job
    else
      match outcome
      case NotYet => job
      case Handled => Job(false, None)
      case Raised =>
        if !c.retryFailures then job
        else
          var current := if job.failures.Some? then job.failures.value else 0;
          if current < c.retryFailuresMax then Job(true, Some(current + 1)) else Job(false, None)
  }

  function VisitAll(c: Settings, job: Job, outcomes: seq<Outcome>): Job {
    if outcomes == [] then job
    else Visit(c, VisitAll(c, job, outcomes[..|outcomes| - 1]), outcomes[|outcomes| - 1])
  }

  /** What is known of a job after these visits since it was submitted. */
  ghost predicate JobInv(c: Settings, job: Job, outcomes: seq<Outcome>) {
    var failures := multiset(outcomes)[Raised];
    && (job.present <==> Handled !in outcomes && (c.retryFailures ==> failures <= c.retryFailuresMax))
    && job.failures == if job.present && c.retryFailures && failures != 0 then Some(failures) else None
  }

  lemma VisitKeepsInv(c: Settings, job: Job, outcomes: seq<Outcome>, o: Outcome)
    requires JobInv(c, job, outcomes)
    ensures JobInv(c, Visit(c, job, o), outcomes + [o])
  {
    assert multiset(outcomes + [o])[Raised] == multiset(outcomes)[Raised] + if o.Raised? then 1 else 0;
  }

  /**
   * Main result: for any series of handler outcomes, a job key is there exactly as
   * long as no visit succeeded and, if failures are retried, at most
   * RETRY_FAILURES_MAX visits failed.  While it is there its stored count is the
   * number of failures, and once it is gone so is the count.
   */
  lemma {:induction false} JobLife(c: Settings, outcomes: seq<Outcome>)
    ensures var (job, failures) := (VisitAll(c, Job(true, None), outcomes), multiset(outcomes)[Raised]);
            && (job.present <==> Handled !in outcomes && (c.retryFailures ==> failures <= c.retryFailuresMax))
            && job.failures == if job.present && c.retryFailures && failures != 0 then Some(failures) else None
    decreases |outcomes|
  {
    if outcomes == [] {
    } else {
      var n := |outcomes| - 1;
      JobLife(c, outcomes[..n]);
      assert outcomes == outcomes[..n] + [outcomes[n]];
      VisitKeepsInv(c, VisitAll(c, Job(true, None), outcomes[..n]), outcomes[..n], outcomes[n]);
    }
  }

  class RedisMonitor {
    const settings: Settings
    var jobs: map<string, string>
    var failures: map<string, nat>

    constructor (settings: Settings)
      ensures this.settings == settings && jobs == map[] && failures == map[]
    {
      this.settings, jobs, failures := settings, map[], map[];
    }

    /** A job key and the count stored under `lock:key:failures`. */
    function JobOf(key: string): Job
      reads this
    {
      Job(key in jobs, if key in failures then Some(failures[key]) else None)
    }

    method ProcessFailures(key: string)
      modifies this
      ensures key in old(jobs) ==> JobOf(key) == Visit(settings, old(JobOf(key)), Raised)
      ensures forall k :: k != key ==> JobOf(k) == old(JobOf(k))
    {
      if settings.retryFailures {
        var current := 0;
        if key in failures {
          current := failures[key];
        }
        if current < settings.retryFailuresMax {
          failures := failures[key := current + 1];
        } else {
          failures := failures - {key};
          jobs := jobs - {key};
        }
      }
    }

    /** The plugin's answer for a job is `outcome`. */
    method ProcessKeyVal(key: string, outcome: Outcome)
      requires key in jobs && !outcome.Raised?
      modifies this
      ensures JobOf(key) == Visit(settings, old(JobOf(key)), outcome)
      ensures forall k :: k != key ==> JobOf(k) == old(JobOf(k))
    {
      if outcome.Handled? {
        jobs := jobs - {key};
        if key in failures {
          failures := failures - {key};
        }
      }
    }

    /**
     * One round over the keys a scan lists: each of them that no other monitor has
     * locked is visited once, and no other job changes.
     */
    method ProcessPlugin(keys: set<string>, locked: set<string>, outcome: string -> Outcome)
      requires keys <= jobs.Keys
      modifies this
      ensures forall k :: JobOf(k) == if k in keys - locked then Visit(settings, old(JobOf(k)), outcome(k)) else old(JobOf(k))
    {
      var left := keys;
      while left != {}
        invariant left <= keys
        invariant forall k :: JobOf(k) == if k in keys - left - locked then Visit(settings, old(JobOf(k)), outcome(k)) else old(JobOf(k))
        decreases left
      {
        var key :| key in left;
        left := left - {key};
        assert key in jobs by {
          assert JobOf(key) == old(JobOf(key));
        }
        if key !in locked {
          if outcome(key).Raised? {
            ProcessFailures(key);
          } else {
            ProcessKeyVal(key, outcome(key));
          }
        }
      }
    }
  }
}
