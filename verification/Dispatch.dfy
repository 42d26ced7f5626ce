/**
 The queue, the rate limiter and the clock working together: a job leaves the queue only on a
 grant of the limiter, so the limiter's bounds are bounds on what the crawler sends out.
 */
module Dispatching {
  import opened CrawlQueue
  import opened Options
  import opened RateLimit

  /** A job handed to a worker, and the instant of the grant that let it go. */
  datatype Dispatch = Dispatch(job: Job, at: nat)

  ghost function DispatchesIn(ds: seq<Dispatch>, domain: string, lo: nat, hi: nat): nat {
    if ds == [] then 0
    else
      var d := ds[|ds| - 1];
      DispatchesIn(ds[..|ds| - 1], domain, lo, hi) + if d.job.domain == domain && lo <= d.at < hi then 1 else 0
  }

  /** No window holds more dispatches of a domain than grants to it. */
  ghost predicate Covered(ds: seq<Dispatch>, log: seq<Event>) {
    forall domain, lo, hi {:trigger DispatchesIn(ds, domain, lo, hi)} ::
      DispatchesIn(ds, domain, lo, hi) <= GrantsIn(log, domain, lo, hi)
  }

  lemma {:induction false} GrantsGrow(log: seq<Event>, more: seq<Event>, domain: string, lo: nat, hi: nat)
    ensures GrantsIn(log + more, domain, lo, hi) >= GrantsIn(log, domain, lo, hi)
  {
    if more == [] {
      assert log + more == log;
    } else {
      assert (log + more)[..|log + more| - 1] == log + more[..|more| - 1];
      GrantsGrow(log, more[..|more| - 1], domain, lo, hi);
    }
  }

  lemma StillCovered(ds: seq<Dispatch>, log: seq<Event>, after: seq<Event>)
    requires Covered(ds, log) && log <= after
    ensures Covered(ds, after)
  {
    assert after == log + after[|log|..];
    forall domain, lo, hi ensures DispatchesIn(ds, domain, lo, hi) <= GrantsIn(after, domain, lo, hi) {
      assert DispatchesIn(ds, domain, lo, hi) <= GrantsIn(log, domain, lo, hi);
      GrantsGrow(log, after[|log|..], domain, lo, hi);
    }
  }

  /** One dispatch for one grant, made by the last step. */
  lemma CoveredByGrant(ds: seq<Dispatch>, log: seq<Event>, after: seq<Event>, job: Job)
    requires Covered(ds, log) && log < after
    requires TakesSlot(after[|after| - 1]) && after[|after| - 1].domain == job.domain
    ensures Covered(ds + [Dispatch(job, after[|after| - 1].at)], after)
  {
    var e := after[|after| - 1];
    var d := Dispatch(job, e.at);
    StillCovered(ds, log, after[..|after| - 1]);
    forall domain, lo, hi ensures DispatchesIn(ds + [d], domain, lo, hi) <= GrantsIn(after, domain, lo, hi) {
      assert (ds + [d])[..|ds|] == ds;
      assert DispatchesIn(ds, domain, lo, hi) <= GrantsIn(after[..|after| - 1], domain, lo, hi);
    }
  }

  class Dispatcher {
    const queue: Queue
    const limiter: DomainLimiter
    const clock: Clock
    ghost var dispatches: seq<Dispatch>

    ghost predicate Valid()
      reads this, queue, limiter, clock
    {
      && queue.Valid() && limiter.Valid() && Now(limiter.log) <= clock.now
      && Covered(dispatches, limiter.log)
    }

    constructor (queue: Queue, limiter: DomainLimiter, clock: Clock)
      requires queue.Valid() && limiter.Valid() && Now(limiter.log) <= clock.now
      ensures Valid() && dispatches == []
      ensures this.queue == queue && this.limiter == limiter && this.clock == clock
    {
      this.queue, this.limiter, this.clock, dispatches := queue, limiter, clock, [];
    }

    /** What a worker does to get its next job. */
    method Next() returns (job: Option<Job>)
      requires Valid()
      modifies this, queue, limiter, clock
      ensures Valid()
      ensures job.None? ==> dispatches == old(dispatches) && queue.State() == old(queue.State())
      ensures job.Some? ==>
                && job.value.domain in old(queue.domains) && ListOK(old(queue.State()), job.value.domain)
                && job.value == old(queue.domains)[job.value.domain][0]
                && queue.State() == Popped(old(queue.State()), job.value.domain)
                && dispatches == old(dispatches) + [Dispatch(job.value, Now(limiter.log))]
    {
      ghost var asked;
      job, asked := queue.Dequeue(limiter, clock);
      if job.Some? {
        ghost var log := limiter.log;
        assert Answer(log[|log| - 1], asked[|asked| - 1], true);
        CoveredByGrant(dispatches, old(limiter.log), log, job.value);
        dispatches := dispatches + [Dispatch(job.value, Now(log))];
      } else {
        StillCovered(dispatches, old(limiter.log), limiter.log);
      }
    }

    /** A slot comes back some time after its delay. */
    method SlotReturns(domain: string, slot: nat)
      requires Valid()
      modifies limiter, clock
      ensures Valid()
    {
      var now := clock.Read();
      var ds := Get(limiter.domains, domain);
      if slot < |ds.held| && ds.held[slot] <= now {
        limiter.Drain(domain, slot, now);
        StillCovered(dispatches, old(limiter.log), limiter.log);
      }
    }

    /** A 429 answer puts the domain into cooldown. */
    method Throttled(domain: string, cooldown: nat)
      requires Valid()
      modifies limiter, clock
      ensures Valid()
    {
      var now := clock.Read();
      limiter.MarkThrottledFor(domain, cooldown, now);
      StillCovered(dispatches, old(limiter.log), limiter.log);
    }
  }

  /**
   Whatever jobs arrived, and whatever slots returned or were taken and cooldowns were set, even in the
   middle of a scan or between a check and its send: a domain gets at
   most n * parallelism dispatches in any half-open window of length n * delay.
   */
  lemma DispatchRate(d: Dispatcher, domain: string, lo: nat, n: nat)
    requires d.Valid()
    ensures DispatchesIn(d.dispatches, domain, lo, lo + n * d.limiter.config.delay)
            <= n * d.limiter.config.Slots()
  {
    RateBound(d.limiter.config, d.limiter.log, domain, lo, n);
    assert lo + n * d.limiter.config.delay >= 0;
  }
}
