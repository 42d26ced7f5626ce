/**
 The engine object: its render backlog, the processing of one job or one backlog item, and the turn of
 a worker. Every call carries out the decision of module EngineWork on what the engine, its frontier
 and its rate limiter hold, so the weights that bound a whole crawl are those of these objects.
 */
module Engines {
  import opened CrawlQueue
  import opened EngineWork
  import opened Frontiers
  import opened Options
  import opened Outcomes
  import Admission
  import RateLimit

  /** Both the site and the gate are where the decision leads when nobody else uses the frontier. */
  ghost predicate CarriedOut(c: Config, s: Site, g: Gate, d: Decision, s': Site, g': Gate) {
    s' == Carry(c, s, d, Arriving(c, g, d)) && g' == EngineWork.GateAfter(c, g, d)
  }

  /** The only step of the limiter, if any, puts the domain into cooldown. */
  ghost predicate Marked(c: Config, before: seq<RateLimit.Event>, after: seq<RateLimit.Event>, domain: string,
                         throttled: bool)
  {
    if throttled then exists at :: after == before + [RateLimit.Throttle(domain, at, c.cooldown)] else after == before
  }

  /** A decision weighs less than the work it decides, so carrying it out leaves less than the work added. */
  lemma CarriedOutWeight(c: Config, s: Site, g: Gate, d: Decision, s': Site, g': Gate)
    requires CarriedOut(c, s, g, d, s', g') && WellFormed(s.core)
    ensures SiteWeight(c, s') <= SiteWeight(c, s) + DecisionWeight(c, d)
  {
    ArrivingCanArrive(c, g, d);
    CarryWeight(c, s, d, Arriving(c, g, d));
  }

  /** A decision that sends no links to the frontier leaves counters and filter alone. */
  lemma NotAboutLinks(c: Config, s: Site, g: Gate, d: Decision)
    requires !d.Expand?
    ensures CarriedOut(c, s, g, d, Carry(c, s, d, []), g)
  {
  }

  /** No link, nothing to do. */
  lemma NothingToFollow(c: Config, s: Site, g: Gate, depth: int, existing: set<string>)
    ensures CarriedOut(c, s, g, Expand([], depth, existing, false), s, g)
  {
    var bits := MarkKnown(c.settings.hash, g.bits, g.seen, [], existing).0;
    assert Arriving(c, g, Expand([], depth, existing, false)) == [];
    assert KeysOf([]) == {};
  }

  /** What the frontier does with a batch is what the decision says. */
  lemma LinksPassed(c: Config, s: Site, g: Gate, d: Decision, b: Batch)
    requires d.Expand? && !d.stored && b == Batch(d.links, d.depth, d.existing, c.score)
    ensures CarriedOut(c, s, g, d, s.(core := FileAll(s.core, Passed(c.settings, g, b))),
                       Frontiers.GateAfter(c.settings, g, b))
  {
  }

  lemma FollowedLinks(c: Config, job: Job, out: Outlinks)
    requires job.depth < c.maxDepth && !Admission.Blacklisted(c.noFollow, job.domain)
    ensures Follow(c, job, out, false) == Expand(FirstLinks(Links(c, out.anchors)), job.depth + 1,
                                                 if out.stored.Some? then out.stored.value else {}, false)
  {
  }

  lemma NothingFollowed(c: Config, s: Site, g: Gate, job: Job, out: Outlinks)
    requires job.depth >= c.maxDepth || out.anchors == [] || Admission.Blacklisted(c.noFollow, job.domain)
    ensures CarriedOut(c, s, g, Follow(c, job, out, false), s, g)
  {
    assert Follow(c, job, out, false).links == [];
    NothingToFollow(c, s, g, job.depth + 1, if out.stored.Some? then out.stored.value else {});
  }

  lemma InsideFollowed(c: Config, s: Site, g: Gate, job: Job, out: Outlinks, s': Site, g': Gate)
    requires CarriedOut(c, s, g, FollowInside(c, job, out), s', g')
    ensures Followed(c, s, g, s', g', job, Some(job.domain), out, 0)
  {
    hide Followed, FollowInside;
    InsideAsDecided(c, s, g, job, out);
  }

  /** Following the links of a page that is stored leads to the same place, with one more page. */
  lemma PageCounted(c: Config, s: Site, g: Gate, job: Job, out: Outlinks, s': Site, g': Gate)
    requires CarriedOut(c, s, g, Follow(c, job, out, false), s', g')
    ensures CarriedOut(c, s, g, Follow(c, job, out, true), s'.(crawled := s'.crawled + 1), g')
  {
  }

  class Engine {
    const cfg: Config
    const frontier: Frontier
    const limiter: RateLimit.DomainLimiter
    const clock: RateLimit.Clock
    var renderBacklog: seq<Item>
    var renderQueued: set<string>
    var pagesCrawled: nat
    var pagesErrored: nat

    ghost predicate Valid()
      reads this, frontier, frontier.queue
    {
      && frontier.Valid() && frontier.settings == cfg.settings
      && BacklogOK(cfg, renderBacklog, renderQueued) && ItemsClean(cfg, renderBacklog)
    }

    ghost predicate LimiterValid()
      reads limiter, clock
    {
      limiter.Valid() && RateLimit.Now(limiter.log) <= clock.now
    }

    ghost function Holds(): Site
      reads this, frontier.queue
    {
      Site(frontier.queue.State(), renderBacklog, renderQueued, pagesCrawled, pagesErrored)
    }

    ghost function GateNow(): Gate
      reads frontier, frontier.queue
    {
      frontier.GateNow()
    }

    constructor (cfg: Config, frontier: Frontier, limiter: RateLimit.DomainLimiter, clock: RateLimit.Clock)
      requires frontier.Valid() && frontier.settings == cfg.settings
      ensures Valid() && this.cfg == cfg && this.frontier == frontier && this.limiter == limiter && this.clock == clock
      ensures Holds() == Site(frontier.queue.State(), [], {}, 0, 0)
    {
      this.cfg, this.frontier, this.limiter, this.clock := cfg, frontier, limiter, clock;
      renderBacklog, renderQueued, pagesCrawled, pagesErrored := [], {}, 0, 0;
    }

    /** True if the page is, or already was, in the backlog. */
    method EnqueueRenderBacklog(job: Job, targetURL: string, reason: string) returns (taken: bool)
      requires Valid() && !Admission.Blacklisted(cfg.settings.blacklist, job.domain)
      modifies this`renderBacklog, this`renderQueued
      ensures Valid() && taken == CanRender(cfg, targetURL)
      ensures Holds() == if taken then Push(cfg, old(Holds()), NewItem(cfg, job, targetURL, reason)) else old(Holds())
    {
      if !cfg.rendering {
        return false;
      }
      if cfg.nonIndexable(targetURL) {
        return false;
      }
      var item := NewItem(cfg, job, targetURL, reason);
      var key := Key(cfg, item);
      if key in renderQueued {
        return true;
      }
      PushOK(cfg, Holds(), item);
      renderQueued := renderQueued + {key};
      renderBacklog := renderBacklog + [item];
      return true;
    }

    /** First in, first out. */
    method PopRenderBacklog() returns (item: Option<Item>)
      requires Valid()
      modifies this`renderBacklog, this`renderQueued
      ensures Valid()
      ensures item.None? <==> old(renderBacklog) == []
      ensures if item.Some? then item.value == old(renderBacklog)[0] && Holds() == Pop(cfg, old(Holds()))
              else Holds() == old(Holds())
    {
      if |renderBacklog| == 0 {
        return None;
      }
      PopOK(cfg, Holds());
      var first := renderBacklog[0];
      renderBacklog := renderBacklog[1..];
      renderQueued := renderQueued - {Key(cfg, first)};
      return Some(first);
    }

    method PushRenderBacklog(item: Item)
      requires Valid() && !Admission.Blacklisted(cfg.settings.blacklist, item.job.domain)
      modifies this`renderBacklog, this`renderQueued
      ensures Valid() && Holds() == Push(cfg, old(Holds()), item)
    {
      var key := Key(cfg, item);
      if key in renderQueued {
        return;
      }
      PushOK(cfg, Holds(), item);
      renderQueued := renderQueued + {key};
      renderBacklog := renderBacklog + [item];
    }

    method DoRetryOrFail(job: Job)
      requires Valid() && !Admission.Blacklisted(cfg.settings.blacklist, job.domain)
      modifies this`pagesErrored, frontier.queue
      ensures Valid() && CarriedOut(cfg, old(Holds()), old(GateNow()), RetryOrFail(cfg, job), Holds(), GateNow())
      ensures TriedAgain(cfg, old(Holds()), Holds(), job, job.score) && GateNow() == old(GateNow())
    {
      AgainAsDecided(cfg, Holds(), GateNow(), job);
      NotAboutLinks(cfg, Holds(), GateNow(), RetryOrFail(cfg, job));
      if job.retries < cfg.maxRetries {
        frontier.Retry(job.(retries := job.retries + 1));
        return;
      }
      pagesErrored := pagesErrored + 1;
    }

    // ---------- Following links ----------

    /** The first hundred links that may be indexed go to the frontier. */
    method EnqueueDiscoveredLinks(anchors: seq<Anchor>, depth: int, stored: Option<set<string>>)
      requires Valid()
      modifies frontier, frontier.queue
      ensures Valid()
      ensures var d := Expand(FirstLinks(Links(cfg, anchors)), depth,
                              if stored.Some? then stored.value else {}, false);
              CarriedOut(cfg, old(Holds()), old(GateNow()), d, Holds(), GateNow())
      ensures exists links, at ::
                && ChosenAt(cfg, None, anchors, links, at)
                && HandedOver(cfg, old(Holds()), old(GateNow()), Holds(), GateNow(), links, depth,
                             if stored.Some? then stored.value else {}, 0)
    {
      ghost var s, g := Holds(), GateNow();
      var links: seq<RawLink> := [];
      assert anchors[..0] == [];
      for i := 0 to |anchors|
        invariant links == Links(cfg, anchors[..i])
      {
        assert anchors[..i + 1][..i] == anchors[..i];
        if !cfg.nonIndexable(anchors[i].url) {
          links := links + [anchors[i].link];
        }
      }
      assert anchors[..|anchors|] == anchors;
      AddFirst(links, depth, stored);
      FirstSubmitted(cfg, s, g, anchors, depth, if stored.Some? then stored.value else {});
    }

    method AddFirst(links: seq<RawLink>, depth: int, stored: Option<set<string>>)
      requires Valid()
      modifies frontier, frontier.queue
      ensures Valid()
      ensures var d := Expand(FirstLinks(links), depth, if stored.Some? then stored.value else {}, false);
              CarriedOut(cfg, old(Holds()), old(GateNow()), d, Holds(), GateNow())
    {
      var first := links;
      if |links| > MAX_LINKS {
        first := links[..MAX_LINKS];
      }
      var existing := if stored.Some? then stored.value else {};
      if |first| == 0 {
        NothingToFollow(cfg, Holds(), GateNow(), depth, existing);
        return;
      }
      SubmitLinks(first, depth, stored.None?, existing);
    }

    method SubmitLinks(links: seq<RawLink>, depth: int, storeFails: bool, existing: set<string>)
      requires Valid() && (storeFails ==> existing == {})
      modifies frontier, frontier.queue
      ensures Valid()
      ensures CarriedOut(cfg, old(Holds()), old(GateNow()), Expand(links, depth, existing, false), Holds(), GateNow())
    {
      ghost var s, g := Holds(), GateNow();
      ghost var added := frontier.AddBatch(links, depth, cfg.score, storeFails, existing);
      LinksPassed(cfg, s, g, Expand(links, depth, existing, false), Batch(links, depth, existing, cfg.score));
    }

    method FollowLinks(job: Job, out: Outlinks)
      requires Valid()
      modifies frontier, frontier.queue
      ensures Valid() && CarriedOut(cfg, old(Holds()), old(GateNow()), Follow(cfg, job, out, false), Holds(), GateNow())
    {
      if job.depth < cfg.maxDepth && |out.anchors| > 0 {
        var leaf := Admission.IsBlacklistedDomain(cfg.noFollow, job.domain);
        if !leaf {
          FollowedLinks(cfg, job, out);
          EnqueueDiscoveredLinks(out.anchors, job.depth + 1, out.stored);
          return;
        }
      }
      NothingFollowed(cfg, Holds(), GateNow(), job, out);
    }

    /** A resource that is no page is followed inside its own domain only. */
    method ProcessDiscoveryOnly(job: Job, out: Outlinks)
      requires Valid()
      modifies frontier, frontier.queue
      ensures Valid() && CarriedOut(cfg, old(Holds()), old(GateNow()), FollowInside(cfg, job, out), Holds(), GateNow())
      ensures Followed(cfg, old(Holds()), old(GateNow()), Holds(), GateNow(), job, Some(job.domain), out, 0)
    {
      hide Followed, CarriedOut, BacklogOK, ItemsClean;
      ghost var s, g := Holds(), GateNow();
      var inside: seq<Anchor> := [];
      assert out.anchors[..0] == [];
      for i := 0 to |out.anchors|
        invariant inside == Inside(cfg, job.domain, out.anchors[..i])
      {
        assert out.anchors[..i + 1][..i] == out.anchors[..i];
        if !cfg.nonIndexable(out.anchors[i].url) && out.anchors[i].domain == job.domain {
          inside := inside + [out.anchors[i]];
        }
      }
      assert out.anchors[..|out.anchors|] == out.anchors;
      FollowLinks(job, out.(anchors := inside));
      InsideFollowed(cfg, s, g, job, out, Holds(), GateNow());
    }

    /** Counts a parsed page and follows its links, unless it is still an interstitial. */
    method Persist(job: Job, interstitial: bool, out: Outlinks)
      requires Valid()
      modifies this`pagesCrawled, this`pagesErrored, frontier, frontier.queue
      ensures Valid()
      ensures var d := if interstitial then Fail else Follow(cfg, job, out, true);
              CarriedOut(cfg, old(Holds()), old(GateNow()), d, Holds(), GateNow())
      ensures if interstitial then OneMoreError(old(Holds()), Holds()) && GateNow() == old(GateNow())
              else Followed(cfg, old(Holds()), old(GateNow()), Holds(), GateNow(), job, None, out, 1)
    {
      hide Follow, Followed, Arriving, BacklogOK, ItemsClean;
      ghost var s, g := Holds(), GateNow();
      FollowedAsDecided(cfg, s, g, job, out, true);
      NotAboutLinks(cfg, s, g, Fail);
      if interstitial {
        pagesErrored := pagesErrored + 1;
        return;
      }
      FollowLinks(job, out);
      PageCounted(cfg, s, g, job, out, Holds(), GateNow());
      pagesCrawled := pagesCrawled + 1;
    }

    // ---------- One job ----------

    /** Works on a job that was taken from the queue: less is left to do than with the job. */
    method ProcessJob(job: Job, fetched: Fetched)
      requires Valid() && LimiterValid()
      modifies this, frontier, frontier.queue, limiter, clock
      ensures Valid() && LimiterValid()
      ensures CarriedOut(cfg, old(Holds()), old(GateNow()), AfterFetch(cfg, job, fetched), Holds(), GateNow())
      ensures if !NotTaken(cfg, job) && fetched.Got? && fetched.response.status == 429
                 && !ForBrowser(cfg, fetched.response.renderReason, job.url)
              then exists at :: limiter.log == old(limiter.log) + [RateLimit.Throttle(job.domain, at, cfg.cooldown)]
              else limiter.log == old(limiter.log)
      ensures NotTaken(cfg, job) || fetched.Forbidden? || fetched.Unsupported? ==>
                Holds() == old(Holds()) && GateNow() == old(GateNow())
      ensures !NotTaken(cfg, job) && fetched.FetchFailed? ==>
                TriedAgain(cfg, old(Holds()), Holds(), job, job.score) && GateNow() == old(GateNow())
      ensures !NotTaken(cfg, job) && fetched.Got? ==>
                var r := fetched.response;
                if 200 <= r.status < 300
                then Succeeded(cfg, old(Holds()), old(GateNow()), Holds(), GateNow(), job, r)
                else
                  && GateNow() == old(GateNow())
                  && if ForBrowser(cfg, r.renderReason, job.url)
                     then LeftToBrowser(cfg, old(Holds()), Holds(),
                                        Item(job, cfg.canonical(job.url), r.renderReason.value, 0))
                     else if 400 <= r.status < 500 && r.status != 429
                     then Holds() == old(Holds()).(errors := old(pagesErrored) + 1)
                     else if r.status == 429
                     then TriedAgain(cfg, old(Holds()), Holds(), job, if job.score < 4.0 then 1.0 else job.score / 4.0)
                     else TriedAgain(cfg, old(Holds()), Holds(), job, job.score)
      ensures SiteWeight(cfg, Holds()) < old(SiteWeight(cfg, Holds())) + JobWeight(cfg, job)
    {
      ghost var s, g := Holds(), GateNow();
      HandleFetched(job, fetched);
      FetchAsDecided(cfg, s, g, job, fetched);
      FetchUsesWeight(cfg, job, fetched);
      CarriedOutWeight(cfg, s, g, AfterFetch(cfg, job, fetched), Holds(), GateNow());
    }

    method HandleFetched(job: Job, fetched: Fetched)
      requires Valid() && LimiterValid()
      modifies this, frontier, frontier.queue, limiter, clock
      ensures Valid() && LimiterValid()
      ensures CarriedOut(cfg, old(Holds()), old(GateNow()), AfterFetch(cfg, job, fetched), Holds(), GateNow())
      ensures Marked(cfg, old(limiter.log), limiter.log, job.domain, Throttles(cfg, job, fetched))
    {
      NotAboutLinks(cfg, Holds(), GateNow(), Drop);
      if cfg.nonIndexable(job.url) {
        return;
      }
      var listed := Admission.IsBlacklistedDomain(cfg.settings.blacklist, job.domain);
      if listed {
        return;
      }
      match fetched
      case Forbidden => return;
      case Unsupported => return;
      case FetchFailed =>
        DoRetryOrFail(job);
      case Got(r) =>
        if !Success(r.status) {
          HandleStatus(job, r);
          return;
        }
        if cfg.nonIndexable(r.finalURL) {
          return;
        }
        ProcessPage(job, r);
    }

    /** An answer that is not a success. */
    method HandleStatus(job: Job, r: Response)
      requires Valid() && LimiterValid() && !Skipped(cfg, job) && !Success(r.status)
      modifies this, frontier.queue, limiter, clock
      ensures Valid() && LimiterValid()
      ensures CarriedOut(cfg, old(Holds()), old(GateNow()), AfterFetch(cfg, job, Got(r)), Holds(), GateNow())
      ensures Marked(cfg, old(limiter.log), limiter.log, job.domain, Throttles(cfg, job, Got(r)))
    {
      hide TriedAgain, BacklogOK, ItemsClean, Key;
      NotAboutLinks(cfg, Holds(), GateNow(), AfterFetch(cfg, job, Got(r)));
      if r.renderReason.Some? {
        var taken := EnqueueRenderBacklog(job, job.url, r.renderReason.value);
        if taken {
          return;
        }
      }
      if r.status >= 400 && r.status < 500 && r.status != 429 {
        pagesErrored := pagesErrored + 1;
        return;
      }
      var again := job;
      if r.status == 429 {
        var now := clock.Read();
        limiter.MarkThrottledFor(job.domain, cfg.cooldown, now);
        again := Demoted(job);
      }
      DoRetryOrFail(again);
    }

    /** A successful answer of an indexable URL. */
    method ProcessPage(job: Job, r: Response)
      requires Valid() && !Skipped(cfg, job) && Success(r.status) && !cfg.nonIndexable(r.finalURL)
      modifies this, frontier, frontier.queue
      ensures Valid()
      ensures CarriedOut(cfg, old(Holds()), old(GateNow()), AfterFetch(cfg, job, Got(r)), Holds(), GateNow())
    {
      if !AfterFetch(cfg, job, Got(r)).Expand? { NotAboutLinks(cfg, Holds(), GateNow(), AfterFetch(cfg, job, Got(r))); }
      match r.page
      case Asset(out) =>
        ProcessDiscoveryOnly(job, out);
      case Broken =>
        DoRetryOrFail(job);
      case Html(reason, interstitial, out) =>
        var taken := false;
        if reason.Some? {
          taken := EnqueueRenderBacklog(job, r.finalURL, reason.value);
        }
        if !taken {
          Persist(job, interstitial, out);
        }
    }

    // ---------- One backlog item ----------

    /** An item gives way to pending jobs; else it is rendered, and less is left to do than with the item. */
    method ProcessRenderBacklogItem(item: Item, rendered: Rendered) returns (preempted: bool)
      requires Valid() && !Admission.Blacklisted(cfg.settings.blacklist, item.job.domain)
      modifies this, frontier, frontier.queue
      ensures Valid() && preempted == (!rendered.Cancelled? && old(frontier.queue.jobs) != {})
      ensures var d := if preempted then ToBacklog(item) else AfterRender(cfg, item, rendered);
              CarriedOut(cfg, old(Holds()), old(GateNow()), d, Holds(), GateNow())
      ensures rendered.Cancelled? ==> Holds() == old(Holds())
      ensures preempted ==> LeftToBrowser(cfg, old(Holds()), Holds(), item)
      ensures preempted || !rendered.Showed? ==> GateNow() == old(GateNow())
      ensures !preempted && rendered.Busy? ==>
                if item.attempts < cfg.busyRetryMaxAttempts
                then LeftToBrowser(cfg, old(Holds()), Holds(), item.(attempts := item.attempts + 1))
                else TriedAgain(cfg, old(Holds()), Holds(), item.job, item.job.score)
      ensures !preempted && rendered.RenderFailed? ==>
                TriedAgain(cfg, old(Holds()), Holds(), item.job, item.job.score)
      ensures !preempted && rendered.Showed? ==>
                Shown(cfg, old(Holds()), old(GateNow()), Holds(), GateNow(), item.job, rendered.response)
      ensures SiteWeight(cfg, Holds()) <= old(SiteWeight(cfg, Holds())) + ItemWeight(cfg, item)
      ensures !preempted ==> SiteWeight(cfg, Holds()) < old(SiteWeight(cfg, Holds())) + ItemWeight(cfg, item)
    {
      hide TriedAgain, LeftToBrowser, Shown, AfterRender, BacklogOK, ItemsClean, Key, Push;
      NotAboutLinks(cfg, Holds(), GateNow(), ToBacklog(item));
      ghost var s, g := Holds(), GateNow();
      preempted := false;
      if !rendered.Cancelled? {
        var pending := frontier.queue.Len();
        preempted := pending > 0;
        if preempted {
          PushRenderBacklog(item);
        } else {
          HandleRendered(item, rendered);
        }
      }
      RenderingAsDecided(cfg, s, g, item, rendered);
      RenderUsesWeight(cfg, item, rendered);
      CarriedOutWeight(cfg, s, g, if preempted then ToBacklog(item) else AfterRender(cfg, item, rendered),
                       Holds(), GateNow());
    }

    method HandleRendered(item: Item, rendered: Rendered)
      requires Valid() && !Admission.Blacklisted(cfg.settings.blacklist, item.job.domain)
      modifies this, frontier, frontier.queue
      ensures Valid()
      ensures CarriedOut(cfg, old(Holds()), old(GateNow()), AfterRender(cfg, item, rendered), Holds(), GateNow())
    {
      if !rendered.Showed? { NotAboutLinks(cfg, Holds(), GateNow(), AfterRender(cfg, item, rendered)); }
      match rendered
      case Cancelled => return;
      case Busy =>
        if item.attempts < cfg.busyRetryMaxAttempts {
          PushRenderBacklog(item.(attempts := item.attempts + 1));
        } else {
          DoRetryOrFail(item.job);
        }
      case RenderFailed =>
        DoRetryOrFail(item.job);
      case Showed(r) =>
        ProcessRendered(item, r);
    }

    method ProcessRendered(item: Item, r: Response)
      requires Valid()
      modifies this, frontier, frontier.queue
      ensures Valid()
      ensures CarriedOut(cfg, old(Holds()), old(GateNow()), AfterRender(cfg, item, Showed(r)), Holds(), GateNow())
    {
      NotAboutLinks(cfg, Holds(), GateNow(), Fail);
      NotAboutLinks(cfg, Holds(), GateNow(), Drop);
      if !Success(r.status) {
        pagesErrored := pagesErrored + 1;
        return;
      }
      if cfg.nonIndexable(r.finalURL) {
        return;
      }
      ProcessShownPage(item, r);
    }

    method ProcessShownPage(item: Item, r: Response)
      requires Valid() && Success(r.status) && !cfg.nonIndexable(r.finalURL)
      modifies this, frontier, frontier.queue
      ensures Valid()
      ensures CarriedOut(cfg, old(Holds()), old(GateNow()), AfterRender(cfg, item, Showed(r)), Holds(), GateNow())
    {
      hide Followed, Follow, FollowInside, Push, Key, BacklogOK, ItemsClean;
      NotAboutLinks(cfg, Holds(), GateNow(), Fail);
      match r.page
      case Asset(out) =>
        ProcessDiscoveryOnly(item.job, out);
      case Broken =>
        pagesErrored := pagesErrored + 1;
      case Html(_, interstitial, out) =>
        Persist(item.job, interstitial, out);
    }

    // ---------- The turn of a worker ----------

    /** A job of a domain that gets a slot is taken out and worked on: what the engine holds gets lighter. */
    method WorkOnJob(fetched: Fetched) returns (job: Option<Job>)
      requires Valid() && LimiterValid()
      modifies this, frontier, frontier.queue, limiter, clock
      ensures Valid() && LimiterValid()
      ensures job.None? ==> Holds() == old(Holds()) && GateNow() == old(GateNow())
      ensures job.Some? ==>
                && job.value.domain in old(frontier.queue.domains)
                && ListOK(old(frontier.queue.State()), job.value.domain)
                && job.value == old(frontier.queue.domains)[job.value.domain][0]
                && CarriedOut(cfg, old(Holds()).(core := Popped(old(frontier.queue.State()), job.value.domain)),
                              old(GateNow()), AfterFetch(cfg, job.value, fetched), Holds(), GateNow())
                && SiteWeight(cfg, Holds()) < old(SiteWeight(cfg, Holds()))
    {
      job := frontier.Dequeue(limiter, clock);
      if job.Some? {
        SetWeightWithout(cfg, old(frontier.queue.jobs), job.value);
        ProcessJob(job.value, fetched);
      }
    }

    /** With no job pending the oldest backlog item is worked on: what the engine holds gets lighter as well. */
    method WorkOnBacklog(rendered: Rendered) returns (worked: bool)
      requires Valid()
      modifies this, frontier, frontier.queue
      ensures Valid() && worked == (old(frontier.queue.jobs) == {} && old(renderBacklog) != [])
      ensures if worked
              then CarriedOut(cfg, Pop(cfg, old(Holds())), old(GateNow()),
                              AfterRender(cfg, old(renderBacklog)[0], rendered), Holds(), GateNow())
              else Holds() == old(Holds()) && GateNow() == old(GateNow())
      ensures worked ==> SiteWeight(cfg, Holds()) < old(SiteWeight(cfg, Holds()))
    {
      var pending := frontier.queue.Len();
      if pending > 0 {
        return false;
      }
      worked := WorkOnOldestItem(rendered);
    }

    method WorkOnOldestItem(rendered: Rendered) returns (worked: bool)
      requires Valid() && frontier.queue.jobs == {}
      modifies this, frontier, frontier.queue
      ensures Valid() && worked == (old(renderBacklog) != [])
      ensures if worked
              then CarriedOut(cfg, Pop(cfg, old(Holds())), old(GateNow()),
                              AfterRender(cfg, old(renderBacklog)[0], rendered), Holds(), GateNow())
              else Holds() == old(Holds()) && GateNow() == old(GateNow())
      ensures worked ==> SiteWeight(cfg, Holds()) < old(SiteWeight(cfg, Holds()))
    {
      if renderBacklog != [] { PopWeight(cfg, Holds()); }
      var item := PopRenderBacklog();
      if item.None? {
        return false;
      }
      var preempted := ProcessRenderBacklogItem(item.value, rendered);
      worked := true;
    }
  }
}
