/**
 What becomes of a fetched or rendered page, said of the queue, the backlog and the counters, and that
 the decisions of module EngineWork come to just this.
 */
module Outcomes {
  import opened CrawlQueue
  import opened EngineWork
  import opened Options
  import Admission
  import Frontiers

  // ---------- Small changes ----------

  ghost predicate OneMoreError(s: Site, s': Site) {
    s' == s.(errors := s.errors + 1)
  }

  /** One more job is pending, under the next number, and nothing else has changed. */
  ghost predicate OneMorePending(s: Site, s': Site, job: Job) {
    && s' == s.(core := s'.core) && s'.core.last == s.core.last + 1
    && s'.core.jobs == s.core.jobs + {job.(id := s.core.last + 1)}
  }

  /** The job goes back with one more retry and this score while any retry is left; else it is an error. */
  ghost predicate TriedAgain(c: Config, s: Site, s': Site, job: Job, score: real) {
    if job.retries < c.maxRetries then OneMorePending(s, s', job.(retries := job.retries + 1, score := score))
    else OneMoreError(s, s')
  }

  /** The page waits at the end of the backlog, unless one with its fingerprint and reason waits there already. */
  ghost predicate LeftToBrowser(c: Config, s: Site, s': Site, item: Item) {
    && s' == s.(backlog := s'.backlog, queued := s'.queued)
    && s'.backlog == if WaitsAlready(c, s.backlog, item) then s.backlog else s.backlog + [item]
  }

  ghost predicate WaitsAlready(c: Config, backlog: seq<Item>, item: Item) {
    exists k :: 0 <= k < |backlog| && c.fingerprint(backlog[k].targetURL) + ":" + backlog[k].reason
                                      == c.fingerprint(item.targetURL) + ":" + item.reason
  }

  // ---------- Links ----------

  /** Which anchors count: those of indexable URLs, and inside one domain only if `domain` is given. */
  ghost predicate Counts(c: Config, domain: Option<string>, a: Anchor) {
    !c.nonIndexable(a.url) && (domain.Some? ==> a.domain == domain.value)
  }

  /** The links of the first hundred anchors that count, in their order; `at` are their positions. */
  ghost predicate ChosenAt(c: Config, domain: Option<string>, anchors: seq<Anchor>, links: seq<Frontiers.RawLink>,
                           at: seq<nat>)
  {
    && |at| == |links| <= 100
    && (forall k :: 0 <= k < |at| ==>
          at[k] < |anchors| && Counts(c, domain, anchors[at[k]]) && links[k] == anchors[at[k]].link)
    && (forall j, k :: 0 <= j < k < |at| ==> at[j] < at[k])
    && (forall i :: 0 <= i < |anchors| && Counts(c, domain, anchors[i]) && i !in at ==>
          |at| == 100 && forall k :: 0 <= k < |at| ==> at[k] < i)
  }

  /** Below the maximal depth, and outside the no-follow domains, these are followed, else none. */
  ghost predicate Chosen(c: Config, job: Job, domain: Option<string>, anchors: seq<Anchor>,
                         links: seq<Frontiers.RawLink>)
  {
    if job.depth < c.maxDepth && !Admission.Blacklisted(c.noFollow, job.domain)
    then exists at :: ChosenAt(c, domain, anchors, links, at)
    else links == []
  }

  /** The links go to the frontier one level deeper, and `more` pages are counted as stored. */
  ghost predicate Followed(c: Config, s: Site, g: Frontiers.Gate, s': Site, g': Frontiers.Gate, job: Job,
                           domain: Option<string>, out: Outlinks, more: nat)
  {
    exists links ::
      && Chosen(c, job, domain, out.anchors, links)
      && HandedOver(c, s, g, s', g', links, job.depth + 1, if out.stored.Some? then out.stored.value else {}, more)
  }

  /** The frontier has taken a batch of links of this depth, of which the store has these URLs. */
  ghost predicate HandedOver(c: Config, s: Site, g: Frontiers.Gate, s': Site, g': Frontiers.Gate,
                            links: seq<Frontiers.RawLink>, depth: int, existing: set<string>, more: nat)
  {
    var b := Frontiers.Batch(links, depth, existing, c.score);
    && s' == s.(core := FileAll(s.core, Frontiers.Passed(c.settings, g, b)), crawled := s.crawled + more)
    && g' == Frontiers.GateAfter(c.settings, g, b)
  }

  // ---------- Jobs and backlog items ----------

  /** Whether a page may be left to the browser. */
  ghost predicate ForBrowser(c: Config, reason: Option<string>, url: string) {
    reason.Some? && c.rendering && !c.nonIndexable(url)
  }

  /** The answer was no success, and is not left to the browser. */
  ghost predicate Refused(c: Config, job: Job, r: Response) {
    !(200 <= r.status < 300) && !ForBrowser(c, r.renderReason, job.url)
  }

  ghost predicate NotTaken(c: Config, job: Job) {
    c.nonIndexable(job.url) || Admission.Blacklisted(c.settings.blacklist, job.domain)
  }

  /** A page that was fetched, or shown by the browser, and can be parsed or is no page at all. */
  ghost predicate Kept(c: Config, s: Site, g: Frontiers.Gate, s': Site, g': Frontiers.Gate, job: Job, page: Page)
    requires !page.Broken?
  {
    match page
    case Asset(out) => Followed(c, s, g, s', g', job, Some(job.domain), out, 0)
    case Html(_, interstitial, out) =>
      if interstitial then OneMoreError(s, s') && g' == g else Followed(c, s, g, s', g', job, None, out, 1)
  }

  /** What becomes of a job that is answered with a success. */
  ghost predicate Succeeded(c: Config, s: Site, g: Frontiers.Gate, s': Site, g': Frontiers.Gate, job: Job,
                            r: Response)
  {
    if c.nonIndexable(r.finalURL) then s' == s && g' == g
    else if r.page.Broken? then TriedAgain(c, s, s', job, job.score) && g' == g
    else if r.page.Html? && ForBrowser(c, r.page.renderReason, r.finalURL)
    then LeftToBrowser(c, s, s', Item(job, c.canonical(r.finalURL), r.page.renderReason.value, 0)) && g' == g
    else Kept(c, s, g, s', g', job, r.page)
  }

  /** What becomes of a page that the browser has shown. */
  ghost predicate Shown(c: Config, s: Site, g: Frontiers.Gate, s': Site, g': Frontiers.Gate, job: Job, r: Response) {
    if !(200 <= r.status < 300) then OneMoreError(s, s') && g' == g
    else if c.nonIndexable(r.finalURL) then s' == s && g' == g
    else if r.page.Broken? then OneMoreError(s, s') && g' == g
    else Kept(c, s, g, s', g', job, r.page)
  }

  // ---------- The decisions come to this ----------

  lemma LinksOneMore(c: Config, anchors: seq<Anchor>, last: Anchor)
    ensures Links(c, anchors + [last]) == Links(c, anchors) + if c.nonIndexable(last.url) then [] else [last.link]
  {
    assert (anchors + [last])[..|anchors|] == anchors;
  }

  lemma {:induction false} InsideLinks(c: Config, domain: string, anchors: seq<Anchor>)
    ensures Links(c, Inside(c, domain, anchors)) == AllLinks(c, Some(domain), anchors)
  {
    if anchors != [] {
      var before, last := anchors[..|anchors| - 1], anchors[|anchors| - 1];
      InsideLinks(c, domain, before);
      var inside := Inside(c, domain, before);
      LinksOneMore(c, inside, last);
      assert inside + [] == inside && AllLinks(c, Some(domain), before) + [] == AllLinks(c, Some(domain), before);
      assert Inside(c, domain, anchors) == inside + if Counts(c, Some(domain), last) then [last] else [];
    }
  }

  lemma {:induction false} PlainLinks(c: Config, anchors: seq<Anchor>)
    ensures Links(c, anchors) == AllLinks(c, None, anchors)
  {
    if anchors != [] { PlainLinks(c, anchors[..|anchors| - 1]); }
  }

  /** The links of all anchors that count. */
  ghost function AllLinks(c: Config, domain: Option<string>, anchors: seq<Anchor>): seq<Frontiers.RawLink> {
    if anchors == [] then []
    else
      AllLinks(c, domain, anchors[..|anchors| - 1])
      + if Counts(c, domain, anchors[|anchors| - 1]) then [anchors[|anchors| - 1].link] else []
  }

  /** The positions of all anchors that count. */
  ghost function AllAt(c: Config, domain: Option<string>, anchors: seq<Anchor>): seq<nat> {
    if anchors == [] then []
    else
      AllAt(c, domain, anchors[..|anchors| - 1])
      + if Counts(c, domain, anchors[|anchors| - 1]) then [|anchors| - 1] else []
  }

  lemma {:induction false} PositionsFit(c: Config, domain: Option<string>, anchors: seq<Anchor>)
    ensures var at, links := AllAt(c, domain, anchors), AllLinks(c, domain, anchors);
            && |at| == |links|
            && (forall k :: 0 <= k < |at| ==>
                  at[k] < |anchors| && Counts(c, domain, anchors[at[k]]) && links[k] == anchors[at[k]].link)
            && (forall j, k :: 0 <= j < k < |at| ==> at[j] < at[k])
            && (forall i: nat :: i < |anchors| && Counts(c, domain, anchors[i]) ==> i in at)
  {
    hide Counts;
    if anchors != [] {
      PositionsFit(c, domain, anchors[..|anchors| - 1]);
    }
  }

  /** Of rising positions, those that are not among the first hundred come behind them. */
  lemma BehindFirst(at: seq<nat>, i: nat)
    requires |at| > 100 && (forall j, k :: 0 <= j < k < |at| ==> at[j] < at[k])
    requires i in at && i !in at[..100]
    ensures forall k :: 0 <= k < 100 ==> at[k] < i
  {
    var p :| 0 <= p < |at| && at[p] == i;
    assert forall k :: 0 <= k < 100 ==> at[..100][k] == at[k];
  }

  lemma FirstAreChosen(c: Config, domain: Option<string>, anchors: seq<Anchor>)
    ensures exists at :: ChosenAt(c, domain, anchors, FirstLinks(AllLinks(c, domain, anchors)), at)
  {
    hide AllAt, AllLinks, Counts;
    PositionsFit(c, domain, anchors);
    var at, links := AllAt(c, domain, anchors), AllLinks(c, domain, anchors);
    if |at| <= 100 {
      assert FirstLinks(links) == links;
      assert ChosenAt(c, domain, anchors, links, at);
    } else {
      forall i: nat | i < |anchors| && Counts(c, domain, anchors[i]) && i !in at[..100]
        ensures forall k :: 0 <= k < 100 ==> at[k] < i
      {
        BehindFirst(at, i);
      }
      assert FirstLinks(links) == links[..100];
      assert ChosenAt(c, domain, anchors, links[..100], at[..100]);
    }
  }

  lemma FollowedBy(c: Config, s: Site, g: Frontiers.Gate, job: Job, domain: Option<string>, out: Outlinks,
                   stored: bool, d: Decision)
    requires d.Expand? && d == Expand(d.links, job.depth + 1, if out.stored.Some? then out.stored.value else {}, stored)
    requires Chosen(c, job, domain, out.anchors, d.links)
    ensures Followed(c, s, g, Carry(c, s, d, Arriving(c, g, d)), GateAfter(c, g, d), job, domain, out,
                     if stored then 1 else 0)
  {
    hide Chosen, HandedOver;
    SubmittedAsDecided(c, s, g, d);
  }

  lemma SubmittedAsDecided(c: Config, s: Site, g: Frontiers.Gate, d: Decision)
    requires d.Expand?
    ensures HandedOver(c, s, g, Carry(c, s, d, Arriving(c, g, d)), GateAfter(c, g, d), d.links, d.depth, d.existing,
                      if d.stored then 1 else 0)
  {
    hide FileAll;
  }

  /** The links of the first hundred anchors, as a batch. */
  lemma FirstSubmitted(c: Config, s: Site, g: Frontiers.Gate, anchors: seq<Anchor>, depth: int, existing: set<string>)
    ensures var d := Expand(FirstLinks(Links(c, anchors)), depth, existing, false);
            exists links, at ::
              && ChosenAt(c, None, anchors, links, at)
              && HandedOver(c, s, g, Carry(c, s, d, Arriving(c, g, d)), GateAfter(c, g, d), links, depth, existing, 0)
  {
    hide FirstLinks, ChosenAt, Links, AllLinks, HandedOver, Carry, Arriving, GateAfter;
    PlainLinks(c, anchors);
    FirstAreChosen(c, None, anchors);
    SubmittedAsDecided(c, s, g, Expand(FirstLinks(Links(c, anchors)), depth, existing, false));
  }

  lemma FollowedAsDecided(c: Config, s: Site, g: Frontiers.Gate, job: Job, out: Outlinks, stored: bool)
    ensures var d := Follow(c, job, out, stored);
            Followed(c, s, g, Carry(c, s, d, Arriving(c, g, d)), GateAfter(c, g, d), job, None, out,
                     if stored then 1 else 0)
  {
    hide FirstLinks, ChosenAt, Links, AllLinks, Followed, Carry, Arriving, GateAfter;
    PlainLinks(c, out.anchors);
    FirstAreChosen(c, None, out.anchors);
    FollowedBy(c, s, g, job, None, out, stored, Follow(c, job, out, stored));
  }

  lemma InsideAsDecided(c: Config, s: Site, g: Frontiers.Gate, job: Job, out: Outlinks)
    ensures var d := FollowInside(c, job, out);
            Followed(c, s, g, Carry(c, s, d, Arriving(c, g, d)), GateAfter(c, g, d), job, Some(job.domain), out, 0)
  {
    hide FirstLinks, ChosenAt, Links, Inside, AllLinks, Followed, Carry, Arriving, GateAfter;
    InsideLinks(c, job.domain, out.anchors);
    FirstAreChosen(c, Some(job.domain), out.anchors);
    FollowedBy(c, s, g, job, Some(job.domain), out, false, FollowInside(c, job, out));
  }

  lemma AgainAsDecided(c: Config, s: Site, g: Frontiers.Gate, job: Job)
    ensures var d := RetryOrFail(c, job);
            TriedAgain(c, s, Carry(c, s, d, Arriving(c, g, d)), job, job.score) && GateAfter(c, g, d) == g
  {
  }

  lemma LeftAsDecided(c: Config, s: Site, g: Frontiers.Gate, item: Item)
    requires BacklogOK(c, s.backlog, s.queued)
    ensures var d := ToBacklog(item);
            LeftToBrowser(c, s, Carry(c, s, d, Arriving(c, g, d)), item) && GateAfter(c, g, d) == g
  {
  }

  lemma KeptAsDecided(c: Config, s: Site, g: Frontiers.Gate, job: Job, page: Page)
    requires !page.Broken?
    ensures var d := match page
                     case Asset(out) => FollowInside(c, job, out)
                     case Html(_, interstitial, out) => if interstitial then Fail else Follow(c, job, out, true);
            Kept(c, s, g, Carry(c, s, d, Arriving(c, g, d)), GateAfter(c, g, d), job, page)
  {
    hide Followed, Follow, FollowInside;
    match page
    case Asset(out) => InsideAsDecided(c, s, g, job, out);
    case Html(_, _, out) => FollowedAsDecided(c, s, g, job, out, true);
  }

  /** A job answered with a success. */
  lemma SuccessAsDecided(c: Config, s: Site, g: Frontiers.Gate, job: Job, r: Response)
    requires BacklogOK(c, s.backlog, s.queued) && !NotTaken(c, job) && 200 <= r.status < 300
    ensures var d := AfterFetch(c, job, Got(r));
            Succeeded(c, s, g, Carry(c, s, d, Arriving(c, g, d)), GateAfter(c, g, d), job, r)
  {
    hide Kept, Follow, FollowInside, RetryOrFail, TriedAgain, LeftToBrowser, BacklogOK, Carry, Arriving;
    var d := AfterFetch(c, job, Got(r));
    if c.nonIndexable(r.finalURL) {
      NothingDecided(c, s, g);
    } else if r.page.Broken? {
      AgainAsDecided(c, s, g, job);
    } else {
      if d.ToBacklog? { LeftAsDecided(c, s, g, d.item); }
      KeptAsDecided(c, s, g, job, r.page);
    }
  }

  lemma NothingDecided(c: Config, s: Site, g: Frontiers.Gate)
    ensures Carry(c, s, Drop, Arriving(c, g, Drop)) == s && GateAfter(c, g, Drop) == g
    ensures OneMoreError(s, Carry(c, s, Fail, Arriving(c, g, Fail))) && GateAfter(c, g, Fail) == g
  {
  }

  /** A page that the browser has shown. */
  lemma ShownAsDecided(c: Config, s: Site, g: Frontiers.Gate, item: Item, r: Response)
    ensures var d := AfterRender(c, item, Showed(r));
            Shown(c, s, g, Carry(c, s, d, Arriving(c, g, d)), GateAfter(c, g, d), item.job, r)
  {
    hide Kept, Follow, FollowInside, Carry, Arriving;
    NothingDecided(c, s, g);
    if !r.page.Broken? { KeptAsDecided(c, s, g, item.job, r.page); }
  }

  /** An answer that is neither a success nor left to the browser. */
  lemma RefusalAsDecided(c: Config, s: Site, g: Frontiers.Gate, job: Job, r: Response)
    requires !NotTaken(c, job) && Refused(c, job, r)
    ensures var d := AfterFetch(c, job, Got(r));
            var s' := Carry(c, s, d, Arriving(c, g, d));
            && GateAfter(c, g, d) == g
            && if 400 <= r.status < 500 && r.status != 429 then OneMoreError(s, s')
               else if r.status == 429
               then TriedAgain(c, s, s', job, if job.score < 4.0 then 1.0 else job.score / 4.0)
               else TriedAgain(c, s, s', job, job.score)
  {
    hide Carry, Arriving, RetryOrFail, TriedAgain;
    NothingDecided(c, s, g);
    AgainAsDecided(c, s, g, job);
    AgainAsDecided(c, s, g, Demoted(job));
    DemotedAgain(c, s, Carry(c, s, RetryOrFail(c, Demoted(job)), Arriving(c, g, RetryOrFail(c, Demoted(job)))), job);
  }

  lemma DemotedAgain(c: Config, s: Site, s': Site, job: Job)
    requires TriedAgain(c, s, s', Demoted(job), Demoted(job).score)
    ensures TriedAgain(c, s, s', job, if job.score < 4.0 then 1.0 else job.score / 4.0)
  {
    assert job.score * 0.25 == job.score / 4.0;
  }

  /** Any answer to a fetch. */
  lemma FetchAsDecided(c: Config, s: Site, g: Frontiers.Gate, job: Job, fetched: Fetched)
    requires BacklogOK(c, s.backlog, s.queued)
    ensures var d := AfterFetch(c, job, fetched);
            var s', g' := Carry(c, s, d, Arriving(c, g, d)), GateAfter(c, g, d);
            && (NotTaken(c, job) || fetched.Forbidden? || fetched.Unsupported? ==> s' == s && g' == g)
            && (!NotTaken(c, job) && fetched.FetchFailed? ==> TriedAgain(c, s, s', job, job.score) && g' == g)
            && (!NotTaken(c, job) && fetched.Got? ==>
                  var r := fetched.response;
                  if 200 <= r.status < 300 then Succeeded(c, s, g, s', g', job, r)
                  else
                    && g' == g
                    && if ForBrowser(c, r.renderReason, job.url)
                       then LeftToBrowser(c, s, s', Item(job, c.canonical(job.url), r.renderReason.value, 0))
                       else if 400 <= r.status < 500 && r.status != 429 then OneMoreError(s, s')
                       else if r.status == 429
                       then TriedAgain(c, s, s', job, if job.score < 4.0 then 1.0 else job.score / 4.0)
                       else TriedAgain(c, s, s', job, job.score))
  {
    hide Carry, Arriving, RetryOrFail, TriedAgain, OneMoreError, LeftToBrowser, Succeeded, Follow, FollowInside;
    hide BacklogOK;
    NothingDecided(c, s, g);
    AgainAsDecided(c, s, g, job);
    if !NotTaken(c, job) && fetched.Got? {
      var r := fetched.response;
      if 200 <= r.status < 300 {
        SuccessAsDecided(c, s, g, job, r);
      } else if ForBrowser(c, r.renderReason, job.url) {
        LeftAsDecided(c, s, g, NewItem(c, job, job.url, r.renderReason.value));
      } else {
        RefusalAsDecided(c, s, g, job, r);
      }
    }
  }

  /** Any outcome of a rendering, or giving way to pending jobs. */
  lemma RenderingAsDecided(c: Config, s: Site, g: Frontiers.Gate, item: Item, rendered: Rendered)
    requires BacklogOK(c, s.backlog, s.queued)
    ensures LeftToBrowser(c, s, Carry(c, s, ToBacklog(item), Arriving(c, g, ToBacklog(item))), item)
    ensures GateAfter(c, g, ToBacklog(item)) == g
    ensures var d := AfterRender(c, item, rendered);
            var s', g' := Carry(c, s, d, Arriving(c, g, d)), GateAfter(c, g, d);
            match rendered
            case Cancelled => s' == s && g' == g
            case Busy =>
              && g' == g
              && if item.attempts < c.busyRetryMaxAttempts
                 then LeftToBrowser(c, s, s', item.(attempts := item.attempts + 1))
                 else TriedAgain(c, s, s', item.job, item.job.score)
            case RenderFailed => TriedAgain(c, s, s', item.job, item.job.score) && g' == g
            case Showed(r) => Shown(c, s, g, s', g', item.job, r)
  {
    hide Carry, Arriving, RetryOrFail, TriedAgain, LeftToBrowser, Shown, Follow, FollowInside, BacklogOK;
    NothingDecided(c, s, g);
    LeftAsDecided(c, s, g, item);
    LeftAsDecided(c, s, g, item.(attempts := item.attempts + 1));
    AgainAsDecided(c, s, g, item.job);
    if rendered.Showed? { ShownAsDecided(c, s, g, item, rendered.response); }
  }
}
