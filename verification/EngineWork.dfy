/**
 What the crawl engine decides for one fetched or rendered page, and why the crawl comes to an end:
 the steps of all workers, in any interleaving, are charged against a weight of the work at hand.
 */
module EngineWork {
  import opened CrawlQueue
  import opened Options
  import Admission
  import Frontiers

  const MAX_LINKS := 100

  /**
   `fingerprint`, `canonical` and `nonIndexable` are the URL functions the engine relies on; `settings`
   are those of the frontier, `score` is its scorer, and the links of `noFollow` domains are ignored.
   A 429 answer puts the domain into cooldown for `cooldown`.
   */
  datatype Config = Config(maxDepth: int, maxRetries: int, busyRetryMaxAttempts: int, rendering: bool,
                           fingerprint: string -> string, canonical: string -> string, nonIndexable: string -> bool,
                           settings: Admission.Settings, score: Job -> real, noFollow: set<string>, cooldown: nat)

  /** A page that waits for the browser. */
  datatype Item = Item(job: Job, targetURL: string, reason: string, attempts: int)

  function Key(c: Config, item: Item): string {
    c.fingerprint(item.targetURL) + ":" + item.reason
  }

  // ---------- What the outside world answered ----------

  /** A link of a page: its URL with the domain in it, and what canonicalization makes of it. */
  datatype Anchor = Anchor(url: string, domain: string, link: Frontiers.RawLink)

  /** The links of a page, and which URLs the store says it has, if it answers at all. */
  datatype Outlinks = Outlinks(anchors: seq<Anchor>, stored: Option<set<string>>)

  datatype Page =
    | Asset(out: Outlinks)
    | Broken
    | Html(renderReason: Option<string>, interstitial: bool, out: Outlinks)

  datatype Response = Response(status: int, finalURL: string, renderReason: Option<string>, page: Page)

  datatype Fetched = Forbidden | Unsupported | FetchFailed | Got(response: Response)

  /** `Cancelled` is a shutdown while the item waits for its next attempt. */
  datatype Rendered = Cancelled | Busy | RenderFailed | Showed(response: Response)

  // ---------- What the engine does about it ----------

  datatype Decision =
    | Drop
    | Fail
    | Requeue(job: Job)
    | ToBacklog(item: Item)
    | Expand(links: seq<Frontiers.RawLink>, depth: int, existing: set<string>, stored: bool)

  function RetryOrFail(c: Config, job: Job): Decision {
    if job.retries < c.maxRetries then Requeue(job.(retries := job.retries + 1)) else Fail
  }

  predicate Success(status: int) {
    200 <= status < 300
  }

  predicate PermanentError(status: int) {
    400 <= status < 500 && status != 429
  }

  /** A 429 answer costs the job three quarters of its score, down to 1. */
  function Demoted(job: Job): Job {
    var score := job.score * 0.25;
    job.(score := if score < 1.0 then 1.0 else score)
  }

  /** A page enters the backlog under its canonical URL. */
  function NewItem(c: Config, job: Job, targetURL: string, reason: string): Item {
    Item(job, c.canonical(targetURL), reason, 0)
  }

  predicate CanRender(c: Config, targetURL: string) {
    c.rendering && !c.nonIndexable(targetURL)
  }

  /** The links of these anchors, save for those to documents that are not indexed. */
  function Links(c: Config, anchors: seq<Anchor>): seq<Frontiers.RawLink> {
    if anchors == [] then []
    else
      var last := anchors[|anchors| - 1];
      Links(c, anchors[..|anchors| - 1]) + if c.nonIndexable(last.url) then [] else [last.link]
  }

  function FirstLinks(links: seq<Frontiers.RawLink>): (first: seq<Frontiers.RawLink>)
    ensures |first| <= MAX_LINKS && first <= links
  {
    if |links| > MAX_LINKS then links[..MAX_LINKS] else links
  }

  /** The anchors that a resource other than a page is followed to: those of its own domain. */
  function Inside(c: Config, domain: string, anchors: seq<Anchor>): seq<Anchor> {
    if anchors == [] then []
    else
      var last := anchors[|anchors| - 1];
      Inside(c, domain, anchors[..|anchors| - 1])
      + if !c.nonIndexable(last.url) && last.domain == domain then [last] else []
  }

  /** Links are followed up to the maximal depth, and not from no-follow domains. */
  ghost function Follow(c: Config, job: Job, out: Outlinks, stored: bool): Decision {
    Expand(if job.depth < c.maxDepth && !Admission.Blacklisted(c.noFollow, job.domain)
           then FirstLinks(Links(c, out.anchors)) else [],
           job.depth + 1, if out.stored.Some? then out.stored.value else {}, stored)
  }

  ghost function FollowInside(c: Config, job: Job, out: Outlinks): Decision {
    Follow(c, job, out.(anchors := Inside(c, job.domain, out.anchors)), false)
  }

  ghost predicate Skipped(c: Config, job: Job) {
    c.nonIndexable(job.url) || Admission.Blacklisted(c.settings.blacklist, job.domain)
  }

  /** The branches of a fetch, in the order in which they are tried. */
  ghost function AfterFetch(c: Config, job: Job, fetched: Fetched): Decision {
    if Skipped(c, job) then Drop
    else match fetched
      case Forbidden => Drop
      case Unsupported => Drop
      case FetchFailed => RetryOrFail(c, job)
      case Got(r) =>
        if !Success(r.status) then
          if r.renderReason.Some? && CanRender(c, job.url)
          then ToBacklog(NewItem(c, job, job.url, r.renderReason.value))
          else if PermanentError(r.status) then Fail
          else RetryOrFail(c, if r.status == 429 then Demoted(job) else job)
        else if c.nonIndexable(r.finalURL) then Drop
        else match r.page
          case Asset(out) => FollowInside(c, job, out)
          case Broken => RetryOrFail(c, job)
          case Html(reason, interstitial, out) =>
            if reason.Some? && CanRender(c, r.finalURL) then ToBacklog(NewItem(c, job, r.finalURL, reason.value))
            else if interstitial then Fail
            else Follow(c, job, out, true)
  }

  /** Whether the domain is put into cooldown: on a 429 answer that is not left to the browser. */
  ghost predicate Throttles(c: Config, job: Job, fetched: Fetched) {
    && !Skipped(c, job) && fetched.Got? && fetched.response.status == 429
    && !(fetched.response.renderReason.Some? && CanRender(c, job.url))
  }

  /** The branches of a browser rendering. */
  ghost function AfterRender(c: Config, item: Item, rendered: Rendered): Decision {
    match rendered
    case Cancelled => Drop
    case Busy =>
      if item.attempts < c.busyRetryMaxAttempts then ToBacklog(item.(attempts := item.attempts + 1))
      else RetryOrFail(c, item.job)
    case RenderFailed => RetryOrFail(c, item.job)
    case Showed(r) =>
      if !Success(r.status) then Fail
      else if c.nonIndexable(r.finalURL) then Drop
      else match r.page
        case Asset(out) => FollowInside(c, item.job, out)
        case Broken => Fail
        case Html(_, interstitial, out) => if interstitial then Fail else Follow(c, item.job, out, true)
  }

  // ---------- Weights ----------

  function AtLeastZero(x: int): nat {
    if x > 0 then x else 0
  }

  /** What one more attempt to fetch is worth: a fetch, the renderings it may lead to, and a margin. */
  function Unit(c: Config): nat {
    AtLeastZero(c.busyRetryMaxAttempts) + 2
  }

  /** `n` times the unit. */
  function Units(c: Config, n: nat): nat {
    if n == 0 then 0 else Units(c, n - 1) + Unit(c)
  }

  /** The weight of a fresh job's own fetches and renderings. */
  function Attempts(c: Config): nat {
    Units(c, AtLeastZero(c.maxRetries) + 1)
  }

  /** A job worth `a` of its own, and 100 children a level. */
  function TreeWeight(a: nat, levels: nat): nat {
    (if levels == 0 then 0 else MAX_LINKS * TreeWeight(a, levels - 1)) + a
  }

  /** The weight of a fresh job that may still go `levels` deeper. */
  function FreshWeight(c: Config, levels: nat): nat {
    TreeWeight(Attempts(c), levels)
  }

  /** The most that the children of a page with `levels` levels below it can weigh. */
  function Below(c: Config, levels: nat): nat {
    if levels == 0 then 0 else MAX_LINKS * FreshWeight(c, levels - 1)
  }

  function LevelsFrom(c: Config, depth: int): nat {
    AtLeastZero(c.maxDepth - depth)
  }

  function Levels(c: Config, job: Job): nat {
    LevelsFrom(c, job.depth)
  }

  function RetriesLeft(c: Config, job: Job): nat {
    AtLeastZero(c.maxRetries - job.retries)
  }

  function JobWeight(c: Config, job: Job): nat {
    Below(c, Levels(c, job)) + Units(c, RetriesLeft(c, job) + 1)
  }

  function ItemWeight(c: Config, item: Item): nat {
    Below(c, Levels(c, item.job)) + Units(c, RetriesLeft(c, item.job))
    + AtLeastZero(c.busyRetryMaxAttempts - item.attempts) + 1
  }

  function JobsWeight(c: Config, jobs: seq<Job>): nat {
    if jobs == [] then 0 else JobsWeight(c, jobs[..|jobs| - 1]) + JobWeight(c, jobs[|jobs| - 1])
  }

  /** What a decision leaves to be done. */
  function DecisionWeight(c: Config, d: Decision): nat {
    match d
    case Drop => 0
    case Fail => 0
    case Requeue(job) => JobWeight(c, job)
    case ToBacklog(item) => ItemWeight(c, item)
    case Expand(links, depth, _, _) => |links| * FreshWeight(c, LevelsFrom(c, depth))
  }

  lemma RetryIsLighter(c: Config, job: Job)
    ensures DecisionWeight(c, RetryOrFail(c, job))
            <= Below(c, Levels(c, job)) + Units(c, RetriesLeft(c, job))
    ensures Below(c, Levels(c, job)) + Units(c, RetriesLeft(c, job)) + Unit(c) == JobWeight(c, job)
  {
    if job.retries < c.maxRetries {
      assert RetriesLeft(c, job.(retries := job.retries + 1)) + 1 == RetriesLeft(c, job);
    }
  }

  lemma {:induction false} SameWeights(c: Config, jobs: seq<Job>, w: nat)
    requires forall k :: 0 <= k < |jobs| ==> JobWeight(c, jobs[k]) == w
    ensures JobsWeight(c, jobs) == |jobs| * w
  {
    if jobs != [] {
      var n := |jobs| - 1;
      SameWeights(c, jobs[..n], w);
      OneMoreTimes(n, w);
    }
  }

  lemma OneMoreTimes(n: nat, w: nat)
    ensures (n + 1) * w == n * w + w
  {
  }

  lemma ProductAtMost(n: nat, w: nat)
    requires n <= MAX_LINKS
    ensures n * w <= MAX_LINKS * w
  {
  }

  /** The links that are followed weigh no more than was set aside for them. */
  lemma FollowWeight(c: Config, job: Job, out: Outlinks, stored: bool)
    ensures DecisionWeight(c, Follow(c, job, out, stored)) <= Below(c, Levels(c, job))
  {
    var d := Follow(c, job, out, stored);
    if d.links != [] {
      ProductAtMost(|d.links|, FreshWeight(c, LevelsFrom(c, job.depth + 1)));
    }
  }

  lemma FetchedPageUsesWeight(c: Config, job: Job, r: Response)
    ensures DecisionWeight(c, AfterFetch(c, job, Got(r))) < JobWeight(c, job)
  {
    RetryIsLighter(c, job);
    RetryIsLighter(c, Demoted(job));
    match r.page
    case Asset(out) => FollowWeight(c, job, out.(anchors := Inside(c, job.domain, out.anchors)), false);
    case Broken =>
    case Html(_, _, out) => FollowWeight(c, job, out, true);
  }

  /** Every outcome of a fetch leaves less to do than the fetch itself was worth. */
  lemma FetchUsesWeight(c: Config, job: Job, fetched: Fetched)
    ensures DecisionWeight(c, AfterFetch(c, job, fetched)) < JobWeight(c, job)
  {
    match fetched
    case Got(r) => FetchedPageUsesWeight(c, job, r);
    case _ => RetryIsLighter(c, job);
  }

  lemma ShownPageUsesWeight(c: Config, item: Item, r: Response)
    ensures DecisionWeight(c, AfterRender(c, item, Showed(r))) < ItemWeight(c, item)
  {
    var job := item.job;
    match r.page
    case Asset(out) => FollowWeight(c, job, out.(anchors := Inside(c, job.domain, out.anchors)), false);
    case Broken =>
    case Html(_, _, out) => FollowWeight(c, job, out, true);
  }

  /** Every outcome of a rendering leaves less to do than the rendering was worth. */
  lemma RenderUsesWeight(c: Config, item: Item, rendered: Rendered)
    ensures DecisionWeight(c, AfterRender(c, item, rendered)) < ItemWeight(c, item)
  {
    match rendered
    case Showed(r) => ShownPageUsesWeight(c, item, r);
    case _ => RetryIsLighter(c, item.job);
  }

  /** 100^n */
  function Power100(n: nat): nat {
    if n == 0 then 1 else MAX_LINKS * Power100(n - 1)
  }

  lemma TreeStep(a: nat, g: nat, p: nat)
    requires 99 * g == a * (p - 1)
    ensures 99 * (MAX_LINKS * g + a) == a * (MAX_LINKS * p - 1)
  {
    assert a * (p - 1) == a * p - a;
    assert a * (100 * p - 1) == 100 * (a * p) - a;
  }

  lemma {:induction false} TreeClosedForm(a: nat, levels: nat)
    ensures 99 * TreeWeight(a, levels) == a * (Power100(levels + 1) - 1)
  {
    if levels == 0 {
      assert Power100(1) == 100 * Power100(0);
    } else {
      TreeClosedForm(a, levels - 1);
      TreeStep(a, TreeWeight(a, levels - 1), Power100(levels));
    }
  }

  lemma {:induction false} UnitsProduct(c: Config, n: nat)
    ensures Units(c, n) == n * Unit(c)
  {
    if n > 0 {
      UnitsProduct(c, n - 1);
      OneMoreTimes(n - 1, Unit(c));
    }
  }

  /**
   In closed form, 99 times the weight of a fresh job is
   (MaxRetries + 1)(BusyRetryMaxAttempts + 2)(100^(levels + 1) - 1).
   */
  lemma FreshWeightClosedForm(c: Config, levels: nat)
    ensures 99 * FreshWeight(c, levels) == Attempts(c) * (Power100(levels + 1) - 1)
    ensures Attempts(c) == (AtLeastZero(c.maxRetries) + 1) * (AtLeastZero(c.busyRetryMaxAttempts) + 2)
  {
    TreeClosedForm(Attempts(c), levels);
    UnitsProduct(c, AtLeastZero(c.maxRetries) + 1);
  }

  lemma FreshJobWeight(c: Config, job: Job)
    requires job.retries == 0
    ensures JobWeight(c, job) == FreshWeight(c, Levels(c, job))
  {
    assert RetriesLeft(c, job) == AtLeastZero(c.maxRetries);
  }

  // ---------- What the engine holds ----------

  /**
   The queue, the render backlog with the keys of what is in it, and the counters of stored pages and
   of errors.
   */
  datatype Site = Site(core: Core, backlog: seq<Item>, queued: set<string>, crawled: nat, errors: nat)

  /** The set holds exactly the keys of the backlog, and no key stands in it twice. */
  ghost predicate BacklogOK(c: Config, backlog: seq<Item>, queued: set<string>) {
    && (forall k :: 0 <= k < |backlog| ==> Key(c, backlog[k]) in queued)
    && (forall key :: key in queued ==> exists k :: 0 <= k < |backlog| && Key(c, backlog[k]) == key)
    && (forall j, k :: 0 <= j < k < |backlog| ==> Key(c, backlog[j]) != Key(c, backlog[k]))
  }

  ghost predicate SiteOK(c: Config, s: Site) {
    WellFormed(s.core) && BacklogOK(c, s.backlog, s.queued)
  }

  /** An item whose key is already in the backlog is dropped. */
  function Push(c: Config, s: Site, item: Item): Site {
    if Key(c, item) in s.queued then s
    else s.(backlog := s.backlog + [item], queued := s.queued + {Key(c, item)})
  }

  /** The oldest item leaves, and its key with it. */
  function Pop(c: Config, s: Site): Site
    requires s.backlog != []
  {
    s.(backlog := s.backlog[1..], queued := s.queued - {Key(c, s.backlog[0])})
  }

  /** Carrying out a decision; `arriving` are the jobs that the frontier lets into the queue because of it. */
  ghost function Carry(c: Config, s: Site, d: Decision, arriving: seq<Job>): Site {
    match d
    case Drop => s
    case Fail => s.(errors := s.errors + 1)
    case Requeue(job) => s.(core := FileOne(s.core, job))
    case ToBacklog(item) => Push(c, s, item)
    case Expand(_, _, _, stored) =>
      s.(core := FileAll(s.core, arriving), crawled := s.crawled + if stored then 1 else 0)
  }

  ghost predicate IsFrom(c: Config, links: seq<Frontiers.RawLink>, depth: int, job: Job) {
    exists i :: 0 <= i < |links| && !Frontiers.Dropped(c.settings, links[i])
                && job == Frontiers.JobFor(links[i].link, depth, c.score)
  }

  /**
   What can arrive, whatever other callers do to counters and filter meanwhile: jobs for some of the
   links, none for a blacklisted domain.
   */
  ghost predicate CanArrive(c: Config, d: Decision, jobs: seq<Job>) {
    if d.Expand? then |jobs| <= |d.links| && forall k :: 0 <= k < |jobs| ==> IsFrom(c, d.links, d.depth, jobs[k])
    else jobs == []
  }

  // ---------- What the frontier lets through ----------

  function BatchOf(c: Config, d: Decision): Frontiers.Batch
    requires d.Expand?
  {
    Frontiers.Batch(d.links, d.depth, d.existing, c.score)
  }

  /** What arrives when nobody else uses the frontier meanwhile. */
  ghost function Arriving(c: Config, g: Frontiers.Gate, d: Decision): seq<Job> {
    if d.Expand? then Frontiers.Passed(c.settings, g, BatchOf(c, d)) else []
  }

  ghost function GateAfter(c: Config, g: Frontiers.Gate, d: Decision): Frontiers.Gate {
    if d.Expand? then Frontiers.GateAfter(c.settings, g, BatchOf(c, d)) else g
  }

  lemma {:induction false} ScreenPicks(c: Admission.Settings, counts: map<string, nat>, bits: set<nat>,
                                       raws: seq<Frontiers.RawLink>)
    ensures var picked := Frontiers.Screen(c, counts, bits, raws).1;
            && |picked| <= |raws|
            && forall l :: l in picked ==>
                 exists i :: 0 <= i < |raws| && !Frontiers.Dropped(c, raws[i]) && raws[i].link == l
  {
    if raws != [] {
      var n := |raws| - 1;
      ScreenPicks(c, counts, bits, raws[..n]);
      var before := Frontiers.Screen(c, counts, bits, raws[..n]).1;
      forall l | l in before
        ensures exists i :: 0 <= i < |raws| && !Frontiers.Dropped(c, raws[i]) && raws[i].link == l
      {
        var i :| 0 <= i < n && !Frontiers.Dropped(c, raws[..n][i]) && raws[..n][i].link == l;
        assert raws[i] == raws[..n][i];
      }
    }
  }

  lemma {:induction false} NewJobsPick(links: seq<Admission.Link>, existing: set<string>, depth: int,
                                       score: Job -> real)
    ensures var jobs := Frontiers.NewJobs(links, existing, depth, score);
            && |jobs| <= |links|
            && forall j :: j in jobs ==> exists l :: l in links && j == Frontiers.JobFor(l, depth, score)
  {
    if links != [] {
      var n := |links| - 1;
      NewJobsPick(links[..n], existing, depth, score);
      assert links == links[..n] + [links[n]];
    }
  }

  lemma {:induction false} FreshPicks(hash: string -> set<nat>, bits: set<nat>, batch: seq<Job>)
    ensures |Fresh(hash, bits, batch)| <= |batch|
  {
    if batch != [] {
      FreshPicks(hash, bits, batch[..|batch| - 1]);
    }
  }

  lemma ArrivingCanArrive(c: Config, g: Frontiers.Gate, d: Decision)
    ensures CanArrive(c, d, Arriving(c, g, d))
  {
    if d.Expand? {
      var links := Frontiers.Screen(c.settings, g.counts, g.bits, d.links).1;
      var bits := Frontiers.MarkKnown(c.settings.hash, g.bits, g.seen, links, d.existing).0;
      var jobs := Frontiers.NewJobs(links, d.existing, d.depth, c.score);
      ScreenPicks(c.settings, g.counts, g.bits, d.links);
      NewJobsPick(links, d.existing, d.depth, c.score);
      FreshPicks(c.settings.hash, bits, jobs);
      Frontiers.FreshIsFromBatch(c.settings.hash, bits, jobs);
      var passed := Arriving(c, g, d);
      forall k | 0 <= k < |passed| ensures IsFrom(c, d.links, d.depth, passed[k]) {
        assert passed[k] in passed;
      }
    }
  }

  // ---------- The render backlog ----------

  lemma PushOK(c: Config, s: Site, item: Item)
    requires BacklogOK(c, s.backlog, s.queued)
    ensures BacklogOK(c, Push(c, s, item).backlog, Push(c, s, item).queued)
  {
    var key0, all := Key(c, item), s.backlog + [item];
    if key0 !in s.queued {
      forall key | key in s.queued + {key0} ensures exists k :: 0 <= k < |all| && Key(c, all[k]) == key {
        if key in s.queued {
          var k :| 0 <= k < |s.backlog| && Key(c, s.backlog[k]) == key;
          assert all[k] == s.backlog[k];
        } else {
          assert all[|s.backlog|] == item;
        }
      }
    }
  }

  lemma PopOK(c: Config, s: Site)
    requires BacklogOK(c, s.backlog, s.queued) && s.backlog != []
    ensures BacklogOK(c, Pop(c, s).backlog, Pop(c, s).queued)
  {
    var rest := s.backlog[1..];
    forall key | key in s.queued - {Key(c, s.backlog[0])}
      ensures exists k :: 0 <= k < |rest| && Key(c, rest[k]) == key
    {
      var k :| 0 <= k < |s.backlog| && Key(c, s.backlog[k]) == key;
      assert rest[k - 1] == s.backlog[k];
    }
  }

  /** Every decision keeps the queue's lists in order and `queued` equal to the keys of the backlog. */
  lemma CarryOK(c: Config, s: Site, d: Decision, arriving: seq<Job>)
    requires SiteOK(c, s)
    ensures SiteOK(c, Carry(c, s, d, arriving))
  {
    match d
    case Drop =>
    case Fail =>
    case Requeue(job) => FileKeepsWellFormed(s.core, job);
    case ToBacklog(item) => PushOK(c, s, item);
    case Expand(_, _, _, _) => FileAllAddsBatch(s.core, arriving);
  }

  // ---------- The weight of what the engine holds ----------

  ghost function SetWeight(c: Config, jobs: set<Job>): nat {
    if jobs == {} then 0
    else
      var j :| j in jobs;
      SetWeight(c, jobs - {j}) + JobWeight(c, j)
  }

  /** The weight of a set does not depend on the order in which it is added up. */
  lemma {:induction false} SetWeightWithout(c: Config, jobs: set<Job>, j: Job)
    requires j in jobs
    ensures SetWeight(c, jobs) == SetWeight(c, jobs - {j}) + JobWeight(c, j)
    decreases jobs
  {
    var k :| k in jobs && SetWeight(c, jobs) == SetWeight(c, jobs - {k}) + JobWeight(c, k);
    if k != j {
      SetWeightWithout(c, jobs - {k}, j);
      SetWeightWithout(c, jobs - {j}, k);
      assert jobs - {k} - {j} == jobs - {j} - {k};
    }
  }

  ghost function ItemsWeight(c: Config, items: seq<Item>): nat {
    if items == [] then 0 else ItemsWeight(c, items[..|items| - 1]) + ItemWeight(c, items[|items| - 1])
  }

  ghost function SiteWeight(c: Config, s: Site): nat {
    SetWeight(c, s.core.jobs) + ItemsWeight(c, s.backlog)
  }

  lemma FileOneWeight(c: Config, core: Core, job: Job)
    requires WellFormed(core)
    ensures WellFormed(FileOne(core, job))
    ensures SetWeight(c, FileOne(core, job).jobs) == SetWeight(c, core.jobs) + JobWeight(c, job)
  {
    FileKeepsWellFormed(core, job);
    var filed := job.(id := core.last + 1);
    SetWeightWithout(c, core.jobs + {filed}, filed);
    assert core.jobs + {filed} - {filed} == core.jobs;
    assert JobWeight(c, filed) == JobWeight(c, job);
  }

  lemma {:induction false} FileAllWeight(c: Config, core: Core, batch: seq<Job>)
    requires WellFormed(core)
    ensures WellFormed(FileAll(core, batch))
    ensures SetWeight(c, FileAll(core, batch).jobs) == SetWeight(c, core.jobs) + JobsWeight(c, batch)
  {
    if batch != [] {
      var n := |batch| - 1;
      FileAllWeight(c, core, batch[..n]);
      FileOneWeight(c, FileAll(core, batch[..n]), batch[n]);
    }
  }

  lemma JobsWeightOneMore(c: Config, jobs: seq<Job>, job: Job)
    ensures JobsWeight(c, jobs + [job]) == JobsWeight(c, jobs) + JobWeight(c, job)
  {
    assert (jobs + [job])[..|jobs|] == jobs;
  }

  /** What arrives weighs no more than the decision. */
  lemma ArrivingWeight(c: Config, d: Decision, jobs: seq<Job>)
    requires CanArrive(c, d, jobs)
    ensures JobsWeight(c, jobs) <= if d.Expand? then DecisionWeight(c, d) else 0
  {
    if d.Expand? {
      var w := FreshWeight(c, LevelsFrom(c, d.depth));
      forall k | 0 <= k < |jobs| ensures JobWeight(c, jobs[k]) == w {
        assert IsFrom(c, d.links, d.depth, jobs[k]);
        FreshJobWeight(c, jobs[k]);
      }
      SameWeights(c, jobs, w);
      MoreWeighMore(|jobs|, |d.links|, w);
    }
  }

  lemma MoreWeighMore(m: nat, n: nat, w: nat)
    requires m <= n
    ensures m * w <= n * w
  {
    assert (n - m) * w >= 0;
  }

  lemma ItemsWeightOneMore(c: Config, items: seq<Item>, item: Item)
    ensures ItemsWeight(c, items + [item]) == ItemsWeight(c, items) + ItemWeight(c, item)
  {
    assert (items + [item])[..|items|] == items;
  }

  /** Carrying out a decision adds no more than the decision weighs. */
  lemma CarryWeight(c: Config, s: Site, d: Decision, arriving: seq<Job>)
    requires WellFormed(s.core) && CanArrive(c, d, arriving)
    ensures SiteWeight(c, Carry(c, s, d, arriving)) <= SiteWeight(c, s) + DecisionWeight(c, d)
  {
    match d
    case Drop =>
    case Fail =>
    case Requeue(job) => FileOneWeight(c, s.core, job);
    case ToBacklog(item) => ItemsWeightOneMore(c, s.backlog, item);
    case Expand(_, _, _, _) =>
      ArrivingWeight(c, d, arriving);
      FileAllWeight(c, s.core, arriving);
  }

  lemma {:induction false} ItemsWeightConcat(c: Config, a: seq<Item>, b: seq<Item>)
    ensures ItemsWeight(c, a + b) == ItemsWeight(c, a) + ItemsWeight(c, b)
  {
    if b == [] {
      assert a + b == a;
    } else {
      assert (a + b)[..|a + b| - 1] == a + b[..|b| - 1];
      ItemsWeightConcat(c, a, b[..|b| - 1]);
    }
  }

  lemma ItemsWeightWithout(c: Config, items: seq<Item>, k: nat)
    requires k < |items|
    ensures ItemsWeight(c, items) == ItemsWeight(c, items[..k] + items[k + 1..]) + ItemWeight(c, items[k])
  {
    assert items == (items[..k] + [items[k]]) + items[k + 1..];
    ItemsWeightConcat(c, items[..k] + [items[k]], items[k + 1..]);
    ItemsWeightOneMore(c, items[..k], items[k]);
    ItemsWeightConcat(c, items[..k], items[k + 1..]);
  }

  lemma PopWeight(c: Config, s: Site)
    requires s.backlog != []
    ensures SiteWeight(c, s) == SiteWeight(c, Pop(c, s)) + ItemWeight(c, s.backlog[0])
  {
    ItemsWeightWithout(c, s.backlog, 0);
    assert s.backlog[..0] + s.backlog[1..] == s.backlog[1..];
  }

  lemma {:induction false} JobsWeightConcat(c: Config, a: seq<Job>, b: seq<Job>)
    ensures JobsWeight(c, a + b) == JobsWeight(c, a) + JobsWeight(c, b)
  {
    if b == [] {
      assert a + b == a;
    } else {
      assert (a + b)[..|a + b| - 1] == a + b[..|b| - 1];
      JobsWeightConcat(c, a, b[..|b| - 1]);
    }
  }

  lemma JobsWeightWithout(c: Config, jobs: seq<Job>, k: nat)
    requires k < |jobs|
    ensures JobsWeight(c, jobs) == JobsWeight(c, jobs[..k] + jobs[k + 1..]) + JobWeight(c, jobs[k])
  {
    assert jobs == (jobs[..k] + [jobs[k]]) + jobs[k + 1..];
    JobsWeightConcat(c, jobs[..k] + [jobs[k]], jobs[k + 1..]);
    JobsWeightOneMore(c, jobs[..k], jobs[k]);
    JobsWeightConcat(c, jobs[..k], jobs[k + 1..]);
  }

  // ---------- All the workers together ----------

  /**
   What the engine holds, what the workers have in hand, and how many fetches and renderings are finished.
   Of the other workers some are at the `top` of their loop, some have found the queue empty and are
   `looking` into the backlog, and some are `waiting` for a job.
   */
  datatype Crawl = Crawl(site: Site, fetching: seq<Job>, rendering: seq<Item>, fetches: nat, renders: nat,
                         top: nat, looking: nat, waiting: nat)

  /**
   A step of some worker; `k` says which of the jobs or items in hand it is about, and `arriving` what
   the frontier has let into the queue by the time the worker is done with it.
   */
  datatype Step =
    | FindEmpty
    | FindPending
    | LookInVain
    | TakeJob(domain: string)
    | TakeItem
    | FinishFetch(k: nat, fetched: Fetched, arriving: seq<Job>)
    | FinishRender(k: nat, rendered: Rendered, arriving: seq<Job>)
    | Preempt(k: nat)

  ghost predicate Enabled(c: Config, s: Crawl, e: Step) {
    match e
    case FindEmpty => s.top > 0 && s.site.core.jobs == {}
    case FindPending => s.top > 0 && s.site.core.jobs != {}
    case LookInVain => s.looking > 0 && s.site.backlog == []
    case TakeJob(domain) => s.waiting > 0 && domain in s.site.core.domains && ListOK(s.site.core, domain)
    case TakeItem => s.looking > 0 && s.site.backlog != []
    case FinishFetch(k, fetched, arriving) =>
      k < |s.fetching| && CanArrive(c, AfterFetch(c, s.fetching[k], fetched), arriving)
    case FinishRender(k, rendered, arriving) =>
      k < |s.rendering| && CanArrive(c, AfterRender(c, s.rendering[k], rendered), arriving)
    case Preempt(k) => k < |s.rendering| && s.site.core.jobs != {}
  }

  ghost function Next(c: Config, s: Crawl, e: Step): Crawl
    requires Enabled(c, s, e)
  {
    match e
    case FindEmpty => s.(top := s.top - 1, looking := s.looking + 1)
    case FindPending => s.(top := s.top - 1, waiting := s.waiting + 1)
    case LookInVain => s.(looking := s.looking - 1, waiting := s.waiting + 1)
    case TakeJob(domain) =>
      s.(site := s.site.(core := Popped(s.site.core, domain)),
         fetching := s.fetching + [s.site.core.domains[domain][0]], waiting := s.waiting - 1)
    case TakeItem =>
      s.(site := Pop(c, s.site), rendering := s.rendering + [s.site.backlog[0]], looking := s.looking - 1)
    case FinishFetch(k, fetched, arriving) =>
      s.(site := Carry(c, s.site, AfterFetch(c, s.fetching[k], fetched), arriving),
         fetching := s.fetching[..k] + s.fetching[k + 1..], fetches := s.fetches + 1, top := s.top + 1)
    case FinishRender(k, rendered, arriving) =>
      s.(site := Carry(c, s.site, AfterRender(c, s.rendering[k], rendered), arriving),
         rendering := s.rendering[..k] + s.rendering[k + 1..], renders := s.renders + 1, top := s.top + 1)
    case Preempt(k) =>
      s.(site := Push(c, s.site, s.rendering[k]),
         rendering := s.rendering[..k] + s.rendering[k + 1..], top := s.top + 1)
  }

  ghost function TotalWeight(c: Config, s: Crawl): nat {
    SiteWeight(c, s.site) + JobsWeight(c, s.fetching) + ItemsWeight(c, s.rendering)
  }

  /** Every step keeps the queue and the backlog in order. */
  lemma StepKeepsOrder(c: Config, s: Crawl, e: Step)
    requires Enabled(c, s, e) && SiteOK(c, s.site)
    ensures SiteOK(c, Next(c, s, e).site)
  {
    match e
    case TakeJob(domain) => PopKeepsWellFormed(s.site.core, domain);
    case TakeItem => PopOK(c, s.site);
    case FinishFetch(k, fetched, arriving) => CarryOK(c, s.site, AfterFetch(c, s.fetching[k], fetched), arriving);
    case FinishRender(k, rendered, arriving) => CarryOK(c, s.site, AfterRender(c, s.rendering[k], rendered), arriving);
    case Preempt(k) => PushOK(c, s.site, s.rendering[k]);
    case _ =>
  }

  lemma TakingMovesWeight(c: Config, s: Crawl, e: Step)
    requires Enabled(c, s, e) && SiteOK(c, s.site) && (e.TakeJob? || e.TakeItem?)
    ensures TotalWeight(c, Next(c, s, e)) == TotalWeight(c, s)
  {
    match e
    case TakeJob(domain) =>
      var head := s.site.core.domains[domain][0];
      SetWeightWithout(c, s.site.core.jobs, head);
      JobsWeightOneMore(c, s.fetching, head);
    case TakeItem =>
      PopWeight(c, s.site);
      ItemsWeightOneMore(c, s.rendering, s.site.backlog[0]);
  }

  lemma FetchingUsesWeight(c: Config, s: Crawl, k: nat, fetched: Fetched, arriving: seq<Job>)
    requires Enabled(c, s, FinishFetch(k, fetched, arriving)) && WellFormed(s.site.core)
    ensures TotalWeight(c, Next(c, s, FinishFetch(k, fetched, arriving))) < TotalWeight(c, s)
  {
    JobsWeightWithout(c, s.fetching, k);
    FetchUsesWeight(c, s.fetching[k], fetched);
    CarryWeight(c, s.site, AfterFetch(c, s.fetching[k], fetched), arriving);
  }

  lemma RenderingUsesWeight(c: Config, s: Crawl, k: nat, rendered: Rendered, arriving: seq<Job>)
    requires Enabled(c, s, FinishRender(k, rendered, arriving)) && WellFormed(s.site.core)
    ensures TotalWeight(c, Next(c, s, FinishRender(k, rendered, arriving))) < TotalWeight(c, s)
  {
    ItemsWeightWithout(c, s.rendering, k);
    RenderUsesWeight(c, s.rendering[k], rendered);
    CarryWeight(c, s.site, AfterRender(c, s.rendering[k], rendered), arriving);
  }

  lemma PreemptingAddsNoWeight(c: Config, s: Crawl, k: nat)
    requires k < |s.rendering| && s.site.core.jobs != {}
    ensures TotalWeight(c, Next(c, s, Preempt(k))) <= TotalWeight(c, s)
  {
    ItemsWeightWithout(c, s.rendering, k);
    ItemsWeightOneMore(c, s.site.backlog, s.rendering[k]);
  }

  /** Each finished fetch or rendering uses up weight; no other step adds any. */
  lemma StepUsesWeight(c: Config, s: Crawl, e: Step)
    requires Enabled(c, s, e) && SiteOK(c, s.site)
    ensures var t := Next(c, s, e);
            t.fetches + t.renders + TotalWeight(c, t) <= s.fetches + s.renders + TotalWeight(c, s)
  {
    match e
    case TakeJob(_) => TakingMovesWeight(c, s, e);
    case TakeItem => TakingMovesWeight(c, s, e);
    case FinishFetch(k, fetched, arriving) => FetchingUsesWeight(c, s, k, fetched, arriving);
    case FinishRender(k, rendered, arriving) => RenderingUsesWeight(c, s, k, rendered, arriving);
    case Preempt(k) => PreemptingAddsNoWeight(c, s, k);
    case _ =>
  }

  // ---------- No blacklisted domain ----------

  ghost predicate JobsClean(c: Config, jobs: seq<Job>) {
    forall j :: j in jobs ==> !Admission.Blacklisted(c.settings.blacklist, j.domain)
  }

  ghost predicate ItemsClean(c: Config, items: seq<Item>) {
    forall item :: item in items ==> !Admission.Blacklisted(c.settings.blacklist, item.job.domain)
  }

  ghost predicate SiteClean(c: Config, s: Site) {
    Frontiers.Clean(c.settings.blacklist, s.core.jobs) && ItemsClean(c, s.backlog)
  }

  ghost predicate DecisionClean(c: Config, d: Decision) {
    && (d.Requeue? ==> !Admission.Blacklisted(c.settings.blacklist, d.job.domain))
    && (d.ToBacklog? ==> !Admission.Blacklisted(c.settings.blacklist, d.item.job.domain))
  }

  /** Carrying out a decision about a domain that is not blacklisted brings in none that is. */
  lemma CarryStaysClean(c: Config, s: Site, d: Decision, arriving: seq<Job>)
    requires SiteClean(c, s) && DecisionClean(c, d) && CanArrive(c, d, arriving)
    ensures SiteClean(c, Carry(c, s, d, arriving))
  {
    match d
    case Drop =>
    case Fail =>
    case Requeue(job) => Frontiers.FileStaysClean(c.settings.blacklist, s.core, job);
    case ToBacklog(item) =>
    case Expand(links, depth, _, _) =>
      forall k | 0 <= k < |arriving| ensures !Admission.Blacklisted(c.settings.blacklist, arriving[k].domain) {
        assert IsFrom(c, links, depth, arriving[k]);
      }
      Frontiers.FileAllStaysClean(c.settings.blacklist, s.core, arriving);
  }

  ghost predicate CrawlClean(c: Config, s: Crawl) {
    SiteClean(c, s.site) && JobsClean(c, s.fetching) && ItemsClean(c, s.rendering)
  }

  /** No step of any worker brings a blacklisted domain into the queue, the backlog or a worker's hands. */
  lemma StepStaysClean(c: Config, s: Crawl, e: Step)
    requires Enabled(c, s, e) && SiteOK(c, s.site) && CrawlClean(c, s)
    ensures CrawlClean(c, Next(c, s, e))
  {
    match e
    case TakeJob(domain) => HeadIsBest(s.site.core, domain);
    case TakeItem =>
    case FinishFetch(k, fetched, arriving) =>
      assert s.fetching[k] in s.fetching;
      CarryStaysClean(c, s.site, AfterFetch(c, s.fetching[k], fetched), arriving);
    case FinishRender(k, rendered, arriving) =>
      assert s.rendering[k] in s.rendering;
      CarryStaysClean(c, s.site, AfterRender(c, s.rendering[k], rendered), arriving);
    case Preempt(k) =>
      assert s.rendering[k] in s.rendering;
    case _ =>
  }

  // ---------- Whole runs ----------

  datatype Outcome = Stuck | Reached(state: Crawl)

  ghost function Run(c: Config, s: Crawl, steps: seq<Step>): Outcome {
    if steps == [] then Reached(s)
    else
      var before := Run(c, s, steps[..|steps| - 1]);
      var e := steps[|steps| - 1];
      if before.Reached? && Enabled(c, before.state, e) then Reached(Next(c, before.state, e)) else Stuck
  }

  /**
   However the workers interleave and whatever the sites answer: the fetches and renderings that are
   finished and the weight of the work that is left never exceed the weight at the start.
   */
  lemma {:induction false} CrawlIsBounded(c: Config, s: Crawl, steps: seq<Step>)
    requires SiteOK(c, s.site) && Run(c, s, steps).Reached?
    ensures var t := Run(c, s, steps).state;
            && SiteOK(c, t.site)
            && t.fetches + t.renders + TotalWeight(c, t) <= s.fetches + s.renders + TotalWeight(c, s)
  {
    if steps != [] {
      CrawlIsBounded(c, s, steps[..|steps| - 1]);
      var before := Run(c, s, steps[..|steps| - 1]).state;
      StepUsesWeight(c, before, steps[|steps| - 1]);
      StepKeepsOrder(c, before, steps[|steps| - 1]);
    }
  }

  // ---------- Every run ends ----------

  ghost function Workers(s: Crawl): nat {
    s.top + s.looking + s.waiting + |s.fetching| + |s.rendering|
  }

  /** How far the workers may still go while no work is finished and no weight is lost. */
  ghost function Slack(s: Crawl): nat {
    if s.site.core.jobs == {} then 2 * s.top + s.looking
    else 4 * s.looking + 3 * |s.rendering| + 2 * s.top + s.waiting
  }

  ghost function Phase(s: Crawl): nat {
    if s.site.core.jobs == {} then 0 else 1
  }

  /** Weight comes first, then whether jobs are pending, then where the workers stand; `n` workers at most. */
  ghost function Rank(c: Config, s: Crawl, n: nat): nat {
    Ranked(TotalWeight(c, s), Phase(s), Slack(s), n)
  }

  function Ranked(weight: nat, phase: nat, slack: nat, n: nat): nat {
    (2 * weight + phase) * (4 * n + 1) + slack
  }

  lemma SlackIsBounded(s: Crawl, n: nat)
    requires Workers(s) <= n
    ensures Slack(s) <= 4 * n
  {
  }

  lemma LowerRank(weight: nat, phase: nat, slack: nat, weight': nat, phase': nat, slack': nat, n: nat)
    requires phase <= 1 && phase' <= 1 && slack' <= 4 * n
    requires weight' < weight || (weight' == weight && (phase' < phase || (phase' == phase && slack' < slack)))
    ensures Ranked(weight', phase', slack', n) < Ranked(weight, phase, slack, n)
  {
    var a, b := 2 * weight + phase, 2 * weight' + phase';
    if b < a { NextMultiple(b, a, 4 * n + 1); }
  }

  lemma NextMultiple(b: nat, a: nat, k: nat)
    requires b < a
    ensures b * k + k <= a * k
  {
    MoreWeighMore(b + 1, a, k);
    OneMoreTimes(b, k);
  }

  lemma StepKeepsWorkers(c: Config, s: Crawl, e: Step)
    requires Enabled(c, s, e)
    ensures Workers(Next(c, s, e)) == Workers(s)
  {
  }

  /** A step that finishes nothing keeps the weight or loses some; if it keeps it, the workers get further. */
  lemma IdleStepLowers(c: Config, s: Crawl, e: Step)
    requires Enabled(c, s, e) && SiteOK(c, s.site) && !e.FinishFetch? && !e.FinishRender?
    ensures var t := Next(c, s, e);
            && TotalWeight(c, t) <= TotalWeight(c, s)
            && (Phase(t) < Phase(s) || (Phase(t) == Phase(s) && Slack(t) < Slack(s)))
  {
    hide AfterFetch, AfterRender, TotalWeight;
    match e
    case TakeJob(domain) =>
      TakingMovesWeight(c, s, e);
      HeadIsBest(s.site.core, domain);
    case TakeItem => TakingMovesWeight(c, s, e);
    case Preempt(k) => PreemptingAddsNoWeight(c, s, k);
    case _ => SameWeight(c, s, e);
  }

  lemma SameWeight(c: Config, s: Crawl, e: Step)
    requires Enabled(c, s, e) && (e.FindEmpty? || e.FindPending? || e.LookInVain?)
    ensures TotalWeight(c, Next(c, s, e)) == TotalWeight(c, s)
  {
  }

  /** Every step lowers the rank. */
  lemma StepLowersRank(c: Config, s: Crawl, e: Step, n: nat)
    requires Enabled(c, s, e) && SiteOK(c, s.site) && Workers(s) <= n
    ensures Rank(c, Next(c, s, e), n) < Rank(c, s, n)
  {
    hide Next, Enabled, Ranked, TotalWeight, SiteOK;
    var t := Next(c, s, e);
    StepKeepsWorkers(c, s, e);
    SlackIsBounded(t, n);
    StepWeighs(c, s, e);
    LowerRank(TotalWeight(c, s), Phase(s), Slack(s), TotalWeight(c, t), Phase(t), Slack(t), n);
  }

  lemma StepWeighs(c: Config, s: Crawl, e: Step)
    requires Enabled(c, s, e) && SiteOK(c, s.site)
    ensures var t := Next(c, s, e);
            TotalWeight(c, t) < TotalWeight(c, s)
            || (TotalWeight(c, t) == TotalWeight(c, s)
                && (Phase(t) < Phase(s) || (Phase(t) == Phase(s) && Slack(t) < Slack(s))))
  {
    match e
    case FinishFetch(k, fetched, arriving) => FetchingUsesWeight(c, s, k, fetched, arriving);
    case FinishRender(k, rendered, arriving) => RenderingUsesWeight(c, s, k, rendered, arriving);
    case _ =>
      hide Next, TotalWeight, Phase, Slack;
      IdleStepLowers(c, s, e);
  }

  lemma {:induction false} RunLowersRank(c: Config, s: Crawl, steps: seq<Step>, n: nat)
    requires SiteOK(c, s.site) && Run(c, s, steps).Reached? && Workers(s) <= n
    ensures Workers(Run(c, s, steps).state) <= n
    ensures |steps| + Rank(c, Run(c, s, steps).state, n) <= Rank(c, s, n)
  {
    hide Rank, Workers, Next, Enabled, SiteOK;
    if steps != [] {
      var before, e := steps[..|steps| - 1], steps[|steps| - 1];
      RunLowersRank(c, s, before, n);
      CrawlIsBounded(c, s, before);
      StepKeepsWorkers(c, Run(c, s, before).state, e);
      StepLowersRank(c, Run(c, s, before).state, e, n);
    }
  }

  /**
   No run goes on for ever: however the workers interleave and whatever the sites answer, a run from `s`
   has at most (2 weight + 2)(4 workers + 1) steps of any kind.
   */
  lemma CrawlEnds(c: Config, s: Crawl, steps: seq<Step>)
    requires SiteOK(c, s.site) && Run(c, s, steps).Reached?
    ensures |steps| <= (2 * TotalWeight(c, s) + 2) * (4 * Workers(s) + 1)
  {
    hide TotalWeight, Workers, SiteOK, Run;
    var n := Workers(s);
    RunLowersRank(c, s, steps, n);
    SlackIsBounded(s, n);
    RankAtMost(TotalWeight(c, s), Phase(s), Slack(s), n);
  }

  lemma RankAtMost(weight: nat, phase: nat, slack: nat, n: nat)
    requires phase <= 1 && slack <= 4 * n
    ensures Ranked(weight, phase, slack, n) <= (2 * weight + 2) * (4 * n + 1)
  {
    NextMultiple(2 * weight + phase, 2 * weight + 2, 4 * n + 1);
  }

  /** However the workers interleave: a crawl that starts without blacklisted domains never touches one. */
  lemma {:induction false} CrawlStaysClean(c: Config, s: Crawl, steps: seq<Step>)
    requires SiteOK(c, s.site) && CrawlClean(c, s) && Run(c, s, steps).Reached?
    ensures CrawlClean(c, Run(c, s, steps).state)
  {
    if steps != [] {
      CrawlStaysClean(c, s, steps[..|steps| - 1]);
      CrawlIsBounded(c, s, steps[..|steps| - 1]);
      StepStaysClean(c, Run(c, s, steps[..|steps| - 1]).state, steps[|steps| - 1]);
    }
  }

  /** The engine with nothing but these seeds in the queue, and all workers at the top of their loops. */
  ghost function Seeded(seeds: seq<Job>, workers: nat): Crawl {
    Crawl(Site(FileAll(Core(map[], {}, 0), seeds), [], {}, 0, 0), [], [], 0, 0, workers, 0, 0)
  }

  lemma SeededWeight(c: Config, seeds: seq<Job>, workers: nat)
    ensures SiteOK(c, Seeded(seeds, workers).site)
    ensures TotalWeight(c, Seeded(seeds, workers)) == JobsWeight(c, seeds)
  {
    FileAllWeight(c, Core(map[], {}, 0), seeds);
  }

  /**
   From seeds at depth 0 alone, 99 times the number of fetches and renderings is at most
   |seeds| (MaxRetries + 1)(BusyRetryMaxAttempts + 2)(100^(MaxDepth + 1) - 1).
   */
  lemma CrawlFromSeedsIsBounded(c: Config, seeds: seq<Job>, workers: nat, steps: seq<Step>)
    requires forall k :: 0 <= k < |seeds| ==> seeds[k].depth == 0 && seeds[k].retries == 0
    requires Run(c, Seeded(seeds, workers), steps).Reached?
    ensures var t := Run(c, Seeded(seeds, workers), steps).state;
            99 * (t.fetches + t.renders)
            <= |seeds| * (Attempts(c) * (Power100(AtLeastZero(c.maxDepth) + 1) - 1))
  {
    hide Run, TotalWeight, Attempts, Power100, SiteOK, JobWeight, FileAll;
    var levels := AtLeastZero(c.maxDepth);
    var w := FreshWeight(c, levels);
    forall k | 0 <= k < |seeds| ensures JobWeight(c, seeds[k]) == w {
      FreshJobWeight(c, seeds[k]);
    }
    SameWeights(c, seeds, w);
    SeededWeight(c, seeds, workers);
    CrawlIsBounded(c, Seeded(seeds, workers), steps);
    FreshWeightClosedForm(c, levels);
    var t := Run(c, Seeded(seeds, workers), steps).state;
    Combine(|seeds|, w, Attempts(c) * (Power100(levels + 1) - 1), t.fetches + t.renders);
  }

  lemma Combine(n: nat, w: nat, bound: int, total: nat)
    requires total <= n * w && 99 * w == bound
    ensures 99 * total <= n * bound
  {
    assert n * (99 * w) == 99 * (n * w);
  }
}
