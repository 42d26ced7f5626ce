/**
 The frontier object: canonicalized links are screened, counted and handed to the queue. Every call
 is shown to be a run of the admission steps, so the laws of all interleavings apply to it.
 */
module Frontiers {
  import opened CrawlQueue
  import opened Admission
  import opened Options
  import RateLimit

  /** What canonicalization made of a raw URL, and whether it points at a document type that is not indexed. */
  datatype RawLink = Unparsable | Parsed(link: Link, nonIndexable: bool)

  /** What the page store answers for one URL. */
  datatype StoreAnswer = Fails | Known | Unknown

  function JobFor(link: Link, depth: int, score: Job -> real): Job {
    var job := Job(0, link.url, link.domain, depth, 0.0, link.fingerprint, 0);
    job.(score := score(job))
  }

  /** No pending job belongs to a blacklisted domain. */
  ghost predicate Clean(blacklist: set<string>, jobs: set<Job>) {
    forall j :: j in jobs ==> !Blacklisted(blacklist, j.domain)
  }

  lemma FileStaysClean(blacklist: set<string>, c: Core, job: Job)
    requires Clean(blacklist, c.jobs) && !Blacklisted(blacklist, job.domain)
    ensures Clean(blacklist, FileOne(c, job).jobs)
  {
  }

  lemma {:induction false} FileAllStaysClean(blacklist: set<string>, c: Core, batch: seq<Job>)
    requires Clean(blacklist, c.jobs)
    requires forall k :: 0 <= k < |batch| ==> !Blacklisted(blacklist, batch[k].domain)
    ensures Clean(blacklist, FileAll(c, batch).jobs)
  {
    if batch != [] {
      var n := |batch| - 1;
      FileAllStaysClean(blacklist, c, batch[..n]);
      FileStaysClean(blacklist, FileAll(c, batch[..n]), batch[n]);
    }
  }

  lemma {:induction false} FreshIsFromBatch(hash: string -> set<nat>, bits: set<nat>, batch: seq<Job>)
    ensures forall j :: j in Fresh(hash, bits, batch) ==> j in batch
  {
    if batch != [] {
      var n := |batch| - 1;
      FreshIsFromBatch(hash, bits, batch[..n]);
      assert batch == batch[..n] + [batch[n]];
    }
  }

  lemma FreshStaysClean(c: Settings, core: Core, bits: set<nat>, batch: seq<Job>)
    requires Clean(c.blacklist, core.jobs)
    requires forall k :: 0 <= k < |batch| ==> !Blacklisted(c.blacklist, batch[k].domain)
    ensures Clean(c.blacklist, FileAll(core, Fresh(c.hash, bits, batch)).jobs)
  {
    var passed := Fresh(c.hash, bits, batch);
    FreshIsFromBatch(c.hash, bits, batch);
    forall k | 0 <= k < |passed| ensures !Blacklisted(c.blacklist, passed[k].domain) {
      assert passed[k] in batch;
    }
    FileAllStaysClean(c.blacklist, core, passed);
  }

  // ---------- What one call does ----------

  /** Whether a raw link is dropped before it is counted. */
  ghost predicate Dropped(c: Settings, raw: RawLink) {
    raw.Unparsable? || raw.nonIndexable || Blacklisted(c.blacklist, raw.link.domain)
  }

  /** The steps of a single `Add` that nobody interrupts, as task `t`. */
  ghost function AddSteps(c: Settings, counts: map<string, nat>, bits: set<nat>, t: nat,
                          raw: RawLink, store: StoreAnswer): seq<Event>
  {
    if Dropped(c, raw) then []
    else if OverTheCap(c.cap, counts, raw.link.fingerprint) then [OverCap(raw.link)]
    else [Reserve(t, raw.link)] + LookSteps(c, bits, t, raw.link, store)
  }

  /** What becomes of a link once it is counted. */
  ghost function LookSteps(c: Settings, bits: set<nat>, t: nat, link: Link, store: StoreAnswer): seq<Event> {
    if Positive(c.hash, bits, link.fingerprint) then [LooksSeen(t)]
    else match store
      case Fails => [LooksNew(t)]
      case Known => [LooksNew(t), InStore(t)]
      case Unknown => [LooksNew(t), NotInStore(t), Accept(t)]
  }

  /** The first phase of a batch: the counters it leaves, and the links that look new. */
  ghost function Screen(c: Settings, counts: map<string, nat>, bits: set<nat>, raws: seq<RawLink>)
    : (map<string, nat>, seq<Link>)
  {
    if raws == [] then (counts, [])
    else ScreenOneMore(c, bits, Screen(c, counts, bits, raws[..|raws| - 1]), raws[|raws| - 1])
  }

  /** One more link through the first phase. */
  ghost function ScreenOneMore(c: Settings, bits: set<nat>, before: (map<string, nat>, seq<Link>), raw: RawLink)
    : (map<string, nat>, seq<Link>)
  {
    if Dropped(c, raw) || OverTheCap(c.cap, before.0, raw.link.fingerprint) then before
    else
      var after := before.0[raw.link.fingerprint := CountOf(before.0, raw.link.fingerprint) + 1];
      (after, if Positive(c.hash, bits, raw.link.fingerprint) then before.1 else before.1 + [raw.link])
  }

  /** The links of the second phase that the store does not have, as jobs. */
  ghost function NewJobs(links: seq<Link>, existing: set<string>, depth: int, score: Job -> real): seq<Job> {
    if links == [] then []
    else
      var before := NewJobs(links[..|links| - 1], existing, depth, score);
      var last := links[|links| - 1];
      if last.url in existing then before else before + [JobFor(last, depth, score)]
  }

  /** The links behind those jobs. */
  ghost function NewLinks(links: seq<Link>, existing: set<string>): seq<Link> {
    if links == [] then []
    else
      var before := NewLinks(links[..|links| - 1], existing);
      var last := links[|links| - 1];
      if last.url in existing then before else before + [last]
  }

  /** The filter after the links that the store has were marked: its bits and its keys. */
  ghost function MarkKnown(hash: string -> set<nat>, bits: set<nat>, seen: set<string>,
                           links: seq<Link>, existing: set<string>): (set<nat>, set<string>)
  {
    if links == [] then (bits, seen)
    else
      var (b, k) := MarkKnown(hash, bits, seen, links[..|links| - 1], existing);
      var last := links[|links| - 1];
      if last.url in existing then (b + hash(last.fingerprint), k + {last.fingerprint}) else (b, k)
  }

  /** The counters and the filter. */
  datatype Gate = Gate(counts: map<string, nat>, bits: set<nat>, seen: set<string>)

  /** The links of a page, `depth` levels deep, and which of their URLs the store is known to have. */
  datatype Batch = Batch(raws: seq<RawLink>, depth: int, existing: set<string>, score: Job -> real)

  /** All of a batch: screening, marking what the store has, and the rest through the filter in order. */
  ghost function Passed(c: Settings, g: Gate, b: Batch): seq<Job> {
    var links := Screen(c, g.counts, g.bits, b.raws).1;
    Fresh(c.hash, MarkKnown(c.hash, g.bits, g.seen, links, b.existing).0, NewJobs(links, b.existing, b.depth, b.score))
  }

  ghost function GateAfter(c: Settings, g: Gate, b: Batch): Gate {
    var (counts, links) := Screen(c, g.counts, g.bits, b.raws);
    var (bits, seen) := MarkKnown(c.hash, g.bits, g.seen, links, b.existing);
    Gate(counts, BitsAfter(c.hash, bits, Passed(c, g, b)), seen + KeysOf(Passed(c, g, b)))
  }

  // ---------- What a batch comes to ----------

  /** A link that may be counted at all. */
  ghost predicate Admissible(c: Settings, raw: RawLink) {
    raw.Parsed? && !raw.nonIndexable && !Blacklisted(c.blacklist, raw.link.domain)
  }

  /** The admissible links of a list with this fingerprint, by their numbers. */
  ghost function Submissions(c: Settings, raws: seq<RawLink>, fp: string): set<nat> {
    set i: nat | i < |raws| && Admissible(c, raws[i]) && raws[i].link.fingerprint == fp
  }

  /** A counter goes up with every submission until it has reached the cap, if there is one. */
  function Raised(cap: int, count: nat, n: nat): nat {
    if cap <= 0 || count + n <= cap then count + n else if count >= cap then count else cap
  }

  /** The link is counted: with the earlier ones the counter of its fingerprint has not reached the cap. */
  ghost predicate WithinCap(c: Settings, counts: map<string, nat>, raws: seq<RawLink>, i: int) {
    && 0 <= i < |raws| && Admissible(c, raws[i])
    && var fp := raws[i].link.fingerprint;
       c.cap <= 0 || CountOf(counts, fp) + |Submissions(c, raws[..i], fp)| < c.cap
  }

  /** The link is counted and looks new. */
  ghost predicate LooksFresh(c: Settings, g: Gate, raws: seq<RawLink>, i: int) {
    WithinCap(c, g.counts, raws, i) && !(c.hash(raws[i].link.fingerprint) <= g.bits)
  }

  /** The job is for link `i`, which looks new and is not known to the store. */
  ghost predicate ForLink(c: Settings, g: Gate, b: Batch, j: Job, i: int) {
    && LooksFresh(c, g, b.raws, i) && b.raws[i].link.url !in b.existing
    && IsJobOf(j, b.raws[i].link, b.depth, b.score)
  }

  /** A fresh job for this link, whatever its number. */
  ghost predicate IsJobOf(j: Job, link: Link, depth: int, score: Job -> real) {
    j == Job(id := j.id, url := link.url, domain := link.domain, depth := depth,
             score := score(Job(0, link.url, link.domain, depth, 0.0, link.fingerprint, 0)),
             fingerprint := link.fingerprint, retries := 0)
  }

  /** The link looks new, has this fingerprint, and is known to the store. */
  ghost predicate KnownLink(c: Settings, g: Gate, b: Batch, key: string, i: int) {
    LooksFresh(c, g, b.raws, i) && b.raws[i].link.url in b.existing && b.raws[i].link.fingerprint == key
  }

  /** New jobs are for links that look new, no two of one fingerprint, and old jobs stay. */
  ghost predicate JobsArrived(c: Settings, g: Gate, b: Batch, s: Core, s': Core) {
    && s.jobs <= s'.jobs
    && (forall j :: j in s'.jobs - s.jobs ==> s.last < j.id <= s'.last && exists i :: ForLink(c, g, b, j, i))
    && (forall j, k :: j in s'.jobs - s.jobs && k in s'.jobs - s.jobs && j.fingerprint == k.fingerprint ==> j == k)
  }

  /** The filter has every key it had, and gets those of the new jobs and of the known links. */
  ghost predicate KeysArrived(c: Settings, g: Gate, b: Batch, g': Gate, arrived: set<Job>) {
    && g.seen <= g'.seen && g.bits <= g'.bits
    && (forall key :: key in g'.seen - g.seen ==>
          (exists j :: j in arrived && j.fingerprint == key) || exists i :: KnownLink(c, g, b, key, i))
    && (forall i :: LooksFresh(c, g, b.raws, i) ==> c.hash(b.raws[i].link.fingerprint) <= g'.bits)
    && (forall i, key :: KnownLink(c, g, b, key, i) ==> key in g'.seen)
    && (forall j :: j in arrived ==> j.fingerprint in g'.seen)
  }

  lemma SubmissionsStep(c: Settings, raws: seq<RawLink>, fp: string)
    requires raws != []
    ensures var last := raws[|raws| - 1];
            |Submissions(c, raws, fp)|
            == |Submissions(c, raws[..|raws| - 1], fp)|
               + if Admissible(c, last) && last.link.fingerprint == fp then 1 else 0
  {
    var n := |raws| - 1;
    var more := if Admissible(c, raws[n]) && raws[n].link.fingerprint == fp then {n} else {};
    assert Submissions(c, raws, fp) == Submissions(c, raws[..n], fp) + more;
  }

  lemma {:induction false} ScreenCounts(c: Settings, counts: map<string, nat>, bits: set<nat>, raws: seq<RawLink>,
                                        fp: string)
    ensures CountOf(Screen(c, counts, bits, raws).0, fp)
            == Raised(c.cap, CountOf(counts, fp), |Submissions(c, raws, fp)|)
  {
    hide Submissions, Blacklisted;
    if raws == [] {
      NoSubmissions(c, fp);
    } else {
      ScreenCounts(c, counts, bits, raws[..|raws| - 1], fp);
      SubmissionsStep(c, raws, fp);
    }
  }

  lemma NoSubmissions(c: Settings, fp: string)
    ensures |Submissions(c, [], fp)| == 0
  {
    assert Submissions(c, [], fp) == {};
  }

  /** Link `i` looks new, and is this one. */
  ghost predicate FreshAt(c: Settings, g: Gate, raws: seq<RawLink>, i: int, l: Link) {
    LooksFresh(c, g, raws, i) && raws[i].link == l
  }

  lemma PrefixFresh(c: Settings, g: Gate, raws: seq<RawLink>, i: int, l: Link)
    requires raws != []
    ensures FreshAt(c, g, raws, i, l)
            <==> if i == |raws| - 1 then FreshAt(c, g, raws, |raws| - 1, l) else FreshAt(c, g, raws[..|raws| - 1], i, l)
  {
    var n := |raws| - 1;
    if 0 <= i < n { assert raws[..n][..i] == raws[..i] && raws[..n][i] == raws[i]; }
  }

  /** The links that come through the first phase are those that are counted and look new. */
  lemma {:induction false} ScreenPicksFresh(c: Settings, g: Gate, raws: seq<RawLink>)
    ensures forall l :: l in Screen(c, g.counts, g.bits, raws).1 <==> exists i :: FreshAt(c, g, raws, i, l)
  {
    hide FreshAt, Screen;
    forall l ensures l in Screen(c, g.counts, g.bits, raws).1 <==> exists i :: FreshAt(c, g, raws, i, l) {
      if raws == [] {
        NothingFresh(c, g, l);
      } else {
        var n := |raws| - 1;
        ScreenPicksFresh(c, g, raws[..n]);
        LastFresh(c, g, raws, l);
        forall i ensures FreshAt(c, g, raws, i, l)
            <==> if i == n then FreshAt(c, g, raws, n, l) else FreshAt(c, g, raws[..n], i, l) {
          PrefixFresh(c, g, raws, i, l);
        }
        if i :| FreshAt(c, g, raws[..n], i, l) {
          FreshIsIndex(c, g, raws[..n], i, l);
          assert FreshAt(c, g, raws, i, l);
        }
      }
    }
  }

  lemma NothingFresh(c: Settings, g: Gate, l: Link)
    ensures Screen(c, g.counts, g.bits, []).1 == [] && forall i :: !FreshAt(c, g, [], i, l)
  {
  }

  lemma FreshIsIndex(c: Settings, g: Gate, raws: seq<RawLink>, i: int, l: Link)
    requires FreshAt(c, g, raws, i, l)
    ensures 0 <= i < |raws|
  {
  }

  lemma LastFresh(c: Settings, g: Gate, raws: seq<RawLink>, l: Link)
    requires raws != []
    ensures l in Screen(c, g.counts, g.bits, raws).1
            <==> l in Screen(c, g.counts, g.bits, raws[..|raws| - 1]).1 || FreshAt(c, g, raws, |raws| - 1, l)
  {
    hide Submissions, Blacklisted;
    var n := |raws| - 1;
    if raws[n].Parsed? { ScreenCounts(c, g.counts, g.bits, raws[..n], raws[n].link.fingerprint); }
  }

  lemma {:induction false} NewJobsAre(links: seq<Link>, existing: set<string>, depth: int, score: Job -> real)
    ensures forall j :: j in NewJobs(links, existing, depth, score) <==>
              exists l :: l in links && l.url !in existing && j == JobFor(l, depth, score)
  {
    hide JobFor;
    if links != [] {
      var n := |links| - 1;
      NewJobsAre(links[..n], existing, depth, score);
      assert links == links[..n] + [links[n]];
    }
  }

  lemma {:induction false} MarkedAre(hash: string -> set<nat>, bits: set<nat>, seen: set<string>, links: seq<Link>,
                                     existing: set<string>)
    ensures var (b, k) := MarkKnown(hash, bits, seen, links, existing);
            && bits <= b
            && (forall key :: key in k <==>
                  key in seen || exists l :: l in links && l.url in existing && l.fingerprint == key)
            && (forall l :: l in links && l.url in existing ==> hash(l.fingerprint) <= b)
  {
    if links != [] {
      var n := |links| - 1;
      MarkedAre(hash, bits, seen, links[..n], existing);
      assert links == links[..n] + [links[n]];
    }
  }

  /** The filter shows every job of a batch afterwards; the ones that went in have keys of their own. */
  lemma {:induction false} FreshAre(hash: string -> set<nat>, bits: set<nat>, batch: seq<Job>)
    ensures var passed := Fresh(hash, bits, batch);
            && bits <= BitsAfter(hash, bits, passed)
            && (forall j :: j in batch ==> hash(DedupKey(j)) <= BitsAfter(hash, bits, passed))
            && (forall j :: j in passed ==> j in batch && hash(DedupKey(j)) <= BitsAfter(hash, bits, passed))
            && (forall i, k :: 0 <= i < k < |passed| ==> DedupKey(passed[i]) != DedupKey(passed[k]))
  {
    hide DedupKey;
    if batch != [] {
      var n := |batch| - 1;
      FreshAre(hash, bits, batch[..n]);
      var before := Fresh(hash, bits, batch[..n]);
      assert batch == batch[..n] + [batch[n]];
      FreshOneMore(hash, bits, before, batch[n]);
    }
  }

  lemma FreshOneMore(hash: string -> set<nat>, bits: set<nat>, before: seq<Job>, job: Job)
    ensures BitsAfter(hash, bits, before + [job]) == BitsAfter(hash, bits, before) + hash(DedupKey(job))
    ensures !Positive(hash, BitsAfter(hash, bits, before), DedupKey(job))
            && (forall j :: j in before ==> hash(DedupKey(j)) <= BitsAfter(hash, bits, before))
            ==> forall i :: 0 <= i < |before| ==> DedupKey(before[i]) != DedupKey(job)
  {
    hide DedupKey;
    BitsAfterStep(hash, bits, before, job);
    if !Positive(hash, BitsAfter(hash, bits, before), DedupKey(job))
       && (forall j :: j in before ==> hash(DedupKey(j)) <= BitsAfter(hash, bits, before)) {
      forall i | 0 <= i < |before| ensures DedupKey(before[i]) != DedupKey(job) {
        assert before[i] in before;
      }
    }
  }

  lemma FiledForLink(s: Core, link: Link, depth: int, score: Job -> real)
    ensures var s' := FileOne(s, JobFor(link, depth, score));
            exists j :: IsJobOf(j, link, depth, score) && j.id == s.last + 1 && s'.jobs == s.jobs + {j}
  {
    var j := JobFor(link, depth, score).(id := s.last + 1);
    assert IsJobOf(j, link, depth, score);
  }

  /** A job that the filter lets pass is for a link that looks new and is not known. */
  lemma PassedAreForLinks(c: Settings, g: Gate, b: Batch, job: Job, id: nat)
    requires job in Passed(c, g, b)
    ensures exists i :: ForLink(c, g, b, job.(id := id), i)
    ensures job.fingerprint != ""
  {
    hide MarkKnown, Fresh, NewJobs, Screen, LooksFresh;
    var links := Screen(c, g.counts, g.bits, b.raws).1;
    var bits := MarkKnown(c.hash, g.bits, g.seen, links, b.existing).0;
    FreshAre(c.hash, bits, NewJobs(links, b.existing, b.depth, b.score));
    NewJobsAre(links, b.existing, b.depth, b.score);
    ScreenPicksFresh(c, g, b.raws);
    var l :| l in links && l.url !in b.existing && job == JobFor(l, b.depth, b.score);
    var i :| FreshAt(c, g, b.raws, i, l);
    assert ForLink(c, g, b, job.(id := id), i);
  }

  lemma PassedHaveOwnKeys(c: Settings, g: Gate, b: Batch)
    ensures var passed := Passed(c, g, b);
            forall i, k :: 0 <= i < |passed| && 0 <= k < |passed| && passed[i].fingerprint == passed[k].fingerprint ==>
              i == k
  {
    hide MarkKnown, Fresh, NewJobs, Screen, ForLink;
    var passed := Passed(c, g, b);
    var links := Screen(c, g.counts, g.bits, b.raws).1;
    var bits := MarkKnown(c.hash, g.bits, g.seen, links, b.existing).0;
    FreshAre(c.hash, bits, NewJobs(links, b.existing, b.depth, b.score));
    forall i | 0 <= i < |passed| ensures DedupKey(passed[i]) == passed[i].fingerprint {
      PassedAreForLinks(c, g, b, passed[i], 0);
    }
  }

  /** The new jobs of a batch. */
  lemma JobsArrive(c: Settings, g: Gate, b: Batch, s: Core)
    requires WellFormed(s)
    ensures JobsArrived(c, g, b, s, FileAll(s, Passed(c, g, b)))
    ensures forall j :: j in FileAll(s, Passed(c, g, b)).jobs - s.jobs <==> FromBatch(s.last, Passed(c, g, b), j)
  {
    hide Passed, ForLink, FileAll, WellFormed;
    var passed := Passed(c, g, b);
    FileAllAddsBatch(s, passed);
    PassedHaveOwnKeys(c, g, b);
    forall j | FromBatch(s.last, passed, j)
      ensures j !in s.jobs && s.last < j.id <= s.last + |passed| && exists i :: ForLink(c, g, b, j, i)
    {
      var k: nat :| k < |passed| && FiledAs(s.last, passed, k, j);
      PassedAreForLinks(c, g, b, passed[k], s.last + 1 + k);
      NumberIsNew(s, j);
    }
  }

  lemma NumberIsNew(s: Core, j: Job)
    requires WellFormed(s) && j.id > s.last
    ensures j !in s.jobs
  {
    assert JobOK(s, j);
  }

  /** The keys of a batch. */
  lemma KeysArrive(c: Settings, g: Gate, b: Batch, s: Core)
    requires WellFormed(s)
    ensures KeysArrived(c, g, b, GateAfter(c, g, b), FileAll(s, Passed(c, g, b)).jobs - s.jobs)
  {
    hide MarkKnown, Fresh, NewJobs, Screen, ForLink, FileAll, WellFormed, Submissions, KeysOf, JobFor;
    var passed := Passed(c, g, b);
    var links := Screen(c, g.counts, g.bits, b.raws).1;
    var (bits, seen) := MarkKnown(c.hash, g.bits, g.seen, links, b.existing);
    var arrived := FileAll(s, passed).jobs - s.jobs;
    JobsArrive(c, g, b, s);
    ScreenPicksFresh(c, g, b.raws);
    NewJobsAre(links, b.existing, b.depth, b.score);
    MarkedAre(c.hash, g.bits, g.seen, links, b.existing);
    FreshAre(c.hash, bits, NewJobs(links, b.existing, b.depth, b.score));
    forall key | key in KeysOf(passed) ensures exists j :: j in arrived && j.fingerprint == key {
      var k := KeyOfPassed(passed, key);
      PassedAreForLinks(c, g, b, passed[k], s.last + 1 + k);
      assert FiledAs(s.last, passed, k, passed[k].(id := s.last + 1 + k));
    }
    forall j | j in arrived ensures j.fingerprint in KeysOf(passed) {
      var k: nat :| k < |passed| && FiledAs(s.last, passed, k, j);
      PassedAreForLinks(c, g, b, passed[k], s.last + 1 + k);
      KeyIsListed(passed, k);
    }
    forall i | LooksFresh(c, g, b.raws, i)
      ensures c.hash(b.raws[i].link.fingerprint) <= GateAfter(c, g, b).bits
      ensures b.raws[i].link.url in b.existing ==> b.raws[i].link.fingerprint in seen
    {
      FreshLinkShown(c, g, b, i, b.raws[i].link);
    }
    forall key | key in seen && key !in g.seen ensures exists i :: KnownLink(c, g, b, key, i) {
      var l :| l in links && l.url in b.existing && l.fingerprint == key;
      var i :| FreshAt(c, g, b.raws, i, l);
      assert KnownLink(c, g, b, key, i);
    }
  }

  /** A link that looks new is shown by the filter afterwards, and is a key if the store knows it. */
  lemma FreshLinkShown(c: Settings, g: Gate, b: Batch, i: int, l: Link)
    requires FreshAt(c, g, b.raws, i, l)
    ensures c.hash(l.fingerprint) <= GateAfter(c, g, b).bits
    ensures l.url in b.existing ==>
              l.fingerprint in MarkKnown(c.hash, g.bits, g.seen, Screen(c, g.counts, g.bits, b.raws).1, b.existing).1
  {
    hide MarkKnown, Fresh, NewJobs, Screen, LooksFresh, FreshAt;
    var links := Screen(c, g.counts, g.bits, b.raws).1;
    var bits := MarkKnown(c.hash, g.bits, g.seen, links, b.existing).0;
    var jobs := NewJobs(links, b.existing, b.depth, b.score);
    ScreenPicksFresh(c, g, b.raws);
    MarkedAre(c.hash, g.bits, g.seen, links, b.existing);
    NewJobsAre(links, b.existing, b.depth, b.score);
    FreshAre(c.hash, bits, jobs);
    assert l in links;
    if l.url !in b.existing { assert JobFor(l, b.depth, b.score) in jobs; }
  }

  lemma KeyOfPassed(passed: seq<Job>, key: string) returns (k: nat)
    requires key in KeysOf(passed)
    ensures k < |passed| && DedupKey(passed[k]) == key
  {
    var j :| j in passed && DedupKey(j) == key;
    k :| k < |passed| && passed[k] == j;
  }

  lemma KeyIsListed(passed: seq<Job>, k: nat)
    requires k < |passed|
    ensures DedupKey(passed[k]) in KeysOf(passed)
  {
    assert passed[k] in passed;
  }

  /** The steps lead to these counters and this filter, and the tasks they started are numbered below `calls`. */
  ghost predicate LeadsTo(c: Settings, log: seq<Event>, counts: map<string, nat>, bits: set<nat>, seen: set<string>,
                          calls: nat)
  {
    var r := Replay(c, log);
    && r.At? && r.state.counts == counts && r.state.bits == bits && r.state.seen == seen
    && (forall t :: t in r.state.tasks ==> t < calls)
  }

  class Frontier {
    const queue: Queue
    const settings: Settings
    var fpCounts: map<string, nat>
    ghost var log: seq<Event>
    ghost var calls: nat

    /** The counters and the filter are where the recorded steps lead. */
    ghost predicate Follows()
      reads this, queue
    {
      LeadsTo(settings, log, fpCounts, queue.bits, queue.seen, calls)
    }

    ghost function GateNow(): Gate
      reads this, queue
    {
      Gate(fpCounts, queue.bits, queue.seen)
    }

    ghost predicate Valid()
      reads this, queue
    {
      && queue.Valid() && queue.hash == settings.hash
      && Follows() && Clean(settings.blacklist, queue.jobs)
    }

    constructor (queue: Queue, blacklist: set<string>, cap: int)
      requires queue.Valid() && queue.State() == Core(map[], {}, 0) && queue.bits == {} && queue.seen == {}
      ensures Valid() && this.queue == queue && fpCounts == map[] && log == []
      ensures settings == Settings(queue.hash, blacklist, cap)
    {
      this.queue, settings := queue, Settings(queue.hash, blacklist, cap);
      fpCounts, log, calls := map[], [], 0;
    }

    /** Restores counters from what a store holds. */
    method SeedFingerprintCounts(fingerprints: seq<string>)
      requires Valid()
      modifies this`fpCounts, this`log, this`calls
      ensures Valid() && log == old(log) + [Seed(fingerprints)]
      ensures forall fp :: CountOf(fpCounts, fp) == CountOf(old(fpCounts), fp) + multiset(fingerprints)[fp]
    {
      CountSeeds(fingerprints);
      SeedsAreCounted(old(fpCounts), fingerprints);
      Record(Seed(fingerprints));
    }

    method CountSeeds(fingerprints: seq<string>)
      modifies this`fpCounts
      ensures fpCounts == SeedCounts(old(fpCounts), fingerprints)
    {
      assert fingerprints[..0] == [];
      for i := 0 to |fingerprints|
        invariant fpCounts == SeedCounts(old(fpCounts), fingerprints[..i])
      {
        assert fingerprints[..i + 1][..i] == fingerprints[..i];
        var fp := fingerprints[i];
        fpCounts := fpCounts[fp := CountOf(fpCounts, fp) + 1];
      }
      assert fingerprints[..|fingerprints|] == fingerprints;
    }

    /** Records one step that has just been taken. */
    ghost method Record(e: Event)
      requires Replay(settings, log).At?
      requires Enabled(settings, Replay(settings, log).state, e)
      requires forall t :: t in Replay(settings, log).state.tasks ==> t < calls
      requires e.Reserve? ==> e.task == calls
      requires var s := Next(settings, Replay(settings, log).state, e);
               s.counts == fpCounts && s.bits == queue.bits && s.seen == queue.seen
      modifies this`log, this`calls
      ensures log == old(log) + [e] && calls == old(calls) + (if e.Reserve? then 1 else 0)
      ensures Follows()
      ensures Replay(settings, log).state == Next(settings, Replay(settings, old(log)).state, e)
    {
      assert (log + [e])[..|log|] == log;
      log := log + [e];
      if e.Reserve? {
        calls := calls + 1;
      }
    }

    /** Counts a submission, unless the cap has been reached. */
    method ReserveSlot(link: Link) returns (ok: bool)
      requires Valid() && !Blacklisted(settings.blacklist, link.domain)
      modifies this`fpCounts, this`log, this`calls
      ensures Valid() && ok == !OverTheCap(settings.cap, old(fpCounts), link.fingerprint)
      ensures log == old(log) + [if ok then Reserve(old(calls), link) else OverCap(link)]
      ensures Replay(settings, log).state
              == Next(settings, Replay(settings, old(log)).state, log[|old(log)|])
      ensures fpCounts == if ok then old(fpCounts)[link.fingerprint := CountOf(old(fpCounts), link.fingerprint) + 1]
                                else old(fpCounts)
      ensures calls == old(calls) + if ok then 1 else 0
    {
      var fp := link.fingerprint;
      var count := CountOf(fpCounts, fp);
      if settings.cap > 0 && count >= settings.cap {
        Record(OverCap(link));
        return false;
      }
      fpCounts := fpCounts[fp := count + 1];
      Record(Reserve(calls, link));
      return true;
    }

    /** Submits one link. The answer is false if the store failed. */
    method Add(raw: RawLink, depth: int, score: Job -> real, store: StoreAnswer) returns (ok: bool)
      requires Valid()
      modifies this, queue
      ensures Valid()
      ensures log == old(log) + AddSteps(settings, old(fpCounts), old(queue.bits), old(calls), raw, store)
      ensures !ok <==> log != old(log) && log[|log| - 1].LooksNew?
      ensures queue.State() == if log != old(log) && log[|log| - 1].Accept?
                               then FileOne(old(queue.State()), JobFor(raw.link, depth, score))
                               else old(queue.State())
      ensures !(Admissible(settings, raw)
                && (settings.cap <= 0 || CountOf(old(fpCounts), raw.link.fingerprint) < settings.cap)) ==>
                ok && GateNow() == old(GateNow()) && queue.State() == old(queue.State())
      ensures Admissible(settings, raw)
              && (settings.cap <= 0 || CountOf(old(fpCounts), raw.link.fingerprint) < settings.cap) ==>
                var fp: string := raw.link.fingerprint;
                && fpCounts == old(fpCounts)[fp := CountOf(old(fpCounts), fp) + 1]
                && (ok <==> settings.hash(fp) <= old(queue.bits) || !store.Fails?)
                && (settings.hash(fp) <= old(queue.bits) || store.Fails? ==>
                      queue.State() == old(queue.State())
                      && queue.bits == old(queue.bits) && queue.seen == old(queue.seen))
                && (!(settings.hash(fp) <= old(queue.bits)) && !store.Fails? ==>
                      queue.bits == old(queue.bits) + settings.hash(fp) && queue.seen == old(queue.seen) + {fp})
                && (!(settings.hash(fp) <= old(queue.bits)) && store.Known? ==> queue.State() == old(queue.State()))
                && (!(settings.hash(fp) <= old(queue.bits)) && store.Unknown? ==>
                      exists j :: IsJobOf(j, raw.link, depth, score) && j.id == old(queue.State()).last + 1
                                  && queue.jobs == old(queue.jobs) + {j})
    {
      hide FileOne, JobFor, IsJobOf, LeadsTo, Clean, Blacklisted;
      if raw.Unparsable? || raw.nonIndexable {
        return true;
      }
      var link := raw.link;
      var listed := IsBlacklistedDomain(settings.blacklist, link.domain);
      if listed {
        return true;
      }
      ghost var t := calls;
      FiledForLink(queue.State(), link, depth, score);
      var counted := ReserveSlot(link);
      if !counted {
        return true;
      }
      ok := LookUp(link, t, depth, score, store);
    }

    /** A counted link: look at the filter, then ask the store. */
    method LookUp(link: Link, ghost t: nat, depth: int, score: Job -> real, store: StoreAnswer) returns (ok: bool)
      requires Valid() && !Blacklisted(settings.blacklist, link.domain)
      requires var s := Replay(settings, log).state; AtStage(s, t, Counted) && s.tasks[t].link == link
      modifies this`log, this`calls, queue
      ensures Valid()
      ensures log == old(log) + LookSteps(settings, old(queue.bits), t, link, store)
      ensures !ok <==> !Positive(settings.hash, old(queue.bits), link.fingerprint) && store.Fails?
      ensures var key: string := link.fingerprint;
              if Positive(settings.hash, old(queue.bits), key) || store.Fails?
              then queue.bits == old(queue.bits) && queue.seen == old(queue.seen)
              else queue.bits == old(queue.bits) + settings.hash(link.fingerprint)
                   && queue.seen == old(queue.seen) + {key}
      ensures queue.State() == if !Positive(settings.hash, old(queue.bits), link.fingerprint) && store.Unknown?
                               then FileOne(old(queue.State()), JobFor(link, depth, score))
                               else old(queue.State())
    {
      var maybe := queue.HasSeen(link.fingerprint);
      if maybe {
        Record(LooksSeen(t));
        return true;
      }
      Record(LooksNew(t));
      ok := Confirm(link, t, depth, score, store);
    }

    /** The second half of `Add`: ask the store about a link that looks new, and enqueue it. */
    method Confirm(link: Link, ghost t: nat, depth: int, score: Job -> real, store: StoreAnswer) returns (ok: bool)
      requires Valid() && !Blacklisted(settings.blacklist, link.domain)
      requires var s := Replay(settings, log).state;
               AtStage(s, t, Unseen) && s.tasks[t].link == link && !Positive(settings.hash, s.bits, link.fingerprint)
      modifies this`log, this`calls, queue
      ensures Valid()
      ensures log == old(log) + match store
                                case Fails => []
                                case Known => [InStore(t)]
                                case Unknown => [NotInStore(t), Accept(t)]
      ensures ok <==> !store.Fails?
      ensures var key: string := link.fingerprint;
              if store.Fails? then queue.bits == old(queue.bits) && queue.seen == old(queue.seen)
              else queue.bits == old(queue.bits) + settings.hash(link.fingerprint)
                   && queue.seen == old(queue.seen) + {key}
      ensures queue.State() == if store.Unknown?
                               then FileOne(old(queue.State()), JobFor(link, depth, score))
                               else old(queue.State())
    {
      match store
      case Fails =>
        return false;
      case Known =>
        queue.MarkSeen(link.fingerprint);
        Record(InStore(t));
        return true;
      case Unknown =>
        Record(NotInStore(t));
        var job := JobFor(link, depth, score);
        FileStaysClean(settings.blacklist, queue.State(), job);
        var added := queue.Enqueue(job);
        Record(Accept(t));
        return true;
    }

    /** The first phase of a batch: screen, count, and look at the filter. */
    method ScreenBatch(raws: seq<RawLink>) returns (candidates: seq<Link>, ghost tasks: seq<nat>)
      requires Valid()
      modifies this`fpCounts, this`log, this`calls
      ensures Valid() && old(log) <= log
      ensures (fpCounts, candidates) == Screen(settings, old(fpCounts), queue.bits, raws)
      ensures Waiting(Replay(settings, log).state, candidates, tasks, Unseen)
    {
      candidates, tasks := [], [];
      assert raws[..0] == [];
      for i := 0 to |raws|
        invariant Valid() && old(log) <= log
        invariant (fpCounts, candidates) == Screen(settings, old(fpCounts), queue.bits, raws[..i])
        invariant Waiting(Replay(settings, log).state, candidates, tasks, Unseen)
      {
        assert raws[..i + 1][..i] == raws[..i];
        ghost var before := Replay(settings, log).state;
        ghost var t := calls;
        var isNew := ScreenOne(raws[i]);
        StillWaiting(before, Replay(settings, log).state, candidates, tasks, t, raws[i], isNew);
        if isNew {
          candidates := candidates + [raws[i].link];
          tasks := tasks + [t];
        }
      }
      assert raws[..|raws|] == raws;
    }

    /** One link of the first phase. */
    method ScreenOne(raw: RawLink) returns (isNew: bool)
      requires Valid()
      modifies this`fpCounts, this`log, this`calls
      ensures Valid() && old(log) <= log && (isNew ==> raw.Parsed?)
      ensures forall links :: (fpCounts, if isNew then links + [raw.link] else links)
                              == ScreenOneMore(settings, queue.bits, (old(fpCounts), links), raw)
      ensures var s, s' := Replay(settings, old(log)).state, Replay(settings, log).state;
              && KeepsTasks(s, s')
              && (isNew ==> old(calls) !in s.tasks && old(calls) in s'.tasks
                            && s'.tasks[old(calls)] == Task(raw.link, Unseen))
    {
      if raw.Unparsable? || raw.nonIndexable {
        return false;
      }
      var link := raw.link;
      var listed := IsBlacklistedDomain(settings.blacklist, link.domain);
      if listed {
        return false;
      }
      ghost var t := calls;
      var counted := ReserveSlot(link);
      if !counted {
        return false;
      }
      var maybe := queue.HasSeen(link.fingerprint);
      if maybe {
        Record(LooksSeen(t));
        return false;
      }
      Record(LooksNew(t));
      return true;
    }

    /** The second phase: mark what the store has, make jobs of the rest. */
    method ConfirmBatch(candidates: seq<Link>, ghost tasks: seq<nat>, existing: set<string>,
                        depth: int, score: Job -> real)
      returns (jobs: seq<Job>, ghost ready: seq<nat>)
      requires Valid() && Waiting(Replay(settings, log).state, candidates, tasks, Unseen)
      modifies this`log, this`calls, queue
      ensures Valid() && old(log) <= log && queue.State() == old(queue.State())
      ensures jobs == NewJobs(candidates, existing, depth, score)
      ensures (queue.bits, queue.seen)
              == MarkKnown(settings.hash, old(queue.bits), old(queue.seen), candidates, existing)
      ensures Waiting(Replay(settings, log).state, NewLinks(candidates, existing), ready, Confirmed)
    {
      jobs, ready := [], [];
      assert candidates[..0] == [];
      for i := 0 to |candidates|
        invariant Valid() && old(log) <= log && queue.State() == old(queue.State())
        invariant jobs == NewJobs(candidates[..i], existing, depth, score)
        invariant (queue.bits, queue.seen)
                  == MarkKnown(settings.hash, old(queue.bits), old(queue.seen), candidates[..i], existing)
        invariant HalfWay(Replay(settings, log).state, candidates, tasks, i,
                          NewLinks(candidates[..i], existing), ready)
      {
        assert candidates[..i + 1][..i] == candidates[..i];
        var c := candidates[i];
        ghost var s := Replay(settings, log).state;
        if c.url in existing {
          queue.MarkSeen(c.fingerprint);
          Record(InStore(tasks[i]));
        } else {
          jobs := jobs + [JobFor(c, depth, score)];
          Record(NotInStore(tasks[i]));
        }
        OneConfirmed(s, Replay(settings, log).state, candidates, tasks, i,
                     NewLinks(candidates[..i], existing), ready, c.url !in existing);
        if c.url !in existing {
          ready := ready + [tasks[i]];
        }
      }
      assert candidates[..|candidates|] == candidates;
    }

    /** Submits the links of a page. If the store fails, the filter alone decides. */
    method AddBatch(raws: seq<RawLink>, depth: int, score: Job -> real, storeFails: bool, existing: set<string>)
      returns (ghost added: nat)
      requires Valid()
      modifies this, queue
      ensures Valid() && old(log) <= log
      ensures var b := Batch(raws, depth, if storeFails then {} else existing, score);
              && added == |Passed(settings, old(GateNow()), b)|
              && queue.State() == FileAll(old(queue.State()), Passed(settings, old(GateNow()), b))
              && GateNow() == GateAfter(settings, old(GateNow()), b)
              && JobsArrived(settings, old(GateNow()), b, old(queue.State()), queue.State())
              && KeysArrived(settings, old(GateNow()), b, GateNow(), queue.jobs - old(queue.jobs))
      ensures forall fp :: CountOf(fpCounts, fp)
                           == Raised(settings.cap, CountOf(old(fpCounts), fp), |Submissions(settings, raws, fp)|)
    {
      ghost var s, g, batch := queue.State(), GateNow(), Batch(raws, depth, if storeFails then {} else existing, score);
      JobsArrive(settings, g, batch, s);
      KeysArrive(settings, g, batch, s);
      forall fp ensures CountOf(Screen(settings, fpCounts, queue.bits, raws).0, fp)
                        == Raised(settings.cap, CountOf(fpCounts, fp), |Submissions(settings, raws, fp)|)
      {
        ScreenCounts(settings, fpCounts, queue.bits, raws, fp);
      }
      var candidates: seq<Link>;
      ghost var tasks: seq<nat>;
      candidates, tasks := ScreenBatch(raws);
      var existingURLs := if storeFails then {} else existing;
      var jobs: seq<Job>;
      ghost var ready: seq<nat>;
      jobs, ready := ConfirmBatch(candidates, tasks, existingURLs, depth, score);
      ScreenedAreClean(settings, old(fpCounts), old(queue.bits), raws);
      NewJobsMatch(candidates, existingURLs, depth, score);
      added := Submit(jobs, NewLinks(candidates, existingURLs), ready);
    }

    /** The third phase: the whole batch goes to the queue at once. */
    method Submit(jobs: seq<Job>, ghost links: seq<Link>, ghost ready: seq<nat>) returns (ghost added: nat)
      requires Valid() && Waiting(Replay(settings, log).state, links, ready, Confirmed)
      requires |jobs| == |links|
      requires forall k :: 0 <= k < |jobs| ==>
                 DedupKey(jobs[k]) == links[k].fingerprint && !Blacklisted(settings.blacklist, jobs[k].domain)
      modifies this`log, queue
      ensures Valid() && old(log) <= log
      ensures BatchDone(settings.hash, old(queue.State()), old(queue.bits), old(queue.seen), jobs,
                        queue.State(), queue.bits, queue.seen, added)
    {
      added := 0;
      if |jobs| > 0 {
        FreshStaysClean(settings, queue.State(), queue.bits, jobs);
        ghost var more := BatchLeadsTo(settings, log, fpCounts, queue.bits, queue.seen, calls, links, ready, jobs);
        var n := queue.EnqueueBatch(jobs);
        added := n;
        log := more;
      } else {
        assert jobs == [];
      }
    }

    /** Explicit re-injection: neither counted nor filtered, but never a blacklisted domain. */
    method AddBatchDirect(raws: seq<RawLink>, depth: int, score: Job -> real) returns (added: nat)
      requires Valid()
      modifies queue
      ensures Valid() && queue.State() == FileAll(old(queue.State()), DirectJobs(settings, raws, depth, score))
      ensures added == |set i: nat | i < |raws| && Admissible(settings, raws[i])|
      ensures |queue.jobs| == |old(queue.jobs)| + added && old(queue.jobs) <= queue.jobs
      ensures forall j :: j in queue.jobs - old(queue.jobs) ==>
                exists i :: 0 <= i < |raws| && Admissible(settings, raws[i]) && IsJobOf(j, raws[i].link, depth, score)
      ensures queue.bits == old(queue.bits) && queue.seen == old(queue.seen)
    {
      DirectJobsArrive(settings, queue.State(), raws, depth, score);
      var jobs := CollectDirect(raws, depth, score);
      if |jobs| == 0 {
        return 0;
      }
      FileAllStaysClean(settings.blacklist, queue.State(), jobs);
      added := queue.EnqueueBatchDirect(jobs);
    }

    /** A failed job goes back, past the filter and the counters. */
    method Retry(job: Job)
      requires Valid() && !Blacklisted(settings.blacklist, job.domain)
      modifies queue
      ensures Valid() && queue.State() == FileOne(old(queue.State()), job)
      ensures queue.bits == old(queue.bits) && queue.seen == old(queue.seen)
    {
      FileStaysClean(settings.blacklist, queue.State(), job);
      queue.EnqueueRetry(job);
    }

    /** The next job of a domain that gets a slot; it never belongs to a blacklisted domain. */
    method Dequeue(limiter: RateLimit.DomainLimiter, clock: RateLimit.Clock)
      returns (job: Option<Job>)
      requires Valid() && limiter.Valid() && RateLimit.Now(limiter.log) <= clock.now
      modifies queue, limiter, clock
      ensures Valid() && limiter.Valid() && RateLimit.Now(limiter.log) <= clock.now
      ensures queue.bits == old(queue.bits) && queue.seen == old(queue.seen)
      ensures job.None? ==> queue.State() == old(queue.State())
      ensures job.Some? ==>
                && !Blacklisted(settings.blacklist, job.value.domain) && job.value in old(queue.jobs)
                && job.value.domain in old(queue.domains) && ListOK(old(queue.State()), job.value.domain)
                && job.value == old(queue.domains)[job.value.domain][0]
                && queue.State() == Popped(old(queue.State()), job.value.domain)
    {
      ghost var asked;
      job, asked := queue.Dequeue(limiter, clock);
      if job.Some? {
        HeadIsBest(old(queue.State()), job.value.domain);
      }
    }

    method CollectDirect(raws: seq<RawLink>, depth: int, score: Job -> real) returns (jobs: seq<Job>)
      ensures jobs == DirectJobs(settings, raws, depth, score)
      ensures forall k :: 0 <= k < |jobs| ==> !Blacklisted(settings.blacklist, jobs[k].domain)
    {
      jobs := [];
      assert raws[..0] == [];
      for i := 0 to |raws|
        invariant jobs == DirectJobs(settings, raws[..i], depth, score)
        invariant forall k :: 0 <= k < |jobs| ==> !Blacklisted(settings.blacklist, jobs[k].domain)
      {
        assert raws[..i + 1][..i] == raws[..i];
        if raws[i].Parsed? && !raws[i].nonIndexable {
          var listed := IsBlacklistedDomain(settings.blacklist, raws[i].link.domain);
          if !listed {
            jobs := jobs + [JobFor(raws[i].link, depth, score)];
          }
        }
      }
      assert raws[..|raws|] == raws;
    }
  }

  lemma SeedsAreCounted(counts: map<string, nat>, fingerprints: seq<string>)
    ensures forall fp :: CountOf(SeedCounts(counts, fingerprints), fp)
                         == CountOf(counts, fp) + multiset(fingerprints)[fp]
  {
    forall fp ensures CountOf(SeedCounts(counts, fingerprints), fp)
                      == CountOf(counts, fp) + multiset(fingerprints)[fp]
    {
      SeedCountsCount(counts, fingerprints, fp);
    }
  }

  /** The tasks, all different, have come to `stage` with these links. */
  ghost predicate Waiting(s: Shared, links: seq<Link>, tasks: seq<nat>, stage: Stage) {
    && |tasks| == |links|
    && (forall k {:trigger tasks[k]} :: 0 <= k < |tasks| ==>
          tasks[k] in s.tasks && s.tasks[tasks[k]] == Task(links[k], stage))
    && (forall i, k :: 0 <= i < k < |tasks| ==> tasks[i] != tasks[k])
  }

  /** In the second phase: the tasks from `i` on are still unseen, the `ready` ones confirmed. */
  ghost predicate HalfWay(s: Shared, links: seq<Link>, tasks: seq<nat>, i: nat, done: seq<Link>, ready: seq<nat>) {
    && |tasks| == |links| && i <= |tasks|
    && (forall k {:trigger tasks[k]} :: i <= k < |tasks| ==>
          tasks[k] in s.tasks && s.tasks[tasks[k]] == Task(links[k], Unseen))
    && (forall k {:trigger ready[k]} :: 0 <= k < |ready| ==> ready[k] in tasks[..i])
    && (forall k, l :: 0 <= k < l < |tasks| ==> tasks[k] != tasks[l])
    && Waiting(s, done, ready, Confirmed)
  }

  lemma OneConfirmed(s: Shared, s': Shared, links: seq<Link>, tasks: seq<nat>, i: nat,
                     done: seq<Link>, ready: seq<nat>, isNew: bool)
    requires i < |links| && HalfWay(s, links, tasks, i, done, ready)
    requires s'.tasks == s.tasks[tasks[i] := Task(links[i], if isNew then Confirmed else Closed)]
    ensures if isNew then HalfWay(s', links, tasks, i + 1, done + [links[i]], ready + [tasks[i]])
            else HalfWay(s', links, tasks, i + 1, done, ready)
  {
    assert tasks[..i + 1] == tasks[..i] + [tasks[i]];
    assert tasks[i] !in tasks[..i];
  }

  lemma {:induction false} ScreenedAreClean(c: Settings, counts: map<string, nat>, bits: set<nat>, raws: seq<RawLink>)
    ensures forall k :: 0 <= k < |Screen(c, counts, bits, raws).1| ==>
              !Blacklisted(c.blacklist, Screen(c, counts, bits, raws).1[k].domain)
  {
    if raws != [] {
      ScreenedAreClean(c, counts, bits, raws[..|raws| - 1]);
    }
  }

  lemma {:induction false} NewJobsMatch(links: seq<Link>, existing: set<string>, depth: int, score: Job -> real)
    ensures var jobs, kept := NewJobs(links, existing, depth, score), NewLinks(links, existing);
            && |jobs| == |kept|
            && (forall k :: 0 <= k < |jobs| ==>
                  DedupKey(jobs[k]) == kept[k].fingerprint && jobs[k].domain == kept[k].domain)
            && (forall k :: 0 <= k < |kept| ==> kept[k] in links)
  {
    if links != [] {
      var n := |links| - 1;
      NewJobsMatch(links[..n], existing, depth, score);
      assert links == links[..n] + [links[n]];
    }
  }

  /** A batch through the filter is a run of single steps that nobody interrupts. */
  lemma BatchAsSteps(c: Settings, log: seq<Event>, links: seq<Link>, ready: seq<nat>,
                     jobs: seq<Job>)
    returns (more: seq<Event>)
    requires IsRun(c, log) && Waiting(Replay(c, log).state, links, ready, Confirmed)
    requires |jobs| == |links| && forall k :: 0 <= k < |jobs| ==> DedupKey(jobs[k]) == links[k].fingerprint
    ensures log <= more && IsRun(c, more)
    ensures var s, s' := Replay(c, log).state, Replay(c, more).state;
            var passed := Fresh(c.hash, s.bits, jobs);
            && s'.counts == s.counts && s'.tasks.Keys == s.tasks.Keys
            && s'.bits == BitsAfter(c.hash, s.bits, passed) && s'.seen == s.seen + KeysOf(passed)
  {
    var s := Replay(c, log).state;
    more := log;
    assert jobs[..0] == [];
    for i := 0 to |jobs|
      invariant log <= more && IsRun(c, more)
      invariant Submitted(c, s, Replay(c, more).state, links, ready, jobs, i)
    {
      var now := Replay(c, more).state;
      assert ready[i] in now.tasks;
      var e := if Positive(c.hash, now.bits, links[i].fingerprint) then Duplicate(ready[i]) else Accept(ready[i]);
      SubmitStep(c, s, now, links, ready, jobs, i, e);
      assert (more + [e])[..|more|] == more;
      more := more + [e];
    }
    assert jobs[..|jobs|] == jobs;
  }

  lemma BatchLeadsTo(c: Settings, log: seq<Event>, counts: map<string, nat>, bits: set<nat>, seen: set<string>,
                     calls: nat, links: seq<Link>, ready: seq<nat>, jobs: seq<Job>)
    returns (more: seq<Event>)
    requires LeadsTo(c, log, counts, bits, seen, calls) && Waiting(Replay(c, log).state, links, ready, Confirmed)
    requires |jobs| == |links| && forall k :: 0 <= k < |jobs| ==> DedupKey(jobs[k]) == links[k].fingerprint
    ensures var passed := Fresh(c.hash, bits, jobs);
            log <= more
            && LeadsTo(c, more, counts, BitsAfter(c.hash, bits, passed), seen + KeysOf(passed), calls)
  {
    more := BatchAsSteps(c, log, links, ready, jobs);
    assert Replay(c, more).state.tasks.Keys == Replay(c, log).state.tasks.Keys;
  }

  /** After the first `i` jobs of a batch. */
  ghost predicate Submitted(c: Settings, s: Shared, now: Shared, links: seq<Link>, ready: seq<nat>, jobs: seq<Job>,
                            i: nat)
    requires i <= |jobs|
  {
    var passed := Fresh(c.hash, s.bits, jobs[..i]);
    && now.counts == s.counts && now.tasks.Keys == s.tasks.Keys
    && now.bits == BitsAfter(c.hash, s.bits, passed) && now.seen == s.seen + KeysOf(passed)
    && |ready| == |links|
    && (forall k {:trigger ready[k]} :: i <= k < |ready| ==>
          ready[k] in now.tasks && now.tasks[ready[k]] == Task(links[k], Confirmed))
    && (forall k, l :: 0 <= k < l < |ready| ==> ready[k] != ready[l])
  }

  lemma SubmitStep(c: Settings, s: Shared, now: Shared, links: seq<Link>, ready: seq<nat>, jobs: seq<Job>,
                   i: nat, e: Event)
    requires i < |jobs| == |links| && DedupKey(jobs[i]) == links[i].fingerprint
    requires Submitted(c, s, now, links, ready, jobs, i)
    requires e == if Positive(c.hash, now.bits, links[i].fingerprint) then Duplicate(ready[i]) else Accept(ready[i])
    ensures Enabled(c, now, e) && Submitted(c, s, Next(c, now, e), links, ready, jobs, i + 1)
  {
    var passed := Fresh(c.hash, s.bits, jobs[..i]);
    assert now.tasks[ready[i]] == Task(links[i], Confirmed);
    FreshStep(c.hash, s.bits, jobs, i);
    BitsAfterStep(c.hash, s.bits, passed, jobs[i]);
    KeysStep(passed, jobs[i]);
  }

  ghost predicate KeepsTasks(s: Shared, s': Shared) {
    forall u :: u in s.tasks ==> u in s'.tasks && s'.tasks[u] == s.tasks[u]
  }

  lemma StillWaiting(s: Shared, s': Shared, links: seq<Link>, tasks: seq<nat>, t: nat, raw: RawLink, isNew: bool)
    requires Waiting(s, links, tasks, Unseen)
    requires KeepsTasks(s, s')
    requires isNew ==> raw.Parsed? && t !in s.tasks && t in s'.tasks && s'.tasks[t] == Task(raw.link, Unseen)
    ensures if isNew then Waiting(s', links + [raw.link], tasks + [t], Unseen) else Waiting(s', links, tasks, Unseen)
  {
  }

  ghost function DirectJobs(c: Settings, raws: seq<RawLink>, depth: int, score: Job -> real): seq<Job> {
    if raws == [] then []
    else
      var before := DirectJobs(c, raws[..|raws| - 1], depth, score);
      var raw := raws[|raws| - 1];
      if Dropped(c, raw) then before else before + [JobFor(raw.link, depth, score)]
  }

  /** One job for every admissible link. */
  lemma {:induction false} DirectJobsCount(c: Settings, raws: seq<RawLink>, depth: int, score: Job -> real)
    ensures |DirectJobs(c, raws, depth, score)| == |set i: nat | i < |raws| && Admissible(c, raws[i])|
  {
    hide JobFor, Blacklisted;
    var now := set i: nat | i < |raws| && Admissible(c, raws[i]);
    if raws == [] {
      assert now == {};
    } else {
      var n := |raws| - 1;
      DirectJobsCount(c, raws[..n], depth, score);
      var before := set i: nat | i < |raws[..n]| && Admissible(c, raws[..n][i]);
      assert now == before + if Admissible(c, raws[n]) then {n} else {};
    }
  }

  ghost predicate DirectlyFrom(c: Settings, raws: seq<RawLink>, depth: int, score: Job -> real, j: Job, i: int) {
    0 <= i < |raws| && Admissible(c, raws[i]) && j == JobFor(raws[i].link, depth, score)
  }

  lemma {:induction false} DirectJobFrom(c: Settings, raws: seq<RawLink>, depth: int, score: Job -> real, j: Job)
    returns (i: int)
    requires j in DirectJobs(c, raws, depth, score)
    ensures DirectlyFrom(c, raws, depth, score, j, i)
  {
    hide JobFor, Blacklisted;
    var n := |raws| - 1;
    if j in DirectJobs(c, raws[..n], depth, score) {
      i := DirectJobFrom(c, raws[..n], depth, score, j);
      assert raws[..n][i] == raws[i];
    } else {
      i := n;
    }
  }

  lemma DirectJobsArrive(c: Settings, s: Core, raws: seq<RawLink>, depth: int, score: Job -> real)
    requires WellFormed(s)
    ensures var jobs := DirectJobs(c, raws, depth, score);
            var s' := FileAll(s, jobs);
            && |s'.jobs| == |s.jobs| + |jobs| && s.jobs <= s'.jobs
            && |jobs| == (|set i: nat | i < |raws| && Admissible(c, raws[i])|)
            && forall j :: j in s'.jobs - s.jobs ==>
                 exists i :: 0 <= i < |raws| && Admissible(c, raws[i]) && IsJobOf(j, raws[i].link, depth, score)
  {
    hide DirectJobs, WellFormed, FileAll, Blacklisted;
    var jobs := DirectJobs(c, raws, depth, score);
    DirectJobsCount(c, raws, depth, score);
    FileAllAddsBatch(s, jobs);
    forall j | j in FileAll(s, jobs).jobs - s.jobs
      ensures exists i :: 0 <= i < |raws| && Admissible(c, raws[i]) && IsJobOf(j, raws[i].link, depth, score)
    {
      var k: nat :| k < |jobs| && FiledAs(s.last, jobs, k, j);
      assert jobs[k] in jobs;
      var i := DirectJobFrom(c, raws, depth, score, jobs[k]);
      assert IsJobOf(j, raws[i].link, depth, score);
    }
  }
}
