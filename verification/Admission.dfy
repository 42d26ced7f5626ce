/**
 Admission to the crawl queue: domains on the blacklist are kept out, submissions are counted
 against a cap per fingerprint, and a fingerprint passes the Bloom filter at most once. The part
 before the class is about every interleaving of callers, one critical section a step.
 */
module Admission {
  import opened CrawlQueue

  // ---------- The blacklist ----------

  /** A suffix of the domain that starts at a label boundary. */
  ghost predicate LabelSuffix(domain: string, k: int) {
    0 <= k <= |domain| && (k == 0 || domain[k - 1] == '.')
  }

  /** The domain or one of its parent domains is listed. */
  ghost predicate Blacklisted(list: set<string>, domain: string) {
    exists k :: LabelSuffix(domain, k) && domain[k..] in list
  }

  method IndexByte(s: string, c: char) returns (idx: int)
    ensures -1 <= idx < |s|
    ensures idx >= 0 ==> s[idx] == c && forall i :: 0 <= i < idx ==> s[i] != c
    ensures idx == -1 ==> forall i :: 0 <= i < |s| ==> s[i] != c
  {
    for i := 0 to |s|
      invariant forall k :: 0 <= k < i ==> s[k] != c
    {
      if s[i] == c {
        return i;
      }
    }
    return -1;
  }

  /** Walking up the parents finds exactly the listed label suffixes. */
  method IsBlacklistedDomain(list: set<string>, domain: string) returns (listed: bool)
    ensures listed == Blacklisted(list, domain)
  {
    var d := domain;
    ghost var start := 0;
    while true
      invariant LabelSuffix(domain, start) && d == domain[start..]
      invariant forall k :: LabelSuffix(domain, k) && k < start ==> domain[k..] !in list
      decreases |d|
    {
      if d in list {
        assert LabelSuffix(domain, start) && domain[start..] in list;
        return true;
      }
      var idx := IndexByte(d, '.');
      forall k | LabelSuffix(domain, k) && start < k ensures idx >= 0 && start + idx < k {
        assert d[k - 1 - start] == domain[k - 1] == '.';
      }
      if idx == -1 {
        return false;
      }
      d := d[idx + 1..];
      start := start + idx + 1;
    }
  }

  // ---------- Interleavings: steps ----------

  /** The fingerprint of a URL; it begins with the scheme, so it is never empty. */
  type Fingerprint = s: string | s != "" witness "h"

  /** A link after canonicalization. */
  datatype Link = Link(url: string, domain: string, fingerprint: Fingerprint)

  datatype Settings = Settings(hash: string -> set<nat>, blacklist: set<string>, cap: int)

  /** How far a submission has come. */
  datatype Stage = Counted | Unseen | Confirmed | Closed

  datatype Task = Task(link: Link, stage: Stage)

  /** `seen` are the keys ever added to the filter, `accepted` the links that Enqueue took, in order. */
  datatype Shared = Shared(counts: map<string, nat>, bits: set<nat>, seen: set<string>,
                           tasks: map<nat, Task>, accepted: seq<Link>)

  /** One critical section, with the branch it took. */
  datatype Event =
    | Seed(fingerprints: seq<string>)
    | Reserve(task: nat, link: Link)
    | OverCap(link: Link)
    | LooksSeen(task: nat)
    | LooksNew(task: nat)
    | InStore(task: nat)
    | NotInStore(task: nat)
    | Accept(task: nat)
    | Duplicate(task: nat)
    | Mark(key: string)

  function CountOf(counts: map<string, nat>, fp: string): nat {
    if fp in counts then counts[fp] else 0
  }

  predicate OverTheCap(cap: int, counts: map<string, nat>, fp: string) {
    cap > 0 && CountOf(counts, fp) >= cap
  }

  predicate AtStage(s: Shared, task: nat, stage: Stage) {
    task in s.tasks && s.tasks[task].stage == stage
  }

  ghost predicate Enabled(c: Settings, s: Shared, e: Event) {
    match e
    case Seed(_) => true
    case Reserve(task, link) =>
      task !in s.tasks && !Blacklisted(c.blacklist, link.domain) && !OverTheCap(c.cap, s.counts, link.fingerprint)
    case OverCap(link) => !Blacklisted(c.blacklist, link.domain) && OverTheCap(c.cap, s.counts, link.fingerprint)
    case LooksSeen(task) => AtStage(s, task, Counted) && Positive(c.hash, s.bits, s.tasks[task].link.fingerprint)
    case LooksNew(task) => AtStage(s, task, Counted) && !Positive(c.hash, s.bits, s.tasks[task].link.fingerprint)
    case InStore(task) => AtStage(s, task, Unseen)
    case NotInStore(task) => AtStage(s, task, Unseen)
    case Accept(task) => AtStage(s, task, Confirmed) && !Positive(c.hash, s.bits, s.tasks[task].link.fingerprint)
    case Duplicate(task) => AtStage(s, task, Confirmed) && Positive(c.hash, s.bits, s.tasks[task].link.fingerprint)
    case Mark(_) => true
  }

  function SeedCounts(counts: map<string, nat>, fingerprints: seq<string>): map<string, nat> {
    if fingerprints == [] then counts
    else
      var before := SeedCounts(counts, fingerprints[..|fingerprints| - 1]);
      var fp := fingerprints[|fingerprints| - 1];
      before[fp := CountOf(before, fp) + 1]
  }

  function MoveTo(s: Shared, task: nat, stage: Stage): Shared
    requires task in s.tasks
  {
    s.(tasks := s.tasks[task := s.tasks[task].(stage := stage)])
  }

  ghost function AddedToFilter(c: Settings, s: Shared, key: string): Shared {
    s.(bits := s.bits + c.hash(key), seen := s.seen + {key})
  }

  ghost function Next(c: Settings, s: Shared, e: Event): Shared
    requires Enabled(c, s, e)
  {
    match e
    case Seed(fingerprints) => s.(counts := SeedCounts(s.counts, fingerprints))
    case Reserve(task, link) =>
      s.(counts := s.counts[link.fingerprint := CountOf(s.counts, link.fingerprint) + 1],
         tasks := s.tasks[task := Task(link, Counted)])
    case OverCap(_) => s
    case LooksSeen(task) => MoveTo(s, task, Closed)
    case LooksNew(task) => MoveTo(s, task, Unseen)
    case InStore(task) => AddedToFilter(c, MoveTo(s, task, Closed), s.tasks[task].link.fingerprint)
    case NotInStore(task) => MoveTo(s, task, Confirmed)
    case Accept(task) =>
      AddedToFilter(c, MoveTo(s, task, Closed).(accepted := s.accepted + [s.tasks[task].link]),
                    s.tasks[task].link.fingerprint)
    case Duplicate(task) => MoveTo(s, task, Closed)
    case Mark(key) => AddedToFilter(c, s, key)
  }

  // ---------- Interleavings: runs ----------

  const START := Shared(map[], {}, {}, map[], [])

  datatype Replayed = Stuck | At(state: Shared)

  ghost function Replay(c: Settings, log: seq<Event>): Replayed {
    if log == [] then At(START)
    else
      var r := Replay(c, log[..|log| - 1]);
      if r.At? && Enabled(c, r.state, log[|log| - 1]) then At(Next(c, r.state, log[|log| - 1])) else Stuck
  }

  ghost predicate IsRun(c: Settings, log: seq<Event>) {
    Replay(c, log).At?
  }

  /** The calls that were counted under `fp`. */
  ghost function Reservations(log: seq<Event>, fp: string): nat {
    if log == [] then 0
    else
      var e := log[|log| - 1];
      Reservations(log[..|log| - 1], fp) + if e.Reserve? && e.link.fingerprint == fp then 1 else 0
  }

  /** How often `fp` was seeded. */
  ghost function Seeded(log: seq<Event>, fp: string): nat {
    if log == [] then 0
    else
      var e := log[|log| - 1];
      Seeded(log[..|log| - 1], fp) + if e.Seed? then multiset(e.fingerprints)[fp] else 0
  }

  /** How often `fp` was seeded after the last call that was counted under it. */
  ghost function SeededSince(log: seq<Event>, fp: string): nat {
    if log == [] then 0
    else
      var e := log[|log| - 1];
      if e.Reserve? && e.link.fingerprint == fp then 0
      else SeededSince(log[..|log| - 1], fp) + if e.Seed? then multiset(e.fingerprints)[fp] else 0
  }

  ghost predicate DistinctFingerprints(links: seq<Link>) {
    forall i, k :: 0 <= i < k < |links| ==> links[i].fingerprint != links[k].fingerprint
  }

  /** What holds after every step of every interleaving. */
  ghost predicate Safe(c: Settings, s: Shared) {
    && NoFalseNegatives(c.hash, s.seen, s.bits)
    && DistinctFingerprints(s.accepted)
    && (forall k :: 0 <= k < |s.accepted| ==>
          s.accepted[k].fingerprint in s.seen && !Blacklisted(c.blacklist, s.accepted[k].domain))
    && (forall t :: t in s.tasks ==> !Blacklisted(c.blacklist, s.tasks[t].link.domain))
  }

  lemma StepIsSafe(c: Settings, s: Shared, e: Event)
    requires Safe(c, s) && Enabled(c, s, e)
    ensures Safe(c, Next(c, s, e))
    ensures s.seen <= Next(c, s, e).seen && s.accepted <= Next(c, s, e).accepted
  {
    match e
    case InStore(task) =>
      AddKey(c.hash, s.seen, s.bits, s.tasks[task].link.fingerprint);
    case Accept(task) =>
      AddKey(c.hash, s.seen, s.bits, s.tasks[task].link.fingerprint);
    case Mark(key) =>
      AddKey(c.hash, s.seen, s.bits, key);
    case _ =>
  }

  lemma {:induction false} RunsAreSafe(c: Settings, log: seq<Event>)
    requires IsRun(c, log)
    ensures Safe(c, Replay(c, log).state)
  {
    if log != [] {
      RunsAreSafe(c, log[..|log| - 1]);
      StepIsSafe(c, Replay(c, log[..|log| - 1]).state, log[|log| - 1]);
    }
  }

  lemma {:induction false} SeedCountsCount(counts: map<string, nat>, fingerprints: seq<string>, fp: string)
    ensures CountOf(SeedCounts(counts, fingerprints), fp) == CountOf(counts, fp) + multiset(fingerprints)[fp]
  {
    if fingerprints != [] {
      var n := |fingerprints| - 1;
      SeedCountsCount(counts, fingerprints[..n], fp);
      assert fingerprints == fingerprints[..n] + [fingerprints[n]];
    }
  }

  /**
   The counters count seedings and submissions, not accepted jobs. A submission is counted only while
   the counter is below the cap, so a counter exceeds the cap only by what is seeded after its last
   submission.
   */
  lemma {:induction false} CountsAreBounded(c: Settings, log: seq<Event>, fp: string)
    requires IsRun(c, log)
    ensures var count := CountOf(Replay(c, log).state.counts, fp);
            && count == Seeded(log, fp) + Reservations(log, fp)
            && (c.cap > 0 ==> count <= SeededSince(log, fp) + if Reservations(log, fp) > 0 then c.cap else 0)
  {
    if log != [] {
      CountsAreBounded(c, log[..|log| - 1], fp);
      var e := log[|log| - 1];
      if e.Seed? {
        SeedCountsCount(Replay(c, log[..|log| - 1]).state.counts, e.fingerprints, fp);
      }
    }
  }

  ghost predicate SeedsComeFirst(log: seq<Event>) {
    forall j, k :: 0 <= j < k < |log| && log[k].Seed? ==> log[j].Seed?
  }

  lemma {:induction false} NothingSeededSince(log: seq<Event>, fp: string)
    requires SeedsComeFirst(log)
    ensures Reservations(log, fp) > 0 ==> SeededSince(log, fp) == 0
    ensures Reservations(log, fp) == 0 ==> SeededSince(log, fp) == Seeded(log, fp)
    ensures log != [] && log[|log| - 1].Seed? ==> Reservations(log, fp) == 0
  {
    if log != [] {
      var before := log[..|log| - 1];
      assert SeedsComeFirst(before);
      NothingSeededSince(before, fp);
      if before != [] {
        assert log[|log| - 1].Seed? ==> before[|before| - 1].Seed?;
      }
    }
  }

  /** When all seeding is done before the first link is admitted, no counter exceeds the larger of cap and seed. */
  lemma CountsStayAtCap(c: Settings, log: seq<Event>, fp: string)
    requires IsRun(c, log) && c.cap > 0 && SeedsComeFirst(log)
    ensures var count := CountOf(Replay(c, log).state.counts, fp);
            count <= if Seeded(log, fp) > c.cap then Seeded(log, fp) else c.cap
  {
    CountsAreBounded(c, log, fp);
    NothingSeededSince(log, fp);
  }

  lemma {:induction false} SeenGrows(c: Settings, log: seq<Event>, k: nat)
    requires IsRun(c, log) && k <= |log|
    ensures IsRun(c, log[..k])
    ensures Replay(c, log[..k]).state.seen <= Replay(c, log).state.seen
    ensures Replay(c, log[..k]).state.accepted <= Replay(c, log).state.accepted
  {
    if k == |log| {
      assert log[..k] == log;
    } else {
      var before := log[..|log| - 1];
      SeenGrows(c, before, k);
      assert before[..k] == log[..k];
      RunsAreSafe(c, before);
      StepIsSafe(c, Replay(c, before).state, log[|log| - 1]);
    }
  }

  /**
   Whatever the interleaving: once a fingerprint has been marked, found in the store or accepted,
   no later step accepts it.
   */
  lemma AcceptedAtMostOnce(c: Settings, log: seq<Event>, j: nat, k: nat)
    requires IsRun(c, log) && j < k < |log| && log[k].Accept?
    ensures IsRun(c, log[..k]) && IsRun(c, log[..j + 1])
    ensures AtStage(Replay(c, log[..k]).state, log[k].task, Confirmed)
    ensures Replay(c, log[..k]).state.tasks[log[k].task].link.fingerprint
            !in Replay(c, log[..j + 1]).state.seen
  {
    SeenGrows(c, log, k + 1);
    SeenGrows(c, log, k);
    assert log[..k + 1][..k] == log[..k];
    SeenGrows(c, log[..k], j + 1);
    assert log[..k][..j + 1] == log[..j + 1];
    RunsAreSafe(c, log[..k]);
    var s := Replay(c, log[..k]).state;
    var fp := s.tasks[log[k].task].link.fingerprint;
    assert fp in s.seen ==> Positive(c.hash, s.bits, fp);
  }
}
