/**
 The API's fixed-window request limiter: one bucket an IP address, and a cleanup that drops the
 buckets whose window is over. The instants of a run never decrease.
 */
module ApiLimiting {

  datatype Bucket = Bucket(tokens: int, reset: nat)

  type Buckets = map<string, Bucket>

  datatype Event = Request(ip: string, at: nat) | Cleanup(at: nat)

  // ---------- One step ----------

  predicate Over(b: Bucket, now: nat) {
    now > b.reset
  }

  predicate NeedsBucket(bs: Buckets, ip: string, now: nat) {
    ip !in bs || Over(bs[ip], now)
  }

  function Admits(bs: Buckets, ip: string, now: nat): bool {
    NeedsBucket(bs, ip, now) || bs[ip].tokens > 0
  }

  function AfterRequest(limit: int, window: nat, bs: Buckets, ip: string, now: nat): Buckets {
    if NeedsBucket(bs, ip, now) then bs[ip := Bucket(limit - 1, now + window)]
    else if bs[ip].tokens > 0 then bs[ip := bs[ip].(tokens := bs[ip].tokens - 1)]
    else bs
  }

  function AfterCleanup(bs: Buckets, now: nat): Buckets {
    map ip | ip in bs && !Over(bs[ip], now) :: bs[ip]
  }

  function Next(limit: int, window: nat, bs: Buckets, e: Event): Buckets {
    match e
    case Request(ip, at) => AfterRequest(limit, window, bs, ip, at)
    case Cleanup(at) => AfterCleanup(bs, at)
  }

  // ---------- Runs ----------

  ghost function Replay(limit: int, window: nat, log: seq<Event>): Buckets {
    if log == [] then map[] else Next(limit, window, Replay(limit, window, log[..|log| - 1]), log[|log| - 1])
  }

  ghost predicate Ordered(log: seq<Event>) {
    forall i, k :: 0 <= i < k < |log| ==> log[i].at <= log[k].at
  }

  ghost function Now(log: seq<Event>): nat {
    if log == [] then 0 else log[|log| - 1].at
  }

  /** The last event was a request of `ip` and was let through. */
  ghost predicate LastAdmitted(limit: int, window: nat, log: seq<Event>, ip: string)
    requires log != []
  {
    var e := log[|log| - 1];
    e.Request? && e.ip == ip && Admits(Replay(limit, window, log[..|log| - 1]), ip, e.at)
  }

  /** Requests of `ip` let through at an instant in the closed interval [lo, hi]. */
  ghost function AdmittedIn(limit: int, window: nat, log: seq<Event>, ip: string, lo: int, hi: int): nat {
    if log == [] then 0
    else
      AdmittedIn(limit, window, log[..|log| - 1], ip, lo, hi)
      + if LastAdmitted(limit, window, log, ip) && lo <= log[|log| - 1].at <= hi then 1 else 0
  }

  /** A new bucket lets its first request through even if the limit is zero or less. */
  function Quota(limit: int): nat {
    if limit > 1 then limit else 1
  }

  // ---------- The bound ----------

  datatype Start = Never | At(instant: nat)

  /** When the latest bucket of `ip` was opened, whether or not it was cleaned up since. */
  ghost function LastStart(limit: int, window: nat, log: seq<Event>, ip: string): Start {
    if log == [] then Never
    else
      var before, e := log[..|log| - 1], log[|log| - 1];
      if e.Request? && e.ip == ip && NeedsBucket(Replay(limit, window, before), ip, e.at) then At(e.at)
      else LastStart(limit, window, before, ip)
  }

  /** How the map relates to the latest bucket: it still is in the map, or its window is over. */
  ghost predicate BucketMatches(limit: int, window: nat, log: seq<Event>, ip: string) {
    var bs, start := Replay(limit, window, log), LastStart(limit, window, log, ip);
    match start
    case Never => ip !in bs
    case At(s) =>
      && s <= Now(log)
      && (if ip in bs then bs[ip].reset == s + window && bs[ip].tokens <= limit - 1 else Now(log) > s + window)
  }

  lemma OrderedPrefix(log: seq<Event>)
    requires log != [] && Ordered(log)
    ensures Ordered(log[..|log| - 1]) && Now(log[..|log| - 1]) <= Now(log)
  {
  }

  lemma {:induction false} BucketAlwaysMatches(limit: int, window: nat, log: seq<Event>, ip: string)
    requires Ordered(log)
    ensures BucketMatches(limit, window, log, ip)
  {
    if log != [] {
      OrderedPrefix(log);
      BucketAlwaysMatches(limit, window, log[..|log| - 1], ip);
    }
  }

  lemma {:induction false} IntervalSplits(limit: int, window: nat, log: seq<Event>, ip: string,
                                          lo: int, mid: int, hi: int)
    ensures AdmittedIn(limit, window, log, ip, lo, hi)
            <= AdmittedIn(limit, window, log, ip, lo, mid - 1) + AdmittedIn(limit, window, log, ip, mid, hi)
  {
    if log != [] { IntervalSplits(limit, window, log[..|log| - 1], ip, lo, mid, hi); }
  }

  lemma {:induction false} IntervalWidens(limit: int, window: nat, log: seq<Event>, ip: string,
                                          lo: int, hi: int, lo': int, hi': int)
    requires lo' <= lo && hi <= hi'
    ensures AdmittedIn(limit, window, log, ip, lo, hi) <= AdmittedIn(limit, window, log, ip, lo', hi')
  {
    if log != [] { IntervalWidens(limit, window, log[..|log| - 1], ip, lo, hi, lo', hi'); }
  }

  /** What has been let through since the latest bucket was opened is what its tokens say is used. */
  lemma {:induction false} SinceStart(limit: int, window: nat, log: seq<Event>, ip: string, hi: int)
    requires Ordered(log) && LastStart(limit, window, log, ip).At?
    ensures var s := LastStart(limit, window, log, ip).instant;
            var n := AdmittedIn(limit, window, log, ip, s, hi);
            && n <= Quota(limit)
            && (ip in Replay(limit, window, log) ==> n <= limit - Replay(limit, window, log)[ip].tokens)
  {
    var before, e := log[..|log| - 1], log[|log| - 1];
    OrderedPrefix(log);
    BucketAlwaysMatches(limit, window, before, ip);
    var opens := e.Request? && e.ip == ip && NeedsBucket(Replay(limit, window, before), ip, e.at);
    if opens {
      NoneThisInstant(limit, window, before, ip, e.at, hi);
    } else {
      SinceStart(limit, window, before, ip, hi);
    }
  }

  /** The request that opened the bucket is one of them, so what came after that instant is one fewer. */
  lemma {:induction false} AfterStart(limit: int, window: nat, log: seq<Event>, ip: string, hi: int)
    requires Ordered(log) && LastStart(limit, window, log, ip).At?
    ensures var s := LastStart(limit, window, log, ip).instant;
            var n := AdmittedIn(limit, window, log, ip, s + 1, hi);
            && n <= Quota(limit) - 1
            && (ip in Replay(limit, window, log) ==> n <= limit - 1 - Replay(limit, window, log)[ip].tokens)
  {
    var before, e := log[..|log| - 1], log[|log| - 1];
    OrderedPrefix(log);
    BucketAlwaysMatches(limit, window, before, ip);
    if e.Request? && e.ip == ip && NeedsBucket(Replay(limit, window, before), ip, e.at) {
      NoneThisInstant(limit, window, before, ip, e.at, hi);
      IntervalWidens(limit, window, before, ip, e.at + 1, hi, e.at, hi);
    } else {
      AfterStart(limit, window, before, ip, hi);
    }
  }

  /** When a bucket is due, nothing has been let through at this very instant. */
  lemma NoneThisInstant(limit: int, window: nat, log: seq<Event>, ip: string, now: nat, hi: int)
    requires Ordered(log) && Now(log) <= now && NeedsBucket(Replay(limit, window, log), ip, now)
    ensures AdmittedIn(limit, window, log, ip, now, hi) == 0
  {
    BucketAlwaysMatches(limit, window, log, ip);
    match LastStart(limit, window, log, ip)
    case Never => NeverAdmitted(limit, window, log, ip, now, hi);
    case At(s) => NothingAfterWindow(limit, window, log, ip, now, hi);
  }

  lemma {:induction false} NeverAdmitted(limit: int, window: nat, log: seq<Event>, ip: string, lo: int, hi: int)
    requires Ordered(log) && LastStart(limit, window, log, ip).Never?
    ensures AdmittedIn(limit, window, log, ip, lo, hi) == 0
  {
    if log != [] {
      OrderedPrefix(log);
      BucketAlwaysMatches(limit, window, log[..|log| - 1], ip);
      NeverAdmitted(limit, window, log[..|log| - 1], ip, lo, hi);
    }
  }

  /** A bucket lets nothing through after its window. */
  lemma {:induction false} NothingAfterWindow(limit: int, window: nat, log: seq<Event>, ip: string, lo: int, hi: int)
    requires Ordered(log) && LastStart(limit, window, log, ip).At?
    requires lo > LastStart(limit, window, log, ip).instant + window
    ensures AdmittedIn(limit, window, log, ip, lo, hi) == 0
  {
    var before, e := log[..|log| - 1], log[|log| - 1];
    OrderedPrefix(log);
    BucketAlwaysMatches(limit, window, before, ip);
    if LastStart(limit, window, before, ip).Never? {
      NeverAdmitted(limit, window, before, ip, lo, hi);
    } else {
      NothingAfterWindow(limit, window, before, ip, lo, hi);
    }
  }

  /** Less than a window before the latest bucket was opened, only its predecessor let anything through. */
  lemma {:induction false} BeforeStart(limit: int, window: nat, log: seq<Event>, ip: string, lo: int)
    requires Ordered(log) && LastStart(limit, window, log, ip).At?
    requires lo >= LastStart(limit, window, log, ip).instant - window
    ensures AdmittedIn(limit, window, log, ip, lo, LastStart(limit, window, log, ip).instant - 1) <= Quota(limit) - 1
  {
    var before, e := log[..|log| - 1], log[|log| - 1];
    OrderedPrefix(log);
    BucketAlwaysMatches(limit, window, before, ip);
    var opens := e.Request? && e.ip == ip && NeedsBucket(Replay(limit, window, before), ip, e.at);
    if !opens {
      BeforeStart(limit, window, before, ip, lo);
    } else if LastStart(limit, window, before, ip).Never? {
      NeverAdmitted(limit, window, before, ip, lo, e.at - 1);
    } else {
      var s := LastStart(limit, window, before, ip).instant;
      AfterStart(limit, window, before, ip, e.at - 1);
      IntervalWidens(limit, window, before, ip, lo, e.at - 1, s + 1, e.at - 1);
    }
  }

  /**
   No closed interval of one window length sees more than twice the limit from one address; in fact
   one fewer, since it cannot hold the openings of two buckets.
   */
  lemma {:induction false} TwiceTheLimit(limit: int, window: nat, log: seq<Event>, ip: string, lo: int)
    requires Ordered(log)
    ensures AdmittedIn(limit, window, log, ip, lo, lo + window) <= 2 * Quota(limit) - 1
  {
    if log != [] {
      OrderedPrefix(log);
      var e := log[|log| - 1];
      if LastAdmitted(limit, window, log, ip) && lo <= e.at <= lo + window {
        BucketAlwaysMatches(limit, window, log[..|log| - 1], ip);
        BucketAlwaysMatches(limit, window, log, ip);
        var s := LastStart(limit, window, log, ip).instant;
        BeforeStart(limit, window, log, ip, lo);
        SinceStart(limit, window, log, ip, lo + window);
        IntervalSplits(limit, window, log, ip, lo, s, lo + window);
      } else {
        TwiceTheLimit(limit, window, log[..|log| - 1], ip, lo);
      }
    }
  }

  // ---------- Nobody is refused too early ----------

  /** A bucket that is still there has let through just what its tokens say is used. */
  lemma {:induction false} ExactlyUsed(limit: int, window: nat, log: seq<Event>, ip: string, hi: int)
    requires Ordered(log) && LastStart(limit, window, log, ip).At? && Now(log) <= hi
    requires ip in Replay(limit, window, log)
    ensures AdmittedIn(limit, window, log, ip, LastStart(limit, window, log, ip).instant, hi)
            == limit - Replay(limit, window, log)[ip].tokens
  {
    var before, e := log[..|log| - 1], log[|log| - 1];
    OrderedPrefix(log);
    BucketAlwaysMatches(limit, window, before, ip);
    if e.Request? && e.ip == ip && NeedsBucket(Replay(limit, window, before), ip, e.at) {
      NoneThisInstant(limit, window, before, ip, e.at, hi);
    } else {
      ExactlyUsed(limit, window, before, ip, hi);
    }
  }

  /** Whoever is refused has had the whole limit, or one request, let through in the window just before. */
  lemma RefusedIsUsedUp(limit: int, window: nat, log: seq<Event>, ip: string, now: nat)
    requires Ordered(log) && Now(log) <= now && !Admits(Replay(limit, window, log), ip, now)
    ensures AdmittedIn(limit, window, log, ip, now - window, now) >= if limit > 1 then limit else 1
  {
    BucketAlwaysMatches(limit, window, log, ip);
    var s := LastStart(limit, window, log, ip).instant;
    ExactlyUsed(limit, window, log, ip, now);
    IntervalWidens(limit, window, log, ip, s, now, now - window, now);
  }

  // ---------- The bound is reached ----------

  function Burst(ip: string, at: nat, n: nat): seq<Event> {
    if n == 0 then [] else Burst(ip, at, n - 1) + [Request(ip, at)]
  }

  /** `n` requests of `ip` in [lo, hi] have been let through, and its latest bucket has `tokens` left. */
  ghost predicate Stands(limit: int, window: nat, log: seq<Event>, ip: string, b: Bucket, lo: int, hi: int, n: nat) {
    && Ordered(log)
    && ip in Replay(limit, window, log) && Replay(limit, window, log)[ip] == b
    && AdmittedIn(limit, window, log, ip, lo, hi) == n
  }

  lemma OneMore(limit: int, window: nat, log: seq<Event>, ip: string, b: Bucket, at: nat, lo: int, hi: int, n: nat)
    requires Stands(limit, window, log, ip, b, lo, hi, n) && Now(log) <= at
    ensures Over(b, at) && lo <= at <= hi
            ==> Stands(limit, window, log + [Request(ip, at)], ip, Bucket(limit - 1, at + window), lo, hi, n + 1)
    ensures !Over(b, at) && b.tokens > 0 && lo <= at <= hi
            ==> Stands(limit, window, log + [Request(ip, at)], ip, b.(tokens := b.tokens - 1), lo, hi, n + 1)
  {
    assert (log + [Request(ip, at)])[..|log|] == log;
  }

  /** A live bucket with `k` tokens lets a burst of `k` requests through. */
  lemma {:induction false} BurstAdmitted(limit: int, window: nat, log: seq<Event>, ip: string, b: Bucket, at: nat,
                                         lo: int, hi: int, n: nat, k: nat)
    requires Stands(limit, window, log, ip, b, lo, hi, n) && Now(log) <= at && lo <= at <= hi
    requires !Over(b, at) && b.tokens >= k
    ensures Stands(limit, window, log + Burst(ip, at, k), ip, b.(tokens := b.tokens - k), lo, hi, n + k)
    ensures Now(log + Burst(ip, at, k)) <= at
  {
    if k == 0 {
      assert log + Burst(ip, at, 0) == log;
    } else {
      BurstAdmitted(limit, window, log, ip, b, at, lo, hi, n, k - 1);
      var run := log + Burst(ip, at, k - 1);
      assert log + Burst(ip, at, k) == run + [Request(ip, at)];
      OneMore(limit, window, run, ip, b.(tokens := b.tokens - (k - 1)), at, lo, hi, n + (k - 1));
    }
  }

  lemma FirstRequest(limit: int, window: nat, ip: string, lo: int, hi: int)
    requires 0 < lo
    ensures Stands(limit, window, [Request(ip, 0)], ip, Bucket(limit - 1, window), lo, hi, 0)
  {
    assert [Request(ip, 0)][..0] == [];
  }

  /** The first request at 0, the rest of its bucket in a burst at its last instant. */
  lemma FirstBurst(limit: int, window: nat, ip: string) returns (log: seq<Event>)
    requires limit >= 1 && window >= 1
    ensures Stands(limit, window, log, ip, Bucket(0, window), window, window + window, limit - 1)
    ensures Now(log) <= window
  {
    FirstRequest(limit, window, ip, window, window + window);
    log := [Request(ip, 0)];
    BurstAdmitted(limit, window, log, ip, Bucket(limit - 1, window), window, window, window + window, 0, limit - 1);
    log := log + Burst(ip, window, limit - 1);
  }

  /** One instant later a new bucket opens, and all of it goes in another burst. */
  lemma SecondBurst(limit: int, window: nat, log: seq<Event>, ip: string) returns (more: seq<Event>)
    requires limit >= 1 && window >= 1 && Now(log) <= window
    requires Stands(limit, window, log, ip, Bucket(0, window), window, window + window, limit - 1)
    ensures Ordered(more) && AdmittedIn(limit, window, more, ip, window, window + window) == 2 * limit - 1
  {
    OneMore(limit, window, log, ip, Bucket(0, window), window + 1, window, window + window, limit - 1);
    more := log + [Request(ip, window + 1)];
    var b := Bucket(limit - 1, window + 1 + window);
    BurstAdmitted(limit, window, more, ip, b, window + 1, window, window + window, limit, limit - 1);
    more := more + Burst(ip, window + 1, limit - 1);
  }

  /** For every limit and window of at least one some run reaches the bound of TwiceTheLimit. */
  lemma BoundIsReached(limit: int, window: nat, ip: string) returns (log: seq<Event>, lo: int)
    requires limit >= 1 && window >= 1
    ensures Ordered(log) && AdmittedIn(limit, window, log, ip, lo, lo + window) == 2 * limit - 1
  {
    lo := window;
    log := FirstBurst(limit, window, ip);
    log := SecondBurst(limit, window, log, ip);
  }

  // ---------- Cleanup is invisible ----------

  /** The answers to the requests of a run, in order. */
  ghost function Answers(limit: int, window: nat, log: seq<Event>): seq<bool> {
    if log == [] then []
    else
      var before, e := log[..|log| - 1], log[|log| - 1];
      Answers(limit, window, before)
      + if e.Request? then [Admits(Replay(limit, window, before), e.ip, e.at)] else []
  }

  ghost function Requests(log: seq<Event>): seq<Event> {
    if log == [] then []
    else Requests(log[..|log| - 1]) + if log[|log| - 1].Request? then [log[|log| - 1]] else []
  }

  /** Two maps that differ only in buckets whose window is over. */
  ghost predicate SameLive(a: Buckets, b: Buckets, now: nat) {
    forall ip {:trigger NeedsBucket(a, ip, now)} {:trigger NeedsBucket(b, ip, now)} ::
      NeedsBucket(a, ip, now) == NeedsBucket(b, ip, now) && (!NeedsBucket(a, ip, now) ==> a[ip] == b[ip])
  }

  lemma SameLiveLater(a: Buckets, b: Buckets, now: nat, later: nat)
    requires SameLive(a, b, now) && now <= later
    ensures SameLive(a, b, later)
  {
    forall ip
      ensures NeedsBucket(a, ip, later) == NeedsBucket(b, ip, later) && (!NeedsBucket(a, ip, later) ==> a[ip] == b[ip])
    {
      assert NeedsBucket(a, ip, now) == NeedsBucket(b, ip, now);
    }
  }

  lemma SameLiveStep(limit: int, window: nat, a: Buckets, b: Buckets, e: Event)
    requires SameLive(a, b, e.at)
    ensures e.Request? ==> SameLive(Next(limit, window, a, e), Next(limit, window, b, e), e.at)
    ensures e.Cleanup? ==> SameLive(Next(limit, window, a, e), b, e.at)
  {
    var a' := Next(limit, window, a, e);
    var b' := if e.Request? then Next(limit, window, b, e) else b;
    forall ip
      ensures NeedsBucket(a', ip, e.at) == NeedsBucket(b', ip, e.at)
              && (!NeedsBucket(a', ip, e.at) ==> a'[ip] == b'[ip])
    {
      assert NeedsBucket(a, ip, e.at) == NeedsBucket(b, ip, e.at);
    }
  }

  lemma OrderedMore(log: seq<Event>, e: Event)
    requires Ordered(log) && Now(log) <= e.at
    ensures Ordered(log + [e]) && Now(log + [e]) == e.at
  {
    forall k | 0 <= k < |log| ensures log[k].at <= e.at {
      assert log[k].at <= log[|log| - 1].at;
    }
  }

  lemma {:induction false} RequestsOrdered(log: seq<Event>)
    requires Ordered(log)
    ensures Ordered(Requests(log)) && Now(Requests(log)) <= Now(log)
  {
    if log != [] {
      OrderedPrefix(log);
      RequestsOrdered(log[..|log| - 1]);
      OrderedMore(Requests(log[..|log| - 1]), log[|log| - 1]);
    }
  }

  /** Cleanups anywhere in a run change none of its answers. */
  lemma {:induction false} CleanupIsInvisible(limit: int, window: nat, log: seq<Event>)
    requires Ordered(log)
    ensures Answers(limit, window, log) == Answers(limit, window, Requests(log))
    ensures SameLive(Replay(limit, window, log), Replay(limit, window, Requests(log)), Now(log))
  {
    if log != [] {
      var before, e := log[..|log| - 1], log[|log| - 1];
      OrderedPrefix(log);
      CleanupIsInvisible(limit, window, before);
      var a, b := Replay(limit, window, before), Replay(limit, window, Requests(before));
      SameLiveLater(a, b, Now(before), e.at);
      SameLiveStep(limit, window, a, b, e);
      if e.Request? {
        RequestExtends(limit, window, Requests(before), e);
        assert NeedsBucket(a, e.ip, e.at) == NeedsBucket(b, e.ip, e.at);
      } else {
        assert Requests(log) == Requests(before);
      }
    }
  }

  lemma RequestExtends(limit: int, window: nat, log: seq<Event>, e: Event)
    requires e.Request?
    ensures Replay(limit, window, log + [e]) == AfterRequest(limit, window, Replay(limit, window, log), e.ip, e.at)
    ensures Answers(limit, window, log + [e])
            == Answers(limit, window, log) + [Admits(Replay(limit, window, log), e.ip, e.at)]
  {
    assert (log + [e])[..|log + [e]| - 1] == log;
  }

  // ---------- Other addresses are invisible ----------

  /** The requests of one address. */
  ghost function Own(log: seq<Event>, ip: string): seq<Event> {
    if log == [] then []
    else
      var e := log[|log| - 1];
      Own(log[..|log| - 1], ip) + if e.Request? && e.ip == ip then [e] else []
  }

  /** The answers to the requests of one address, in order. */
  ghost function AnswersTo(limit: int, window: nat, log: seq<Event>, ip: string): seq<bool> {
    if log == [] then []
    else
      var before, e := log[..|log| - 1], log[|log| - 1];
      AnswersTo(limit, window, before, ip)
      + if e.Request? && e.ip == ip then [Admits(Replay(limit, window, before), ip, e.at)] else []
  }

  /** The two maps have the same bucket for the address, unless its window is over. */
  ghost predicate SameBucket(a: Buckets, b: Buckets, ip: string, now: nat) {
    NeedsBucket(a, ip, now) == NeedsBucket(b, ip, now) && (!NeedsBucket(a, ip, now) ==> a[ip] == b[ip])
  }

  lemma {:induction false} OwnOrdered(log: seq<Event>, ip: string)
    requires Ordered(log)
    ensures Ordered(Own(log, ip)) && Now(Own(log, ip)) <= Now(log)
  {
    if log != [] {
      OrderedPrefix(log);
      OwnOrdered(log[..|log| - 1], ip);
      OrderedMore(Own(log[..|log| - 1], ip), log[|log| - 1]);
    }
  }

  /** The answers to one address are those it would get if it were alone: no other request, no cleanup matters. */
  lemma {:induction false} OthersAreInvisible(limit: int, window: nat, log: seq<Event>, ip: string)
    requires Ordered(log)
    ensures AnswersTo(limit, window, log, ip) == Answers(limit, window, Own(log, ip))
    ensures SameBucket(Replay(limit, window, log), Replay(limit, window, Own(log, ip)), ip, Now(log))
  {
    hide SameBucket, Admits, Ordered, AfterRequest, AfterCleanup;
    NoBuckets(ip);
    if log != [] {
      var before, e := log[..|log| - 1], log[|log| - 1];
      OrderedPrefix(log);
      OthersAreInvisible(limit, window, before, ip);
      var a, b := Replay(limit, window, before), Replay(limit, window, Own(before, ip));
      SameBucketStep(limit, window, a, b, ip, Now(before), e);
      if e.Request? && e.ip == ip {
        RequestExtends(limit, window, Own(before, ip), e);
      } else {
        assert Own(log, ip) == Own(before, ip);
      }
    }
  }

  lemma NoBuckets(ip: string)
    ensures SameBucket(map[], map[], ip, 0)
  {
  }

  lemma SameBucketStep(limit: int, window: nat, a: Buckets, b: Buckets, ip: string, now: nat, e: Event)
    requires SameBucket(a, b, ip, now) && now <= e.at
    ensures Admits(a, ip, e.at) == Admits(b, ip, e.at)
    ensures SameBucket(Next(limit, window, a, e),
                       if e.Request? && e.ip == ip then Next(limit, window, b, e) else b, ip, e.at)
  {
  }

  // ---------- The limiter ----------

  lemma RequestStep(limit: int, window: nat, log: seq<Event>, ip: string, now: nat)
    requires Ordered(log) && Now(log) <= now
    ensures var b, more := Replay(limit, window, log), log + [Request(ip, now)];
            && Ordered(more)
            && Replay(limit, window, more) == Next(limit, window, b, Request(ip, now))
            && Answers(limit, window, more) == Answers(limit, window, log) + [Admits(b, ip, now)]
  {
    OrderedMore(log, Request(ip, now));
    assert (log + [Request(ip, now)])[..|log|] == log;
  }

  lemma CountedOne(limit: int, window: nat, log: seq<Event>, ip: string, now: nat, lo: int)
    requires lo <= now
    ensures AdmittedIn(limit, window, log + [Request(ip, now)], ip, lo, now)
            == AdmittedIn(limit, window, log, ip, lo, now)
               + if Admits(Replay(limit, window, log), ip, now) then 1 else 0
  {
    hide Replay, Admits;
    assert (log + [Request(ip, now)])[..|log|] == log;
  }

  /** What one more answer says about the window before it. */
  lemma RequestCounted(limit: int, window: nat, log: seq<Event>, ip: string, now: nat)
    requires Ordered(log) && Now(log) <= now
    ensures var before := AdmittedIn(limit, window, log, ip, now - window, now);
            var after := AdmittedIn(limit, window, log + [Request(ip, now)], ip, now - window, now);
            if Admits(Replay(limit, window, log), ip, now)
            then after == before + 1 <= 2 * (if limit > 1 then limit else 1) - 1
            else before >= if limit > 1 then limit else 1
  {
    hide Replay, Admits, AdmittedIn, Ordered;
    CountedOne(limit, window, log, ip, now, now - window);
    OrderedMore(log, Request(ip, now));
    TwiceTheLimit(limit, window, log + [Request(ip, now)], ip, now - window);
    if !Admits(Replay(limit, window, log), ip, now) { RefusedIsUsedUp(limit, window, log, ip, now); }
  }

  class RateLimiter {
    const limit: int
    const window: nat
    var buckets: Buckets
    ghost var log: seq<Event>

    ghost predicate Valid()
      reads this
    {
      Ordered(log) && buckets == Replay(limit, window, log)
    }

    constructor (limit: int, window: nat)
      ensures Valid() && log == [] && this.limit == limit && this.window == window
    {
      this.limit, this.window, buckets, log := limit, window, map[], [];
    }

    /** Lets a request through unless its bucket is empty. */
    method Allow(ip: string, now: nat) returns (ok: bool)
      requires Valid() && Now(log) <= now
      modifies this
      ensures Valid() && log == old(log) + [Request(ip, now)]
      ensures Answers(limit, window, log) == old(Answers(limit, window, log)) + [ok]
      ensures !ok ==> AdmittedIn(limit, window, old(log), ip, now - window, now) >= if limit > 1 then limit else 1
      ensures ok ==> AdmittedIn(limit, window, log, ip, now - window, now)
                     == AdmittedIn(limit, window, old(log), ip, now - window, now) + 1
                     <= 2 * (if limit > 1 then limit else 1) - 1
    {
      hide Answers, AdmittedIn, Replay, Ordered;
      RequestCounted(limit, window, log, ip, now);
      RequestStep(limit, window, log, ip, now);
      log := log + [Request(ip, now)];
      if ip !in buckets || now > buckets[ip].reset {
        buckets := buckets[ip := Bucket(limit - 1, now + window)];
        return true;
      }
      var b := buckets[ip];
      if b.tokens > 0 {
        buckets := buckets[ip := b.(tokens := b.tokens - 1)];
        return true;
      }
      return false;
    }

    /** Deletes the buckets whose window is over, one address after the other. */
    method Cleanup(now: nat)
      requires Valid() && Now(log) <= now
      modifies this
      ensures Valid() && log == old(log) + [Event.Cleanup(now)]
      ensures Answers(limit, window, log) == old(Answers(limit, window, log))
    {
      var rest := buckets.Keys;
      while rest != {}
        invariant log == old(log) && rest <= old(buckets).Keys
        invariant forall ip :: ip in buckets <==>
                    ip in old(buckets) && (ip in rest || !Over(old(buckets)[ip], now))
        invariant forall ip :: ip in buckets ==> buckets[ip] == old(buckets)[ip]
        decreases |rest|
      {
        var ip :| ip in rest;
        rest := rest - {ip};
        if now > buckets[ip].reset {
          buckets := buckets - {ip};
        }
      }
      assert buckets == AfterCleanup(old(buckets), now);
      assert (log + [Event.Cleanup(now)])[..|log|] == log;
      log := log + [Event.Cleanup(now)];
    }
  }
}
