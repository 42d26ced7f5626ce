/**
 The per-domain rate limiter: a buffered channel of `parallelism` slots per domain whose slots are
 handed back by background goroutines after the delay, and a cooldown after a 429 answer.
 Every operation is one step at one instant; the instants of a run never decrease.
 */
module RateLimit {
  import opened Options

  /** `held` has one entry a slot in use: the earliest instant at which its goroutine wakes up to drain it. */
  datatype DomainState = DomainState(held: seq<nat>, throttledUntil: Option<nat>)

  datatype Config = Config(delay: nat, randomDelay: nat, parallelism: int) {
    /** At least one request at a time, whatever is configured. */
    function Slots(): (p: nat)
      ensures p >= 1 && p >= parallelism && (p == 1 || p == parallelism)
    {
      if parallelism > 1 then parallelism else 1
    }
  }

  /**
   One step of the limiter. `TryWait` takes two: its cooldown check passes (`Pass`) or refuses, and
   after other goroutines may have stepped in its send finds a slot (`Grant`) or none (`Full`). A
   grant knows the position of its check. `jitter` is what the goroutine sleeps beyond the delay. A
   check compares an instant `read` off the clock before the lock was taken.
   */
  datatype Event =
    | Refuse(domain: string, at: nat, read: nat)
    | Pass(domain: string, at: nat, read: nat)
    | Full(domain: string, at: nat)
    | Grant(domain: string, at: nat, jitter: nat, check: nat)
    | BlockingGrant(domain: string, at: nat, jitter: nat)
    | Release(domain: string, at: nat, slot: nat)
    | Throttle(domain: string, at: nat, cooldown: nat)
    | Probe(domain: string, at: nat)

  /** Slots are taken by `TryWait` and by the blocking `Wait`, which does not look at cooldowns. */
  predicate TakesSlot(e: Event) {
    e.Grant? || e.BlockingGrant?
  }

  /** What others may do to the limiter while a worker holds the queue: anything but a `TryWait`. */
  predicate Outside(e: Event) {
    e.BlockingGrant? || e.Release? || e.Throttle? || e.Probe?
  }

  type Limiter = map<string, DomainState>

  // ---------- One step ----------

  function Get(s: Limiter, domain: string): DomainState {
    if domain in s then s[domain] else DomainState([], None)
  }

  predicate CoolingDown(ds: DomainState, now: nat) {
    ds.throttledUntil.Some? && now < ds.throttledUntil.value
  }

  predicate SlotFree(c: Config, ds: DomainState, jitter: nat) {
    && |ds.held| < c.Slots()
    && (if c.randomDelay > 0 then jitter < c.randomDelay else jitter == 0)
  }

  /** When the step can happen in state `s`. */
  predicate Enabled(c: Config, s: Limiter, e: Event) {
    var ds := Get(s, e.domain);
    match e
    case Refuse(_, at, read) => read <= at && CoolingDown(ds, read)
    case Pass(_, at, read) => read <= at && !CoolingDown(ds, read)
    case Full(_, _) => |ds.held| >= c.Slots()
    case Grant(_, _, jitter, _) => SlotFree(c, ds, jitter)
    case BlockingGrant(_, _, jitter) => SlotFree(c, ds, jitter)
    case Release(_, at, slot) => slot < |ds.held| && ds.held[slot] <= at
    case Throttle(_, _, _) => true
    case Probe(_, _) => true
  }

  /** An elapsed cooldown is forgotten by the first call that notices. */
  function Settled(ds: DomainState, now: nat): DomainState {
    if CoolingDown(ds, now) then ds else ds.(throttledUntil := None)
  }

  function Next(c: Config, s: Limiter, e: Event): Limiter
    requires Enabled(c, s, e)
  {
    var ds := Get(s, e.domain);
    s[e.domain :=
      match e
      case Refuse(_, _, _) => ds
      case Pass(_, _, read) => Settled(ds, read)
      case Full(_, _) => ds
      case Grant(_, at, jitter, _) => ds.(held := ds.held + [at + c.delay + jitter])
      case BlockingGrant(_, at, jitter) => ds.(held := ds.held + [at + c.delay + jitter])
      case Release(_, _, slot) => ds.(held := ds.held[..slot] + ds.held[slot + 1..])
      case Throttle(_, at, cooldown) => ds.(throttledUntil := Some(at + cooldown))
      case Probe(_, at) => Settled(ds, at)]
  }

  // ---------- Runs ----------

  /** A grant belongs to a check of its domain that passed before. */
  ghost predicate Checked(before: seq<Event>, e: Event) {
    e.Grant? ==> e.check < |before| && before[e.check].Pass? && before[e.check].domain == e.domain
  }

  /** The state after a run, if every step of it could happen and time never ran backwards. */
  ghost function Replay(c: Config, log: seq<Event>): Option<Limiter> {
    if log == [] then Some(map[])
    else
      var before, e := log[..|log| - 1], log[|log| - 1];
      var s := Replay(c, before);
      if s.Some? && Now(before) <= e.at && Checked(before, e) && Enabled(c, s.value, e)
      then Some(Next(c, s.value, e))
      else None
  }

  ghost predicate IsRun(c: Config, log: seq<Event>) {
    Replay(c, log).Some?
  }

  /** Grants to the domain in the half-open window [lo, hi). */
  ghost function GrantsIn(log: seq<Event>, domain: string, lo: nat, hi: nat): nat {
    if log == [] then 0
    else
      var e := log[|log| - 1];
      GrantsIn(log[..|log| - 1], domain, lo, hi)
      + if TakesSlot(e) && e.domain == domain && lo <= e.at < hi then 1 else 0
  }

  /** The last step was at this instant (0 before any step). */
  ghost function Now(log: seq<Event>): nat {
    if log == [] then 0 else log[|log| - 1].at
  }

  // ---------- The rate bound ----------

  /** Grants to the domain whose fixed delay has not elapsed at instant `x`. */
  ghost function RecentGrants(delay: nat, log: seq<Event>, domain: string, x: nat): nat {
    if log == [] then 0
    else
      var e := log[|log| - 1];
      RecentGrants(delay, log[..|log| - 1], domain, x)
      + if TakesSlot(e) && e.domain == domain && x < e.at + delay then 1 else 0
  }

  ghost function CountAbove(held: seq<nat>, x: nat): nat {
    if held == [] then 0
    else CountAbove(held[..|held| - 1], x) + if held[|held| - 1] > x then 1 else 0
  }

  lemma {:induction false} CountAboveAtMost(held: seq<nat>, x: nat)
    ensures CountAbove(held, x) <= |held|
  {
    if held != [] { CountAboveAtMost(held[..|held| - 1], x); }
  }

  lemma {:induction false} CountAboveRemove(held: seq<nat>, k: nat, x: nat)
    requires k < |held| && held[k] <= x
    ensures CountAbove(held[..k] + held[k + 1..], x) == CountAbove(held, x)
  {
    var n := |held| - 1;
    var rest := held[..k] + held[k + 1..];
    if k == n {
      assert rest == held[..n];
    } else {
      assert rest[..|rest| - 1] == held[..n][..k] + held[..n][k + 1..];
      CountAboveRemove(held[..n], k, x);
    }
  }

  /** Every grant whose delay is still running occupies a slot, and there are only so many slots. */
  lemma {:induction false} RecentGrantsHoldSlots(c: Config, log: seq<Event>, domain: string, x: nat)
    requires IsRun(c, log) && Now(log) <= x
    ensures RecentGrants(c.delay, log, domain, x) <= CountAbove(Get(Replay(c, log).value, domain).held, x)
    ensures |Get(Replay(c, log).value, domain).held| <= c.Slots()
  {
    if log != [] {
      var before, e := log[..|log| - 1], log[|log| - 1];
      RecentGrantsHoldSlots(c, before, domain, x);
      var held := Get(Replay(c, before).value, domain).held;
      if e.domain == domain {
        match e
        case Grant(_, at, jitter, _) =>
          assert (held + [at + c.delay + jitter])[..|held|] == held;
        case BlockingGrant(_, at, jitter) =>
          assert (held + [at + c.delay + jitter])[..|held|] == held;
        case Release(_, at, slot) =>
          CountAboveRemove(held, slot, x);
        case _ =>
      }
    }
  }

  /** Grants in a window no longer than the delay are all still recent at the last of them. */
  lemma {:induction false} WindowIsRecent(delay: nat, log: seq<Event>, domain: string, lo: nat, x: nat)
    requires x < lo + delay
    ensures GrantsIn(log, domain, lo, lo + delay) <= RecentGrants(delay, log, domain, x)
  {
    if log != [] { WindowIsRecent(delay, log[..|log| - 1], domain, lo, x); }
  }

  /** A grant at the end of a run sees its whole window of grants still holding slots. */
  lemma WindowAtGrant(c: Config, log: seq<Event>, domain: string, lo: nat)
    requires IsRun(c, log) && Now(log) < lo + c.delay
    ensures GrantsIn(log, domain, lo, lo + c.delay) <= c.Slots()
  {
    WindowIsRecent(c.delay, log, domain, lo, Now(log));
    RecentGrantsHoldSlots(c, log, domain, Now(log));
    CountAboveAtMost(Get(Replay(c, log).value, domain).held, Now(log));
  }

  lemma {:induction false} OneDelayBound(c: Config, log: seq<Event>, domain: string, lo: nat)
    requires IsRun(c, log)
    ensures GrantsIn(log, domain, lo, lo + c.delay) <= c.Slots()
  {
    if Now(log) < lo + c.delay {
      WindowAtGrant(c, log, domain, lo);
    } else if log != [] {
      OneDelayBound(c, log[..|log| - 1], domain, lo);
    }
  }

  lemma {:induction false} WindowSplits(log: seq<Event>, domain: string, lo: nat, mid: nat, hi: nat)
    requires lo <= mid <= hi
    ensures GrantsIn(log, domain, lo, hi) == GrantsIn(log, domain, lo, mid) + GrantsIn(log, domain, mid, hi)
  {
    if log != [] { WindowSplits(log[..|log| - 1], domain, lo, mid, hi); }
  }

  lemma {:induction false} EmptyWindow(log: seq<Event>, domain: string, lo: nat)
    ensures GrantsIn(log, domain, lo, lo) == 0
  {
    if log != [] { EmptyWindow(log[..|log| - 1], domain, lo); }
  }

  /**
   In every run, a domain gets at most n * parallelism grants in any half-open window of length
   n * delay.
   */
  lemma {:induction false} RateBound(c: Config, log: seq<Event>, domain: string, lo: nat, n: nat)
    requires IsRun(c, log)
    ensures GrantsIn(log, domain, lo, lo + n * c.delay) <= n * c.Slots()
  {
    if n == 0 {
      EmptyWindow(log, domain, lo);
    } else {
      RateBound(c, log, domain, lo, n - 1);
      assert n * c.delay == (n - 1) * c.delay + c.delay;
      assert n * c.Slots() == (n - 1) * c.Slots() + c.Slots();
      OneDelayBound(c, log, domain, lo + (n - 1) * c.delay);
      WindowSplits(log, domain, lo, lo + (n - 1) * c.delay, lo + n * c.delay);
    }
  }

  // ---------- Cooldowns ----------

  /** The end of the cooldown that the domain was last put into, if it ever was. */
  ghost function LastCooldown(log: seq<Event>, domain: string): Option<nat> {
    if log == [] then None
    else
      var e := log[|log| - 1];
      if e.Throttle? && e.domain == domain then Some(e.at + e.cooldown)
      else LastCooldown(log[..|log| - 1], domain)
  }

  /** The state forgets a cooldown only after it has elapsed. */
  lemma {:induction false} CooldownRemembered(c: Config, log: seq<Event>, domain: string)
    requires IsRun(c, log)
    ensures var until := Get(Replay(c, log).value, domain).throttledUntil;
            var last := LastCooldown(log, domain);
            && (until.Some? ==> last == until)
            && (until.None? && last.Some? ==> last.value <= Now(log))
  {
    if log != [] {
      CooldownRemembered(c, log[..|log| - 1], domain);
    }
  }

  /**
   The cooldown check, which compares an instant `read` before the instant `now` of the check itself:
   where it passes no cooldown is running at `now`, and where it refuses one was running at `read`.
   Read at the instant of the check it tells exactly whether the cooldown last set is still running.
   */
  lemma CheckTellsCooldown(c: Config, log: seq<Event>, domain: string, read: nat, now: nat)
    requires IsRun(c, log) && Now(log) <= now && read <= now
    ensures var cooling := CoolingDown(Get(Replay(c, log).value, domain), read);
            && (!cooling ==> !InCooldown(log, domain, now))
            && (cooling ==> InCooldown(log, domain, read))
            && (read == now ==> (cooling <==> InCooldown(log, domain, now)))
  {
    CooldownRemembered(c, log, domain);
  }

  /** A run in which a check refuses after the cooldown is over, since its instant was read before. */
  lemma LateRefusal(c: Config, domain: string) returns (log: seq<Event>)
    ensures IsRun(c, log) && |log| == 2 && log[1].Refuse? && log[1].domain == domain
    ensures !InCooldown(log[..1], domain, log[1].at)
  {
    var throttled := [Throttle(domain, 0, 1)];
    assert throttled[..0] == [];
    assert Replay(c, throttled) == Some(map[domain := DomainState([], Some(1))]);
    log := throttled + [Refuse(domain, 1, 0)];
    assert log[..1] == throttled;
    assert LastCooldown(throttled, domain) == Some(1);
  }

  ghost predicate InCooldown(log: seq<Event>, domain: string, now: nat) {
    LastCooldown(log, domain).Some? && now < LastCooldown(log, domain).value
  }

  lemma {:induction false} LastCooldownConcat(log: seq<Event>, more: seq<Event>, domain: string)
    ensures LastCooldown(log + more, domain)
            == if LastCooldown(more, domain).Some? then LastCooldown(more, domain) else LastCooldown(log, domain)
  {
    if more == [] {
      assert log + more == log;
    } else {
      assert (log + more)[..|log + more| - 1] == log + more[..|more| - 1];
      LastCooldownConcat(log, more[..|more| - 1], domain);
    }
  }

  lemma {:induction false} NeverBack(c: Config, log: seq<Event>, j: nat, k: nat)
    requires IsRun(c, log) && j <= k < |log|
    ensures log[j].at <= log[k].at
  {
    if j < k {
      PrefixRuns(c, log, k + 1);
      assert log[..k + 1][..k] == log[..k];
      NeverBack(c, log, j, k - 1);
    }
  }

  /**
   A grant by `TryWait` falls inside a cooldown exactly when a cooldown was set after its check, and
   the last one set then is still running: what was set before the check never matters.
   */
  lemma GrantInCooldown(c: Config, log: seq<Event>, k: nat)
    requires IsRun(c, log) && k < |log| && log[k].Grant?
    ensures var e := log[k];
            && e.check < k && log[e.check].Pass? && log[e.check].domain == e.domain
            && (InCooldown(log[..k], e.domain, e.at) <==> InCooldown(log[e.check + 1..k], e.domain, e.at))
  {
    var e := log[k];
    PrefixRuns(c, log, k + 1);
    assert log[..k + 1][..k] == log[..k];
    var j := e.check;
    PrefixRuns(c, log, j + 1);
    PrefixRuns(c, log, j);
    assert log[..j + 1][..j] == log[..j];
    NeverBack(c, log, j, k);
    CheckTellsCooldown(c, log[..j], e.domain, log[j].read, log[j].at);
    assert LastCooldown(log[..j + 1], e.domain) == LastCooldown(log[..j], e.domain);
    assert log[..k] == log[..j + 1] + log[j + 1..k];
    LastCooldownConcat(log[..j + 1], log[j + 1..k], e.domain);
  }

  lemma {:induction false} NoThrottleNoCooldown(log: seq<Event>, domain: string)
    requires forall i :: 0 <= i < |log| && log[i].Throttle? ==> log[i].domain != domain
    ensures LastCooldown(log, domain) == None
  {
    if log != [] { NoThrottleNoCooldown(log[..|log| - 1], domain); }
  }

  /** Unless its domain is put into cooldown between check and send, no grant by `TryWait` falls inside a cooldown. */
  lemma NoGrantInCooldown(c: Config, log: seq<Event>, k: nat)
    requires IsRun(c, log) && k < |log| && log[k].Grant?
    requires forall i :: log[k].check < i < k && log[i].Throttle? ==> log[i].domain != log[k].domain
    ensures !InCooldown(log[..k], log[k].domain, log[k].at)
  {
    GrantInCooldown(c, log, k);
    NoThrottleNoCooldown(log[log[k].check + 1..k], log[k].domain);
  }

  /** A run in which a cooldown set between check and send does not stop the grant. */
  lemma InterruptedGrant(c: Config, domain: string) returns (log: seq<Event>)
    ensures IsRun(c, log) && |log| == 3 && log[2].Grant? && log[2].domain == domain
    ensures InCooldown(log[..2], domain, log[2].at)
  {
    var checked := [Pass(domain, 0, 0)];
    assert checked[..0] == [];
    assert Replay(c, checked) == Some(map[domain := DomainState([], None)]);
    var throttled := checked + [Throttle(domain, 0, 1)];
    assert throttled[..1] == checked;
    assert Replay(c, throttled).Some? && Get(Replay(c, throttled).value, domain).held == [];
    log := throttled + [Grant(domain, 0, 0, 0)];
    assert log[..2] == throttled;
    assert LastCooldown(throttled, domain) == Some(1);
  }

  lemma {:induction false} PrefixRuns(c: Config, log: seq<Event>, k: nat)
    requires IsRun(c, log) && k <= |log|
    ensures IsRun(c, log[..k])
  {
    if k == |log| {
      assert log[..k] == log;
    } else {
      PrefixRuns(c, log[..|log| - 1], k);
      assert log[..|log| - 1][..k] == log[..k];
    }
  }

  // ---------- The limiter ----------

  /** The wall clock; it may stand still but never goes back. */
  class Clock {
    var now: nat

    constructor ()
    {
      now := 0;
    }

    method Read() returns (t: nat)
      modifies this
      ensures t == now >= old(now)
    {
      t :| t >= now;
      now := t;
    }
  }

  /** The steps of one `TryWait`: a refusal, or a passed check, steps of others, and a grant or a full channel. */
  ghost predicate Tried(before: seq<Event>, after: seq<Event>, domain: string, granted: bool) {
    && before < after
    && after[|before|].domain == domain
    && var first, last := after[|before|], after[|after| - 1];
       if first.Refuse? then |after| == |before| + 1 && !granted
       else
         && first.Pass? && |after| >= |before| + 2 && last.domain == domain
         && (if granted then last.Grant? && last.check == |before| else last.Full?)
         && (forall k :: |before| < k < |after| - 1 ==> Outside(after[k]))
  }

  lemma TriedBySend(before: seq<Event>, checked: seq<Event>, others: seq<Event>, after: seq<Event>,
                    domain: string, granted: bool)
    requires |checked| == |before| + 1 && before <= checked
    requires checked[|before|].Pass? && checked[|before|].domain == domain
    requires checked <= others && forall k :: |checked| <= k < |others| ==> Outside(others[k])
    requires |after| == |others| + 1 && others <= after && after[|others|].domain == domain
    requires if granted then after[|others|].Grant? && after[|others|].check == |before| else after[|others|].Full?
    ensures Tried(before, after, domain, granted)
  {
    assert after[|before|] == checked[|before|];
    forall k | |before| < k < |after| - 1
      ensures Outside(after[k])
    {
      assert after[k] == others[k];
    }
  }

  class DomainLimiter {
    const config: Config
    var domains: Limiter
    ghost var log: seq<Event>

    ghost predicate Valid()
      reads this
    {
      Replay(config, log) == Some(domains)
    }

    constructor (config: Config)
      ensures Valid() && this.config == config && log == []
    {
      this.config := config;
      domains, log := map[], [];
    }

    /** Records one step. */
    ghost method Record(e: Event)
      requires Replay(config, log).Some? && Now(log) <= e.at
      requires Enabled(config, Replay(config, log).value, e) && Checked(log, e)
      requires domains == Next(config, Replay(config, log).value, e)
      modifies this`log
      ensures Valid() && log == old(log) + [e]
    {
      assert (log + [e])[..|log|] == log;
      log := log + [e];
    }

    /** Whatever other goroutines do meanwhile: any steps but a `TryWait`, which needs the queue. */
    method Others(clock: Clock)
      requires Valid() && Now(log) <= clock.now
      modifies this, clock
      ensures Valid() && old(log) <= log && Now(log) <= clock.now && clock.now >= old(clock.now)
      ensures forall k :: |old(log)| <= k < |log| ==> Outside(log[k])
    {
      var steps: nat :| true;
      for i := 0 to steps
        invariant Valid() && old(log) <= log && Now(log) <= clock.now && clock.now >= old(clock.now)
        invariant forall k :: |old(log)| <= k < |log| ==> Outside(log[k])
      {
        var now := clock.Read();
        assert Outside(Probe("", now)) && Enabled(config, domains, Probe("", now));
        var e: Event :| Outside(e) && e.at == now && Enabled(config, domains, e);
        Take(e);
      }
    }

    /** One step of another goroutine. */
    method Take(e: Event)
      requires Valid() && Now(log) <= e.at && Outside(e) && Enabled(config, domains, e)
      modifies this
      ensures Valid() && log == old(log) + [e]
    {
      assert !e.Grant?;
      domains := Next(config, domains, e);
      Record(e);
    }

    /** Takes a slot without blocking: not while cooling down, not when all slots are in use. */
    method TryWait(domain: string, clock: Clock) returns (granted: bool, ghost start: seq<Event>)
      requires Valid() && Now(log) <= clock.now
      modifies this, clock
      ensures Valid() && Now(log) <= clock.now && clock.now >= old(clock.now)
      ensures old(log) <= start && forall k :: |old(log)| <= k < |start| ==> Outside(start[k])
      ensures Tried(start, log, domain, granted)
    {
      var now := clock.Read();
      Others(clock);
      start := log;
      var passed := Check(domain, now, clock);
      if !passed {
        granted := false;
        return;
      }
      ghost var checked := log;
      Others(clock);
      ghost var others := log;
      granted := Send(domain, clock, |checked| - 1);
      TriedBySend(start, checked, others, log, domain, granted);
    }

    /** The cooldown check at an instant `now` read before, which also forgets a cooldown that is over. */
    method Check(domain: string, now: nat, clock: Clock) returns (passed: bool)
      requires Valid() && Now(log) <= clock.now && now <= clock.now
      modifies this, clock
      ensures Valid() && Now(log) <= clock.now && clock.now >= old(clock.now)
      ensures log == old(log) + [if passed then Pass(domain, clock.now, now) else Refuse(domain, clock.now, now)]
      ensures passed <==> !CoolingDown(Get(old(domains), domain), now)
    {
      var at := clock.Read();
      var ds := Get(domains, domain);
      if ds.throttledUntil.Some? && now < ds.throttledUntil.value {
        domains := domains[domain := ds];
        Record(Refuse(domain, at, now));
        return false;
      }
      if ds.throttledUntil.Some? {
        ds := ds.(throttledUntil := None);
      }
      domains := domains[domain := ds];
      Record(Pass(domain, at, now));
      return true;
    }

    /** The send on the slot channel, which does not block. */
    method Send(domain: string, clock: Clock, ghost check: nat) returns (granted: bool)
      requires Valid() && Now(log) <= clock.now
      requires check < |log| && log[check].Pass? && log[check].domain == domain
      modifies this, clock
      ensures Valid() && Now(log) <= clock.now && clock.now >= old(clock.now)
      ensures |log| == |old(log)| + 1 && log[..|old(log)|] == old(log) && log[|old(log)|].domain == domain
      ensures granted <==> |Get(old(domains), domain).held| < config.Slots()
      ensures if granted then log[|old(log)|].Grant? && log[|old(log)|].check == check else log[|old(log)|].Full?
    {
      var now := clock.Read();
      var ds := Get(domains, domain);
      if |ds.held| < config.Slots() {
        var jitter := 0;
        if config.randomDelay > 0 {
          jitter :| 0 <= jitter < config.randomDelay;
        }
        domains := domains[domain := ds.(held := ds.held + [now + config.delay + jitter])];
        Record(Grant(domain, now, jitter, check));
        granted := true;
      } else {
        domains := domains[domain := ds];
        Record(Full(domain, now));
        granted := false;
      }
    }

    /** Takes a slot at the instant at which the blocking send succeeds. */
    method Wait(domain: string, now: nat)
      requires Valid() && Now(log) <= now
      requires |Get(domains, domain).held| < config.Slots()
      modifies this
      ensures Valid() && exists jitter :: log == old(log) + [BlockingGrant(domain, now, jitter)]
    {
      var ds := Get(domains, domain);
      var jitter := 0;
      if config.randomDelay > 0 {
        jitter :| 0 <= jitter < config.randomDelay;
      }
      domains := domains[domain := ds.(held := ds.held + [now + config.delay + jitter])];
      Record(BlockingGrant(domain, now, jitter));
    }

    /** A background goroutine wakes up and drains its slot. */
    method Drain(domain: string, slot: nat, now: nat)
      requires Valid() && Now(log) <= now
      requires Enabled(config, domains, Release(domain, now, slot))
      modifies this
      ensures Valid() && log == old(log) + [Release(domain, now, slot)]
    {
      var ds := Get(domains, domain);
      domains := domains[domain := ds.(held := ds.held[..slot] + ds.held[slot + 1..])];
      Record(Release(domain, now, slot));
    }

    method MarkThrottledFor(domain: string, cooldown: nat, now: nat)
      requires Valid() && Now(log) <= now
      modifies this
      ensures Valid() && log == old(log) + [Throttle(domain, now, cooldown)]
    {
      domains := domains[domain := Get(domains, domain).(throttledUntil := Some(now + cooldown))];
      Record(Throttle(domain, now, cooldown));
    }

    method IsCoolingDown(domain: string, now: nat) returns (cooling: bool)
      requires Valid() && Now(log) <= now
      modifies this
      ensures Valid() && log == old(log) + [Probe(domain, now)]
      ensures cooling == CoolingDown(Get(old(domains), domain), now)
    {
      var ds := Get(domains, domain);
      cooling := ds.throttledUntil.Some? && now < ds.throttledUntil.value;
      if !cooling && ds.throttledUntil.Some? {
        ds := ds.(throttledUntil := None);
      }
      domains := domains[domain := ds];
      Record(Probe(domain, now));
    }
  }
}
