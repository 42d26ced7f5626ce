/**
 The in-memory crawl queue: one list of jobs a domain, best score first and first-in first-out
 among equals, a Bloom filter against duplicates, and a scan for a domain that is ready.
 */
module CrawlQueue {
  import opened Options
  import opened RateLimit

  datatype Job = Job(id: nat, url: string, domain: string, depth: int, score: real, fingerprint: string, retries: int)

  function DedupKey(job: Job): string {
    if job.fingerprint != "" then job.fingerprint else job.url
  }

  // ---------- Order within a domain ----------

  ghost predicate Before(a: Job, b: Job) {
    a.score > b.score || (a.score == b.score && a.id < b.id)
  }

  ghost predicate Sorted(jobs: seq<Job>) {
    forall i, k :: 0 <= i < k < |jobs| ==> Before(jobs[i], jobs[k])
  }

  /** How many jobs score at least `score`: in a sorted list, where a newcomer of that score belongs. */
  ghost function AtLeast(jobs: seq<Job>, score: real): (n: nat)
    ensures n <= |jobs|
  {
    if jobs == [] then 0
    else AtLeast(jobs[..|jobs| - 1], score) + if jobs[|jobs| - 1].score >= score then 1 else 0
  }

  ghost function Inserted(jobs: seq<Job>, job: Job): seq<Job> {
    var n := AtLeast(jobs, job.score);
    jobs[..n] + [job] + jobs[n..]
  }

  lemma {:induction false} AtLeastSplits(jobs: seq<Job>, score: real, i: nat)
    requires i <= |jobs|
    requires forall k :: 0 <= k < i ==> jobs[k].score >= score
    requires forall k :: i <= k < |jobs| ==> jobs[k].score < score
    ensures AtLeast(jobs, score) == i
  {
    if jobs != [] {
      AtLeastSplits(jobs[..|jobs| - 1], score, if i == |jobs| then i - 1 else i);
    }
  }

  lemma {:induction false} SortedSplits(jobs: seq<Job>, score: real)
    requires Sorted(jobs)
    ensures forall k :: 0 <= k < AtLeast(jobs, score) ==> jobs[k].score >= score
    ensures forall k :: AtLeast(jobs, score) <= k < |jobs| ==> jobs[k].score < score
  {
    if jobs != [] {
      var n := |jobs| - 1;
      SortedSplits(jobs[..n], score);
      if jobs[n].score >= score {
        forall k | 0 <= k < n ensures jobs[k].score >= score {
          assert Before(jobs[k], jobs[n]);
        }
        AtLeastSplits(jobs[..n], score, n);
      }
    }
  }

  /** A newcomer with the highest ID goes behind its equals, and the list stays strictly sorted. */
  lemma InsertKeepsSorted(jobs: seq<Job>, job: Job)
    requires Sorted(jobs) && forall k :: 0 <= k < |jobs| ==> jobs[k].id < job.id
    ensures Sorted(Inserted(jobs, job))
  {
    SortedSplits(jobs, job.score);
  }

  /** Binary search for the first lower score, then a shift. */
  method InsertSorted(jobs: seq<Job>, job: Job) returns (r: seq<Job>)
    requires Sorted(jobs)
    ensures r == Inserted(jobs, job)
  {
    var i, j := 0, |jobs|;
    while i < j
      invariant 0 <= i <= j <= |jobs|
      invariant forall k :: 0 <= k < i ==> jobs[k].score >= job.score
      invariant forall k :: j <= k < |jobs| ==> jobs[k].score < job.score
    {
      var h := (i + j) / 2;
      if jobs[h].score >= job.score {
        forall k | 0 <= k < h ensures jobs[k].score >= job.score {
          assert Before(jobs[k], jobs[h]);
        }
        i := h + 1;
      } else {
        forall k | h < k < |jobs| ensures jobs[k].score < job.score {
          assert Before(jobs[h], jobs[k]);
        }
        j := h;
      }
    }
    AtLeastSplits(jobs, job.score, i);
    r := jobs[..i] + [job] + jobs[i..];
  }

  // ---------- Batches ----------

  /** The jobs of a batch that pass the filter, which each of them enters. */
  ghost function Fresh(hash: string -> set<nat>, bits: set<nat>, batch: seq<Job>): seq<Job> {
    if batch == [] then []
    else
      var before := batch[..|batch| - 1];
      var last := batch[|batch| - 1];
      var passed := Fresh(hash, bits, before);
      if Positive(hash, BitsAfter(hash, bits, passed), DedupKey(last)) then passed else passed + [last]
  }

  ghost function BitsAfter(hash: string -> set<nat>, bits: set<nat>, added: seq<Job>): set<nat> {
    if added == [] then bits
    else BitsAfter(hash, bits, added[..|added| - 1]) + hash(DedupKey(added[|added| - 1]))
  }

  type Lists = map<string, seq<Job>>

  ghost function Put(domains: Lists, job: Job): Lists {
    domains[job.domain := Inserted(if job.domain in domains then domains[job.domain] else [], job)]
  }

  /** What the queue holds: the lists, the same jobs as a set, and the last ID given out. */
  datatype Core = Core(domains: Lists, jobs: set<Job>, last: nat)

  ghost function FileOne(c: Core, job: Job): Core {
    var filed := job.(id := c.last + 1);
    Core(Put(c.domains, filed), c.jobs + {filed}, c.last + 1)
  }

  /** The jobs of a batch numbered and filed one after the other. */
  ghost function FileAll(c: Core, batch: seq<Job>): Core {
    if batch == [] then c else FileOne(FileAll(c, batch[..|batch| - 1]), batch[|batch| - 1])
  }

  ghost function KeysOf(jobs: seq<Job>): set<string> {
    set j | j in jobs :: DedupKey(j)
  }

  /** The filter shows a key: all of its bits are set. */
  predicate Positive(hash: string -> set<nat>, bits: set<nat>, key: string) {
    hash(key) <= bits
  }

  /** The filter shows every key ever added. */
  ghost predicate NoFalseNegatives(hash: string -> set<nat>, seen: set<string>, bits: set<nat>) {
    forall key {:trigger Positive(hash, bits, key)} :: key in seen ==> Positive(hash, bits, key)
  }

  lemma AddKey(hash: string -> set<nat>, seen: set<string>, bits: set<nat>, key: string)
    requires NoFalseNegatives(hash, seen, bits)
    ensures NoFalseNegatives(hash, seen + {key}, bits + hash(key))
  {
    forall k | k in seen + {key} ensures Positive(hash, bits + hash(key), k) {
      assert k in seen ==> Positive(hash, bits, k);
    }
  }

  // ---------- The invariant of the lists ----------

  /** A domain's list is not empty, is strictly sorted, and holds pending jobs of that domain. */
  ghost predicate ListOK(c: Core, d: string) {
    d in c.domains ==>
      && c.domains[d] != [] && Sorted(c.domains[d])
      && forall k :: 0 <= k < |c.domains[d]| ==> c.domains[d][k].domain == d && c.domains[d][k] in c.jobs
  }

  /** A pending job stands in its domain's list, under an ID given out before. */
  ghost predicate JobOK(c: Core, j: Job) {
    j in c.jobs ==> j.domain in c.domains && j in c.domains[j.domain] && 1 <= j.id <= c.last
  }

  ghost predicate DistinctIDs(c: Core, a: Job, b: Job) {
    a in c.jobs && b in c.jobs && a.id == b.id ==> a == b
  }

  /** `jobs` is exactly what the lists hold; no list is empty; IDs are unique and at most `last`. */
  ghost predicate WellFormed(c: Core) {
    && (forall d {:trigger ListOK(c, d)} :: ListOK(c, d))
    && (forall j {:trigger JobOK(c, j)} :: JobOK(c, j))
    && (forall a, b {:trigger DistinctIDs(c, a, b)} :: DistinctIDs(c, a, b))
  }

  lemma FileKeepsWellFormed(c: Core, job: Job)
    requires WellFormed(c)
    ensures WellFormed(FileOne(c, job))
    ensures job.(id := c.last + 1) !in c.jobs
  {
    var filed := job.(id := c.last + 1);
    assert JobOK(c, filed);
    var list := if job.domain in c.domains then c.domains[job.domain] else [];
    assert ListOK(c, job.domain);
    forall k | 0 <= k < |list| ensures list[k].id < filed.id {
      assert JobOK(c, list[k]);
    }
    InsertKeepsSorted(list, filed);
    InsertedMembers(list, filed);
    var after := FileOne(c, job);
    forall j ensures JobOK(after, j) {
      assert JobOK(c, j);
    }
    forall d ensures ListOK(after, d) {
      assert ListOK(c, d);
      if d == job.domain {
        forall k | 0 <= k < |after.domains[d]|
          ensures after.domains[d][k].domain == d && after.domains[d][k] in after.jobs
        {
          assert after.domains[d][k] in after.domains[d];
        }
      }
    }
    forall a, b ensures DistinctIDs(after, a, b) {
      assert DistinctIDs(c, a, b) && JobOK(c, a) && JobOK(c, b);
    }
  }

  lemma InsertedMembers(jobs: seq<Job>, job: Job)
    ensures forall j :: j in Inserted(jobs, job) <==> j in jobs || j == job
  {
    var n := AtLeast(jobs, job.score);
    assert jobs == jobs[..n] + jobs[n..];
  }

  /** Filing a batch: consecutive IDs in batch order, nothing lost and nothing else added. */
  lemma {:induction false} FileAllAddsBatch(c: Core, batch: seq<Job>)
    requires WellFormed(c)
    ensures var after := FileAll(c, batch);
            && WellFormed(after) && after.last == c.last + |batch| && |after.jobs| == |c.jobs| + |batch|
            && (forall j :: j in after.jobs <==>
                  j in c.jobs || FromBatch(c.last, batch, j))
  {
    if batch != [] {
      var n := |batch| - 1;
      FileAllAddsBatch(c, batch[..n]);
      FileKeepsWellFormed(FileAll(c, batch[..n]), batch[n]);
      forall j ensures FromBatch(c.last, batch, j)
                       <==> FromBatch(c.last, batch[..n], j) || j == batch[n].(id := c.last + 1 + n) {
        OneMoreOfBatch(c.last, batch, j);
      }
    }
  }

  /** The jobs of a batch as they are filed: with consecutive IDs, in batch order. */
  ghost predicate FromBatch(last: nat, batch: seq<Job>, j: Job) {
    exists k: nat :: k < |batch| && FiledAs(last, batch, k, j)
  }

  ghost predicate FiledAs(last: nat, batch: seq<Job>, k: nat, j: Job)
    requires k < |batch|
  {
    j == batch[k].(id := last + 1 + k)
  }

  lemma OneMoreOfBatch(last: nat, batch: seq<Job>, j: Job)
    requires batch != []
    ensures var n := |batch| - 1;
            FromBatch(last, batch, j) <==> FromBatch(last, batch[..n], j) || j == batch[n].(id := last + 1 + n)
  {
    var n := |batch| - 1;
    if FromBatch(last, batch[..n], j) {
      var k: nat :| k < n && FiledAs(last, batch[..n], k, j);
      assert FiledAs(last, batch, k, j);
    }
    if j == batch[n].(id := last + 1 + n) { assert FiledAs(last, batch, n, j); }
    if FromBatch(last, batch, j) {
      var k: nat :| k < |batch| && FiledAs(last, batch, k, j);
      if k < n { assert FiledAs(last, batch[..n], k, j); }
    }
  }

  /** The head of a list is its domain's highest-scored job, the oldest of them. */
  lemma HeadIsBest(c: Core, d: string)
    requires WellFormed(c) && d in c.domains
    ensures ListOK(c, d) && c.domains[d][0] in c.jobs && c.domains[d][0].domain == d
    ensures forall j :: j in c.jobs && j.domain == d && j != c.domains[d][0] ==> Before(c.domains[d][0], j)
  {
    assert ListOK(c, d);
    forall j | j in c.jobs && j.domain == d && j != c.domains[d][0] ensures Before(c.domains[d][0], j) {
      assert JobOK(c, j);
      var k :| 0 <= k < |c.domains[d]| && c.domains[d][k] == j;
      assert Before(c.domains[d][0], c.domains[d][k]);
    }
  }

  ghost function Popped(c: Core, d: string): Core
    requires d in c.domains && ListOK(c, d)
  {
    Core(if |c.domains[d]| == 1 then c.domains - {d} else c.domains[d := c.domains[d][1..]],
         c.jobs - {c.domains[d][0]}, c.last)
  }

  lemma PopKeepsWellFormed(c: Core, d: string)
    requires WellFormed(c) && d in c.domains
    ensures ListOK(c, d) && WellFormed(Popped(c, d))
  {
    assert ListOK(c, d);
    var head := c.domains[d][0];
    var after := Popped(c, d);
    assert c.domains[d] == [head] + c.domains[d][1..];
    forall j ensures JobOK(after, j) {
      assert JobOK(c, j);
      if j in after.jobs && j.domain == d {
        assert j in c.domains[d][1..];
      }
    }
    forall e ensures ListOK(after, e) {
      assert ListOK(c, e);
      if e == d && e in after.domains {
        forall k | 0 <= k < |after.domains[d]| ensures after.domains[d][k] in after.jobs {
          assert after.domains[d][k] == c.domains[d][k + 1];
          assert Before(head, c.domains[d][k + 1]);
        }
      }
    }
    forall a, b ensures DistinctIDs(after, a, b) {
      assert DistinctIDs(c, a, b);
    }
  }

  // ---------- The round-robin scan ----------

  /** The `i`-th index of a scan of `n` places that starts at `offset` and wraps around. */
  function Turn(offset: nat, i: nat, n: nat): (k: nat)
    requires offset < n && i < n
    ensures k < n && k == (offset + i) % n
  {
    WrapAround(offset, i, n);
    if offset + i < n then offset + i else offset + i - n
  }

  lemma WrapAround(offset: nat, i: nat, n: nat)
    requires offset < n && i < n
    ensures (offset + i) % n == if offset + i < n then offset + i else offset + i - n
  {
  }

  ghost predicate NoRepeats(s: seq<string>) {
    forall i, j :: 0 <= i < j < |s| ==> s[i] != s[j]
  }

  /** The domains in the order in which the scan asks them. */
  ghost function Rotated(buf: seq<string>, offset: nat): (r: seq<string>)
    requires buf != [] ==> offset < |buf|
    ensures |r| == |buf|
  {
    seq(|buf|, i requires 0 <= i < |buf| => buf[Turn(offset, i, |buf|)])
  }

  lemma RotatedVisitsAll(buf: seq<string>, offset: nat)
    requires buf != [] && offset < |buf| && NoRepeats(buf)
    ensures NoRepeats(Rotated(buf, offset))
    ensures forall d :: d in Rotated(buf, offset) <==> d in buf
  {
    var r, n := Rotated(buf, offset), |buf|;
    forall d | d in buf ensures d in r {
      var k :| 0 <= k < n && buf[k] == d;
      var i := if k >= offset then k - offset else k - offset + n;
      assert r[i] == d;
    }
  }

  lemma AskedAreCandidates(buf: seq<string>, offset: nat, asked: seq<string>)
    requires buf != [] && offset < |buf| && NoRepeats(buf) && asked <= Rotated(buf, offset)
    ensures NoRepeats(asked) && forall d :: d in asked ==> d in buf
    ensures |asked| == |buf| ==> forall d :: d in buf ==> d in asked
  {
    RotatedVisitsAll(buf, offset);
    forall d | d in asked ensures d in buf {
      assert d in Rotated(buf, offset);
    }
  }

  // ---------- Asking the limiter ----------

  /** The steps of a run that answer a readiness check. */
  ghost function Answers(log: seq<Event>): seq<Event> {
    if log == [] then []
    else
      var e := log[|log| - 1];
      Answers(log[..|log| - 1]) + if e.Refuse? || e.Full? || e.Grant? then [e] else []
  }

  ghost predicate Answer(e: Event, domain: string, granted: bool) {
    e.domain == domain && (e.Grant? <==> granted)
  }

  /**
   The readiness checks of one scan, among whatever other goroutines do to the limiter meanwhile: the
   domains asked are answered in turn, all refused but for the last one if a job came out.
   */
  ghost predicate AskedLimiter(before: seq<Event>, after: seq<Event>, asked: seq<string>, granted: bool) {
    var old0, new0 := Answers(before), Answers(after);
    && before <= after && old0 <= new0 && |new0| == |old0| + |asked|
    && (granted ==> asked != [] && before < after && after[|after| - 1] == new0[|new0| - 1])
    && (forall k {:trigger asked[k]} :: 0 <= k < |asked| ==>
          Answer(new0[|old0| + k], asked[k], granted && k == |asked| - 1))
  }

  lemma {:induction false} OthersAnswerNothing(log: seq<Event>, more: seq<Event>)
    requires log <= more && forall k :: |log| <= k < |more| ==> Outside(more[k]) || more[k].Pass?
    ensures Answers(more) == Answers(log)
  {
    if |more| == |log| {
      assert more == log;
    } else {
      OthersAnswerNothing(log, more[..|more| - 1]);
    }
  }

  /** One readiness check gives one answer, at the end of its steps. */
  lemma TriedAnswers(before: seq<Event>, after: seq<Event>, domain: string, granted: bool)
    requires Tried(before, after, domain, granted)
    ensures Answers(after) == Answers(before) + [after[|after| - 1]]
    ensures Answer(after[|after| - 1], domain, granted)
  {
    OthersAnswerNothing(before, after[..|after| - 1]);
  }

  lemma AskedOneMore(before: seq<Event>, waited: seq<Event>, others: seq<Event>, after: seq<Event>,
                     asked: seq<string>, d: string, granted: bool)
    requires AskedLimiter(before, waited, asked, false)
    requires waited <= others && forall k :: |waited| <= k < |others| ==> Outside(others[k])
    requires Tried(others, after, d, granted)
    ensures AskedLimiter(before, after, asked + [d], granted)
  {
    OthersAnswerNothing(waited, others);
    TriedAnswers(others, after, d, granted);
  }

  // ---------- The queue ----------

  class Queue {
    const hash: string -> set<nat>
    var domains: Lists
    var bits: set<nat>
    var nextID: nat
    var round: nat
    var enqueued: nat
    var dequeued: nat
    /** All pending jobs. */
    ghost var jobs: set<Job>
    /** Every key that was ever added to the filter. */
    ghost var seen: set<string>

    ghost function State(): Core
      reads this`domains, this`jobs, this`nextID
    {
      Core(domains, jobs, nextID)
    }

    ghost predicate Valid()
      reads this
    {
      && WellFormed(State())
      && enqueued == dequeued + |jobs|
      && NoFalseNegatives(hash, seen, bits)
    }

    constructor (hash: string -> set<nat>)
      ensures Valid() && this.hash == hash && State() == Core(map[], {}, 0) && seen == {}
    {
      this.hash := hash;
      domains, bits, nextID, round, enqueued, dequeued := map[], {}, 0, 0, 0, 0;
      jobs, seen := {}, {};
    }

    /** Numbers the job and files it; the counters are the callers' business. */
    method File(job: Job)
      requires WellFormed(State())
      modifies this`domains, this`nextID, this`jobs
      ensures State() == FileOne(old(State()), job) && WellFormed(State()) && |jobs| == |old(jobs)| + 1
    {
      FileKeepsWellFormed(State(), job);
      assert ListOK(State(), job.domain);
      nextID := nextID + 1;
      var filed := job.(id := nextID);
      var list := InsertSorted(if job.domain in domains then domains[job.domain] else [], filed);
      domains := domains[job.domain := list];
      jobs := jobs + {filed};
    }

    /** Remembers a key. */
    method AddToFilter(key: string)
      requires NoFalseNegatives(hash, seen, bits)
      modifies this`bits, this`seen
      ensures NoFalseNegatives(hash, seen, bits)
      ensures bits == old(bits) + hash(key) && seen == old(seen) + {key}
    {
      AddKey(hash, seen, bits, key);
      bits := bits + hash(key);
      seen := seen + {key};
    }

    /** Files a job unless its key was (or looks to have been) seen before. */
    method Admit(job: Job) returns (added: bool)
      requires WellFormed(State()) && NoFalseNegatives(hash, seen, bits)
      modifies this`domains, this`nextID, this`jobs, this`bits, this`seen
      ensures WellFormed(State()) && NoFalseNegatives(hash, seen, bits)
      ensures added <==> !Positive(hash, old(bits), DedupKey(job))
      ensures added ==> DedupKey(job) !in old(seen)
      ensures State() == (if added then FileOne(old(State()), job) else old(State()))
      ensures bits == (if added then old(bits) + hash(DedupKey(job)) else old(bits))
      ensures seen == (if added then old(seen) + {DedupKey(job)} else old(seen))
      ensures |jobs| == |old(jobs)| + (if added then 1 else 0)
    {
      var key := DedupKey(job);
      if Positive(hash, bits, key) {
        return false;
      }
      AddToFilter(key);
      File(job);
      return true;
    }

    method Enqueue(job: Job) returns (added: bool)
      requires Valid()
      modifies this
      ensures Valid()
      ensures added <==> !Positive(hash, old(bits), DedupKey(job))
      ensures added ==> DedupKey(job) !in old(seen)
      ensures State() == (if added then FileOne(old(State()), job) else old(State()))
      ensures bits == (if added then old(bits) + hash(DedupKey(job)) else old(bits))
      ensures seen == (if added then old(seen) + {DedupKey(job)} else old(seen))
      ensures enqueued == old(enqueued) + (if added then 1 else 0)
      ensures dequeued == old(dequeued) && round == old(round)
    {
      added := Admit(job);
      if added {
        enqueued := enqueued + 1;
      }
    }

    /** Adds the jobs of a batch whose keys are new, to the filter as it stands when each has its turn. */
    method EnqueueBatch(batch: seq<Job>) returns (added: nat)
      requires Valid()
      modifies this
      ensures Valid()
      ensures BatchDone(hash, old(State()), old(bits), old(seen), batch, State(), bits, seen, added)
      ensures enqueued == old(enqueued) + added && dequeued == old(dequeued) && round == old(round)
    {
      added := 0;
      assert batch[..0] == [];
      for i := 0 to |batch|
        invariant WellFormed(State()) && |jobs| == |old(jobs)| + added
        invariant NoFalseNegatives(hash, seen, bits)
        invariant BatchDone(hash, old(State()), old(bits), old(seen), batch[..i], State(), bits, seen, added)
        invariant enqueued == old(enqueued) && dequeued == old(dequeued) && round == old(round)
      {
        BatchStep(hash, old(State()), old(bits), old(seen), batch, i, State(), bits, seen, added);
        var ok := Admit(batch[i]);
        if ok {
          added := added + 1;
        }
      }
      assert batch[..|batch|] == batch;
      enqueued := enqueued + added;
    }

    /** Adds a job without asking or telling the filter. */
    method EnqueueRetry(job: Job)
      requires Valid()
      modifies this
      ensures Valid() && State() == FileOne(old(State()), job)
      ensures bits == old(bits) && seen == old(seen)
      ensures enqueued == old(enqueued) + 1 && dequeued == old(dequeued) && round == old(round)
    {
      File(job);
      enqueued := enqueued + 1;
    }

    /** Adds a whole batch without asking or telling the filter. */
    method EnqueueBatchDirect(batch: seq<Job>) returns (added: nat)
      requires Valid()
      modifies this
      ensures Valid() && added == |batch| && State() == FileAll(old(State()), batch)
      ensures bits == old(bits) && seen == old(seen)
      ensures enqueued == old(enqueued) + added && dequeued == old(dequeued) && round == old(round)
    {
      added := 0;
      assert batch[..0] == [];
      for i := 0 to |batch|
        invariant WellFormed(State()) && |jobs| == |old(jobs)| + added && added == i
        invariant State() == FileAll(old(State()), batch[..i])
        invariant bits == old(bits) && seen == old(seen)
        invariant enqueued == old(enqueued) && dequeued == old(dequeued) && round == old(round)
      {
        assert batch[..i + 1] == batch[..i] + [batch[i]];
        File(batch[i]);
        FileAllStep(old(State()), batch[..i], batch[i]);
        added := added + 1;
      }
      assert batch[..|batch|] == batch;
      enqueued := enqueued + added;
    }

    method MarkSeen(key: string)
      requires Valid()
      modifies this`bits, this`seen
      ensures Valid() && bits == old(bits) + hash(key) && seen == old(seen) + {key}
    {
      AddToFilter(key);
    }

    /** May answer yes for a key never seen, never no for one that was. */
    method HasSeen(key: string) returns (maybe: bool)
      requires Valid()
      ensures maybe <==> Positive(hash, bits, key)
      ensures key in seen ==> maybe
    {
      maybe := Positive(hash, bits, key);
    }

    /** The domains that have jobs, in whatever order the map yields them. */
    method Candidates() returns (buf: seq<string>)
      requires Valid()
      ensures NoRepeats(buf) && forall d :: d in buf <==> d in domains
    {
      buf := [];
      var rest := domains.Keys;
      while rest != {}
        invariant rest <= domains.Keys && NoRepeats(buf)
        invariant forall d :: d in domains <==> d in buf || d in rest
        invariant forall d :: d in buf ==> d !in rest
        decreases |rest|
      {
        var d :| d in rest;
        rest := rest - {d};
        assert ListOK(State(), d);
        if |domains[d]| > 0 {
          buf := buf + [d];
        }
      }
    }

    method PopJob(domain: string) returns (job: Job)
      requires Valid() && domain in domains
      modifies this`domains, this`dequeued, this`jobs
      ensures ListOK(old(State()), domain)
      ensures Valid() && job == old(domains)[domain][0] && State() == Popped(old(State()), domain)
      ensures dequeued == old(dequeued) + 1
    {
      PopKeepsWellFormed(State(), domain);
      HeadIsBest(State(), domain);
      var list := domains[domain];
      job := list[0];
      domains := domains[domain := list[1..]];
      if |domains[domain]| == 0 {
        domains := domains - {domain};
      }
      jobs := jobs - {job};
      dequeued := dequeued + 1;
      assert domains == Popped(old(State()), domain).domains;
    }

    /**
     Asks the domains in turn for a rate-limit slot, each at most once, and takes the best job of
     the first that gets one.
     */
    method Dequeue(limiter: DomainLimiter, clock: Clock) returns (job: Option<Job>, ghost asked: seq<string>)
      requires Valid() && limiter.Valid() && Now(limiter.log) <= clock.now
      modifies this, limiter, clock
      ensures Valid() && limiter.Valid() && Now(limiter.log) <= clock.now && clock.now >= old(clock.now)
      ensures NoRepeats(asked) && forall d :: d in asked ==> d in old(domains)
      ensures AskedLimiter(old(limiter.log), limiter.log, asked, job.Some?)
      ensures job.None? ==>
                (forall d :: d in old(domains) ==> d in asked) && State() == old(State()) && dequeued == old(dequeued)
      ensures job.Some? ==>
                && job.value.domain == asked[|asked| - 1]
                && job.value.domain in old(domains) && ListOK(old(State()), job.value.domain)
                && job.value == old(domains)[job.value.domain][0]
                && State() == Popped(old(State()), job.value.domain) && dequeued == old(dequeued) + 1
      ensures bits == old(bits) && seen == old(seen) && enqueued == old(enqueued)
    {
      asked := [];
      job := None;
      var buf := Candidates();
      if |buf| == 0 {
        return;
      }
      round := round + 1;
      var offset := round % |buf|;
      var found, domain;
      found, domain, asked := Scan(buf, offset, limiter, clock);
      AskedAreCandidates(buf, offset, asked);
      if found {
        assert domain in asked;
        var head := PopJob(domain);
        job := Some(head);
      }
    }

    /** Asks the candidates in turn until one is granted a slot, while others use the limiter as well. */
    static method Scan(buf: seq<string>, offset: nat, limiter: DomainLimiter, clock: Clock)
      returns (found: bool, domain: string, ghost asked: seq<string>)
      requires buf != [] && offset < |buf|
      requires limiter.Valid() && Now(limiter.log) <= clock.now
      modifies limiter, clock
      ensures limiter.Valid() && Now(limiter.log) <= clock.now && clock.now >= old(clock.now)
      ensures AskedLimiter(old(limiter.log), limiter.log, asked, found)
      ensures asked <= Rotated(buf, offset)
      ensures if found then asked != [] && domain == asked[|asked| - 1] else |asked| == |buf|
    {
      ghost var turns := Rotated(buf, offset);
      asked, found, domain := [], false, "";
      var i := 0;
      while i < |buf| && !found
        invariant 0 <= i <= |buf| && asked == turns[..i]
        invariant limiter.Valid() && Now(limiter.log) <= clock.now && clock.now >= old(clock.now)
        invariant AskedLimiter(old(limiter.log), limiter.log, asked, found)
        invariant found ==> asked != [] && domain == asked[|asked| - 1]
        decreases |buf| - i
      {
        domain := buf[(offset + i) % |buf|];
        assert domain == turns[i];
        found := Ready(domain, limiter, clock, old(limiter.log), asked);
        asked := asked + [domain];
        i := i + 1;
      }
    }

    /** Asks for one domain, some time later. */
    static method Ready(domain: string, limiter: DomainLimiter, clock: Clock,
                        ghost before: seq<Event>, ghost asked: seq<string>)
      returns (ready: bool)
      requires limiter.Valid() && Now(limiter.log) <= clock.now && AskedLimiter(before, limiter.log, asked, false)
      modifies limiter, clock
      ensures limiter.Valid() && Now(limiter.log) <= clock.now && clock.now >= old(clock.now)
      ensures AskedLimiter(before, limiter.log, asked + [domain], ready)
    {
      limiter.Others(clock);
      ghost var others := limiter.log;
      ghost var start;
      ready, start := limiter.TryWait(domain, clock);
      forall k | |old(limiter.log)| <= k < |start| ensures Outside(start[k]) {
        assert k < |others| ==> start[k] == others[k];
      }
      AskedOneMore(before, old(limiter.log), start, limiter.log, asked, domain, ready);
    }

    /** Counts the pending jobs list by list. */
    method Len() returns (total: nat)
      requires Valid()
      ensures total == |jobs| == enqueued - dequeued
    {
      total := 0;
      var rest := domains.Keys;
      ghost var counted: set<Job> := {};
      forall j | j in jobs ensures j.domain in domains {
        assert JobOK(State(), j);
      }
      while rest != {}
        invariant rest <= domains.Keys && total == |counted|
        invariant forall j :: j in counted <==> j in jobs && j.domain !in rest
        decreases |rest|
      {
        var d :| d in rest;
        rest := rest - {d};
        assert ListOK(State(), d);
        ListSize(domains[d]);
        assert counted !! AsSet(domains[d]);
        counted := counted + AsSet(domains[d]);
        total := total + |domains[d]|;
        forall j ensures j in counted <==> j in jobs && j.domain !in rest {
          assert JobOK(State(), j);
          if j in AsSet(domains[d]) {
            var k :| 0 <= k < |domains[d]| && domains[d][k] == j;
          }
        }
      }
      forall j | j in jobs ensures j in counted {
        assert JobOK(State(), j);
      }
      assert counted == jobs;
    }
  }

  /** What a batch through the filter leaves behind. */
  ghost predicate BatchDone(hash: string -> set<nat>, c0: Core, bits0: set<nat>, seen0: set<string>, batch: seq<Job>,
                            c: Core, bits: set<nat>, seen: set<string>, added: nat) {
    var passed := Fresh(hash, bits0, batch);
    && added == |passed| && c == FileAll(c0, passed)
    && bits == BitsAfter(hash, bits0, passed) && seen == seen0 + KeysOf(passed)
  }

  lemma BatchStep(hash: string -> set<nat>, c0: Core, bits0: set<nat>, seen0: set<string>, batch: seq<Job>, i: nat,
                  c: Core, bits: set<nat>, seen: set<string>, added: nat)
    requires i < |batch| && BatchDone(hash, c0, bits0, seen0, batch[..i], c, bits, seen, added)
    ensures var key := DedupKey(batch[i]);
            if Positive(hash, bits, key)
            then BatchDone(hash, c0, bits0, seen0, batch[..i + 1], c, bits, seen, added)
            else BatchDone(hash, c0, bits0, seen0, batch[..i + 1],
                           FileOne(c, batch[i]), bits + hash(key), seen + {key}, added + 1)
  {
    var passed, key := Fresh(hash, bits0, batch[..i]), DedupKey(batch[i]);
    FreshStep(hash, bits0, batch, i);
    OnePasses(hash, c0, bits0, seen0, passed, batch[i]);
  }

  lemma OnePasses(hash: string -> set<nat>, c0: Core, bits0: set<nat>, seen0: set<string>, passed: seq<Job>, job: Job)
    ensures FileAll(c0, passed + [job]) == FileOne(FileAll(c0, passed), job)
    ensures BitsAfter(hash, bits0, passed + [job]) == BitsAfter(hash, bits0, passed) + hash(DedupKey(job))
    ensures seen0 + KeysOf(passed + [job]) == seen0 + KeysOf(passed) + {DedupKey(job)}
  {
    FileAllStep(c0, passed, job);
    BitsAfterStep(hash, bits0, passed, job);
    KeysStep(passed, job);
  }

  lemma FreshStep(hash: string -> set<nat>, bits: set<nat>, batch: seq<Job>, i: nat)
    requires i < |batch|
    ensures var passed := Fresh(hash, bits, batch[..i]);
            Fresh(hash, bits, batch[..i + 1])
            == if Positive(hash, BitsAfter(hash, bits, passed), DedupKey(batch[i])) then passed else passed + [batch[i]]
  {
    assert batch[..i + 1][..i] == batch[..i];
  }

  lemma BitsAfterStep(hash: string -> set<nat>, bits: set<nat>, passed: seq<Job>, job: Job)
    ensures BitsAfter(hash, bits, passed + [job]) == BitsAfter(hash, bits, passed) + hash(DedupKey(job))
  {
    assert (passed + [job])[..|passed|] == passed;
  }

  lemma KeysStep(passed: seq<Job>, job: Job)
    ensures KeysOf(passed + [job]) == KeysOf(passed) + {DedupKey(job)}
  {
    assert job in passed + [job];
  }

  lemma FileAllStep(c: Core, batch: seq<Job>, job: Job)
    ensures FileAll(c, batch + [job]) == FileOne(FileAll(c, batch), job)
  {
    assert (batch + [job])[..|batch|] == batch;
  }

  ghost function AsSet(jobs: seq<Job>): set<Job> {
    set j | j in jobs
  }

  lemma {:induction false} ListSize(jobs: seq<Job>)
    requires Sorted(jobs)
    ensures |AsSet(jobs)| == |jobs|
  {
    if jobs != [] {
      var n := |jobs| - 1;
      ListSize(jobs[..n]);
      assert jobs == jobs[..n] + [jobs[n]];
      assert AsSet(jobs) == AsSet(jobs[..n]) + {jobs[n]};
    }
  }
}
