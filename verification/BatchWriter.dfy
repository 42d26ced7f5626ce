/**
 The buffered writer of crawled pages and their links. One flush runs two transactions: the links
 go to the graph database and are committed there first, the pages go to the content database and
 are committed last. When the second commit fails the links stay and the pages do not, and the
 buffers are kept for the next attempt.
 */
module BatchWriting {
  import opened Options

  const MAX_PAGES := 100
  const MAX_LINKS := 500

  // ---------- The pages table ----------

  /** `data` stands for the columns that an upsert overwrites; `published` is the one it may keep. */
  datatype Page = Page(url: string, data: int, published: Option<int>)

  datatype Row = Row(id: nat, data: int, published: Option<int>)

  /** An insert takes the next ID; whether an update uses up IDs as well is left open (`skip`). */
  datatype Content = Content(rows: map<string, Row>, nextID: nat, skip: nat)

  function Coalesce(first: Option<int>, second: Option<int>): Option<int> {
    if first.Some? then first else second
  }

  function Upsert(c: Content, p: Page): Content {
    if p.url in c.rows then
      var row := c.rows[p.url];
      c.(rows := c.rows[p.url := Row(row.id, p.data, Coalesce(p.published, row.published))],
         nextID := c.nextID + c.skip)
    else
      c.(rows := c.rows[p.url := Row(c.nextID, p.data, p.published)], nextID := c.nextID + 1)
  }

  function Upserts(c: Content, ps: seq<Page>): Content {
    if ps == [] then c else Upsert(Upserts(c, ps[..|ps| - 1]), ps[|ps| - 1])
  }

  /** IDs are unique and never come back. */
  ghost predicate UniqueIDs(c: Content) {
    && (forall u :: u in c.rows ==> c.rows[u].id < c.nextID)
    && (forall u, v :: u in c.rows && v in c.rows && c.rows[u].id == c.rows[v].id ==> u == v)
  }

  lemma {:induction false} UpsertsKeepUniqueIDs(c: Content, ps: seq<Page>)
    requires UniqueIDs(c)
    ensures UniqueIDs(Upserts(c, ps))
  {
    if ps != [] { UpsertsKeepUniqueIDs(c, ps[..|ps| - 1]); }
  }

  /** Flushing in two batches writes the pages that one batch would. */
  lemma {:induction false} UpsertsConcat(c: Content, ps: seq<Page>, qs: seq<Page>)
    ensures Upserts(c, ps + qs) == Upserts(Upserts(c, ps), qs)
  {
    if qs == [] {
      assert ps + qs == ps;
    } else {
      UpsertsConcat(c, ps, qs[..|qs| - 1]);
      assert (ps + qs)[..|ps + qs| - 1] == ps + qs[..|qs| - 1];
    }
  }

  ghost predicate KeepsIDs(c: Content, d: Content) {
    forall u :: u in c.rows ==> u in d.rows && d.rows[u].id == c.rows[u].id
  }

  lemma {:induction false} UpsertsKeepIDs(c: Content, ps: seq<Page>)
    ensures KeepsIDs(c, Upserts(c, ps))
  {
    if ps != [] { UpsertsKeepIDs(c, ps[..|ps| - 1]); }
  }

  // ---------- What a row holds after any number of upserts ----------

  /** The last page of a list with this URL. */
  function LastOf(ps: seq<Page>, url: string): Option<Page> {
    if ps == [] then None
    else if ps[|ps| - 1].url == url then Some(ps[|ps| - 1])
    else LastOf(ps[..|ps| - 1], url)
  }

  /** The last publication date that a list gives for this URL. */
  function LastDate(ps: seq<Page>, url: string): Option<int> {
    if ps == [] then None
    else if ps[|ps| - 1].url == url && ps[|ps| - 1].published.Some? then ps[|ps| - 1].published
    else LastDate(ps[..|ps| - 1], url)
  }

  /** The last page of a URL wins, the last date that is not null stays, an ID once given stays. */
  lemma {:induction false} RowsAfterUpserts(c: Content, ps: seq<Page>, url: string)
    ensures var rows := Upserts(c, ps).rows;
            var last, date := LastOf(ps, url), LastDate(ps, url);
            && (last.None? ==> (url in rows <==> url in c.rows) && (url in rows ==> rows[url] == c.rows[url]))
            && (last.Some? ==>
                  && url in rows && rows[url].data == last.value.data
                  && (url in c.rows ==> rows[url].id == c.rows[url].id)
                  && rows[url].published
                     == Coalesce(date, if url in c.rows then c.rows[url].published else None))
            && (last.None? ==> date.None?)
  {
    if ps != [] { RowsAfterUpserts(c, ps[..|ps| - 1], url); }
  }

  /** Position `k` holds the last page of its URL, or the last that comes with a date. */
  ghost predicate LastAt(ps: seq<Page>, k: int, dated: bool) {
    && 0 <= k < |ps| && (dated ==> ps[k].published.Some?)
    && forall j :: k < j < |ps| && ps[j].url == ps[k].url ==> dated && ps[j].published.None?
  }

  /**
   A row has the data of the last page of its URL, the last date there was, and the ID it had; rows of
   other URLs are as they were.
   */
  ghost predicate RowsWritten(before: map<string, Row>, ps: seq<Page>, after: map<string, Row>) {
    && (forall k :: LastAt(ps, k, false) ==> ps[k].url in after && after[ps[k].url].data == ps[k].data)
    && (forall k :: LastAt(ps, k, true) ==> ps[k].url in after && after[ps[k].url].published == ps[k].published)
    && (forall url :: url in before ==> url in after && after[url].id == before[url].id)
    && (forall url :: url in after && (forall k :: 0 <= k < |ps| && ps[k].url == url ==> ps[k].published.None?) ==>
          after[url].published == if url in before then before[url].published else None)
    && (forall url :: (forall k :: 0 <= k < |ps| ==> ps[k].url != url) ==>
          (url in after <==> url in before) && (url in after ==> after[url] == before[url]))
  }

  lemma LastAtPrefix(ps: seq<Page>, n: nat, k: int, dated: bool)
    requires n <= |ps| && k < n && LastAt(ps, k, dated)
    ensures LastAt(ps[..n], k, dated)
  {
    forall j | k < j < n && ps[..n][j].url == ps[..n][k].url ensures dated && ps[..n][j].published.None? {
      assert ps[..n][j] == ps[j];
    }
  }

  lemma {:induction false} LastIsFound(ps: seq<Page>, k: int)
    requires LastAt(ps, k, false)
    ensures LastOf(ps, ps[k].url) == Some(ps[k])
  {
    var n := |ps| - 1;
    if k < n {
      LastAtPrefix(ps, n, k, false);
      LastIsFound(ps[..n], k);
    }
  }

  lemma {:induction false} LastDateIsFound(ps: seq<Page>, k: int)
    requires LastAt(ps, k, true)
    ensures LastDate(ps, ps[k].url) == ps[k].published
  {
    var n := |ps| - 1;
    if k < n {
      LastAtPrefix(ps, n, k, true);
      LastDateIsFound(ps[..n], k);
    }
  }

  lemma {:induction false} NoneIsFound(ps: seq<Page>, url: string)
    ensures (forall k :: 0 <= k < |ps| ==> ps[k].url != url) ==> LastOf(ps, url).None?
    ensures LastOf(ps, url).Some? ==> exists k :: 0 <= k < |ps| && ps[k].url == url
    ensures (forall k :: 0 <= k < |ps| && ps[k].url == url ==> ps[k].published.None?) ==> LastDate(ps, url).None?
  {
    if ps != [] {
      NoneIsFound(ps[..|ps| - 1], url);
      assert forall k :: 0 <= k < |ps| - 1 ==> ps[..|ps| - 1][k] == ps[k];
    }
  }

  lemma UpsertsWriteRows(c: Content, ps: seq<Page>)
    ensures RowsWritten(c.rows, ps, Upserts(c, ps).rows)
  {
    hide Upserts, LastOf, LastDate;
    var after := Upserts(c, ps).rows;
    forall url
      ensures url in c.rows ==> url in after && after[url].id == c.rows[url].id
      ensures url in after && (forall k :: 0 <= k < |ps| && ps[k].url == url ==> ps[k].published.None?) ==>
                after[url].published == if url in c.rows then c.rows[url].published else None
      ensures (forall k :: 0 <= k < |ps| ==> ps[k].url != url) ==>
                (url in after <==> url in c.rows) && (url in after ==> after[url] == c.rows[url])
    {
      RowsAfterUpserts(c, ps, url);
      NoneIsFound(ps, url);
    }
    forall k, dated | LastAt(ps, k, dated)
      ensures ps[k].url in after
      ensures if dated then after[ps[k].url].published == ps[k].published else after[ps[k].url].data == ps[k].data
    {
      RowsAfterUpserts(c, ps, ps[k].url);
      if dated { LastDateIsFound(ps, k); } else { LastIsFound(ps, k); }
      NoneIsFound(ps, ps[k].url);
    }
  }

  // ---------- The links table ----------

  /** `urlHash` is the hash of the target's URL, used when the hash given is zero. */
  datatype OutgoingLink = OutgoingLink(targetHash: nat, urlHash: nat, anchor: string)

  function Target(l: OutgoingLink): nat {
    if l.targetHash == 0 then l.urlHash else l.targetHash
  }

  /** Anchor texts by source ID and target hash, the table's primary key. */
  type Links = map<(nat, nat), string>

  type LinkBuffer = map<string, seq<OutgoingLink>>

  function Find(t: Links, id: nat, hash: nat): Option<string> {
    if (id, hash) in t then Some(t[(id, hash)]) else None
  }

  /** The anchor text of the first link to a target: later ones are ignored. */
  function FirstAnchor(ls: seq<OutgoingLink>, hash: nat): Option<string> {
    if ls == [] then None
    else if FirstAnchor(ls[..|ls| - 1], hash).Some? then FirstAnchor(ls[..|ls| - 1], hash)
    else if Target(ls[|ls| - 1]) == hash then Some(ls[|ls| - 1].anchor)
    else None
  }

  /** Link `k` is the first to its target; the hash of the URL stands in for a missing hash. */
  ghost predicate FirstTo(ls: seq<OutgoingLink>, hash: nat, k: int) {
    && 0 <= k < |ls| && hash == (if ls[k].targetHash != 0 then ls[k].targetHash else ls[k].urlHash)
    && forall j :: 0 <= j < k ==> hash != if ls[j].targetHash != 0 then ls[j].targetHash else ls[j].urlHash
  }

  /** Source `id` links to the targets of the list, with the text of the first link to each, and to no others. */
  ghost predicate LinksAre(t: Links, id: nat, ls: seq<OutgoingLink>) {
    && (forall hash, k :: FirstTo(ls, hash, k) ==> Find(t, id, hash) == Some(ls[k].anchor))
    && (forall hash :: (forall k :: !FirstTo(ls, hash, k)) ==> Find(t, id, hash) == None)
  }

  lemma {:induction false} FirstIsFound(ls: seq<OutgoingLink>, hash: nat)
    ensures forall k :: FirstTo(ls, hash, k) ==> FirstAnchor(ls, hash) == Some(ls[k].anchor)
    ensures FirstAnchor(ls, hash).Some? ==> exists k :: FirstTo(ls, hash, k)
  {
    if ls != [] {
      var n := |ls| - 1;
      FirstIsFound(ls[..n], hash);
      forall k | k < n ensures FirstTo(ls[..n], hash, k) <==> FirstTo(ls, hash, k) {}
      if FirstAnchor(ls[..n], hash).None? && Target(ls[n]) == hash {
        NoEarlier(ls, hash, n);
        assert FirstTo(ls, hash, n);
      }
      if k :| FirstTo(ls[..n], hash, k) { assert FirstTo(ls, hash, k); }
    }
  }

  lemma {:induction false} NoEarlier(ls: seq<OutgoingLink>, hash: nat, n: nat)
    requires n <= |ls| && FirstAnchor(ls[..n], hash).None?
    ensures forall j :: 0 <= j < n ==> hash != if ls[j].targetHash != 0 then ls[j].targetHash else ls[j].urlHash
  {
    if n > 0 {
      assert ls[..n][..n - 1] == ls[..n - 1];
      NoEarlier(ls, hash, n - 1);
    }
  }

  lemma AnchorsAreLinks(t: Links, id: nat, ls: seq<OutgoingLink>)
    requires forall hash :: Find(t, id, hash) == FirstAnchor(ls, hash)
    ensures LinksAre(t, id, ls)
  {
    hide FirstAnchor;
    forall hash
      ensures forall k :: FirstTo(ls, hash, k) ==> Find(t, id, hash) == Some(ls[k].anchor)
      ensures (forall k :: !FirstTo(ls, hash, k)) ==> Find(t, id, hash) == None
    {
      FirstIsFound(ls, hash);
      assert Find(t, id, hash) == FirstAnchor(ls, hash);
    }
  }

  /** The source whose ID is `id`, among the URLs flushed. */
  ghost predicate Owns(c: Content, urls: set<string>, url: string, id: nat) {
    url in urls && url in c.rows && c.rows[url].id == id
  }

  /** Table `t` is table `before` with the links of each of these sources replaced by the buffered ones. */
  ghost predicate Replaced(t: Links, before: Links, c: Content, buffer: LinkBuffer, urls: set<string>)
    requires urls <= buffer.Keys
  {
    && (forall url, id, hash {:trigger Owns(c, urls, url, id), Find(t, id, hash)} ::
          Owns(c, urls, url, id) ==> Find(t, id, hash) == FirstAnchor(buffer[url], hash))
    && (forall id, hash :: (forall url :: !Owns(c, urls, url, id)) ==> Find(t, id, hash) == Find(before, id, hash))
  }

  /** Replaced says all there is to say about the new table. */
  lemma ReplacedIsUnique(t: Links, t': Links, before: Links, c: Content, buffer: LinkBuffer, urls: set<string>)
    requires urls <= buffer.Keys
    requires Replaced(t, before, c, buffer, urls) && Replaced(t', before, c, buffer, urls)
    ensures t == t'
  {
    forall id, hash
      ensures Find(t, id, hash) == Find(t', id, hash)
    {
      if url :| Owns(c, urls, url, id) {
        assert Find(t, id, hash) == FirstAnchor(buffer[url], hash);
      }
    }
    forall key: (nat, nat)
      ensures key in t <==> key in t'
      ensures key in t ==> t[key] == t'[key]
    {
      assert Find(t, key.0, key.1) == Find(t', key.0, key.1);
    }
  }

  // ---------- Failed flushes ----------

  /** The tables differ only in the links of sources that are still waiting in the buffer. */
  ghost predicate Recoverable(t: Links, base: Links, c: Content, urls: set<string>) {
    forall id, hash :: (forall url :: !Owns(c, urls, url, id)) ==> Find(t, id, hash) == Find(base, id, hash)
  }

  /** Writing more pages and buffering more sources loses nothing. */
  lemma RecoverableGrows(t: Links, base: Links, c: Content, urls: set<string>, d: Content, urls': set<string>)
    requires Recoverable(t, base, c, urls) && KeepsIDs(c, d) && urls <= urls'
    ensures Recoverable(t, base, d, urls')
  {
    forall id, hash | forall url :: !Owns(d, urls', url, id)
      ensures Find(t, id, hash) == Find(base, id, hash)
    {
      forall url
        ensures !Owns(c, urls, url, id)
      {
        assert !Owns(d, urls', url, id);
      }
    }
  }

  /** A flush that writes over such a table writes what it would have written over the base. */
  lemma FlushRecovers(t': Links, t: Links, base: Links, c: Content, buffer: LinkBuffer)
    requires Recoverable(t, base, c, buffer.Keys)
    requires Replaced(t', t, c, buffer, buffer.Keys)
    ensures Replaced(t', base, c, buffer, buffer.Keys)
    ensures Recoverable(t', base, c, buffer.Keys)
  {
  }

  /** What a flush finds in the buffers. */
  datatype Attempt = Attempt(pages: seq<Page>, buffer: LinkBuffer)

  /** Buffers are kept after a failure, so that they only grow from one attempt to the next. */
  ghost predicate Grows(attempts: seq<Attempt>) {
    forall i, k :: 0 <= i < k < |attempts| ==>
      attempts[i].pages <= attempts[k].pages && attempts[i].buffer.Keys <= attempts[k].buffer.Keys
  }

  /** Attempts that fail after the graph commit: each leaves its links over those of the one before. */
  ghost predicate LateFailures(c: Content, tables: seq<Links>, attempts: seq<Attempt>) {
    && |tables| == |attempts| + 1
    && forall i :: 0 <= i < |attempts| ==>
         Replaced(tables[i + 1], tables[i], Upserts(c, attempts[i].pages), attempts[i].buffer, attempts[i].buffer.Keys)
  }

  lemma {:induction false} FailuresRecoverable(c: Content, tables: seq<Links>, attempts: seq<Attempt>, last: Attempt)
    requires LateFailures(c, tables, attempts) && Grows(attempts + [last])
    ensures Recoverable(tables[|attempts|], tables[0], Upserts(c, last.pages), last.buffer.Keys)
  {
    if attempts != [] {
      var n := |attempts| - 1;
      var a := attempts[n];
      assert attempts[..n] + [a] == attempts;
      assert forall i :: 0 <= i <= n ==> attempts[i] == (attempts + [last])[i];
      FailuresRecoverable(c, tables[..n + 1], attempts[..n], a);
      FlushRecovers(tables[n + 1], tables[n], tables[0], Upserts(c, a.pages), a.buffer);
      assert (attempts + [last])[n].pages <= (attempts + [last])[n + 1].pages;
      UpsertsConcat(c, a.pages, last.pages[|a.pages|..]);
      assert a.pages + last.pages[|a.pages|..] == last.pages;
      UpsertsKeepIDs(Upserts(c, a.pages), last.pages[|a.pages|..]);
      RecoverableGrows(tables[n + 1], tables[0], Upserts(c, a.pages), a.buffer.Keys,
                       Upserts(c, last.pages), last.buffer.Keys);
    }
  }

  /** Any number of flushes may fail after the graph commit: the one that succeeds leaves the table of one flush. */
  lemma FailuresLeaveNoTrace(c: Content, tables: seq<Links>, attempts: seq<Attempt>, last: Attempt,
                             final: Links, direct: Links)
    requires LateFailures(c, tables, attempts) && Grows(attempts + [last])
    requires Replaced(final, tables[|attempts|], Upserts(c, last.pages), last.buffer, last.buffer.Keys)
    requires Replaced(direct, tables[0], Upserts(c, last.pages), last.buffer, last.buffer.Keys)
    ensures final == direct
  {
    FailuresRecoverable(c, tables, attempts, last);
    FlushRecovers(final, tables[|attempts|], tables[0], Upserts(c, last.pages), last.buffer);
    ReplacedIsUnique(final, direct, tables[0], Upserts(c, last.pages), last.buffer, last.buffer.Keys);
  }

  /**
   Between two flushes that succeed it does matter where the boundary falls: the second deletes the
   links of the first, which one flush would have kept.
   */
  lemma BoundariesMatter(c: Content, url: string, l: OutgoingLink, m: OutgoingLink,
                         first: Links, second: Links, both: Links)
    requires url in c.rows && Target(l) != Target(m)
    requires Replaced(first, map[], c, map[url := [l]], {url}) && Replaced(second, first, c, map[url := [m]], {url})
    requires Replaced(both, map[], c, map[url := [l, m]], {url})
    ensures second != both
  {
    var id, hash := c.rows[url].id, Target(l);
    assert Owns(c, {url}, url, id);
    assert Find(second, id, hash) == FirstAnchor([m], hash) == None;
    assert [l, m][..1] == [l];
    assert Find(both, id, hash) == FirstAnchor([l, m], hash) == Some(l.anchor);
  }

  // ---------- The statements of one flush ----------

  method UpsertPages(content: Content, pages: seq<Page>) returns (c: Content)
    ensures c == Upserts(content, pages)
  {
    c := content;
    for i := 0 to |pages|
      invariant c == Upserts(content, pages[..i])
    {
      assert pages[..i + 1][..i] == pages[..i];
      c := Upsert(c, pages[i]);
    }
    assert pages[..|pages|] == pages;
  }

  /** The IDs of the buffered pages that the table has. */
  method ResolveIDs(c: Content, pages: seq<Page>) returns (urlToID: map<string, nat>)
    ensures forall url :: url in urlToID ==> url in c.rows && urlToID[url] == c.rows[url].id
  {
    urlToID := map[];
    for i := 0 to |pages|
      invariant forall url :: url in urlToID ==> url in c.rows && urlToID[url] == c.rows[url].id
    {
      if pages[i].url in c.rows { urlToID := urlToID[pages[i].url := c.rows[pages[i].url].id]; }
    }
  }

  /** Deletes the links of one source and inserts the new ones, ignoring a second link to a target. */
  method ReplaceLinks(t: Links, id: nat, ls: seq<OutgoingLink>) returns (t': Links)
    ensures forall hash :: Find(t', id, hash) == FirstAnchor(ls, hash)
    ensures LinksAre(t', id, ls)
    ensures forall other, hash :: other != id ==> Find(t', other, hash) == Find(t, other, hash)
  {
    t' := map key | key in t && key.0 != id :: t[key];
    for i := 0 to |ls|
      invariant forall hash :: Find(t', id, hash) == FirstAnchor(ls[..i], hash)
      invariant forall other, hash :: other != id ==> Find(t', other, hash) == Find(t, other, hash)
    {
      assert ls[..i + 1][..i] == ls[..i];
      var key := (id, Target(ls[i]));
      if key !in t' { t' := t'[key := ls[i].anchor]; }
    }
    assert ls[..|ls|] == ls;
    AnchorsAreLinks(t', id, ls);
  }

  /** One more source replaced. */
  lemma ReplacedStep(t: Links, t': Links, before: Links, c: Content, buffer: LinkBuffer, urls: set<string>, url: string)
    requires UniqueIDs(c) && urls + {url} <= buffer.Keys && url in c.rows
    requires Replaced(t, before, c, buffer, urls)
    requires forall hash :: Find(t', c.rows[url].id, hash) == FirstAnchor(buffer[url], hash)
    requires forall other, hash :: other != c.rows[url].id ==> Find(t', other, hash) == Find(t, other, hash)
    ensures Replaced(t', before, c, buffer, urls + {url})
  {
    forall u, id, hash | Owns(c, urls + {url}, u, id)
      ensures Find(t', id, hash) == FirstAnchor(buffer[u], hash)
    {
      if u != url {
        assert Owns(c, urls, u, id);
        assert Find(t, id, hash) == FirstAnchor(buffer[u], hash);
      }
    }
    forall id, hash | forall u :: !Owns(c, urls + {url}, u, id)
      ensures Find(t', id, hash) == Find(before, id, hash)
    {
      assert !Owns(c, urls + {url}, url, id);
      forall u ensures !Owns(c, urls, u, id) { assert !Owns(c, urls + {url}, u, id); }
    }
  }

  lemma ReplacedSkip(t: Links, before: Links, c: Content, buffer: LinkBuffer, urls: set<string>, url: string)
    requires urls + {url} <= buffer.Keys && url !in c.rows
    requires Replaced(t, before, c, buffer, urls)
    ensures Replaced(t, before, c, buffer, urls + {url})
  {
    forall u, id
      ensures Owns(c, urls + {url}, u, id) == Owns(c, urls, u, id)
    {
    }
  }

  /** Replaces the links of every buffered source that has an ID, in no particular order. */
  method WriteGraph(graph: Links, c: Content, urlToID: map<string, nat>, buffer: LinkBuffer) returns (t: Links)
    requires UniqueIDs(c)
    requires forall url :: url in urlToID ==> url in c.rows && urlToID[url] == c.rows[url].id
    ensures Replaced(t, graph, c, buffer, buffer.Keys)
  {
    t := graph;
    var rest := buffer.Keys;
    ghost var done := {};
    while rest != {}
      invariant done + rest == buffer.Keys
      invariant Replaced(t, graph, c, buffer, done)
      decreases rest
    {
      var url :| url in rest;
      rest := rest - {url};
      if url in urlToID || url in c.rows {
        var id := if url in urlToID then urlToID[url] else c.rows[url].id;
        var t' := ReplaceLinks(t, id, buffer[url]);
        ReplacedStep(t, t', graph, c, buffer, done, url);
        t := t';
      } else {
        ReplacedSkip(t, graph, c, buffer, done, url);
      }
      done := done + {url};
    }
    assert done == buffer.Keys;
  }

  /** What it means for every buffered source to be replaced. */
  lemma SourcesReplaced(t: Links, before: Links, c: Content, buffer: LinkBuffer)
    requires Replaced(t, before, c, buffer, buffer.Keys)
    ensures forall url :: url in buffer && url in c.rows ==> LinksAre(t, c.rows[url].id, buffer[url])
    ensures forall id, hash :: (forall url :: url in buffer && url in c.rows ==> c.rows[url].id != id) ==>
              Find(t, id, hash) == Find(before, id, hash)
  {
    hide LinksAre;
    forall url | url in buffer && url in c.rows
      ensures LinksAre(t, c.rows[url].id, buffer[url])
    {
      assert Owns(c, buffer.Keys, url, c.rows[url].id);
      AnchorsAreLinks(t, c.rows[url].id, buffer[url]);
    }
    forall id, hash | forall url :: url in buffer && url in c.rows ==> c.rows[url].id != id
      ensures Find(t, id, hash) == Find(before, id, hash)
    {
      forall url ensures !Owns(c, buffer.Keys, url, id) {}
    }
  }

  // ---------- The writer ----------

  /** How a flush ends: an error up to the graph commit, an error after it, or no error. */
  datatype Outcome = FailsEarly | FailsLate | Commits

  /** The links buffered for these sources, one by one. */
  ghost function Waiting(buffer: LinkBuffer, urls: set<string>): set<(string, nat)>
    requires urls <= buffer.Keys
  {
    set url, i: nat | url in urls && i < |buffer[url]| :: (url, i)
  }

  lemma {:induction false} PositionsCounted(url: string, n: nat)
    ensures |set i: nat | i < n :: (url, i)| == n
  {
    if n > 0 {
      PositionsCounted(url, n - 1);
      assert (set i: nat | i < n :: (url, i)) == (set i: nat | i < n - 1 :: (url, i)) + {(url, n - 1)};
    }
  }

  lemma WaitingGrows(buffer: LinkBuffer, urls: set<string>, url: string)
    requires urls <= buffer.Keys && url in buffer && url !in urls
    ensures |Waiting(buffer, urls + {url})| == |Waiting(buffer, urls)| + |buffer[url]|
  {
    PositionsCounted(url, |buffer[url]|);
    var more := set i: nat | i < |buffer[url]| :: (url, i);
    assert Waiting(buffer, urls + {url}) == Waiting(buffer, urls) + more;
    assert Waiting(buffer, urls) !! more;
  }

  /** Adds up the lengths of the buffered lists. */
  method TotalLinks(buffer: LinkBuffer) returns (total: nat)
    ensures total == |Waiting(buffer, buffer.Keys)|
  {
    total := 0;
    var rest := buffer.Keys;
    ghost var done := {};
    while rest != {}
      invariant done + rest == buffer.Keys && done !! rest
      invariant total == |Waiting(buffer, done)|
      decreases rest
    {
      var url :| url in rest;
      rest := rest - {url};
      WaitingGrows(buffer, done, url);
      total := total + |buffer[url]|;
      done := done + {url};
    }
    assert done == buffer.Keys;
  }

  /** The buffer after the links of one page are appended. */
  function Buffered(buffer: LinkBuffer, url: string, ls: seq<OutgoingLink>): LinkBuffer {
    buffer[url := (if url in buffer then buffer[url] else []) + ls]
  }

  class BatchWriter {
    var pages: seq<Page>
    var links: LinkBuffer
    /** The committed tables. */
    var contentDB: Content
    var graphDB: Links
    /** The links table as the last successful flush left it. */
    ghost var baseGraph: Links
    /** The pages table at the start, and the pages written since. */
    ghost var initial: Content
    ghost var written: seq<Page>

    ghost predicate Valid()
      reads this
    {
      && UniqueIDs(contentDB)
      && Upserts(contentDB, pages) == Upserts(initial, written)
      && Recoverable(graphDB, baseGraph, Upserts(contentDB, pages), links.Keys)
    }

    constructor (content: Content, graph: Links)
      requires UniqueIDs(content)
      ensures Valid() && pages == [] && links == map[] && contentDB == content && graphDB == graph
      ensures baseGraph == graph && initial == content && written == []
    {
      pages, links, contentDB, graphDB := [], map[], content, graph;
      baseGraph, initial, written := graph, content, [];
    }

    /**
     A flush that succeeds leaves both tables as one flush of the whole buffers over the tables of
     the last success would, however many flushes failed in between and however they failed.
     */
    method Flush(outcome: Outcome) returns (ok: bool)
      requires Valid()
      modifies this
      ensures Valid() && initial == old(initial) && written == old(written)
      ensures ok == (outcome.Commits? || (old(pages) == [] && old(links) == map[]))
      ensures !ok ==> pages == old(pages) && links == old(links) && contentDB == old(contentDB)
                      && baseGraph == old(baseGraph)
      ensures outcome.FailsEarly? ==> graphDB == old(graphDB)
      ensures !ok && outcome.FailsLate? && old(links) != map[] ==>
                Replaced(graphDB, old(graphDB), Upserts(contentDB, pages), links, links.Keys)
      ensures ok ==> pages == [] && links == map[] && baseGraph == graphDB
      ensures ok ==> contentDB == Upserts(old(contentDB), old(pages)) == Upserts(initial, written)
      ensures ok ==> Replaced(graphDB, old(baseGraph), contentDB, old(links), old(links).Keys)
      ensures ok ==> RowsWritten(old(contentDB.rows), old(pages), contentDB.rows)
      ensures ok ==> forall url :: url in old(links) && url in contentDB.rows ==>
                       LinksAre(graphDB, contentDB.rows[url].id, old(links)[url])
      ensures ok ==> forall id, hash ::
                       (forall url :: url in old(links) && url in contentDB.rows ==> contentDB.rows[url].id != id) ==>
                       Find(graphDB, id, hash) == Find(old(baseGraph), id, hash)
    {
      hide RowsWritten, LinksAre;
      UpsertsWriteRows(contentDB, pages);
      if pages == [] && links == map[] {
        baseGraph := graphDB;
        return true;
      }
      var tx := UpsertPages(contentDB, pages);
      UpsertsKeepUniqueIDs(contentDB, pages);
      var urlToID := ResolveIDs(tx, pages);
      if outcome.FailsEarly? { return false; }
      if links != map[] {
        var t := WriteGraph(graphDB, tx, urlToID, links);
        FlushRecovers(t, graphDB, baseGraph, tx, links);
        graphDB := t;
      }
      if outcome.FailsLate? { return false; }
      SourcesReplaced(graphDB, baseGraph, tx, links);
      contentDB, pages, links := tx, [], map[];
      baseGraph := graphDB;
      return true;
    }

    /** `outcome` is how the flush goes, if there is one. */
    method WritePage(page: Page, outcome: Outcome)
      requires Valid()
      modifies this
      ensures Valid() && initial == old(initial) && written == old(written) + [page]
      ensures |old(pages)| + 1 < 100 || !outcome.Commits? ==>
                pages == old(pages) + [page] && links == old(links) && contentDB == old(contentDB)
                && baseGraph == old(baseGraph)
      ensures |old(pages)| + 1 < 100 ==> graphDB == old(graphDB)
      ensures |old(pages)| + 1 >= 100 && outcome.Commits? ==>
                && pages == [] && links == map[]
                && contentDB == Upserts(old(contentDB), old(pages) + [page]) == Upserts(initial, written)
                && Replaced(graphDB, old(baseGraph), contentDB, old(links), old(links).Keys)
    {
      assert (pages + [page])[..|pages|] == pages && (written + [page])[..|written|] == written;
      UpsertsConcat(contentDB, pages, [page]);
      UpsertsKeepIDs(Upserts(contentDB, pages), [page]);
      RecoverableGrows(graphDB, baseGraph, Upserts(contentDB, pages), links.Keys,
                       Upserts(contentDB, pages + [page]), links.Keys);
      pages := pages + [page];
      written := written + [page];
      if |pages| >= MAX_PAGES { var _ := Flush(outcome); }
    }

    method WriteLinks(url: string, ls: seq<OutgoingLink>, outcome: Outcome)
      requires Valid()
      modifies this
      ensures Valid() && initial == old(initial) && written == old(written)
      ensures ls == [] ==> links == old(links) && pages == old(pages) && contentDB == old(contentDB)
                           && graphDB == old(graphDB) && baseGraph == old(baseGraph)
      ensures var grown := Buffered(old(links), url, ls);
              var due := |Waiting(grown, grown.Keys)| >= 500;
              ls != [] ==>
                && (!due || !outcome.Commits? ==>
                      pages == old(pages) && links == grown && contentDB == old(contentDB)
                      && baseGraph == old(baseGraph))
                && (!due ==> graphDB == old(graphDB))
                && (due && outcome.Commits? ==>
                      && pages == [] && links == map[]
                      && contentDB == Upserts(old(contentDB), old(pages)) == Upserts(initial, written)
                      && Replaced(graphDB, old(baseGraph), contentDB, grown, grown.Keys))
    {
      if ls == [] { return; }
      RecoverableGrows(graphDB, baseGraph, Upserts(contentDB, pages), links.Keys,
                       Upserts(contentDB, pages), Buffered(links, url, ls).Keys);
      links := Buffered(links, url, ls);
      var total := TotalLinks(links);
      if total >= MAX_LINKS { var _ := Flush(outcome); }
    }
  }
}
