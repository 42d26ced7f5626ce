# Verified model of the crawler and search engine

A Dafny model of the parts of the system that run in memory and decide what is crawled, how it is
ranked and what is stored: link ranking, edit distances and the spell checker, reordering of search
results, the crawl queue with its rate limiter and admission, the engine's retries and rendering
backlog, URL normalization, the batch writer and the API's request limiter. `dafny verify dfyconfig.toml`
checks the whole project.

| file | what it models |
|---|---|
| `Sums.dfy`, `PageRank.dfy`, `Ranking.dfy` | the in-memory PageRank job: graph building, fifteen damped iterations over two buffers, and the ranking they approach |
| `EditDistance.dfy` | both dynamic programs, as least costs over edit scripts |
| `TokenSimilarity.dfy` | token similarity, coverage, exact matches |
| `SpellChecker.dfy` | the trigram index and the suggestion |
| `Reordering.dfy` | language promotion and domain diversification |
| `RateLimit.dfy`, `Queue.dfy`, `Dispatch.dfy` | timed slots a domain, the priority queue, and the two together |
| `Admission.dfy`, `Frontier.dfy` | admission as interleaved critical sections, and the frontier object whose calls are such runs |
| `EngineWork.dfy`, `Outcomes.dfy`, `Engine.dfy` | what is decided about a job or a rendering, what this means for queue, backlog and counters, the work that is left, and the engine object with its frontier and rate limiter |
| `Texts.dfy`, `Escapes.dfy`, `Spaces.dfy` | strings and sorting, percent-escapes, trimming |
| `NetUrl.dfy`, `Query.dfy` | how net/url takes URLs and query parameters apart and writes them |
| `CanonicalHost.dfy`, `CanonicalPath.dfy`, `CanonicalQuery.dfy`, `CanonicalUrl.dfy`, `CanonicalCases.dfy`, `CanonicalExample.dfy` | normal forms of URLs, from text to text: their parts, the whole, failing inputs, and URLs worked out |
| `QueryKeys.dfy`, `Fingerprint.dfy`, `FingerprintText.dfy`, `FingerprintCases.dfy` | structural fingerprints: query keys, paths, whole texts, and failing inputs |
| `BatchWriter.dfy` | buffered upserts over two databases with two commits |
| `ApiLimiter.dfy` | the fixed-window limiter |
| `Options.dfy` | a value that may be missing |

Objects with state are classes; what their methods do is tied to functions or runs on values, and
the laws are proved about those. Protocols are runs of steps at explicit instants that never
decrease. Some promises turned out false of the code and are stated as they are, each with a failing
input and the exact condition:

- Normalization is not idempotent. `CanonicalUrls.CanonicalizeTwice` says of every text with a normal
  form when that form is left alone: exactly when the host name has no colon, the form does not end in
  a space, and a path without a host in front is not read as one. An address in brackets loses them and
  then does not parse (`CanonicalCases.AddressNotTakenBack`, `http://[fe80::abcd]/`); a query without
  parameters and an opaque text keep a space that the second call trims (`CanonicalCases.JunkSpace`,
  `http://h/?a;b #x`, and `CanonicalCases.OpaqueSpace`, `http:foo #x`); a path may unescape to two slashes
  (`CanonicalCases.SlashesReadAsAuthority`, `http:/%2Ffoo/`). For a URL with a host whose query, if it
  has one, holds a parameter, the colon alone decides (`CanonicalUrls.ColonDecides`).
- Two URLs with one trimmed path need not share a normal form: trimming changes the unescaped path only,
  and the path as written is used for as long as it stands for that. So `http://h/(a)` stays and
  `http://h/(a)/` becomes `http://h/%28a%29` (`CanonicalCases.ParenthesesMatter`), and `http://h/a%2Fb`
  stays while `http://h/a%2Fb/` becomes `http://h/a/b` (`CanonicalCases.EscapedSlashMatters`).
  `CanonicalUrls.EqualIffAgree` says exactly which texts share one, with the paths compared as in
  `CanonicalPaths.PathsAgree`. Without their brackets two addresses may share a host text
  (`CanonicalHosts.AddressesCollide`, exactly when in `CanonicalHosts.HostsAgree`), and the two ways to
  find a domain may differ (`CanonicalUrls.DomainsAgree`).
- The fingerprint of a fingerprint may differ, because host, path and query keys are written unescaped:
  `http://h/a%2525` gives `http://h/a%25` and then `http://h/a%`, a number sign in path or keys starts
  a fragment, and a key may be empty or hold `=`, `+`, `;`, `&` or `%`. `FingerprintTexts.FingerprintTwice`
  says of every text that parses when the second one is the first, and `FingerprintTexts.FixedTexts`
  when a text is its own fingerprint; `FingerprintCases` has an input for each way to fail, among them a
  normal form with an escape in its host (`FingerprintCases.SomeHostMoves`, `http://%E4%B8%96/a`).
- URLs with different paths or keys may share a fingerprint when a path holds a question mark or a key
  an ampersand: `http://h/a%3Fb` and `http://h/a?b` do (`FingerprintCases.QuestionMarkCollides`), and see
  `QueryKeys.AmpersandsCollide`. Any two texts share one exactly when what stands in front of and behind
  the first question mark of the fingerprint agrees (`FingerprintTexts.FingerprintsAgree`); without
  question marks in paths, exactly when path shapes and the pieces of the keys agree, and so the keys
  themselves if they hold no ampersands (`FingerprintTexts.FingerprintsCollide`).
- A grant may fall inside a cooldown: exactly when one was set between its check and its send on the
  slot channel and the last of these is still running (`RateLimit.GrantInCooldown`, with a run in
  `RateLimit.InterruptedGrant`). What was set before the check never matters. The check compares an
  instant read before it takes the lock, so it may still refuse when the cooldown has just ended
  (`RateLimit.LateRefusal`), but it never passes inside one (`RateLimit.CheckTellsCooldown`).

A crawl ends: every run of the workers, with all their empty looks at queue and backlog, is bounded by
the weight of the work at its start (`EngineWork.CrawlEnds`).

Two things one might expect are not promised and do not hold: the alignment distance of the search
ranker is no metric (`EditDistance.OsaTriangleFails`), and diversification may reorder the results of
one domain behind the first (`Reordering.DiversifyOvertakes`).

The request limiter keeps a slightly better promise than twice the limit: an interval of one window
cannot hold the openings of two buckets, so the bound is one less, and it is reached. It never refuses
too early (`ApiLimiting.RefusedIsUsedUp`), and no address can tell what others do
(`ApiLimiting.OthersAreInvisible`).

## Model

| member | source | states |
|---|---|---|
| PageRank.BuildGraph | internal/storage/sqlite_crawler.go:990-1024 | a page occurs among the inbound links of another as often as rows lead from it to that page, and its out-degree is the number of its rows to known pages; of a page listed twice the last position counts |
| PageRank.InboundSources | internal/storage/sqlite_crawler.go:1017-1022 | every source in an inbound list is the source of an edge into that page and has out-degree at least one, so no score is divided by zero |
| PageRank.OutDegreeCountsInbound | internal/storage/sqlite_crawler.go:1019-1022 | the out-degree of a page is the number of times it occurs in all the inbound lists |
| PageRank.NextScore | internal/storage/sqlite_crawler.go:1043-1049 | one new score is the damped flow into its page |
| PageRank.Round | internal/storage/sqlite_crawler.go:1036-1049 | the second buffer becomes one damped iteration of the first, which stays unchanged |
| PageRank.PowerIterate | internal/storage/sqlite_crawler.go:1026-1054 | the two buffers end as fifteen iterations applied to all ones |
| PageRank.ExchangeSums | internal/storage/sqlite_crawler.go:1043-1049 | summing over receivers what they receive is summing over senders what they send, for any weights |
| PageRank.FlowConserves | internal/storage/sqlite_crawler.go:1036-1049 | with the dangling mass spread evenly the undamped flow keeps the total, for every graph and every vector |
| PageRank.RoundTotal | internal/storage/sqlite_crawler.go:1036-1049 | an iteration maps total T to 0.15 N + 0.85 T |
| PageRank.TotalIsPageCount | internal/storage/sqlite_crawler.go:1030-1054 | the total score is exactly N after every number of iterations |
| PageRank.FlowAtMostTotal | internal/storage/sqlite_crawler.go:1043-1049 | no page receives more than the whole score |
| PageRank.ScoreBounds | internal/storage/sqlite_crawler.go:1030-1054 | after at least one iteration every score lies in [0.15, 0.85 N + 0.15] |
| PageRank.MoreLinksMoreScore | internal/storage/sqlite_crawler.go:1017-1054 | after any number of rounds: if every page has at least as many rows to one page as to another, that page scores at least as much, and more if some page has more |
| PageRank.FlowGap | internal/storage/sqlite_crawler.go:1043-1049 | the flows of two vectors differ at a page by at most the flow of their pointwise gap |
| PageRank.Contraction | internal/storage/sqlite_crawler.go:1036-1049 | an iteration brings any two score vectors closer by the factor 0.85 in L1 distance, for every graph |
| PageRank.RoundsContract | internal/storage/sqlite_crawler.go:1035-1054 | k iterations bring any two vectors closer by 0.85^k |
| PageRank.FixedPointUnique | internal/storage/sqlite_crawler.go:1035-1054 | a graph has at most one ranking that an iteration leaves alone |
| Rankings.IterateMixes | internal/storage/sqlite_crawler.go:1036-1049 | an iteration is affine: it takes points on a line to points on a line |
| Rankings.RisesDiffer | internal/storage/sqlite_crawler.go:1036-1049 | two vectors that differ in one score, behind which they agree and before which an iteration leaves them alone, are not raised by the same amount there |
| Rankings.Settle | internal/storage/sqlite_crawler.go:1036-1049 | whatever the other scores are, the first m can be chosen such that an iteration leaves them alone |
| Rankings.RankingNorm | internal/storage/sqlite_crawler.go:1036-1049 | the scores of a ranking that an iteration leaves alone add up, without their signs, to at most N |
| Rankings.ErrorBound | internal/storage/sqlite_crawler.go:1034-1054 | every graph has one and only one ranking that an iteration leaves alone, and after k iterations (the job runs 15) the scores are within 0.85^k times 2N of it |
| PageRank.FurtherRoundsMoveLittle | internal/storage/sqlite_crawler.go:1034-1054 | without assuming a fixed point: any number of further iterations moves the scores by at most 0.85^k times 2N |
| PageRank.ComputeScores | internal/storage/sqlite_crawler.go:986-1054 | the whole computation: fifteen iterations over the resolved rows, total N, each score within the bounds, and a page scores at least as much as another if every page has at least as many rows to it, and more if some page has more |
| EditDistance.Dist | internal/storage/sqlite_search.go:2407-2453 | the least cost over all edit scripts (with or without adjacent transpositions): some script achieves it and none beats it |
| EditDistance.LastOperation | internal/storage/sqlite_search.go:2430-2448 | the last operation of a best script is one of the three or four that the tables try |
| EditDistance.DistancesFormTable | internal/storage/sqlite_search.go:2422-2450 | the least costs of all prefixes satisfy the recurrence of the two tables |
| EditDistance.DamerauLevenshteinDistanceRunes | internal/storage/sqlite_search.go:2407-2453 | the flat table returns the optimal string alignment distance, that is the least cost over all scripts |
| EditDistance.FillBorder | internal/storage/sqlite_search.go:2415-2420 | the first row and the first column of the flat table are right |
| EditDistance.FillRow | internal/storage/sqlite_search.go:2422-2450 | a row of the flat table is right once the rows above it are |
| EditDistance.FillCell | internal/storage/sqlite_search.go:2424-2448 | a cell is right once the cells it reads are |
| EditDistance.Levenshtein | internal/storage/spellcheck.go:214-254 | the two-dimensional table returns the least cost over the scripts without transpositions |
| EditDistance.FillRowOf | internal/storage/spellcheck.go:240-252 | a row of that table is right once the row above it is, and no other row changes |
| EditDistance.DistIsSemimetric | internal/storage/sqlite_search.go:2407-2453 | both distances are zero exactly on equal strings, symmetric, at least the length difference and at most the longer length |
| EditDistance.LevTriangle | internal/storage/spellcheck.go:214-254 | Levenshtein satisfies the triangle inequality, so it is a metric |
| EditDistance.OsaBracketsLev | internal/storage/sqlite_search.go:2407-2453 | for all strings OSA <= Levenshtein <= 2 OSA |
| EditDistance.OsaTriangleFails | internal/storage/sqlite_search.go:2407-2453 | the alignment distance violates the triangle inequality on ca, ac, abc |
| TokenSimilarity.EditSimilarityBounds | internal/storage/sqlite_search.go:2374-2405 | the similarity lies in [0, 1], is one exactly on equal strings, symmetric, and capped by the length difference |
| TokenSimilarity.NormalizedEditSimilarity | internal/storage/sqlite_search.go:2374-2405 | with the 30% early exit the answer is the exact similarity, or zero when that is below 0.7 |
| TokenSimilarity.SearchTokenSimilarity | internal/storage/sqlite_search.go:2319-2340 | the early exit never changes the token similarity: it equals the one computed without it |
| TokenSimilarity.SimilarityLaws | internal/storage/sqlite_search.go:2319-2340 | token similarity is symmetric, one exactly on equal non-empty tokens, never strictly between 0 and 0.72, 0.94 for a prefix, 0.88 for other containment, and else the edit similarity if it reaches 0.72 on four runes or more |
| TokenSimilarity.BestIsMaximum | internal/storage/sqlite_search.go:2299-2305 | the best similarity bounds all tokens of the field and is attained unless zero |
| TokenSimilarity.BestRange | internal/storage/sqlite_search.go:2299-2315 | the best similarity is zero or at least 0.72, and one exactly when the token occurs in the field |
| TokenSimilarity.MatchesIffBest | internal/storage/sqlite_search.go:2307-2310 | the match flag says exactly that some token of the field is similar at all |
| TokenSimilarity.CoverageBounds | internal/storage/sqlite_search.go:2290-2316 | 0.72 matched weight <= weighted similarity <= matched weight <= total weight |
| TokenSimilarity.BestSimilarity | internal/storage/sqlite_search.go:2299-2305 | the inner loop finds the maximum over the field |
| TokenSimilarity.Accumulate | internal/storage/sqlite_search.go:2287-2316 | the outer loop computes the weighted averages and the count |
| TokenSimilarity.OnesAreExact | internal/storage/sqlite_search.go:2311-2313 | counting best similarities of one counts the non-empty query tokens that occur in the field |
| TokenSimilarity.SearchTokenCoverage | internal/storage/sqlite_search.go:2281-2317 | average and coverage are the quotients weighted by positive idf values or 1, 0.72 coverage <= avg <= coverage <= 1; exactMatches counts the non-empty query tokens in the field; flags say which tokens have a token of similarity 0.72 in the field |
| SpellChecking.KeptRunsAreShort | internal/storage/spellcheck.go:62-68 | an edit script between strings without a common trigram keeps at most two runes between edits, so it costs at least a third of the length |
| SpellChecking.CloseWordsShareTrigram | internal/storage/spellcheck.go:138-158 | a word at distance d from an input of at least 3d + 3 runes shares a trigram with it |
| SpellChecking.CountsFindSharers | internal/storage/spellcheck.go:147-158 | the number of shared trigram positions is positive exactly when a trigram is shared |
| SpellChecking.CountsPairs | internal/storage/spellcheck.go:147-158 | the number of shared trigrams is the number of pairs of positions at which the two words agree on three runes |
| SpellChecking.SpellChecker.LoadVocabulary | internal/storage/spellcheck.go:48-82 | the words and document counts are those of the rows, under an index that agrees with brute-force counting |
| SpellChecking.SpellChecker.AddTrigrams | internal/storage/spellcheck.go:63-68 | listing one more word keeps the index equal to brute-force counting, repetitions included |
| SpellChecking.SpellChecker.CountMatches | internal/storage/spellcheck.go:151-158 | every word is counted exactly as often as brute force matches trigram positions |
| SpellChecking.SpellChecker.TopCandidates | internal/storage/spellcheck.go:164-181 | the cut keeps at most 100 words, all if they fit, and none left out shares more trigrams than one kept |
| SpellChecking.SpellChecker.ClosestOf | internal/storage/spellcheck.go:183-210 | over the candidates: a closest one within the allowed distance with the highest document count among ties, or nothing |
| SpellChecking.SpellChecker.Closest | internal/storage/spellcheck.go:147-210 | the best of the words that survive the cut: all sharers up to a hundred, else a hundred of them with none left out that agrees with the input in more places than one kept |
| SpellChecking.ClosestOverall | internal/storage/spellcheck.go:138-210 | if some word is within reach, the best sharer of a trigram is the best word of the whole vocabulary |
| SpellChecking.SpellChecker.Suggest | internal/storage/spellcheck.go:124-211 | for the cleaned input: nothing below four runes; else, however many words share a trigram, some hundred of them at most survive the cut, and the suggestion is a closest of these within two edits (three from seven runes on), with the most documents among ties, and nothing exactly when none is that close; with at most a hundred sharers and a word within reach it is a closest word overall |
| Reordering.FindBest | internal/storage/sqlite_search.go:1982-2003 | each group's entry is the first of its highest-scoring positions, absent if none scores |
| Reordering.Visit | internal/storage/sqlite_search.go:2009-2029 | one step of the second loop outputs the group's best before its first member, skips what is out already, and else copies |
| Reordering.ScanAll | internal/storage/sqlite_search.go:2005-2029 | the second loop outputs exactly those steps in order |
| Reordering.ScanDone | internal/storage/sqlite_search.go:2005-2031 | the output is a permutation of the candidates |
| Reordering.PromoteLanguagePerDomain | internal/storage/sqlite_search.go:1977-2032 | a permutation; what is not promoted keeps its order; a promoted candidate stands directly before its group's first; the first of every site is its first candidate in the requested language, else in the secondary one, else its first candidate |
| Reordering.PermutationPicksAll | internal/storage/sqlite_search.go:1977-2032 | an order that takes every position once yields the same bag of candidates |
| Reordering.Scan | internal/storage/sqlite_search.go:2043-2051 | one scan places what fits below the caps and defers the rest, with the domain counters in step |
| Reordering.RoundsLaws | internal/storage/sqlite_search.go:2034-2074 | the scans end; the capped part and the rest are a permutation, the capped part obeys the caps, and nothing left fits behind it |
| Reordering.GreedyIsOptimal | internal/storage/sqlite_search.go:2034-2085 | an arrangement that obeys the caps and cannot be extended is as long as any that obeys them |
| Reordering.DiversifyLaws | internal/storage/sqlite_search.go:2034-2074 | the diversified list is a permutation whose capped part is as long as that of any arrangement of the same candidates |
| Reordering.DiversifyByDomain | internal/storage/sqlite_search.go:2034-2074 | up to three candidates stay; else the result is the capped part followed by what is left over |
| Reordering.DiversifyKeepsFirsts | internal/storage/sqlite_search.go:2043-2074 | for any grouping of domains the first candidate of each group stays its first |
| Reordering.WithinCapsStays | internal/storage/sqlite_search.go:2043-2051 | candidates within the caps stay as they are |
| Reordering.DiversifyTwice | internal/storage/sqlite_search.go:2034-2074 | a diversified list is diversified into itself |
| Reordering.DiversifyOvertakes | internal/storage/sqlite_search.go:2053-2066 | inside a domain the order is not kept: a concrete list in which a deferred candidate is overtaken |
| Reordering.FilterAndDiversifyCandidates | internal/storage/sqlite_search.go:294-327 | domain filter, schema filter, then diversification unless a domain is given; what is left are just the candidates of the requested domain and schema type, each as often as before |
| Reordering.PromotedFirstIsPreferred | internal/storage/sqlite_search.go:1977-2032 | the first of a site after promotion is the site's first candidate in the preferred language |
| Reordering.Rerank | internal/storage/sqlite_search.go:117-122 | the whole stage is a permutation; the first result of every site is its first candidate in the requested language, else in the secondary one if that is set, else its first candidate; and with more than three candidates the results begin with a longest arrangement within one, two and three a domain |
| RateLimit.DomainLimiter.TryWait | internal/ratelimit/ratelimit.go:93-121 | a refused check, or a passed one, steps of others, and then a grant or a full channel; the grant names its check |
| RateLimit.DomainLimiter.Check | internal/ratelimit/ratelimit.go:95-106 | the check passes exactly when no cooldown is running at the instant read off the clock before the lock was taken |
| RateLimit.DomainLimiter.Send | internal/ratelimit/ratelimit.go:107-120 | the send is granted exactly when a slot is free at that instant, whatever happened since the check |
| RateLimit.DomainLimiter.Others | internal/ratelimit/ratelimit.go:93-121 | between check and send other goroutines may take any steps but a non-blocking try, which needs the queue |
| RateLimit.DomainLimiter.Wait | internal/ratelimit/ratelimit.go:66-85 | the blocking call takes a slot when one is free, whatever the cooldown |
| RateLimit.DomainLimiter.Drain | internal/ratelimit/ratelimit.go:109-116 | a slot comes back no earlier than its delay |
| RateLimit.DomainLimiter.MarkThrottledFor | internal/ratelimit/ratelimit.go:132-137 | the cooldown starts now and replaces any earlier one |
| RateLimit.DomainLimiter.IsCoolingDown | internal/ratelimit/ratelimit.go:140-152 | the answer is whether the cooldown is still running |
| RateLimit.RecentGrantsHoldSlots | internal/ratelimit/ratelimit.go:93-121 | in every run the grants whose delay is still running each hold a slot, and no more slots are held than exist |
| RateLimit.OneDelayBound | internal/ratelimit/ratelimit.go:93-121 | at most `parallelism` grants to a domain in any half-open window of one delay |
| RateLimit.RateBound | internal/ratelimit/ratelimit.go:66-121 | at most n times `parallelism` grants in any half-open window of n delays |
| RateLimit.CooldownRemembered | internal/ratelimit/ratelimit.go:93-152 | a cooldown is forgotten only after it is over |
| RateLimit.GrantInCooldown | internal/ratelimit/ratelimit.go:93-121 | in every run a non-blocking grant falls inside a cooldown of its domain exactly when one was set between its check and its send, and the last one so set is still running |
| RateLimit.NoGrantInCooldown | internal/ratelimit/ratelimit.go:93-137 | a grant whose domain was not put into cooldown between check and send does not fall inside a cooldown |
| RateLimit.CheckTellsCooldown | internal/ratelimit/ratelimit.go:96-105 | in every run: where the check passes no cooldown is running, where it refuses one was running when the clock was read, before the lock; if both are one instant it tells exactly whether one is running |
| RateLimit.LateRefusal | internal/ratelimit/ratelimit.go:96-100 | a run in which a check refuses just after the cooldown is over |
| RateLimit.InterruptedGrant | internal/ratelimit/ratelimit.go:96-120 | such a grant happens: a run in which a cooldown set between check and send does not stop it |
| CrawlQueue.InsertSorted | internal/queue/queue.go:400-409 | binary search and shift put the job behind all that score at least as much |
| CrawlQueue.InsertKeepsSorted | internal/queue/queue.go:400-409 | with a fresh ID the list stays strictly sorted by score descending, ID ascending |
| CrawlQueue.FileKeepsWellFormed | internal/queue/queue.go:122-127 | filing keeps: no empty list, sorted lists, unique IDs, the set of jobs equal to what the lists hold; the new ID was unused |
| CrawlQueue.FileAllAddsBatch | internal/queue/queue.go:188-206 | a batch gets consecutive IDs in batch order, nothing is lost and nothing else is added |
| CrawlQueue.HeadIsBest | internal/queue/queue.go:315-326 | a list's head is the domain's highest-scored job, the oldest of them |
| CrawlQueue.PopKeepsWellFormed | internal/queue/queue.go:317-326 | removing a head keeps the invariant and leaves all other jobs |
| CrawlQueue.RotatedVisitsAll | internal/queue/queue.go:303-310 | from any offset the scan visits every domain exactly once |
| CrawlQueue.AddKey | internal/queue/queue.go:333-337 | the filter shows the added key and every earlier one |
| CrawlQueue.Queue.File | internal/queue/queue.go:122-127 | one job numbered and filed |
| CrawlQueue.Queue.Admit | internal/queue/queue.go:117-126 | a job goes in exactly when the filter does not show its key, which it shows for every key once seen |
| CrawlQueue.Queue.Enqueue | internal/queue/queue.go:113-135 | the same with the counter of enqueued jobs |
| CrawlQueue.Queue.EnqueueBatch | internal/queue/queue.go:139-164 | each job meets the filter as its predecessors left it; the count is that of the jobs that went in |
| CrawlQueue.Queue.EnqueueRetry | internal/queue/queue.go:169-183 | a retry goes in without asking or telling the filter |
| CrawlQueue.Queue.EnqueueBatchDirect | internal/queue/queue.go:188-206 | all jobs go in, in order, the filter unchanged |
| CrawlQueue.Queue.MarkSeen | internal/queue/queue.go:331-335 | the key is in the filter, the jobs are unchanged |
| CrawlQueue.Queue.HasSeen | internal/queue/queue.go:341-345 | yes for every key ever seen |
| CrawlQueue.Queue.Candidates | internal/queue/queue.go:290-295 | every domain with jobs once, in any order |
| CrawlQueue.Queue.PopJob | internal/queue/queue.go:317-326 | the head of the list and nothing else is removed, the domain with its last job |
| CrawlQueue.TriedAnswers | internal/ratelimit/ratelimit.go:93-121 | one try, with everything that others do before and during it, adds exactly one answer to the run |
| CrawlQueue.Queue.Ready | internal/crawler/engine.go:291-294 | one readiness check, after any steps of others, is one more answer for the domain asked |
| CrawlQueue.Queue.Scan | internal/queue/queue.go:303-312 | domains are asked in turn from the offset until the first grant, while others use the limiter between and during the checks |
| CrawlQueue.Queue.Dequeue | internal/queue/queue.go:284-313 | each domain is asked at most once; nothing comes out only if every domain was refused; else the one grant yields that domain's highest-scored oldest job and all other jobs stay |
| CrawlQueue.Queue.Len | internal/queue/queue.go:348-357 | the lists hold exactly enqueued minus dequeued jobs |
| Dispatching.CoveredByGrant | internal/queue/queue.go:305-310 | one more dispatch and the one grant behind it keep dispatches covered by grants |
| Dispatching.Dispatcher.Next | internal/crawler/engine.go:286-316 | a worker gets the head of a granted domain's list, recorded at the instant of the grant |
| Dispatching.DispatchRate | internal/queue/queue.go:284-313 | in every run, also with slots returned and cooldowns set in the middle of a scan or of a try, at most n times `parallelism` jobs of a domain are dispatched in any half-open window of n delays |
| Admission.IsBlacklistedDomain | internal/frontier/frontier.go:71-84 | walking up the parents finds a listed domain exactly when some suffix at a label boundary is listed |
| Admission.StepIsSafe | internal/frontier/frontier.go:103-139 | every critical section keeps: no false negatives, accepted fingerprints distinct and seen, no blacklisted domain under way or accepted |
| Admission.RunsAreSafe | internal/frontier/frontier.go:89-249 | the same after every interleaving of any number of submissions |
| Admission.CountsAreBounded | internal/frontier/frontier.go:58-66 | a fingerprint's count is what was seeded, whenever that was, plus the submissions counted; with a cap it exceeds the cap only by what was seeded after its last submission |
| Admission.CountsStayAtCap | internal/frontier/frontier.go:58-66 | when all seeding comes first, no count exceeds the larger of cap and seed |
| Admission.AcceptedAtMostOnce | internal/frontier/frontier.go:112-139 | once a fingerprint was marked, found or accepted, no later step of any interleaving accepts it |
| Admission.SeedCountsCount | internal/frontier/frontier.go:60-66 | seeding raises each count by the number of occurrences |
| Frontiers.Frontier.SeedFingerprintCounts | internal/frontier/frontier.go:60-66 | at any time, every counter is raised by the number of occurrences, as one step of the run |
| Frontiers.Frontier.ReserveSlot | internal/frontier/frontier.go:103-110 | a submission is counted exactly when it is below the cap |
| Frontiers.Frontier.Add | internal/frontier/frontier.go:89-142 | a single link is dropped, or counted and then dropped, marked, or filed as one job with its URL, domain, depth and fingerprint, by cap, filter and store; and this is a run of admission steps |
| Frontiers.Frontier.LookUp | internal/frontier/frontier.go:112-141 | a counted link is dropped, marked, or enqueued according to filter and store |
| Frontiers.Frontier.Confirm | internal/frontier/frontier.go:118-141 | a link that looks new is marked if the store has it and enqueued if not; on an error nothing else changes |
| Frontiers.Frontier.ScreenBatch | internal/frontier/frontier.go:167-198 | the first phase of a batch: which links go on, and the counters |
| Frontiers.Frontier.ConfirmBatch | internal/frontier/frontier.go:204-234 | the second phase: what the store has is marked, the rest become jobs |
| Frontiers.Frontier.Submit | internal/frontier/frontier.go:236-240 | the third phase is a run of single acceptances that nothing interrupts |
| Frontiers.BatchAsSteps | internal/frontier/frontier.go:236-240 | a batch through the filter is such a run, whatever the batch |
| Frontiers.ScreenCounts | internal/frontier/frontier.go:182-190 | the first phase raises every counter by the submissions of its fingerprint, up to the cap |
| Frontiers.ScreenPicksFresh | internal/frontier/frontier.go:167-198 | what goes on is exactly what is counted and not shown by the filter |
| Frontiers.JobsArrive | internal/frontier/frontier.go:204-240 | the new jobs of a batch are for links that look new and are not stored, no two of one fingerprint |
| Frontiers.KeysArrive | internal/frontier/frontier.go:204-240 | the filter gets the keys of the new jobs and of the stored links, and shows every link that looked new |
| Frontiers.Frontier.AddBatch | internal/frontier/frontier.go:151-249 | counters rise with the submissions up to the cap; every new job is for a counted link that looks new and is not stored, no two of one fingerprint; no such link is lost but to the filter; and the batch is that of the recorded steps |
| Frontiers.Frontier.Retry | internal/frontier/frontier.go:312-316 | a failed job goes back past filter and counters; no blacklisted domain becomes pending |
| Frontiers.Frontier.Dequeue | internal/frontier/frontier.go:300-305 | what comes out is the head of the list of a domain that got a slot, and never of a blacklisted domain |
| Frontiers.Frontier.AddBatchDirect | internal/frontier/frontier.go:255-298 | one job for every re-injected link that parses, may be indexed and is not of a blacklisted domain; none is counted or filtered |
| EngineWork.FetchUsesWeight | internal/crawler/engine.go:351-463 | every outcome of a fetch leaves strictly less to do than the fetch was worth |
| EngineWork.RenderUsesWeight | internal/crawler/engine.go:631-704 | every outcome of a rendering leaves strictly less to do than the rendering was worth |
| EngineWork.FollowWeight | internal/crawler/engine.go:729-767 | at most 100 links one level deeper weigh no more than was set aside for them |
| EngineWork.ArrivingCanArrive | internal/frontier/frontier.go:151-249 | what a batch lets into the queue is for some of its links, none of a blacklisted domain, at the batch's depth |
| EngineWork.SetWeightWithout | internal/queue/queue.go:317-326 | the weight of a set of jobs does not depend on the order in which it is added up |
| EngineWork.CarryWeight | internal/crawler/engine.go:351-463 | carrying out a decision adds no more to queue and backlog than the decision weighs |
| EngineWork.RetryIsLighter | internal/crawler/engine.go:331-348 | a retry weighs less than the job it repeats |
| EngineWork.FreshWeightClosedForm | internal/crawler/engine.go:331-348 | the weight of a fresh job in closed form of MaxDepth, MaxRetries and BusyRetryMaxAttempts |
| EngineWork.StepUsesWeight | internal/crawler/engine.go:286-328 | a finished fetch or rendering uses up weight, no other step adds any |
| EngineWork.StepKeepsOrder | internal/crawler/engine.go:574-629 | every step keeps the queue's lists in order and `renderQueued` equal to the keys of the backlog, each once |
| EngineWork.StepStaysClean | internal/crawler/engine.go:351-463 | no step brings a blacklisted domain into the queue, the backlog or a worker's hands |
| EngineWork.CrawlIsBounded | internal/crawler/engine.go:286-328 | in every interleaving of workers, fetches plus renderings plus the weight left never exceed the weight at the start |
| EngineWork.StepLowersRank | internal/crawler/engine.go:286-328 | every step of any worker, also one that only finds queue or backlog empty or gives way to pending jobs, lowers a rank of weight, pending jobs and places of the workers |
| EngineWork.CrawlEnds | internal/crawler/engine.go:286-328 | no run goes on for ever: however the workers interleave and whatever the sites answer, a run has at most (2 weight + 2)(4 workers + 1) steps of any kind |
| EngineWork.CrawlStaysClean | internal/crawler/engine.go:286-328 | in every interleaving, a crawl that starts without blacklisted domains never takes one up |
| EngineWork.CrawlFromSeedsIsBounded | internal/crawler/engine.go:286-328 | from seeds at depth 0 the number of fetches and renderings is bounded by seeds, MaxRetries, BusyRetryMaxAttempts and MaxDepth |
| Engines.Engine.EnqueueRenderBacklog | internal/crawler/engine.go:574-604 | a page enters under its canonical URL unless its key is there; the answer is whether it can be rendered at all |
| Engines.Engine.PopRenderBacklog | internal/crawler/engine.go:606-618 | first in, first out, and the key with it |
| Engines.Engine.PushRenderBacklog | internal/crawler/engine.go:620-629 | an item whose key is there is dropped, any other goes to the end |
| Engines.Engine.DoRetryOrFail | internal/crawler/engine.go:331-348 | the job is pending again with one more retry while there are any left, else there is one more error |
| Engines.Engine.EnqueueDiscoveredLinks | internal/crawler/engine.go:729-767 | of the links that may be indexed the first hundred, in their order, go to the frontier, which counts, screens and files them |
| Engines.Engine.ProcessDiscoveryOnly | internal/crawler/engine.go:771-803 | a resource that is no page is followed inside its own domain, above the maximal depth, unless its domain is a no-follow one |
| Outcomes.FirstAreChosen | internal/crawler/engine.go:740-760 | the links handed over are those of the first hundred anchors that count, in their order |
| Outcomes.FetchAsDecided | internal/crawler/engine.go:351-463 | every answer to a fetch, said of the queue, the backlog and the counters |
| Outcomes.RenderingAsDecided | internal/crawler/engine.go:631-704 | every outcome of a rendering, said in the same way |
| Engines.Engine.ProcessJob | internal/crawler/engine.go:351-463 | nothing for a skipped job; a page for the browser joins the backlog; a status from 400 to 499 but 429 is one more error; a failed fetch or any other status outside 200 to 299 puts the job back with one more retry while any is left, after a 429 with a quarter of its score, at least 1, else it is an error; a success is stored and followed; a cooldown exactly on a 429 that is not left to the browser; and less weight is left than before with the job |
| Engines.Engine.Persist | internal/crawler/engine.go:456-463 | an interstitial is an error; any other page is counted and its links followed |
| Engines.Engine.ProcessRenderBacklogItem | internal/crawler/engine.go:631-704 | an item gives way to pending jobs; a busy browser keeps it waiting while attempts are left; else its job goes back with one more retry or is an error; a page shown is stored and followed, or an error; a cancelled wait drops it; then less weight is left than before with the item |
| Engines.Engine.WorkOnJob | internal/crawler/engine.go:312-326 | a job that the limiter lets go is taken out and worked on, and what the engine holds gets lighter |
| Engines.Engine.WorkOnBacklog | internal/crawler/engine.go:305-310 | with no job pending the oldest item of the backlog is worked on, and what the engine holds gets lighter |
| Escapes.UnescapeShortens | internal/frontier/frontier.go:361-364 | unescaping shortens exactly the texts that hold an escape |
| Escapes.EscapeRoundTrip | internal/frontier/frontier.go:361-391 | what is escaped in a path, a query or a user is read again, for all byte strings |
| Escapes.HostEscapeRoundTrip | internal/frontier/frontier.go:350-391 | and so is an escaped host |
| Queries.FieldsRead | internal/frontier/frontier.go:367-383 | a list of parameters written out is read again, up to the number that is read at all |
| Urls.PartsOf | internal/frontier/frontier.go:337 | a text that parses is scheme, hierarchical part, query and fragment, one behind the other, and nothing else |
| Urls.HostParsed | internal/frontier/frontier.go:337 | a host that parses is plain, with at most one colon before a port, or an address in brackets |
| Urls.ColonsRejected | internal/frontier/frontier.go:337 | a host with two colons does not parse without brackets, with or without a port |
| Urls.HostShortens | internal/frontier/fingerprint.go:67 | reading a host changes it exactly when an escape is in it |
| Urls.AuthorityReads | internal/frontier/frontier.go:337-391 | user and host are read again from their text, as far as the host is |
| CanonicalHosts.HostRoundTrip | internal/frontier/frontier.go:350-359 | a host name without a colon and a port, joined, come apart again |
| CanonicalHosts.ParsedHostname | internal/frontier/frontier.go:350-359 | the name of a host that parses has no bracket in front, and a colon exactly when it is an address, then two of them |
| CanonicalHosts.PlainCanonicalHost | internal/frontier/frontier.go:350-359 | the host text of a host without brackets is such a host, and its own host text |
| CanonicalHosts.BracketedCanonicalHost | internal/frontier/frontier.go:350-359 | the host text of an address is no host |
| CanonicalHosts.PortRule | internal/frontier/frontier.go:350-359 | a name stays, in lower case, and its port unless it is 80 for http or 443 for https |
| CanonicalHosts.AddressRule | internal/frontier/frontier.go:350-359 | an address comes out of its brackets, with its port in the same way |
| CanonicalHosts.AddressesCollide | internal/frontier/frontier.go:350-359 | two different bracketed addresses lose their brackets to the same text |
| CanonicalHosts.HostsAgree | internal/frontier/frontier.go:350-359 | two hosts have one text exactly when they are the same, or an address without a port ends in the port of the other |
| CanonicalPaths.PathTextTwice | internal/frontier/frontier.go:361-364 | a path text is a valid one that stands for the trimmed path, and is its own path text |
| CanonicalPaths.PathsAgree | internal/frontier/frontier.go:361-391 | two written paths have one text exactly when they agree unescaped and trimmed, and as written if either is kept in a spelling of its own |
| CanonicalQueries.EncodeSortsKept | internal/frontier/frontier.go:366-384 | the rebuilt query is the sorted list of the pairs that are kept: each pair as often as it was there, but none whose trimmed and lower-cased key is empty, begins with utm_, _hs, mkt_ or x-amz-, mentions token, session or signature, or is listed |
| CanonicalQueries.UnwantedAreDropped | internal/frontier/frontier.go:394-433 | a key is dropped exactly when, trimmed and lower-cased, it is empty, has one of the prefixes, mentions one of the words, or is listed |
| CanonicalQueries.SenseKept | internal/frontier/frontier.go:366-384 | the normal form keeps the sense of a query, its bag of kept pairs or its text if it has no pair; read again it has each wanted pair as often as before and no unwanted one |
| CanonicalQueries.QueriesAgree | internal/frontier/frontier.go:366-384 | two queries have one normal form exactly when they have one sense |
| CanonicalQueries.ParsableQueries | internal/frontier/frontier.go:366-384 | for queries with parameters, exactly when the bags of kept pairs are equal |
| CanonicalQueries.EmptyQueryStays | internal/frontier/frontier.go:366-384 | a URL that ends in a bare question mark stays apart from the one without it |
| CanonicalQueries.JunkTrimmed | internal/frontier/frontier.go:332 | a query without parameters has none without the spaces at its end either |
| CanonicalUrls.CanonicalizeTwice | internal/frontier/frontier.go:331-391 | for every text with a normal form: normalizing that form gives it back, with its domain, exactly when it does not end in a space, the host name has no colon, and a path without a host is not read as one; with a colon it does not parse |
| CanonicalUrls.ColonDecides | internal/frontier/frontier.go:331-391 | for a URL with a host whose query, if it has one, holds a parameter, exactly when the host name has no colon |
| CanonicalUrls.EqualIffAgree | internal/frontier/frontier.go:331-391 | any two texts have one normal form exactly when they agree on scheme, user, path text and the sense of the query, and their hosts have one text; or one is without a host and its path is written like the other's host and path |
| CanonicalUrls.OrdinaryHiersAgree | internal/frontier/frontier.go:331-391 | for hosts without colons and paths in no spelling of their own: exactly when user, host, port and the unescaped trimmed paths agree |
| CanonicalUrls.DomainsAgree | internal/frontier/frontier.go:386-391 | the domain returned with the normal form is that of ExtractDomain exactly when the bare name does not read as host and port |
| CanonicalUrls.AcceptedTexts | internal/frontier/frontier.go:332-349 | exactly the texts that parse with scheme http or https have a normal form, which has that scheme |
| CanonicalUrls.ParametersKept | internal/frontier/frontier.go:366-391 | of the text returned: the parameters read from its query are those of the given text, each as often as there, without the unwanted ones |
| CanonicalExamples.TrackingDropped | internal/frontier/frontier.go:366-391 | http://h/?id=1&utm_source=x becomes http://h/?id=1 |
| CanonicalExamples.EverythingChanges | internal/frontier/frontier.go:331-391 | HTTP://WWW.h:80/a/?bb=2&aa=1#f becomes http://www.h/a?aa=1&bb=2, of domain h |
| CanonicalCases.OpaqueSpace | internal/frontier/frontier.go:331-391 | http:foo #x gives a text that ends in a space, and then another one |
| CanonicalCases.JunkSpace | internal/frontier/frontier.go:331-391 | so does http://h/?a;b #x, whose query holds no parameter |
| CanonicalCases.SlashesReadAsAuthority | internal/frontier/frontier.go:331-391 | http:/%2Ffoo/ gives http://foo, which has a host and a domain, and then another text |
| CanonicalCases.ParenthesesMatter | internal/frontier/frontier.go:361-391 | http://h/(a) and http://h/(a)/ have one trimmed path and two normal forms |
| CanonicalCases.EscapedSlashMatters | internal/frontier/frontier.go:361-391 | so have http://h/a%2Fb and http://h/a%2Fb/ |
| CanonicalCases.AddressNotTakenBack | internal/frontier/frontier.go:331-391 | http://[fe80::abcd]/ gives http://fe80::abcd/, which does not parse |
| Fingerprints.NormalizeSegmentTwice | internal/frontier/fingerprint.go:43-53 | placeholders are not replaced again, and only the empty segment becomes empty |
| Fingerprints.SegmentClasses | internal/frontier/fingerprint.go:30-53 | which placeholder a segment gets: the patterns exclude each other but for lengths, so their order does not matter, and exactly the rest stays |
| Fingerprints.UuidGroups | internal/frontier/fingerprint.go:31 | hexadecimal groups of 8, 4, 4, 4 and 12, and no others, make a UUID |
| Fingerprints.DateGroups | internal/frontier/fingerprint.go:37 | groups of 4, 2 and 2 digits make a date |
| Fingerprints.ShapeIsGood | internal/frontier/fingerprint.go:66-94 | a path's shape has slash-free normal segments with something at either end |
| Fingerprints.ShapeRoundTrip | internal/frontier/fingerprint.go:72-94 | a printed shape reads back as that shape |
| Fingerprints.FingerprintPathTwice | internal/frontier/fingerprint.go:66-94 | the path part is a fixed point for every path |
| Fingerprints.SegmentsReplaced | internal/frontier/fingerprint.go:72-91 | segment by segment the placeholder or the segment itself, with the slash that was at the end |
| Fingerprints.PathsCollide | internal/frontier/fingerprint.go:66-94 | two paths give one text exactly when their segments fall into the same classes, with the same trailing slash |
| Fingerprints.EscapesDoNotStay | internal/frontier/fingerprint.go:66-94 | an escaped path that begins the fingerprint of what it stands for has no escapes |
| Fingerprints.FingerprintPathPercents | internal/frontier/fingerprint.go:66-94 | the path part never holds more percent signs than the path |
| QueryKeys.KeyTextIsShorter | internal/frontier/fingerprint.go:108-128 | the key text is never longer than the query |
| QueryKeys.KeyTextStays | internal/frontier/fingerprint.go:108-128 | a query is its own key text exactly when its pieces at the ampersands are non-empty, strictly sorted, free of = ; + and %, and no more than are read |
| QueryKeys.KeyTextsCollide | internal/frontier/fingerprint.go:108-128 | two queries whose unescaped keys hold no ampersand give one key text exactly when they have the same keys |
| QueryKeys.KeyTextsAgree | internal/frontier/fingerprint.go:108-128 | any two queries give one key text exactly when their sorted keys, cut at the ampersands in them, have the same pieces |
| QueryKeys.AmpersandsCollide | internal/frontier/fingerprint.go:108-128 | with ampersands in keys that fails: one key with an escaped ampersand and the two keys around it give one text |
| QueryKeys.EmptyKeyChanges | internal/frontier/fingerprint.go:108-128 | a query with only the empty key gives the empty key text, which gives none |
| QueryKeys.EqualsSignChanges | internal/frontier/fingerprint.go:108-128 | a key with an escaped equality sign gives a key text that is not its own |
| FingerprintTexts.FixedTexts | internal/frontier/fingerprint.go:66-117 | any text that parses, also a relative one, is its own fingerprint exactly when it has no fragment, a lower-case scheme with two slashes or no scheme, neither user nor escapes in its host, a path in normal form without escapes, and a query that is its own key text |
| FingerprintTexts.FingerprintTwice | internal/frontier/fingerprint.go:66-117 | for every text that parses: the fingerprint of its fingerprint is that fingerprint exactly when it does not parse, or what is written in it unescaped is not read as something else; a host without a scheme always is |
| FingerprintTexts.KeysDecide | internal/frontier/fingerprint.go:99-128 | with nothing in host and path to be read as something else, exactly when there is no key text, or one that is its own, or one that keeps the text from parsing |
| FingerprintTexts.FingerprintsAgree | internal/frontier/fingerprint.go:66-117 | any two texts that parse share a fingerprint exactly when they share scheme, host, the printed path up to its first question mark, and what follows the first question mark, be it path or keys |
| FingerprintTexts.FingerprintsCollide | internal/frontier/fingerprint.go:66-117 | with no question mark in either path: exactly when they share scheme, host, path shape and the pieces of their keys; without ampersands in keys, exactly when they share the keys |
| FingerprintCases.QuestionMarkCollides | internal/frontier/fingerprint.go:66-117 | http://h/a%3Fb and http://h/a?b share a fingerprint, though neither path shape nor keys are the same |
| FingerprintCases.EmptyKeyMoves | internal/frontier/fingerprint.go:99-128 | http://h/a?=1 gives http://h/a? and then another text |
| FingerprintCases.EqualsSignMoves | internal/frontier/fingerprint.go:99-128 | http://h/a?x%3Dy, whose key is x=y, gives http://h/a?x=y and then another text |
| FingerprintCases.PercentMoves | internal/frontier/fingerprint.go:66-117 | http://h/a%2525 gives http://h/a%25 and then http://h/a% |
| FingerprintCases.NumberSignMoves | internal/frontier/fingerprint.go:66-117 | http://h/a%23b gives http://h/a#b and then http://h/a |
| FingerprintCases.BadFragmentStays | internal/frontier/fingerprint.go:66-128 | http://h/a?x%23%25 gives http://h/a?x#%, which does not parse and so stays |
| FingerprintCases.ControlFragmentMoves | internal/frontier/fingerprint.go:66-128 | http://h/a?x%23%01 gives a text with a control character behind #, which parses, and then http://h/a?x |
| FingerprintCases.EscapedHostMoves | internal/frontier/fingerprint.go:99-106 | a text with an escape in its host is not its own fingerprint |
| FingerprintCases.SomeHostMoves | internal/frontier/fingerprint.go:99-106 | http://%E4%B8%96/a has the unescaped host in its fingerprint |
| FingerprintTexts.SortedQueryKeys | internal/frontier/fingerprint.go:120-127 | the keys of the map in order, each once |
| FingerprintTexts.BuildFingerprint | internal/frontier/fingerprint.go:99-117 | the text is that of scheme, host, given path and key text |
| Fingerprints.NormalizeSegments | internal/frontier/fingerprint.go:82-86 | the array is overwritten segment by segment with the placeholder, if there is one |
| Fingerprints.NormalizePath | internal/frontier/fingerprint.go:72-91 | the path computed is the printed shape |
| FingerprintTexts.FingerprintURL | internal/frontier/fingerprint.go:66-94 | for every text, also with user, escaped host or no scheme, the text returned is the fingerprint, or the given text if it does not parse |
| BatchWriting.RowsAfterUpserts | internal/storage/batchwriter.go:167-190 | after any list of upserts a row holds the last page of its URL, the last publication date that is not null, and the ID it was first given |
| BatchWriting.UpsertsWriteRows | internal/storage/batchwriter.go:167-190 | the same said of positions in the list of pages |
| BatchWriting.UpsertsConcat | internal/storage/batchwriter.go:227-267 | two batches of upserts are one batch |
| BatchWriting.UpsertsKeepIDs | internal/storage/batchwriter.go:164-190 | no upsert changes an ID once given |
| BatchWriting.UpsertsKeepUniqueIDs | internal/storage/batchwriter.go:164-190 | IDs stay unique |
| BatchWriting.UpsertPages | internal/storage/batchwriter.go:227-267 | the loop applies the upserts in write order |
| BatchWriting.ReplaceLinks | internal/storage/batchwriter.go:343-354 | a source's links become those of the new list, each target with the text of the first link to it; other sources keep theirs |
| BatchWriting.FirstIsFound | internal/storage/batchwriter.go:347-354 | of several links to one target the first is kept, whose own hash or that of its URL says where it leads |
| BatchWriting.WriteGraph | internal/storage/batchwriter.go:330-355 | in whatever order the map yields the sources, each resolved one has its links replaced and all others keep theirs |
| BatchWriting.ReplacedIsUnique | internal/storage/batchwriter.go:330-355 | that determines the whole table, so the map's order does not matter |
| BatchWriting.RecoverableGrows | internal/storage/batchwriter.go:408-421 | what a failed flush left behind stays confined to sources that are still buffered, whatever is buffered next |
| BatchWriting.FlushRecovers | internal/storage/batchwriter.go:330-359 | a flush over such a table leaves what it would have left over the table of the last success |
| BatchWriting.FailuresLeaveNoTrace | internal/storage/batchwriter.go:357-421 | after any number of flushes that fail after the graph commit, the one that succeeds leaves the links table of a single flush |
| BatchWriting.BoundariesMatter | internal/storage/batchwriter.go:343-345 | between two successful flushes the boundary does show in the links table, but not in the pages table |
| BatchWriting.BatchWriter.Flush | internal/storage/batchwriter.go:144-423 | on success every row has the data of the last page of its URL, the last date there was and the ID it had; every buffered source links to the targets of its list with the text of the first link to each, and all other sources to what they linked to at the last success; both tables are those of one flush, whatever failed in between; on failure the buffers stay |
| BatchWriting.BatchWriter.WritePage | internal/storage/batchwriter.go:62-72 | the page is buffered; at 100 pages a flush follows |
| BatchWriting.BatchWriter.WriteLinks | internal/storage/batchwriter.go:76-93 | an empty list is ignored; else the links are buffered; at 500 links a flush follows |
| BatchWriting.TotalLinks | internal/storage/batchwriter.go:82-86 | the sum of the buffered lists is the number of links waiting |
| ApiLimiting.BucketAlwaysMatches | internal/api/middleware.go:145-173 | the latest bucket of an address is in the map, or its window is over |
| ApiLimiting.SinceStart | internal/api/middleware.go:151-159 | what the latest bucket let through is what its tokens say is used, at most the limit |
| ApiLimiting.BeforeStart | internal/api/middleware.go:151-159 | less than a window before a bucket opens, only its predecessor let anything through, and not its opening request |
| ApiLimiting.TwiceTheLimit | internal/api/middleware.go:145-160 | in every run at most 2 limit - 1 requests of an address are let through in any closed interval of one window |
| ApiLimiting.BoundIsReached | internal/api/middleware.go:145-160 | for every limit and window of at least one some run reaches that bound |
| ApiLimiting.RefusedIsUsedUp | internal/api/middleware.go:145-160 | nobody is refused unless the whole limit was let through in the window just before |
| ApiLimiting.OthersAreInvisible | internal/api/middleware.go:145-173 | the answers to one address are those it would get if it were alone |
| ApiLimiting.CleanupIsInvisible | internal/api/middleware.go:162-171 | cleanups anywhere in a run change none of its answers |
| ApiLimiting.RateLimiter.Allow | internal/api/middleware.go:145-160 | a request is one step of the run, with its answer; whoever is refused has had the limit let through in the window just before, and with whoever is admitted it holds at most 2 limit - 1 |
| ApiLimiting.RateLimiter.Cleanup | internal/api/middleware.go:162-171 | deleting expired buckets one by one is one step without an answer |

## Left out

- Floating point: scores, weights and similarities are real numbers, without rounding and without NaN; a pending job's score does not change.
- Integer widths: word positions (32 bits), the round counter, job IDs and counters are unbounded.
- SQL retrieval, full-text ranking, migrations, connection handling, parsing, fetching, rendering, robots files, DNS, logging: foreign engines and libraries. What they answer is a parameter.
- The edge and vocabulary queries of the ranking job and the spell checker: the model starts from the rows they yield. Writing the scores back is left out.
- Scoring boosts, query analysis, candidate merging and the tolerance sort of tokens: long tables, or comparators that order nothing; the model starts from the scored candidates.
- Case folding and the public-suffix list: `Reordering` takes them as arbitrary functions, `SpellChecking.SpellChecker.Suggest` takes trimming and lower-casing as one. `Urls` takes Unicode lower-casing as a function that acts on the texts between ASCII marks, on ASCII letters as usual, and twice as once.
- The Bloom filter's hashing: a set of bits under an arbitrary hash function, so false positives may occur anywhere and false negatives cannot.
- Pointers to jobs: jobs are values, so a retry that changes a job in place is modelled as filing the changed value.
- Wake-ups and the reused candidate buffer of the queue: `CrawlQueue` has the locked sections only. Fairness between domains is not claimed, since the scan starts from an arbitrary map order.
- Orders that the program leaves open (map iteration, unstable sorting) are arbitrary in the model.
- The idle-domain cleanup of the rate limiter does nothing in the program and is not modelled; real sleep times are release instants at or after the delay.
- Frontiers.Frontier.Add: canonicalization, fingerprint and document filter of the raw URL are given with the link.
- Engines.Engine.ProcessDiscoveryOnly: the record of the discovered resource is not part of the call.
- Engines.Engine.ProcessRenderBacklogItem: how long a busy page waits before it is tried again is not modelled, only that the wait may be cancelled.
- Engines.Engine.Persist: the rows written for a page, its links, images and domain statistics are not part of the call; `BatchWriting` models the writer on its own.
- IPv6 literals: `Urls` takes what the text between brackets stands for as a function that yields at least two colons and none of the characters that no host has, and changes escapes only. `Urls.AsciiLib` shows that such functions exist.
- net/url is modelled as of Go 1.26, which the module file asks for, with its limit of 10000 query parameters. Texts are strings of bytes.
- The fragment of a URL is checked, but not kept: both callers drop it.
- Crawling: `EngineWork` takes what a worker does about one page as one step, with whatever the frontier let in meanwhile; the frontier's own phases are interleaved in `Admission`. A waiting worker that is woken while no domain is ready goes on waiting, which is no step.
- ShouldDropParam (internal/frontier/fingerprint.go:131-157) is not called by the program.
- BatchWriting.BatchWriter.Flush: the image buffer, single statements that fail inside a transaction, and other writers of the two databases are not modelled; columns other than URL, ID and publication date are one value.
- The batch writer's update by fingerprint: it answers a unique index that the migrations replaced by a plain one (internal/storage/migrations.go:184-187), so it cannot happen.
- Configuration, API handlers, the per-platform rules of internal/sitehints and deployment.
