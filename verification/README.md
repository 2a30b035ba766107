# Verified models of the Crossfyre toolchain

Dafny models of seven parts of the toolchain, each with the properties its design rests on. Code that computes
values is modelled by functions, code that updates fields or runs loops by classes and methods proved against those
functions, and concurrent code by transition systems with one step per access to the shared state that workers act on
(the `tested` counter, which only adds up, is counted together with the outcome of the attempt).

- **Matcher expressions** (`cortex/src/dsl.rs`): `DslSyntax`, `DslGrammar`, `DslParser`, `DslCursor`, `DslLexis`,
  `DslLexer`, `DslPrinter`, `DslUnicode`, `DslEval`, `DslMeaning`, `DslValues`. The lexical grammar relates texts and
  token lists, the stratified grammar token lists and trees; tokenizer and recursive-descent parser are proved to compute
  exactly these relations. A printer with minimal parentheses is inverted by both, and the value of a text is told by the
  values of the texts it is made of, operator by operator and function by function.
- **Scan worker pools** (`mach/src/scanner.rs`, `adaptive/src/resilience.rs`): `Resilience`, `AdaptivePool`,
  `AdaptiveLiveness`, `AdaptiveRequeue`, `AdaptiveGate`, `AdaptiveProbes`, `FixedPool`. Safety over every interleaving,
  liveness over fair infinite runs, what the concurrency target and the pause flag hold back, how often an entry is
  probed, and the exact conditions under which failed writes, failed lookups and crashes can strand an entry or a worker.
- **Crawl frontier** (`mach/src/crawler.rs`): `CrawlState`, `CrawlPaths`, `CrawlRuns`, `Crawler`, `CrawlWaves`,
  `CrawlCoverage`. The crawl is a function of the order in which fetches complete; every page is accounted for in any
  order, and the limits under which it records distances from the seed, and under which it is sure to fetch everything,
  are determined exactly.
- **Feedback controllers** (`adaptive/src/health.rs`, `rate.rs`, `congestion.rs`): `Arithmetic`, `Health`, `Rate`,
  `Congestion`, over exact reals.
- **Wire parsers** (`cortex/src/rawhttp.rs`, `capture/src/sni.rs`): `Bytes`, `Utf8`, `Chunked`, `Sni`. Decoding inverts
  encoders written after section 7.1 of RFC 9112, section 4.1.2 of RFC 8446 and section 3 of RFC 6066; truncation is safe.
- **Node supervisor** (`core/src/lib.rs`): `Supervisor`. Properties of whole traces of the reconcile loop.
- **URLs and templates** (`cortex/src/inject.rs`, `probe.rs`, `template.rs`, `capture/src/reduce.rs`): `PercentCoding`,
  `UrlParams`, `Template`, `TemplateText`, `TemplateProduct`, `Redact`.

Some expectations turned out to hold only under a condition. In each case the model follows the code and the exact
condition is proved:

- A query parameter that was set can be read back for all URLs and texts if and only if its name is free of `&`, `=`
  and `#` (`UrlParams.ReadBackExactly`); a `?` in the name does no harm.
- Setting a parameter leaves the reading of another, of any non-empty name, unchanged if and only if the other was found
  in a query of the URL's own or reads the same in the text added (`UrlParams.OthersUnchangedExactly`); for a name free of
  `&`, `=` and `#` that comes down to a real query or nothing to read. A `?` in the fragment is read as a query
  (`UrlParams.FragmentIsRead`). The empty name is dropped with the empty pairs (`UrlParams.EmptyPairIsDropped`); what it
  reads afterwards is covered by `UrlParams.OtherReading`.
- The percent decoder slices a string and panics if and only if a percent sign is followed, three bytes on, by the
  middle of a character (`PercentCoding.DecodePanicsExactly`), which valid text can contain
  (`PercentCoding.ValidTextCanPanic`).
- A quoted string survives tokenizing if and only if it is ASCII (`DslUnicode.QuotedTextRoundTrips`), because bytes are
  pushed as characters.
- Equality of expression values is transitive for exactly twelve of the twenty-seven combinations of kinds
  (`DslEval.EqualityIsTransitive`, `DslEval.EqualityChainsBreak`).
- When writes can fail, the adaptive pool is sure to drain its queue if and only if rate control is off, there is one
  worker, or there is nothing to scan (`AdaptiveRequeue.RequeueExactly`): a worker that puts an entry back after the
  others saw an empty queue can leave it behind.
- A claim is committed before the URL and the word of the entry are looked up, and nothing undoes it when a lookup fails.
  So a pool at rest, without a failed write, a crash or a disconnection, has recorded every entry if and only if no lookup
  failed (`AdaptivePool.NothingLost`, and over fair runs `AdaptiveLiveness.EveryFairRunFinishes`); failing lookups are
  sure to do no harm if and only if there are no entries (`AdaptiveRequeue.LookupExactly`).
- Crashed tasks can leave a worker parked at the concurrency gate for good, with the whole queue untouched, unless rate
  control is off or there is at most one worker (`AdaptiveLiveness.ParksExactly`, `AdaptiveLiveness.CrashCanPark`); it
  takes the crash of worker 0 itself (`AdaptiveLiveness.NoWorkerStaysParked`).
- No throttle update of the fixed pool is ever lost if and only if there is at most one worker
  (`FixedPool.LosesExactly`); with more, raises can overwrite each other (`FixedPool.RaisesCanBeLost`), and only bounds and
  step size survive.
- A request expanded from a template has no payload placeholder left if and only if no header name has one, since names
  are searched but not substituted, and the combinations reach the cap no earlier than with the last payload in use
  (`TemplateProduct.NothingLeftExactly`, with `TemplateProduct.NameOnlyRepeats` and
  `TemplateProduct.CapCanLeavePlaceholders` for the two ways it fails).
- Where pages with one key have the same links and no fetch panics, every crawl is sure to record exact distances if and
  only if it has one task, fewer than two levels, or fewer than `tasks + 3` pages (`CrawlWaves.DistancesExactly`);
  otherwise a site and a completion order with a wrong depth exist (`CrawlWaves.WavesCanOverstate`). A crawl that hits
  neither cap is sure to fetch every page within the depth limit under slightly wider limits: one task, fewer than two
  levels, or fewer than `max_depth + tasks + 2` pages (`CrawlCoverage.CoverageExactly`); otherwise a page recorded too
  deep can be left out (`CrawlCoverage.ChainCanBeMissed`).
- A payload value that itself holds a placeholder is substituted again by later rounds only, so the requests depend on
  the order of the payload map (`TemplateProduct.ValuesCanCascade`).

## Model

| member | source | states |
|---|---|---|
| DslParser.Sound | cortex/src/dsl.rs:243-354 | whatever a level of the parser takes off the front of the tokens derives the returned tree at that level |
| DslParser.Complete | cortex/src/dsl.rs:243-354 | a derivable token list, followed by anything that cannot continue it, is taken whole with its tree |
| DslParser.ParserIsGrammar | cortex/src/dsl.rs:223-354 | at every level, the parser consumes all tokens with tree `n` if and only if the grammar derives `n` from them |
| DslParser.GrammarIsUnambiguous | cortex/src/dsl.rs:243-354 | no token list has two trees at one level |
| DslParser.Parse | cortex/src/dsl.rs:243-322 | success at any level leaves a proper suffix of the input: at least one token is consumed and nothing past the end is read |
| DslCursor.Parser.constructor | cortex/src/dsl.rs:43-50 | a new parser stands in front of all its tokens |
| DslCursor.Parser.Eat | cortex/src/dsl.rs:227-233 | hands out the next token and steps over it; at the end it stays |
| DslCursor.Parser.ExpectTok | cortex/src/dsl.rs:234-240 | succeeds exactly on the expected token |
| DslCursor.Parser.ParseOr | cortex/src/dsl.rs:243-251 | the loop that rebuilds the left operand computes the left-associated tree of the grammar and leaves the cursor behind it |
| DslCursor.Parser.ParseAnd | cortex/src/dsl.rs:252-260 | the same for conjunctions |
| DslCursor.Parser.ParseNot | cortex/src/dsl.rs:261-268 | the prefix level, with `!` looser than comparison |
| DslCursor.Parser.ParseCompare | cortex/src/dsl.rs:269-282 | at most one comparison: comparisons do not chain |
| DslCursor.Parser.ParseAdd | cortex/src/dsl.rs:283-295 | left-associative sums |
| DslCursor.Parser.ParseMul | cortex/src/dsl.rs:296-308 | left-associative products |
| DslCursor.Parser.ParseUnary | cortex/src/dsl.rs:309-316 | unary minus |
| DslCursor.Parser.ParseAtom | cortex/src/dsl.rs:317-353 | literals, parentheses, variables and calls |
| DslCursor.Parser.ParseArgLoop | cortex/src/dsl.rs:331-343 | the argument loop of a call returns the arguments and stands behind the closing parenthesis, or fails |
| DslCursor.ParseWhole | cortex/src/dsl.rs:43-51 | a tree is returned if and only if the grammar derives it from all tokens |
| DslLexer.Tokenize | cortex/src/dsl.rs:81-201 | the index loop over the text yields the tokens the text consists of by the lexical grammar, or fails exactly when it consists of none |
| DslLexer.LexerIsGrammar | cortex/src/dsl.rs:81-201 | a text tokenizes to `ts` if and only if it consists of spellings of `ts`, each ending where its token cannot run on, with white space anywhere between them |
| DslLexis.PointMoves | cortex/src/dsl.rs:118-125 | moving the point of a numeral past a digit makes it ten times as much |
| DslLexis.WholeIsWorth | cortex/src/dsl.rs:118-125 | a numeral without a point, or with nothing behind it, is worth its digits, each ten times the next |
| DslLexer.ReadToken | cortex/src/dsl.rs:90-198 | the token at an index and the index behind it |
| DslLexer.ReadLiteral | cortex/src/dsl.rs:92-117 | a quoted literal with its escapes decoded, and the index behind its closing quote; failure exactly when it is not closed |
| DslPrinter.PrintThenParse | cortex/src/dsl.rs:243-353 | parsing the minimally parenthesized rendering of a tree at any level gives the tree with nothing left over |
| DslPrinter.PrintIsShortest | cortex/src/dsl.rs:243-353 | no token list deriving a tree is shorter than its rendering: no parenthesis is superfluous, precedences are exact |
| DslPrinter.TextThenLex | cortex/src/dsl.rs:81-201 | tokens spelled out (literals escaped) tokenize to themselves with any white space between them, or none between tokens that do not run together |
| DslPrinter.RunTogetherExactly | cortex/src/dsl.rs:81-201 | two tokens written without white space tokenize to themselves if and only if they are not a name before a name or number, two numbers, or a `!`, `<` or `>` before `==` |
| DslPrinter.DecimalTextValue | cortex/src/dsl.rs:118-125 | a number spelled with `k` decimals is read back as exactly that decimal |
| DslPrinter.LiteralRoundTrip | cortex/src/dsl.rs:92-117 | an escaped string literal is read back unchanged and exactly to its closing quote |
| DslPrinter.RenderThenParse | cortex/src/dsl.rs:43-51 | the text of any well-formed tree, with whatever white space between its tokens, or none where none is needed, denotes that very tree |
| DslPrinter.OperatorsGroup | cortex/src/dsl.rs:243-308 | without parentheses the stronger of two operators takes its operands first, and of equally strong ones the left |
| DslPrinter.PrefixesGroup | cortex/src/dsl.rs:261-316 | a minus sign binds tighter than any operator, `!` looser than all but `&&` and `||` |
| DslPrinter.LowerIsCase | cortex/src/dsl.rs:331-343 | lower-casing a function name changes capitals to the same small letters and nothing else |
| DslPrinter.WellFormedIsParsable | cortex/src/dsl.rs:43-353 | the well-formed trees are exactly the trees that some text denotes |
| DslUnicode.QuotedTextRoundTrips | cortex/src/dsl.rs:92-117 | the UTF-8 text of a quoted string tokenizes to that string if and only if the string is ASCII |
| DslEval.EvalValue | cortex/src/dsl.rs:43-51 | the value of a text as `DslValues` determines it, none when the text denotes no tree |
| DslEval.EvalBool | cortex/src/dsl.rs:30-37 | a matcher holds exactly when its text has a value and that is true, a number other than zero, or a text other than the empty one and `false` |
| DslMeaning.TextIsGrammar | cortex/src/dsl.rs:43-353 | a text denotes a tree if and only if it consists, by the lexical grammar, of tokens that the grammar derives the tree from |
| DslMeaning.BinaryDenotes | cortex/src/dsl.rs:243-308 | `(l)op(r)` denotes the combination of what `l` and `r` denote, for any two texts and any operator |
| DslMeaning.PrefixDenotes | cortex/src/dsl.rs:261-316 | `!(s)` and `-(s)` denote the negation of what `s` denotes |
| DslMeaning.CallDenotes | cortex/src/dsl.rs:331-343 | `name(a,b,..)` denotes the call, under the name in lower case, of what the argument texts denote |
| DslMeaning.AtomDenotes | cortex/src/dsl.rs:317-353 | a numeral, quoted text or name denotes itself; `true` and `false` the truth values |
| DslValues.BinaryTextCombines | cortex/src/dsl.rs:243-308 | `(l)op(r)` is one of the texts the lemmas below are about, for any texts with values and any operator |
| DslValues.ComparisonsCompare | cortex/src/dsl.rs:385-401 | the text of `l < r`, `<=`, `>`, `>=` is worth what comparing the numbers of the operands says |
| DslValues.ArithmeticIsExact | cortex/src/dsl.rs:410-415 | difference, product and quotient of the numbers of the operands; dividing by zero gives zero |
| DslValues.SumsAddOrJoin | cortex/src/dsl.rs:402-409 | a sum adds two numbers, and joins the texts of anything else |
| DslValues.EqualityCompares | cortex/src/dsl.rs:395-396 | `==` and `!=`: to within 2^-52 if one operand is a number, else by truth if one is a truth value, else as texts |
| DslValues.ConnectivesConnect | cortex/src/dsl.rs:385-391 | `&&` and `||` on what counts as true |
| DslValues.PrefixesNegate | cortex/src/dsl.rs:373-380 | `!` negates truth and `-` the number |
| DslValues.LiteralsAreWorth | cortex/src/dsl.rs:361-364 | numerals, quoted texts, `true` and `false` are worth what they say |
| DslValues.NamesAreParts | cortex/src/dsl.rs:365-371 | each name is worth the part of the response it stands for, any other the empty text |
| DslValues.SearchesFind | cortex/src/dsl.rs:422-426 | `contains` holds if and only if the first text is `a + t + b` for some `a` and `b`; likewise without case, in front and at the end |
| DslValues.AnyAndAllFind | cortex/src/dsl.rs:427-434 | `contains_any` holds if and only if one of the further texts stands in the first, `contains_all` if and only if each does |
| DslValues.FunctionsCompute | cortex/src/dsl.rs:435-449 | length, case mapping, trimming, matching and status; any other function is worth the empty text |
| DslEval.EvalDependsOnMentioned | cortex/src/dsl.rs:360-449 | responses that agree on the fields an expression mentions give it the same value |
| DslEval.EqualityIsSymmetric | cortex/src/dsl.rs:451-457 | equality of values is reflexive and symmetric across kinds |
| DslEval.EqualityIsTransitive | cortex/src/dsl.rs:451-492 | for values of chainable kinds equality is transitive, whatever the number parser does |
| DslEval.EqualityChainsBreak | cortex/src/dsl.rs:451-492 | for every other combination of kinds there are values equal in turn but not at the ends |
| Resilience.RetryExactly | adaptive/src/resilience.rs:53-100 | a probe is retried if and only if its failure is transient and it had fewer than min(3, ceiling) retries, whatever the score and Retry-After; waits are capped |
| Resilience.WaitsExactly | adaptive/src/resilience.rs:71-108 | a retry waits as long as Retry-After asks for, up to 30 s; else 200, 400, 800 ms, doubled while the score is below one half |
| Resilience.BackoffGrows | adaptive/src/resilience.rs:93-108 | without Retry-After the wait never shrinks with more attempts or worse health, up to the cap |
| AdaptivePool.ReachableInv | mach/src/scanner.rs:1000-1140 | in every reachable state entries are conserved, and probes number at most (1 + min(3, ceiling)) per entry locked for a claim |
| AdaptivePool.ExactlyOnePlace | mach/src/scanner.rs:1000-1140 | in every interleaving each entry is in exactly one place: queued, held by one worker, recorded once, or abandoned, be it by a worker that ended or by a lookup that failed behind its claim |
| AdaptivePool.NothingLost | mach/src/scanner.rs:1000-1140 | when all workers have ended with no failed write, panic or disconnect, the queue is empty, and every entry was recorded, exactly once, if and only if no lookup failed behind a claim |
| AdaptiveLiveness.EveryFairRunEnds | mach/src/scanner.rs:1000-1140 | every fair run without crashes in which pauses, fetch errors and failed writes cease ends all workers, wherever the target is put meanwhile and whether or not the consumer leaves |
| AdaptiveLiveness.EveryFairRunFinishes | mach/src/scanner.rs:1000-1140 | if moreover no write fails and the consumer stays, the records are then exactly the entries, each once, if and only if no lookup ever fails behind a claim |
| AdaptiveLiveness.NoWorkerStaysParked | mach/src/scanner.rs:1012-1028 | worker 0 is never parked, and once it has ended without crashing itself every worker leaves the gate, failures, target changes and crashes of others included |
| AdaptiveLiveness.CrashCanPark | mach/src/scanner.rs:1012-1028 | with rate control and any two or more workers: a fair run in which the others crash, nothing else goes wrong, worker 1 never leaves the gate and the queue stays full |
| AdaptiveLiveness.ParksExactly | mach/src/scanner.rs:1012-1028 | in every fair run, crashes included, every worker leaves the gate, if and only if rate control is off or there is at most one worker |
| AdaptiveGate.TargetHolds | mach/src/scanner.rs:1012-1028 | with rate control on, if the controller never asks for more than `k` workers, then in every interleaving none but the first `k` ever get past the gate, so at most `k` hold an entry |
| AdaptiveGate.HeldBack | mach/src/scanner.rs:1012-1028 | from any state, a worker at the gate stays behind it as long as the target does not rise above its number |
| AdaptiveGate.TargetLetsIn | mach/src/scanner.rs:1012-1028 | in a fair run in which the target stays above its number from some point on, a worker gets past the gate, whoever crashes |
| AdaptiveGate.PauseHolds | mach/src/scanner.rs:1040-1044 | while the pause flag is found set, no worker that has not passed it gets to take anything |
| AdaptiveGate.ClosedWindsDown | mach/src/scanner.rs:1046-1053 | once the consumer has left, probes still to come number at most one for each worker past its check of the stream |
| AdaptiveProbes.RetriesAreUsed | mach/src/scanner.rs:1072-1130 | an entry whose probes all fail in a transient way is probed exactly 1 + min(3, ceiling) times before its outcome is written, any other exactly once |
| AdaptiveRequeue.RequeueExactly | mach/src/scanner.rs:728-849 | with failing writes allowed, all runs that end leave no entry queued if and only if rate control is off, there is one worker, or no entries |
| AdaptiveRequeue.LookupExactly | mach/src/libs/mach_db.rs:977-1012 | with failing lookups allowed, all runs that end without a failed write, panic or disconnect record everything if and only if there are no entries |
| FixedPool.EveryInterleaving | mach/src/scanner.rs:598-720 | whatever updates are lost, the throttle is a multiple of 120 in 0..3000 and at most 120 per raise stored, and attempts number at most 6 per item taken |
| FixedPool.LosesExactly | mach/src/scanner.rs:684-720 | in every run of `n` workers every store is computed from the throttle as it then is, if and only if `n` is at most one |
| FixedPool.RaisesCanBeLost | mach/src/scanner.rs:684-687 | for any two or more workers, a run in which one stores over the raise of another, and two raises leave the throttle one step up |
| FixedPool.ThrottleFollows | mach/src/scanner.rs:598-720 | a worker alone waits exactly as its outcomes ask: 120 ms more after each rate limit, up to 3 s, and 120 ms less after any other outcome |
| FixedPool.DelayOfStreak | mach/src/scanner.rs:684-720 | `k` rate limits in a row give min(3000, d + 120k), `k` other outcomes max(0, d - 120k) |
| FixedPool.TriedSixTimes | mach/src/scanner.rs:660-720 | an item that is always rate limited is tried exactly six times |
| CrawlState.AddLinkInv | mach/src/crawler.rs:407-441 | following a link keeps the accounting: every known page in exactly one place, with a real parent one level up, within depth and page limits |
| CrawlState.FinishInv | mach/src/crawler.rs:399-405 | completion of any page of the wave, panic included, keeps the accounting |
| CrawlState.DrainInv | mach/src/crawler.rs:481-484 | reporting a waiting page as a candidate keeps the accounting |
| Crawler.Run | mach/src/crawler.rs:360-484 | the loops terminate with the state that some completion order leads to, under the very limits asked for where these are 1 to 5000 pages, at most 20 levels and 1 to 50 tasks; whatever was asked, at most max(1, min(pages, 5000)) pages are fetched, none deeper than min(depth, 20), and a crawl that hits no cap misses nothing within that depth, with one task or under the other limits of `CoverageExactly` |
| Crawler.Follow | mach/src/crawler.rs:407-441 | the link loop of one page computes the state after all its links, in order, up to the cap on known pages |
| CrawlRuns.EveryOrderFinishes | mach/src/crawler.rs:366-484 | in whatever order fetches complete, panics included, a finished crawl has every known page in exactly one place and nothing waiting |
| CrawlRuns.EveryCrawlCanFinish | mach/src/crawler.rs:366-484 | no crawl gets stuck: any state reached in some order can be completed, and what is recorded stays recorded |
| CrawlRuns.EveryPageReportedOnce | mach/src/crawler.rs:366-484 | for any number of tasks and every completion order each known page is reported exactly once (hidden static assets and panicked fetches excepted), with its true parent and the length of a real link path; fetched pages are counted and within the budget |
| CrawlRuns.DepthIsDistance | mach/src/crawler.rs:366-441 | one task, or fewer than two levels, or fewer than `tasks + 3` pages: in every completion order each recorded depth is the least number of links from the seed |
| CrawlRuns.NothingIsMissed | mach/src/crawler.rs:366-441 | under the same limits, in every completion order, a crawl below the page budget and the cap on known pages fetched every page within the depth limit and knows everything one link further at its distance |
| CrawlPaths.DepthIsReal | mach/src/crawler.rs:407-441 | in every state each recorded depth is the length of a link path spelled out by the recorded parents |
| CrawlPaths.LayersAreComplete | mach/src/crawler.rs:366-441 | pages within `m` links are known at their distance once nothing shallower than `m` is still to be fetched |
| CrawlPaths.WaveKeepsOrder | mach/src/crawler.rs:373-384 | taking a wave of pages of one depth keeps the frontier sorted by depth with spread at most one |
| CrawlPaths.FetchKeepsOrder | mach/src/crawler.rs:399-405 | completing any page of such a wave keeps it |
| CrawlPaths.LinkKeepsOrder | mach/src/crawler.rs:407-441 | following a link of such a page keeps the frontier layered, all recorded depths shortest, and forgets nothing |
| CrawlPaths.EmptyFrontierCovers | mach/src/crawler.rs:366-441 | with an empty frontier and the caps not hit, every page within the depth limit was fetched |
| CrawlWaves.DistancesExactly | mach/src/crawler.rs:366-484 | for 1 to 50 tasks: every finished crawl of every site in every order has recorded distances if and only if there is one task, or fewer than two levels, or fewer than `tasks + 3` pages |
| CrawlWaves.WavesCanOverstate | mach/src/crawler.rs:366-484 | for all other limits a site, and an order for it, in which a page two links away is recorded at depth 3 |
| CrawlCoverage.CoverageExactly | mach/src/crawler.rs:360-484 | for 1 to 50 tasks and at most 20 levels: every finished crawl of every site in every order that hits neither cap fetched every page within the depth limit, if and only if there is one task, or fewer than two levels, or fewer than `max_depth + tasks + 2` pages |
| CrawlCoverage.FewPagesCover | mach/src/crawler.rs:366-484 | with fewer pages than that nothing is missed, although depths may be wrong: a page pushed beyond the depth limit takes a depth with more pages than a wave and a page at every other depth |
| CrawlCoverage.ChainCanBeMissed | mach/src/crawler.rs:373-441 | for all other limits a site and a finished crawl that hit no cap and never fetched a page within the depth limit |
| Health.HealthWindow.constructor | adaptive/src/health.rs:107-115 | an empty window, with capacity and warm-up of at least one |
| Health.HealthWindow.Record | adaptive/src/health.rs:119-131 | the window becomes the last `cap` outcomes of the whole history and the baseline that of the first `warmup_k` answered ones |
| Health.HealthWindow.TakeStats | adaptive/src/health.rs:147-183 | the counting loop yields the snapshot of the window's contents |
| Health.HealthWindow.Tally | adaptive/src/health.rs:152-165 | each counter of the loop is the number of outcomes of its kind, and the times are those recorded |
| Health.BaselineIsFixed | adaptive/src/health.rs:119-126 | once set, the baseline is unaffected by anything recorded later |
| Health.BaselineIsHigh | adaptive/src/health.rs:119-131 | the baseline is the 95th percentile of the first `warmup_k` answered times, or one if that is zero |
| Health.PercentileHasRank | adaptive/src/health.rs:187-194 | a percentile is a recorded value whose position in sorted order is the whole number nearest to that fraction of the way from first to last |
| Health.PercentileGrows | adaptive/src/health.rs:187-194 | percentiles are monotone in the requested fraction |
| Health.SnapshotIsSound | adaptive/src/health.rs:147-183 | the four fractions sum to one, p50 is at most p95, both are recorded times |
| Health.SnapshotFigures | adaptive/src/health.rs:147-183 | each rate times the total is the number of samples of its own kinds; the times are the median and 95th percentile; inflation times baseline is the latter |
| Health.NothingIsWell | adaptive/src/health.rs:147-151 | an empty window is reported as healthy |
| Rate.RateController.constructor | adaptive/src/rate.rs:132-145 | a controller starts in slow start at the floor |
| Rate.RateController.Optimistic | adaptive/src/rate.rs:148-159 | the optimistic controller starts at the ceiling, past slow start |
| Rate.RateController.Step | adaptive/src/rate.rs:176-214 | one tick in place is the tick function, and the directive returned is that of the new state |
| Rate.ScoreIsAntitone | adaptive/src/rate.rs:87-98 | no worse rates and no worse latency never score lower |
| Rate.StressedExactly | adaptive/src/rate.rs:87-98 | a score is at the stress mark or below if and only if one failure rate reaches 5% or the weighted signals reach one half |
| Rate.HealthyExactly | adaptive/src/rate.rs:87-98 | a score is at the healthy mark or above if and only if no failure rate exceeds 2.5% and the weighted signals stay within one quarter |
| Rate.PerfectExactly | adaptive/src/rate.rs:87-98 | a score is perfect if and only if nothing failed and nothing was slower than the baseline |
| Rate.ReactsExactly | adaptive/src/rate.rs:176-204 | a snapshot is acted on from twelve samples on: up from a score of three quarters, down from one half |
| Rate.SlownessAloneIsHealthy | adaptive/src/rate.rs:87-98 | without failures the score is healthy however slow the target |
| Rate.StressNeverHelps | adaptive/src/rate.rs:87-98 | replacing an answered sample of a window by a stressed one of equal time, at a fixed baseline, never raises the score |
| Rate.CapsAreNeverExceeded | adaptive/src/rate.rs:176-214 | every directive of every run of either constructor is inside the caps |
| Rate.StressedRun | adaptive/src/rate.rs:194-202 | `k` stressed ticks give concurrency max(lo, c/2^k) and delay min(cap, d + 100k), and end slow start |
| Rate.HealthyRun | adaptive/src/rate.rs:184-202 | past slow start `k` healthy ticks give min(hi, c + k) and max(0, d - 50k) |
| Rate.SlowStartEndsForGood | adaptive/src/rate.rs:176-204 | slow start, once over, never comes back |
| Rate.SlowStartExactly | adaptive/src/rate.rs:176-204 | a run is still in slow start if and only if no tick was stressed and 1.5^k times the floor is still below the exit level for its `k` healthy ticks |
| Rate.ControllersConverge | adaptive/src/rate.rs:176-204 | two controllers fed the same snapshots keep their order, their gap never grows and each stressed tick at least halves it, clamping included, over runs of any length |
| Congestion.Estimator.Warmup | adaptive/src/congestion.rs:78-85 | the seed estimate |
| Congestion.Estimator.Decide | adaptive/src/congestion.rs:97-148 | the in-place update is the estimate function and the decision that of the updated estimate, whose knobs the lemmas below determine |
| Congestion.EstimateStaysWithin | adaptive/src/congestion.rs:106-111 | over any run the smoothed time stays between the least and greatest of seed and delivered means, the variance stays non-negative and bounded by their spread |
| Congestion.EstimateConverges | adaptive/src/congestion.rs:106-111 | under a constant mean of the delivered windows the error shrinks by exactly 7/8 per delivered window and the variance follows in closed form, undelivered windows in between or not |
| Congestion.EstimateSettles | adaptive/src/congestion.rs:106-111 | how many delivered windows bring error and variance within any given bound |
| Congestion.WarmupExactly | adaptive/src/congestion.rs:97-148 | warm-up is still on if and only if no window of the run was congested by the estimate after the windows before it and itself |
| Congestion.EveryDecisionStaysInside | adaptive/src/congestion.rs:97-148 | along any run every knob of every decision is inside its limits; concurrency is halved where the estimate of the run so far says congested, and from one decision to the next never falls elsewhere |
| Congestion.ConcurrencyFollows | adaptive/src/congestion.rs:117-131 | along any run, loss above one in ten or slowness halves concurrency; a clean and quick window doubles it, or adds four if that is more, if and only if no window before was congested, and adds one after that; any other keeps it |
| Congestion.CongestedAtExactly | adaptive/src/congestion.rs:117-118 | a window is congested if and only if it lost more than one in ten or the smoothed time exceeds twice the least time seen |
| Congestion.RetriesFollowLoss | adaptive/src/congestion.rs:133-140 | loss above one in ten gives the ceiling of retries, below one in twenty the floor, between them the middle, at least one |
| Congestion.RetriesGrowWithLoss | adaptive/src/congestion.rs:133-140 | of two windows of one run the lossier never gets fewer retries |
| Congestion.TimeoutFollowsEstimate | adaptive/src/congestion.rs:106-115 | the timeout is the smoothed time plus twice the variance, to the nearest millisecond, or the limit beyond which that lies |
| Congestion.TimeoutGrows | adaptive/src/congestion.rs:106-115 | the timeout never falls when smoothed time or variance rises |
| Congestion.LossHalves | adaptive/src/congestion.rs:97-148 | each of any number of lossy windows in a row halves the concurrency, to the floor and no further |
| Chunked.Dechunk | cortex/src/rawhttp.rs:320-342 | the loop over the shrinking slice, on any bytes, terminates with the decoding function's body |
| Chunked.DecodeShrinks | cortex/src/rawhttp.rs:320-342 | on any bytes the output is empty or at least three bytes shorter than the input |
| Chunked.DecodeInvertsEncode | cortex/src/rawhttp.rs:313-342 | decoding any chunked message gives its data: data with CRLF, either hex case, leading zeros, extensions and trailers included |
| Chunked.SizesAreRead | cortex/src/rawhttp.rs:320-326 | a size is read from hexadecimal figures, small or capital, with zeros and a plus sign in front or not, below 2^64; anything else is no size |
| Chunked.PrefixDecodes | cortex/src/rawhttp.rs:320-342 | on any bytes, well-formed or not, decoding a prefix gives a prefix of what decoding the whole gives |
| Chunked.TruncationIsSafe | cortex/src/rawhttp.rs:313-342 | decoding any prefix of an encoding gives a prefix of the message |
| Sni.ServerName | capture/src/sni.rs:25-71 | the offset walk reads in bounds on any bytes, terminates, and returns the name function's result |
| Sni.SkipToExtensions | capture/src/sni.rs:37-50 | the walk over the fixed and variable fields ends at the extensions, inside the body |
| Sni.PrefixNeverLies | capture/src/sni.rs:25-71 | on any bytes, a truncated buffer yields no name or the same name |
| Sni.HelloIsRead | capture/src/sni.rs:25-71 | a well-formed ClientHello in one record yields what its first server_name extension holds, whatever follows it |
| Sni.NameIsFound | capture/src/sni.rs:25-71 | wherever the server_name extension stands, its first name is returned in lower case |
| Sni.MatchesByLabels | capture/src/sni.rs:78-84 | a domain covers a host if and only if the host's labels end with all the domain's labels |
| Sni.SubdomainsAreBypassed | capture/src/sni.rs:73-84 | whatever the list bypasses it bypasses with all subdomains |
| Sni.BypassedExactly | capture/src/sni.rs:78-84 | a host is bypassed if and only if the labels of its name end with all those of some entry of the list |
| Sni.NamesAreTrimmed | capture/src/sni.rs:79-81 | an entry counts without the blanks around it and the dots before it, a host without the dots behind it |
| Sni.LowerIdentifiesCase | capture/src/sni.rs:64-66 | names are identified if and only if they differ in the case of letters at most |
| Supervisor.Daemons.constructor | core/src/lib.rs:936-943 | nothing is running or held before the first start |
| Supervisor.Daemons.Start | core/src/lib.rs:945-953 | the start loop starts every id that can be started; it reports failure exactly when none could |
| Supervisor.Daemons.Reconcile | core/src/lib.rs:972-1024 | one tick on the mutable map and set is the tick function on their values |
| Supervisor.Daemons.ReapExited | core/src/lib.rs:973-987 | exactly the exited daemons move from running to held |
| Supervisor.Daemons.StopRemoved | core/src/lib.rs:1007-1022 | exactly the daemons whose configuration is gone are removed, the others keep their process |
| Supervisor.NoFlapping | core/src/lib.rs:937-1024 | over any run, between two successful starts of one node some successful rescan saw its configuration missing |
| Supervisor.Reconciled | core/src/lib.rs:972-1024 | after a successful rescan running and held are disjoint, registered, and cover every id whose start did not fail; held are exactly the old held and the newly exited |
| Supervisor.FailedRescanIsHarmless | core/src/lib.rs:973-994 | a failed rescan starts, stops and releases nothing |
| PercentCoding.PctEncode | cortex/src/probe.rs:230-242 | the byte loop computes the encoding |
| PercentCoding.PctDecode | cortex/src/probe.rs:244-260 | the byte loop computes the decoding as text, ill-formed UTF-8 replaced, or panics where it does |
| Utf8.LossyKeepsExactly | cortex/src/probe.rs:259 | the replacement of ill-formed parts changes nothing if and only if the bytes are valid UTF-8 |
| Utf8.ValidExactly | cortex/src/probe.rs:259 | valid bytes are exactly the encodings of texts, character by character as in section 3 of RFC 3629 |
| Utf8.BadIsLongest | cortex/src/probe.rs:259 | one replacement character stands for the longest beginning of a character at the front of what is ill-formed, or for one byte |
| Utf8.SpacesAreTrimmed | cortex/src/rawhttp.rs:322-325 | trimming takes a character off either end if and only if it has the Unicode property White_Space |
| PercentCoding.EncodingIsPlain | cortex/src/probe.rs:230-242 | an encoding contains unreserved characters and percent signs only |
| PercentCoding.BytesAreEncoded | cortex/src/probe.rs:230-242 | exactly the unreserved characters of section 2.3 of RFC 3986 stand for themselves, any other byte becomes a percent sign and two capital hexadecimal figures |
| PercentCoding.PlainIsUnplussed | cortex/src/probe.rs:244-260 | without percent signs decoding turns plus signs into blanks and changes nothing else |
| PercentCoding.DecodeInvertsEncode | cortex/src/probe.rs:230-260 | decoding what was encoded gives the text back; exactly the valid UTF-8 byte strings return unchanged |
| PercentCoding.DecodedIsText | cortex/src/probe.rs:244-260 | whatever is decoded, the result is valid UTF-8 |
| PercentCoding.EncodingIsInjective | cortex/src/probe.rs:230-242 | different values encode differently |
| PercentCoding.DecodePanicsExactly | cortex/src/probe.rs:244-260 | decoding panics if and only if some percent sign is followed three bytes on by the middle of a character |
| PercentCoding.ValidTextCanPanic | cortex/src/probe.rs:244-260 | a valid UTF-8 text on which it does |
| UrlParams.Set | cortex/src/inject.rs:1504-1534 | the pair loop with its `replaced` flag computes the rewritten URL |
| UrlParams.Current | cortex/src/inject.rs:1488-1502 | the early-returning loop finds the first pair of that name |
| UrlParams.CurrentReadsParams | cortex/src/inject.rs:1488-1502 | in a URL written out as path, parameters and fragment any name reads as the decoded value of its first parameter, or is absent |
| UrlParams.SetWritesParams | cortex/src/inject.rs:1504-1534 | in such a URL setting a parameter gives every one of its name the encoded value where it stands, or adds one at the end, and leaves path, other parameters and fragment as they are |
| UrlParams.RewrittenPairs | cortex/src/inject.rs:1504-1534 | the pairs of the result are the rewritten pairs; path and fragment are untouched |
| UrlParams.ReadBack | cortex/src/inject.rs:1488-1534 | reading back what was set gives the value, for every URL and exactly the values that are valid UTF-8; any other comes back with its ill-formed parts replaced |
| UrlParams.ReadBackExactly | cortex/src/inject.rs:1488-1534 | that works for all URLs and texts if and only if the name is free of `&`, `=` and `#` |
| UrlParams.UnplainIsNeverFound | cortex/src/inject.rs:1488-1502 | any other name is never found, in any URL |
| UrlParams.LastSetWins | cortex/src/inject.rs:1504-1534 | setting twice equals the last set |
| UrlParams.OtherReading | cortex/src/inject.rs:1488-1534 | what any other name reads after a set, for any names and URL: the first non-empty pair of that name in the URL's own query, else what the added text holds |
| UrlParams.OthersUnchangedExactly | cortex/src/inject.rs:1488-1534 | another non-empty name reads as before if and only if it was found in a real query or reads the same in the added text; a name free of delimiters adds nothing of another name |
| UrlParams.FragmentIsRead | cortex/src/inject.rs:1488-1534 | a URL whose fragment is read as a query, and no longer once another name is set |
| UrlParams.EmptyPairIsDropped | cortex/src/inject.rs:1515-1520 | a URL with a real query whose empty name reads differently after a set |
| Template.ExpandRequest | cortex/src/template.rs:305-366 | the nested loops with their early exits compute the capped rounds |
| Template.OneRound | cortex/src/template.rs:341-362 | one round yields the combinations in order, cut at the cap |
| Template.CapHolds | cortex/src/template.rs:305-366 | for any template and payloads at most `cap` requests come out, unless no payload is referenced, when the request itself does |
| TemplateText.ReplaceIsFill | cortex/src/template.rs:345-352 | textual replacement of a placeholder fills exactly the holes of that key |
| TemplateText.ReferencedExactly | cortex/src/template.rs:321-335 | a payload counts as referenced if and only if its hole occurs in URL, body, a header value or a header name |
| TemplateProduct.ChoicesAreAll | cortex/src/template.rs:339-364 | the rounds enumerate every choice of one value per payload, each once |
| TemplateProduct.ExpansionIsProduct | cortex/src/template.rs:305-366 | the result is the fillings by all choices for the payloads gone through, in order, cut at the cap |
| TemplateProduct.WholeProduct | cortex/src/template.rs:305-366 | non-empty lists with a product below the cap: the whole cartesian product, each combination once, and the placeholders left are exactly those in header names |
| TemplateProduct.LeftoverExactly | cortex/src/template.rs:340-364 | the placeholders left in a result are exactly those of the payloads not gone through and those in header names |
| TemplateProduct.NothingLeftExactly | cortex/src/template.rs:340-364 | none is left if and only if header names have none and no proper prefix of the payloads in use reaches the cap |
| TemplateProduct.NameOnlyRepeats | cortex/src/template.rs:326-352 | a payload mentioned in header names only repeats the same request once per value |
| TemplateProduct.CapCanLeavePlaceholders | cortex/src/template.rs:354-363 | a template whose whole product is no larger than the cap and still has a placeholder left |
| TemplateProduct.OrderDoesNotMatter | cortex/src/template.rs:305-366 | below the cap the multiset of requests does not depend on the map's order |
| TemplateProduct.ValuesCanCascade | cortex/src/template.rs:340-364 | two payloads, one value holding the placeholder of the other, whose two orders give different requests |
| Redact.Idempotent | capture/src/reduce.rs:124-169 | redacting twice is redacting once, on any text |
| Redact.RedactedIsShape | capture/src/reduce.rs:124-169 | the redaction of a URL is made of scheme, host, path and ordered keys alone |
| Redact.NonInterference | capture/src/reduce.rs:124-169 | two URLs redact equally if and only if they agree on those, whatever their values, user info and fragment: nothing else leaks and nothing else is lost |

## Left out

- Floating point: `f64` is modelled by exact reals, without rounding, NaN or infinities; the loss ratio of a window that sent nothing is modelled by how it compares, and limits with the floor above the ceiling, on which a clamp panics, are excluded.
- DSL numbers: the value of a number lexeme is unbounded and exact; host functions (number parsing, fraction printing, regular expressions, Unicode case mapping and trimming) are parameters.
- DSL text: one `char` of the model is one byte of the expression; `eval_string` is the string coercion of `EvalValue` and has no member of its own.
- AdaptivePool.NothingLost: locking a queued row is atomic, marking it and the two lookups behind it are one step (no other worker can tell them apart), and rows they look for exist by foreign key; writes succeed or fail as a whole.
- AdaptiveLiveness.EveryFairRunEnds: fairness is assumed of the scheduler of the workers; pauses, fetch errors and failed writes are assumed to cease, without which no run need end.
- The controller task of the adaptive pool sets the target to any value at any time; its own timing and the evasion and cooldown waits are not modelled.
- CrawlRuns.DepthIsDistance: assumes that pages with one key have the same links and that no fetch panics; a panicked fetch loses its links.
- FixedPool.EveryInterleaving: outcome recording of the fixed pool is one step; conservation of entries is proved for the adaptive pool.
- Crawler.Run: fetching, link extraction, URL resolution, scoping and the page key are parameters (`Site`); forms, mined API calls, specification probes, acknowledgement and progress events are left out, none of which touches the frontier.
- Supervisor.Daemons.Reconcile: signals, process ids reuse and the shutdown sequence are left out; the ids found by a rescan are taken to be distinct, being file stems of one directory.
- Health.PercentileHasRank: the library sort is modelled by its result.
- Rate.RateController.Step: postures have the same parameters in the source, so the posture is not a parameter of the model.
- Sni.ServerName: names are byte strings; only ASCII letters are lower-cased, as in the source.
- UrlParams.Set: `query_param_names` would add only easy members and is left out.
- TemplateProduct.WholeProduct: literal text, keys and values are free of braces; for values that contain placeholders see `TemplateProduct.ValuesCanCascade`.
- Template.ExpandRequest: the base URL expansion of the path, out-of-band markers, matchers and evasion variants are left out.
- Redact.NonInterference: is about URLs with a scheme, and with the delimiters where the grammar of URLs puts them; `Redact.Idempotent` covers any text.
- Sockets, TLS, HTTP clients, process spawning, storage, sleeping, detection heuristics, payload tables, compression, certificates and user interfaces.
