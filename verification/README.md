# aegis-cli: a verified model of its deterministic cores

aegis-cli runs a local coding agent unattended over a requirements table. This project models the
parts of it whose behaviour is decided by code rather than by a model or a network, and proves what
they promise.

| file | what it models |
|---|---|
| `Lists.dfy`, `Sorting.dfy`, `Text.dfy` | lists without repetition, sorting strings, and the Go string operations the rest relies on: splitting into lines, joining, trimming |
| `SetSums.dfy`, `Markov.dfy`, `PageRank.dfy`, `RepoMap.dfy`, `RepoGraph.dfy`, `RepoScan.dfy`, `RepoRender.dfy` | the repo map: the def/ref graph, personalisation, personalised PageRank, the ranking of a whole scan, the order and the budget |
| `Binomials.dfy`, `RangeSums.dfy`, `Fisher.dfy` | the two-sided Fisher exact test, in exact arithmetic |
| `Requirements.dfy`, `Stalling.dfy` | the requirements table and its claims: `Next`, `SetStatus`, `Claim`, `Release`; which tables can stall a run |
| `Stuck.dfy`, `StuckMeaning.dfy` | the stuck detector over an agent's trajectory, and its verdict in terms of the steps' fields |
| `Drain.dfy`, `DrainLaws.dfy`, `DrainTurns.dfy`, `DrainCompleteness.dfy`, `DrainTermination.dfy` | the unattended drain loop, what every run keeps, a run turn by turn in terms of its inputs, when a backlog empties, and when a run ends |
| `Claims.dfy`, `LostUpdates.dfy`, `Offers.dfy` | several drain loops over one store, interleaved step by step: which of their writes survive, and when a closed requirement stays closed |
| `Memory.dfy`, `MemoryHistory.dfy` | the working-memory store and its eviction |
| `Edits.dfy`, `EditFormat.dfy`, `Workspace.dfy` | the built-in harness: the file-block parser, the format it reads, apply, roll back, drive |
| `Pruning.dfy`, `PruningPass.dfy`, `PruningTransform.dfy`, `PruningLaws.dfy`, `PruningObservations.dfy`, `PruningRounds.dfy`, `PruningInput.dfy` | context pruning before a model call: the passes, what they keep, what becomes of each observation, and pruning twice |
| `Ledger.dfy` | the on-disk checklist of one requirement |
| `Profile.dfy`, `FitMeaning.dfy`, `Recommend.dfy`, `ContextFit.dfy` | model fit and recommendation, and the context window; the estimates in numbers |

`dafny verify dfyconfig.toml` checks everything.

How the code is represented:

- Code that updates state is a class or a method with the same loops, branches and early returns; its
  `ensures` ties the new state to a specification function, and the laws are lemmas about that function.
- What a method shares with its specification (what a line, a cell, a row, a rank, an outcome or a number
  counts as) is stated a second time in terms of the inputs alone, constants written out, and proved equal.
- Whatever the code asks of the outside is an input that the theorems quantify over: what the model,
  the verifier, the clock and the file system answer (`Drain.Turn`, `Drain.Attempt`, `Workspace.Fault`,
  `Workspace.Back`, `Memory.Save`, `Ledger.Io`), torn writes included, and which errors occur. The order in
  which a Go map is walked is an arbitrary choice.
- Floating point is `real`, machine integers are unbounded.

Where the code and its comments differ, the model follows the code:

- The comment at `internal/loop/loop.go:176` says a claim is released on every exit path. The code
  releases it on the closed and the parked return only, and ignores a failing release.
  `DrainLaws.ClaimsLeft` says exactly which claims a run leaves.
- `Next` lets the last row of a repeated id decide its status, `SetStatus` writes the first. A run therefore
  need not end: on the two rows of `DrainTermination.RepeatedIdStalls` it does not. A table can stall
  (`Stalling.CanStall`) when an open unclaimed row that is not the first with its id waits only for what is
  closed or can be closed in rounds, a row at a time. Every run over a table ends, whatever the world answers,
  exactly if the table cannot stall or the configuration bounds the run
  (`DrainTermination.EveryRunHaltsExactly`). What is proved of a run holds of every run that ends, whatever its
  ids, except where each open row is asked to be the first with its id, which keeps a table from stalling.
- Claims exclude loops from each other's requirements, not from each other's table writes, which are a
  separate read and write. `Claims.StatusCanRevert` gives the run in which a closed requirement reopens, and
  `LostUpdates.ReopensExactly` says of every step of every run when it takes a closed requirement back. Reads
  and writes that do not overlap amount to indivisible updates (`LostUpdates.OverlapFreeIsSerial`).
- Nor does a loop look at the status again between being offered a requirement and claiming it. In the
  overlap-free run of `Offers.SettledAfterOffered` a loop claims and parks what another has closed meanwhile.
  `Offers.ClaimLandsOpen` and `Offers.TakenBackExactly` say exactly when this happens, and
  `Offers.SettledForGood` that without it, and without overlap, what is settled stays settled.
- `Check` on a done item rewrites the first open box anywhere in its line: `Ledger.CheckDoneItem` says
  exactly when that is the identity, `Ledger.CheckDoneCanChange` when it is not.
- Raising the stuck thresholds can make a run look stuck that was not: `Stuck.RaisingSticksExactly` says
  when, `Stuck.RaisingSticksOnCondense` gives a run.
- A second pruning of a pruned list can change it: `PruningInput.SecondTransformExactly` says of the list that goes
  in exactly when, `PruningInput.SecondTransformCanChange` gives lists that change.
- A memory file torn off while it is written reads back as empty, and a ledger torn off while it is seeded is
  never seeded again; `MemoryHistory.EmitFollows` and `Ledger.Ledger.Seed` include both.
- A drive allowed no parse attempt at all asks nothing, writes nothing and can succeed
  (`Workspace.CompletedEdits`).

## Model

| member | source | states |
|---|---|---|
| RepoMap.Ranks | internal/index/repomap.go:205-255 | the nested map loops compute exactly the iterates of the random surfer, whatever order the maps are walked in, for any edge sources and any personalisation |
| RepoMap.Iteration | internal/index/repomap.go:232-253 | one pass of the outer loop is one damped move of the surfer |
| RepoMap.Spread | internal/index/repomap.go:241-248 | after the edge loop each rank has received the inflow of every source with outgoing weight, once |
| RepoMap.PushSplits | internal/index/repomap.go:233-251 | what the surfer brings to a file is what arrives along edges plus its teleport share of the dangling mass; sources outside the node list bring nothing |
| PageRank.SurferIsStochastic | internal/index/repomap.go:222-227 | normalised edge weights, with teleport from dangling files, form a stochastic kernel |
| PageRank.TeleportIsDistribution | internal/index/repomap.go:210-221 | the personalisation vector is a distribution, uniform when nothing was mentioned; `RepoScan.TeleportInProportion` says which |
| PageRank.StepKeepsDistribution | internal/index/repomap.go:232-253 | an iteration keeps all ranks non-negative and their sum 1 |
| PageRank.IterateIsDistribution | internal/index/repomap.go:228-254 | so after any number of iterations the ranks are a distribution over the node list |
| PageRank.StepContracts | internal/index/repomap.go:232-253 | one iteration brings any two rank vectors closer in L1 by the damping factor |
| PageRank.IteratesConverge | internal/index/repomap.go:205-255 | iterates k and j + k are within 2 * damping^k of each other |
| PageRank.IterateNearStationary | internal/index/repomap.go:99-99 | after k iterations the ranks are within 2 * damping^k of every stationary distribution |
| PageRank.StationaryIsUnique | internal/index/repomap.go:205-255 | below damping 1 there is at most one stationary distribution |
| RepoGraph.AddEdges | internal/index/repomap.go:160-180 | each edge weighs the number of identifiers of the source file that resolve to a definition in the other file; destinations are nodes, weights positive |
| RepoGraph.AddFile | internal/index/repomap.go:314-327 | one file's words add to its own edges only, never to itself |
| RepoGraph.Personalize | internal/index/repomap.go:182-202 | one per mentioned symbol a file defines, two per mention found in its path |
| RepoGraph.Keys | internal/index/repomap.go:353-367 | the node list is every defining or rendered file, once, in code-point order |
| RepoScan.TeleportInProportion | internal/index/repomap.go:210-221 | a file's share times the total interest is its own interest; with no interest at all shares are equal |
| RepoScan.SurferAlongEdges | internal/index/repomap.go:222-251 | from a file with outgoing weight a move is by weight over total weight, from any other as the personalisation says |
| RepoScan.ScanMeans | internal/index/repomap.go:93-99 | whatever was scanned, interest and weights are the numbers of mentions and words that name something a file defines, twice those of mentions in its path, and the ranks twenty rounds over these |
| RepoScan.RankFiles | internal/index/repomap.go:93-99 | a whole scan, with no assumption on it: the ranks are twenty rounds, 15 hundredths by interest and 85 along the weights the scan counts, a distribution within 2 * 0.85^20 of every stationary one; with interest T in all, 0.15 * interest <= T * rank |
| Sorting.SortedIsUnique | internal/index/repomap.go:100-105 | a strict order sorts given elements in one way, however they were collected |
| Sorting.BeforeMeans | internal/index/repomap.go:104-104 | one name is before another exactly when it is a proper prefix of it or smaller at the first character where they differ |
| RepoRender.Render | internal/index/repomap.go:257-278 | the text is the longest run of whole lines, in order, that fits the budget |
| RepoRender.Build | internal/index/repomap.go:35-107 | for any scan the map is that text for the files by rank and then by name, the ranks those of the scan, and never longer than the budget, or than 4000 when none is given |
| RepoRender.MapIsDetermined | internal/index/repomap.go:95-106 | ranks, definitions and budget determine the order and the text, whatever order the maps are walked in |
| RepoRender.AheadIsShownFirst | internal/index/repomap.go:100-106 | a file of which anything is shown has every file of higher rank, or of equal rank and earlier name, shown in full |
| RepoRender.OneFileText | internal/index/repomap.go:257-278 | a file's text is its name and a colon, then each definition indented by two |
| Text.ContainsMeans | internal/index/repomap.go:196-196 | a mention is found in a path exactly when the path is something, the mention, and something |
| Fisher.Hyp | scripts/intent-bench.py:149-150 | every binomial argument is legal, the divisor is not zero, each probability in range is positive |
| Fisher.RangeIsFeasible | scripts/intent-bench.py:153-153 | the summed range is exactly the cell values that leave all four cells non-negative, the observed one among them |
| Fisher.HypMeans | scripts/intent-bench.py:149-150 | a cell value's probability times the factorials of the total and the four cells is the product of those of the four margins |
| Fisher.ProbabilitiesSumToOne | scripts/intent-bench.py:149-153 | the hypergeometric terms over the range sum to exactly 1 |
| Fisher.PValueBounds | scripts/intent-bench.py:152-154 | the sum lies between the observed probability and 1, so capping it at 1 changes nothing |
| Fisher.PValueIsOne | scripts/intent-bench.py:152-154 | the value is 1 exactly when no feasible cell value has more than 1.0000001 times the observed probability |
| Fisher.PValueMeans | scripts/intent-bench.py:142-154 | the value is 1 less the sum of the probabilities that are more than 1.0000001 times the observed one |
| Fisher.PValueSwapRows | scripts/intent-bench.py:142-154 | swapping the rows leaves the p-value unchanged |
| Fisher.PValueSwapColumns | scripts/intent-bench.py:142-154 | swapping the columns leaves the p-value unchanged |
| Fisher.PValueTranspose | scripts/intent-bench.py:142-154 | transposing the table leaves the p-value unchanged |
| Binomials.Vandermonde | scripts/intent-bench.py:149-150 | the products of binomials sum to the binomial of the totals |
| Requirements.StatusRoundTrip | internal/rtmx/store.go:28-53 | a written status reads back as itself, a claim as open; the cells written are COMPLETE, BLOCKED, PROPOSED and OPEN |
| Requirements.StatusExactly | internal/rtmx/store.go:28-40 | a cell reads closed, blocked or proposed exactly when it is that word in any case amid space, and open when it is anything else |
| Requirements.Store.Next | internal/rtmx/store.go:154-182 | the first row in file order that is open, unclaimed and has all dependencies closed, or none |
| Requirements.Store.SetStatus | internal/rtmx/store.go:186-206 | exactly the first row of that id changes, in its status cell only; a failed write or unknown id changes nothing |
| Requirements.Store.Claim | internal/rtmx/store.go:239-250 | succeeds only on an unclaimed id, which it then holds |
| Requirements.Store.Release | internal/rtmx/store.go:253-259 | drops the claim, present or not |
| Requirements.SettlingLowersOpenCount | internal/rtmx/store.go:186-206 | on any table, closing or blocking an offered row keeps ids and dependencies and lowers the open count by one if the first row with its id is open, else not at all |
| Requirements.UniqueIsOpenFirst | internal/rtmx/store.go:154-182 | distinct ids are a special case of that |
| Requirements.SettlingProgress | internal/rtmx/store.go:159-195 | on any table, a turn makes progress exactly when the first row of the offered id is open |
| Requirements.SettlingKeepsOrder | internal/rtmx/store.go:170-176 | on any table, settling an offered row keeps every closed requirement's dependencies closed exactly when the row written is blocked or has its own closed |
| Stuck.DetectStuck | internal/loop/stuck.go:63-143 | the verdict is the first of the five patterns, in the detector's order, that the run shows |
| Stuck.KeyInjective | internal/loop/stuck.go:64-65 | keys agree only for equal tool, arguments and observation when tool and arguments hold no NUL |
| StuckMeaning.VerdictReads | internal/loop/stuck.go:63-143 | the verdict by tool, arguments, observation, error and kind of the steps, without keys: which steps must agree with which, for any thresholds |
| StuckMeaning.DefaultVerdictReads | internal/loop/stuck.go:54-56 | the same at four equal steps, three errors, three of talk, three cycles and ten condensations |
| Stuck.OnlyTheTailMatters | internal/loop/stuck.go:79-141 | apart from the condensation count, steps before the longest window make no difference |
| Stuck.RaisingNeverSticks | internal/loop/stuck.go:79-141 | raising thresholds never makes a run stuck whose repeated-action window opens on anything but a condensation |
| Stuck.RaisingSticksExactly | internal/loop/stuck.go:93-106 | raising thresholds can do so exactly when a longer repeated action hides behind a condensation |
| Stuck.RaisingSticksOnCondense | internal/loop/stuck.go:93-106 | a run that is not stuck at one threshold and stuck at a higher one |
| Drain.Loop.Run | internal/loop/loop.go:112-172 | for any table and every answer of the world, a run that ends returns the result, table, claims and audit log of the specified run; `DrainTurns.RunIsItsTurns` says which run that is |
| Drain.Loop.TurnOnce | internal/loop/loop.go:117-170 | one pass through the loop body, with its stop conditions in order |
| Drain.Loop.WorkOn | internal/loop/loop.go:178-331 | claim, attempts, status write, release: what each leaves in table, claims and log, on success and on each error |
| Drain.Loop.Attempts | internal/loop/loop.go:202-293 | the attempts stop at the first stuck verdict, pass, or spent task budget, and record every verify |
| DrainTurns.RunIsItsTurns | internal/loop/loop.go:112-172 | of every run that ends: each turn that went all the way met no spent budget or wall clock, no cancellation and no failure, and worked the first ready row; each of the eight stops ends the run exactly if its own condition holds then and none before it in the loop's order does; table and claims are what those turns leave |
| DrainTurns.WorkEndsExactly | internal/loop/loop.go:202-293 | attempts go on exactly while none is stuck, passes or has spent the task's tokens or time; the one that does decides the end, or their number does |
| DrainTurns.WhatIsWritten | internal/loop/loop.go:297-330 | afterwards the first row of a worked requirement is closed if its last work passed, blocked if that was parked; every other row is as it was |
| Drain.TurnMakesProgress | internal/loop/loop.go:117-171 | a turn after which the loop goes on lowers the open count by one if the first row of the offered id is open, else not at all |
| DrainTermination.UnstallableRunHalts | internal/loop/loop.go:112-172 | a run over a table that cannot stall ends, with every budget at zero and whatever the world answers |
| DrainTermination.OpenFirstHalts | internal/loop/loop.go:112-172 | so does one in which each open row is the first with its id |
| DrainTermination.BoundedRunHalts | internal/loop/loop.go:117-171 | on any table a run ends with once, a requirement budget, a breaker limit that is not positive, or no attempt allowed |
| DrainTermination.StalledTurn | internal/loop/loop.go:117-171 | offered a row that is not the first with its id, a turn that closes it goes on with the same claims, is offered it again, and from then on changes no row |
| DrainTermination.SmoothRunHaltsExactly | internal/loop/loop.go:112-172 | with no bound, no failure and only passes, a run ends exactly when its table and claims cannot stall |
| DrainTermination.SmoothWorldIsSmooth | internal/loop/loop.go:112-293 | whenever an attempt is allowed there is such a world |
| DrainTermination.EveryRunHaltsExactly | internal/loop/loop.go:112-172 | every run over a table ends, whatever the world answers, exactly when the configuration bounds it or the table cannot stall |
| Stalling.CanStallWithin | internal/rtmx/store.go:154-195 | whether a table can stall is decided by as many rounds as it has rows |
| DrainTermination.RepeatedIdStalls | internal/loop/loop.go:112-172 | two rows on which every such run goes on for ever |
| DrainLaws.WorkIsGood | internal/loop/loop.go:210-293 | at most Retries + 1 verifies; a block closes exactly when its last verify is a pass, and a park holds no pass |
| DrainLaws.VerdictsAreAnswers | internal/loop/loop.go:211-293 | the recorded verdicts are the verifier's answers to the first attempts, those whose drive failed left out; a park for exhausted retries made all Retries + 1 of them |
| DrainLaws.EveryRun | internal/loop/loop.go:112-172 | on every return: attempted = closed + parked, stuck <= parked, attempted within a positive maximum, the table is the replay of the blocks with ids and dependencies kept, the breaker flag holds exactly when the last BreakAfter outcomes are parks and no earlier prefix had that; open requirements are conserved where each open row is the first with its id |
| DrainLaws.OrderAtEveryTurn | internal/loop/loop.go:112-172 | where each open row is the first with its id, a closed set that starts dependency-closed is so in every state a run passes through |
| DrainLaws.RunIsReached | internal/loop/loop.go:112-172 | the state a run returns in is one of those states |
| DrainLaws.ClaimsLeft | internal/loop/loop.go:297-330 | the claims after a run are those before it, plus the requirements whose release failed, plus the one whose status write failed |
| DrainLaws.AuditIsReadable | internal/loop/loop.go:182-328 | the audit log is parsed back, unambiguously, into its blocks and the point where a failed write cut it |
| DrainLaws.AuditAccountsForTheRun | internal/loop/loop.go:178-369 | the log alone determines the counts and the table the run leaves |
| DrainCompleteness.NothingToOffer | internal/rtmx/store.go:154-182 | on an acyclic table with nothing to offer, every open unclaimed requirement reaches, through open unclaimed ones, a missing, blocked, proposed or claimed one |
| DrainCompleteness.DrainedRun | internal/loop/loop.go:133-140 | so a run that stops drained leaves open only what is held up |
| DrainCompleteness.DrainedMeansClosed | internal/loop/loop.go:133-140 | a drained backlog of open and closed rows with known dependencies, each open row the first with its id and unclaimed, is all closed unless something was parked |
| DrainCompleteness.UndisturbedRunDrains | internal/loop/loop.go:112-172 | with no budget, no cancellation and no failure but of releases, fewer open requirements than the breaker's limit make the run end drained, parks or not |
| DrainCompleteness.BacklogCloses | internal/loop/loop.go:112-172 | if moreover the backlog is workable and all work passes, any positive limit will do and every row ends closed |
| Claims.AtMostOneHolder | internal/rtmx/store.go:239-259 | in every interleaving of any number of loops, at most one is between its claim and its release of an id |
| Claims.ReclaimNeedsOwnRelease | internal/loop/loop.go:179-327 | an id is claimed again, by anyone, only after the loop that claimed it released it |
| Claims.StatusCanRevert | internal/rtmx/store.go:186-226 | two loops on different requirements can undo each other's status write |
| LostUpdates.EveryWriteHasARead | internal/rtmx/store.go:186-226 | in every run, every write was preceded by its loop's read, with no step of that loop in between |
| LostUpdates.WriteOfWhatWasRead | internal/rtmx/store.go:186-226 | it leaves the table read then with one status set, whatever was written in between |
| LostUpdates.WriteSurvivesExactly | internal/rtmx/store.go:186-226 | it does what it would have done to the table it overwrites exactly when no other cell changed since the read; otherwise those cells go back |
| LostUpdates.ReopensExactly | internal/rtmx/store.go:186-226 | a step takes a closed row back exactly when it writes a table read while the row was not closed, or writes that row's own status |
| LostUpdates.QuietWriteSurvives | internal/rtmx/store.go:186-226 | nothing is lost when no write comes between the read and the write |
| LostUpdates.OverlapFreeRun | internal/rtmx/store.go:186-226 | in a run whose reads and writes never overlap, a row changes only by a write for its own id |
| LostUpdates.HeldStatusLasts | internal/loop/loop.go:297-330 | there a status written by a loop is still stored when that loop comes to its release |
| LostUpdates.OverlapFreeIsSerial | internal/rtmx/store.go:186-226 | there the table is at every step what indivisible updates in the order of the writes would give |
| Offers.OfferIsOpen | internal/rtmx/store.go:154-182 | what is offered is a row SetStatus will write, if each open row is the first with its id |
| Offers.ClaimLandsOpen | internal/loop/loop.go:133-179 | in such a run a claim lands on an open row exactly when nobody wrote for the requirement since it was offered |
| Offers.TakenBackExactly | internal/loop/loop.go:133-330 | there a step takes a closed row back exactly when it writes for a claim that found the row closed |
| Offers.SettledStaysSettled | internal/loop/loop.go:133-330 | if no claim lands on what was settled after its offer, no step changes a row that is not open |
| Offers.SettledForGood | internal/loop/loop.go:133-330 | so over any stretch of such a run a closed requirement stays closed |
| Offers.SettledAfterOffered | internal/loop/loop.go:133-179 | an overlap-free run of two loops over one row, both offers those of Next, that closes the requirement and then blocks it |
| Memory.Store.Open | internal/memory/store.go:53-70 | the counter is the largest stamp in the file, the caps default when not positive |
| Memory.Store.Emit | internal/memory/store.go:75-87 | for any entries: updated in place or appended, then rid of the oldest over the cap; with distinct keys and stamps that is each entry with cap newer keys of its kind |
| Memory.Store.GcAndSave | internal/memory/store.go:96-122 | sorting, index drop and rebuild remove just enough of the kind, none newer than one that stays, whatever order equal stamps sort in; the file after each outcome of the save |
| Memory.EvictedIsRetained | internal/memory/store.go:96-116 | with distinct keys and stamps the choice is forced: exactly the entries with fewer than cap newer keys of their kind stay |
| Memory.RetainPositions | internal/memory/store.go:109-115 | eviction keeps the remaining entries in their order |
| MemoryHistory.HistoryRemembered | internal/memory/store.go:53-122 | after any history the store holds exactly the latest texts of the cap most recently emitted keys of each kind, with distinct keys and stamps |
| MemoryHistory.CounterIsLargestStamp | internal/memory/store.go:61-68 | the counter equals the largest stamp held, so it survives a reopen |
| MemoryHistory.EmitFollows | internal/memory/store.go:75-122 | an emit follows the history one step longer, in memory always; the file then holds that history, the one before, or none, as the save ended |
| MemoryHistory.ReopenFollows | internal/memory/store.go:53-70 | reopening with the same caps, at any point, gives a store that follows the history the file holds |
| Edits.ParseEdits | internal/harness/serving/serving.go:195-231 | the index-moving loops read the blocks of the specification, errors included, left to right; `EditFormat.ParsesExactly` says which replies those are |
| EditFormat.ParseUndoesPrint | internal/harness/serving/serving.go:30-40 | parsing undoes printing, with any space around fences and headers, carriage returns included, prose between the blocks, and headers inside their bodies |
| EditFormat.ParsesExactly | internal/harness/serving/serving.go:195-231 | a reply yields these edits, or the error of a missing path, of a block never closed, or of no block, exactly when its lines are blocks and prose followed by nothing, by a header without path, by a header without a later fence, or hold no block |
| EditFormat.FenceMeans | internal/harness/serving/serving.go:208-216 | a line closes a block exactly when it is three backquotes amid space |
| EditFormat.HeaderMeans | internal/harness/serving/serving.go:199-202 | a line opens one exactly when it is three backquotes and "file" after space |
| Text.SpaceReads | internal/harness/serving/serving.go:200-212 | the code points that count as space |
| EditFormat.ParserImage | internal/harness/serving/serving.go:195-231 | the lists a reply can yield are exactly the non-empty lists of printable edits |
| Workspace.Adapter.ApplyEdits | internal/harness/serving/serving.go:259-277 | whatever fails wherever, undoing the log gives the old files; with no failure the files are the edits left to right |
| Workspace.Adapter.Rollback | internal/harness/serving/serving.go:280-289 | the log is undone newest first, failures ignored |
| Workspace.RestoredExactly | internal/harness/serving/serving.go:280-289 | a path is recovered exactly when the oldest of its log entries left what it had recorded, whatever fails elsewhere |
| Workspace.RollbackRecovers | internal/harness/serving/serving.go:280-289 | so it is when restoring its first edit does not fail |
| Workspace.Adapter.Drive | internal/harness/serving/serving.go:110-172 | the outcome, in terms of the answers of model, file system and test, and the returned counters and patch; on every error each path is as it was unless restoring its first edit failed, and untouched when nothing was applied; the parsed edits left to right on success |
| Workspace.OutcomeExactly | internal/harness/serving/serving.go:110-172 | done exactly when a reply yielded edits to safe paths, every one could be written and the test passed; one such equivalence for each error, in the code's order |
| Workspace.ChatExactly | internal/harness/serving/serving.go:119-145 | the edits are those of the first reply that parses within the attempts; the chat fails exactly when one before it does not come, or when none parses |
| Workspace.PatchReads | internal/harness/serving/serving.go:292-299 | the patch names each edited path on two lines, in order |
| Workspace.CountsAddUp | internal/harness/serving/serving.go:119-145 | turns and tool calls are the replies asked for, each counted; their bytes are the tokens; one valid call exactly when a reply completed the asking |
| Workspace.LastEditWins | internal/harness/serving/serving.go:261-275 | among edits that resolve to one path the last decides its content |
| Workspace.UntouchedPath | internal/harness/serving/serving.go:261-275 | a path no edit resolves to keeps its content |
| Workspace.CompletedEdits | internal/harness/serving/serving.go:119-145 | a completed chat carries at least one edit, all printable, unless no attempt was allowed |
| PruningTransform.Transform.Run | internal/opencode/pluginseed.go:40-94 | the in-place passes give the specified message list |
| PruningTransform.Transform.StripAndBound | internal/opencode/pluginseed.go:48-65 | stale messages lose reasoning and missing parts, every output is cut to size, nothing else changes |
| PruningTransform.Transform.MaskRepeats | internal/opencode/pluginseed.go:83-86 | exactly the observations whose call comes again are masked |
| PruningTransform.Transform.ElideMiddle | internal/opencode/pluginseed.go:87-93 | exactly the unmasked non-empty observations of the stale middle are elided |
| PruningLaws.ReasoningSurvives | internal/opencode/pluginseed.go:48-57 | the messages that still carry reasoning are exactly the last three that did, or all if no more than three did |
| PruningLaws.StaleMeans | internal/opencode/pluginseed.go:48-54 | a message is stale exactly when at least three after it carry reasoning and more than three do in all |
| PruningLaws.OnlyOutputsChange | internal/opencode/pluginseed.go:40-94 | stale reasoning and missing parts aside, every part keeps its place, its calls' tools and arguments and its other content, and every output is cut to size or masked |
| PruningLaws.WindowKeepsEverything | internal/opencode/pluginseed.go:54-65 | from the window on, a message keeps every part, its reasoning, its calls and its other content |
| PruningLaws.StaleKeepsTheRest | internal/opencode/pluginseed.go:54-54 | before it, a message keeps exactly its parts that are neither missing nor reasoning, in order |
| PruningLaws.OutputsAreBounded | internal/opencode/pluginseed.go:41-64 | every output the model sees is at most MAX long, or MAX plus the marker |
| PruningObservations.ObservationFate | internal/opencode/pluginseed.go:48-93 | each observation of the input, dropped reasoning aside, is still there in order for the same call: masked if a later one is of the same call, else masked from the third to the seventh from the end of a list of more than eight unless empty or masked already, else its own output cut to size |
| PruningObservations.FateOfCalls | internal/opencode/pluginseed.go:48-93 | of JSON calls: superseded when a later one has the same tool and arguments; otherwise cut to size among the first two, the last six, and in a list of up to eight |
| PruningRounds.TransformSettles | internal/opencode/pluginseed.go:83-93 | deduping and eliding a second time changes nothing |
| PruningRounds.CutSettles | internal/opencode/pluginseed.go:43-43 | one cut of a string is final exactly when it had at most MAX or exactly MAX + 52 characters |
| PruningRounds.ThirdCutSettles | internal/opencode/pluginseed.go:43-43 | three cuts are final exactly when the number of characters over MAX has fewer than 50 digits |
| PruningRounds.TransformTwice | internal/opencode/pluginseed.go:40-94 | transforming a transformed list changes nothing exactly when each output in it is one a cut leaves alone |
| PruningRounds.OneTransformSettles | internal/opencode/pluginseed.go:40-94 | as it is for every list whose outputs have at most MAX or exactly MAX + 52 characters |
| PruningInput.PrunedOutputAt | internal/opencode/pluginseed.go:66-93 | of all outputs, listed as observations or not, the pass masks those a later call repeats and the unmasked non-empty ones from the third to the seventh from the end, and leaves the others |
| PruningInput.SecondTransformExactly | internal/opencode/pluginseed.go:40-94 | a second transform changes nothing exactly when each output that goes in will be masked, has at most MAX characters, or has MAX + 52 |
| PruningInput.SecondTransformCanChange | internal/opencode/pluginseed.go:40-65 | one call with any other output over MAX is cut again |
| PruningRounds.ThreeTransformsSettle | internal/opencode/pluginseed.go:40-94 | three transforms are final for every list whose outputs have fewer than 50 digits of characters over MAX |
| Pruning.KeysIdentifyCalls | internal/opencode/pluginseed.go:74-79 | two calls have the same key exactly when tool and arguments agree |
| Pruning.TruncatedReads | internal/opencode/pluginseed.go:41-43 | an output of more than 8000 characters becomes its first 8000 and a marker that tells in digits how many are missing; a shorter one stays |
| Ledger.Ledger.Seed | internal/loop/ledger.go:29-42 | an existing ledger, torn or whole, is left alone; a new one holds the header or as much of it as was written |
| Ledger.Ledger.ReadItems | internal/loop/ledger.go:45-61 | the items of the file's lines, in order |
| Ledger.ShowsReads | internal/loop/ledger.go:51-58 | a line is an item exactly when, amid space, it is "- [ ] " or "- [x] " and a text that does not end in space |
| Ledger.MarkReads | internal/loop/ledger.go:87-87 | marking makes the first "- [ ] " of a line "- [x] ", and nothing else |
| Ledger.PathReads | internal/loop/ledger.go:23-25 | the file's name is the id with each slash an underscore, and ".md" |
| Ledger.Ledger.Add | internal/loop/ledger.go:64-72 | one line, or as much of it as was written, is appended to that ledger, and only if it exists |
| Ledger.Ledger.Check | internal/loop/ledger.go:75-93 | the ledger becomes the checked text or as much of it as was written, no other file changes |
| Ledger.AppendKeepsItems | internal/loop/ledger.go:64-72 | whatever is appended, an item or part of one, its lines are read after the items already there |
| Ledger.TornKeepsAPrefix | internal/loop/ledger.go:92-92 | a text torn off anywhere holds its first items as they were and at most one more, cut from its last line |
| Ledger.CheckOpenItem | internal/loop/ledger.go:75-93 | checking an open item flips that item and no other line |
| Ledger.CheckOutOfRange | internal/loop/ledger.go:75-93 | a number that names no item changes nothing |
| Ledger.CheckDoneItem | internal/loop/ledger.go:83-92 | checking a done item changes nothing exactly when its line holds no open box |
| Ledger.CheckDoneCanChange | internal/loop/ledger.go:87-87 | done items whose text holds an open box are rewritten |
| Ledger.AddOneItem | internal/loop/ledger.go:64-72 | one line of text becomes exactly one open item, right-trimmed, or none when blank |
| Ledger.AddAppends | internal/loop/ledger.go:64-72 | any text appends the items of its lines and leaves the earlier ones |
| Ledger.NewlineKept | internal/loop/ledger.go:37-92 | the file always ends in a newline |
| Ledger.SeededItems | internal/loop/ledger.go:37-40 | a fresh ledger starts with the title and id and holds the three standard open items after whatever that line is read as, which for a one-line title is nothing |
| Profile.SortBySizeDesc | internal/profile/profile.go:306-312 | the in-place swaps compute the insertion sort of the array |
| Profile.SortIsStable | internal/profile/profile.go:306-312 | the result descends, and keeps the models of each size in their order |
| FitMeaning.WeightReads | internal/profile/profile.go:195-209 | bytes per weight by the words in the file's name, in either case |
| FitMeaning.CacheReads | internal/profile/profile.go:241-247 | the cache estimate: seven bytes for a million weights and each token, 4096 tokens when none are asked for |
| FitMeaning.FitReads | internal/profile/profile.go:251-279 | a row in numbers: size, cache and 1 GiB against what is available beyond 3 GiB; 65 hundredths of the bandwidth over the bytes of the active weights, against each floor |
| Recommend.Recommendation.constructor | internal/profile/profile.go:283-304 | the rows are those of the allowed models largest first, in numbers; each pick is a largest allowed model that runs and is no slower than its own floor, or none when there is none |
| Recommend.RecommendPicksLargest | internal/profile/profile.go:288-302 | each pick is a largest allowed model clearing its floor, and there is none only if no model does |
| Recommend.BetterHostPicksNoSmaller | internal/profile/profile.go:251-279 | more memory and more bandwidth never shrink a pick |
| Recommend.Recommendation.ApplyMeasurement | internal/profile/measure.go:46-64 | only the matching rows change, to the measured pace and each floor against it, and both picks are again the first fitting row |
| Recommend.MeasurementsCommute | internal/profile/measure.go:46-54 | measurements of different models commute; of one model the last counts |
| Recommend.SlowModelStepsDown | internal/profile/measure.go:51-63 | a model measured below a floor is no longer that floor's pick |
| ContextFit.FitIsLargestSuitable | cmd/aegis/selfconfig.go:43-61 | the largest ladder rung within the desired window whose weights and KV cache fit, else 4096 |
| ContextFit.WindowReads | cmd/aegis/selfconfig.go:43-61 | the same in numbers: the six rungs, 6 GiB held back, 32768 wanted by default, and what is wanted when nothing is known |
| ContextFit.ServedReads | cmd/aegis/selfconfig.go:28-38 | that window is served unless the operator pinned one or the file cannot be measured |
| ContextFit.ResolveReads | internal/serving/serving.go:72-86 | a pinned number from 512 up, else a hint from 512 up, else 32768 |
| ContextFit.FitIsMonotone | cmd/aegis/selfconfig.go:43-61 | more memory never shrinks the window and a larger model never widens it, above the reserve |
| ContextFit.NoDrift | internal/serving/serving.go:72-86 | resolving the fitted window again at launch gives it back, for every environment value |

## Left out

- HTTP clients, model probing, downloads, process launch, git checkpoints and the JSON-RPC transport: their answers are inputs of the model.
- CSV, JSON and Go parsing, regular-expression symbol extraction and directory walks: the parsed table (every row with its status cell, as CSV parsing demands), entry list, identifier lists and active-parameter hint are taken as given; a JSON file of memory entries is assumed to read back as written.
- IEEE rounding and 64-bit overflow: reals and unbounded integers stand for them.
- RepoRender.Build: unreadable and unparseable files are skipped before the scan the model starts from.
- internal/loop/loop.go, text handed to the harness: the feedback, ledger, memory and fallback text of a drive is not modelled, as the harness is arbitrary.
- internal/loop/loop.go, metrics: the attempt record collected for statistics is not modelled beyond tokens and elapsed time, which decide the task budget.
- Requirements.Store.Claim: claim files are identified with ids; ids that contain path separators are not modelled.
- Drain.Loop.Run: asks that the run ends, since a call that never returns promises nothing; when it ends is stated in `DrainTermination.dfy`.
- Memory.Store.GcAndSave: a cut-short file is one whose JSON does not parse; marshalling itself does not fail.
- Edits.ParseEdits: works on Unicode strings; replies that are not valid UTF-8 are not modelled.
- Workspace.Adapter.Drive: path safety and path resolution are arbitrary functions, so aliasing is covered but path cleaning is not; a read is assumed to fail only on an absent file, and the test to leave files alone; created directories, modes and the requirement id in the diff are not modelled.
- PruningTransform.Transform.Run: message parts are values, so two parts that share one object are not modelled, and a string is a sequence of the code units its length counts.
- Ledger.Ledger.Check: two ids that differ only in a slash for an underscore share a file, as in the code; directory creation is not modelled.
- Profile.SortBySizeDesc: the profiler's probes of memory, bandwidth and cores are inputs.
- Terminal output, setup screens, rendered configuration and prompts: they are text assembled from fields, with no state and no decision that another part reads back.
- Configuration validation, origin policy lookup, routing and best-of-N selection: each is a comparison, a table lookup or a first match over its inputs, and keeps no state.
