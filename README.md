# Money-mule detection engine in Dafny

This project models the server-side detection engine of the money-muling
detector and proves properties of the model. An uploaded file of
transactions becomes a directed transaction graph. Three detectors search
the graph for rings:

- cycles of 3 to 6 accounts;
- smurfing hubs, which are fan-in or fan-out accounts with 10 distinct
  counterparties within 72 hours;
- shell chains, which are paths of 4 to 6 accounts whose intermediate
  accounts have only 2 or 3 transactions.

A scoring pass then turns the rings into the report. Each ring gets a
sequential `RING_NNN` id and a weighted contribution to each of its members. The
accounts get suspicion scores capped at 95, sorted highest first. Each ring
gets a risk score from its members' scores, and a summary counts accounts
and rings. A Kosaraju strongly-connected-components pass (`findSCC`) over
the same graph is modelled too.

Modules, one per source file:

| module (file) | models |
|---|---|
| `Common` (common.dfy) | JavaScript Set as an insertion-ordered duplicate-free sequence, first-of-each-key de-duplication, the stable `Array.prototype.sort` |
| `Strings` (strings.dfy) | string `<`, `join`, `[...].sort()`, `String(n)`, `padStart` |
| `TransactionGraph` (graph.dfy) | graphBuilder.js: class `Graph` and `addTransaction` |
| `CycleDetection` (cycles.dfy) | cycleDetection.js |
| `SmurfDetection` (smurf.dfy) | smurfDetection.js |
| `ShellDetection` (shell.dfy) | shellDetection.js |
| `Scoring` (scoring.dfy) | scoringEngine.js, with class `Scorer` for the state its closures share |
| `ScoringProperties` (scoring_properties.dfy) | reference definitions of what the report means, and the lemmas tying the report to them |
| `StronglyConnected` (scc.dfy) | Tarjan.js (`findSCC`, which runs Kosaraju's two passes) |

Code that mutates is modelled imperatively:

- `Graph.AddTransaction`, the detectors' `dfs` closures (classes
  `CycleSearch` and `ShellSearch`), the scoring loops (class `Scorer`) and
  the two passes of `findSCC` (class `Kosaraju`) are methods over class
  fields.
- Each method's `ensures` ties the new state to a function of the old state
  or of the inputs. Lemmas then state what that function means.

The detectors work on explicit inputs: the node list, the adjacency map and,
for shells, the per-account transaction counts. The reason is a wiring
defect in the source, described under "Left out".

## Model

| member | source | states |
|---|---|---|
| TransactionGraph.Graph.constructor | server/services/graphBuilder.js:2-14 | the empty graph: no nodes, no lists, no counters, no transactions, and the graph invariant holds |
| TransactionGraph.Graph.AddTransaction | server/services/graphBuilder.js:16-49 | both accounts are added to the node set; the receiver is pushed on the sender's forward list and the sender on the receiver's reverse list, each list created when absent; out-degree, in-degree and both transaction counts go up by one; the transaction is appended; the invariant tying every field to the transaction list is kept |
| TransactionGraph.AddKeepsNodesExact | server/services/graphBuilder.js:19-21 | after the two `nodes.add` calls, the node list again holds each account of the transactions exactly once |
| TransactionGraph.AddKeepsListsExact | server/services/graphBuilder.js:23-34 | after the push, each forward (reverse) list is exactly the receivers (senders) of that account's transactions, one entry per transaction in input order, and lists exist exactly for senders (receivers) |
| TransactionGraph.AddKeepsDegreesExact | server/services/graphBuilder.js:36-38 | out-degree and in-degree stay equal to the lengths of the forward and reverse lists |
| TransactionGraph.AddKeepsCountsExact | server/services/graphBuilder.js:40-45 | `transactionCount[a]` stays equal to the number of transactions involving `a`, a self-transfer counting twice |
| TransactionGraph.CountAfterAdd | server/services/graphBuilder.js:40-45 | the two counter bumps add 2 to a self-transfer's account and 1 to each account of any other transaction, and leave every other account unchanged |
| TransactionGraph.ReceiversOfSound | server/services/graphBuilder.js:33 | every entry of a forward list is the receiver of some transaction sent by the list's key |
| TransactionGraph.SendersToSound | server/services/graphBuilder.js:34 | every entry of a reverse list is the sender of some transaction received by the list's key |
| TransactionGraph.SumsAreTransactionCount | server/services/graphBuilder.js:32-34 | over any duplicate-free account list covering all accounts, the forward list lengths and the reverse list lengths each add up to the number of transactions |
| TransactionGraph.Graph.ListsWithinNodes | server/services/graphBuilder.js:19-34 | every account that appears in an adjacency list, as key or as entry, is a node |
| TransactionGraph.Graph.DegreeSums | server/services/graphBuilder.js:36-45 | over the nodes, out-degrees and in-degrees each sum to the number of transactions, and transaction counts sum to twice that |
| Common.PushAt | server/services/graphBuilder.js:23-34 | creating a missing list and then pushing `v` onto key `k` appends `v` to `k`'s list and changes no other list |
| Common.DistinctMembers | server/services/detection/smurfDetection.js:23-31 | a Set filled by successive `add` calls holds each added value exactly once and nothing else |
| CycleDetection.CycleSearch.Dfs | server/services/detection/cycleDetection.js:4-22 | `dfs(start, current, path, depth)` appends exactly the cycles that `Explore` records and restores `path` to what it was |
| CycleDetection.ExploreSound | server/services/detection/cycleDetection.js:4-22 | every cycle the search records from a valid path is a simple cycle at `start`: 3 to 6 distinct accounts with an edge between consecutive accounts and one back to `start` |
| CycleDetection.ExploreComplete | server/services/detection/cycleDetection.js:4-22 | every simple cycle at `start` that extends the current path is recorded by the search from that path |
| CycleDetection.SearchFindsExactlySimpleCycles | server/services/detection/cycleDetection.js:4-22 | the search from a root records a sequence exactly when it is a simple cycle at that root |
| CycleDetection.AllCyclesExact | server/services/detection/cycleDetection.js:24-26 | over all roots, a sequence is collected exactly when it is a simple cycle starting at one of the nodes |
| CycleDetection.NormalizeCycle | server/services/detection/cycleDetection.js:32-45 | the loop returns the canonical key, the least joined rotation |
| CycleDetection.MinRotationIsLeast | server/services/detection/cycleDetection.js:34-44 | `minRotation` after looking at the first `n` rotations is at most each of their joins and equal to one of them |
| CycleDetection.CanonicalKeyRotationInvariant | server/services/detection/cycleDetection.js:32-45 | rotating a cycle does not change its key |
| CycleDetection.RemoveDuplicateCycles | server/services/detection/cycleDetection.js:48-61 | the loop keeps the first cycle of each key, in input order |
| CycleDetection.FindCycles | server/services/detection/cycleDetection.js:1-29 | `findCycles` returns the first cycle of each key among all cycles collected from all roots |
| CycleDetection.FindCyclesCorrect | server/services/detection/cycleDetection.js:1-29 | every reported cycle is a simple cycle at one of the nodes, and every simple cycle at a node is reported with its key |
| CycleDetection.ReportedKeysDistinct | server/services/detection/cycleDetection.js:48-61 | no two reported cycles have the same key |
| CycleDetection.RotationsNotBothReported | server/services/detection/cycleDetection.js:47-61 | a cycle and a different rotation of it are never both reported |
| Common.KeepFirstKeys | server/services/detection/cycleDetection.js:48-61 | de-duplication keeps every key of the input, once each, using only input elements |
| Common.KeepFirstIsFirstOccurrences | server/services/detection/cycleDetection.js:48-61 | de-duplication keeps exactly the elements whose key no earlier element has, in input order |
| Strings.LexLeTotalOrder | server/services/detection/cycleDetection.js:39 | string `<=` is reflexive, antisymmetric, transitive and total, so the minimum over rotations is well defined |
| Strings.LexLessTransitive | server/services/detection/cycleDetection.js:39 | string `<` is transitive |
| ShellDetection.ShellSearch.Dfs | server/services/detection/shellDetection.js:4-36 | `dfs(current, path)` appends exactly the rings that `Explore` records |
| ShellDetection.ShellValidMeans | server/services/detection/shellDetection.js:14-25 | for paths of 4 or more accounts, the `valid && intermediateNodes.length > 0` test holds exactly when every account but the first and last has a record with a count of 2 or 3 |
| ShellDetection.ExploreSound | server/services/detection/shellDetection.js:4-36 | every recorded ring has type "shell" and is a shell chain: 4 to 6 distinct accounts from the root along edges, with low-activity intermediates |
| ShellDetection.ExploreComplete | server/services/detection/shellDetection.js:4-36 | every shell chain extending the current path is recorded, even when a prefix was not valid |
| ShellDetection.SearchFindsExactlyShellChains | server/services/detection/shellDetection.js:4-36 | the search from a root records a ring exactly when it is a shell chain at that root |
| ShellDetection.AllShellsExact | server/services/detection/shellDetection.js:38-40 | over all roots, a ring is collected exactly when it is a shell chain at one of the nodes |
| ShellDetection.NormalizePathPermutation | server/services/detection/shellDetection.js:46-48 | two orderings of the same accounts give the same key |
| Strings.SortStringsSortsAndPermutes | server/services/detection/shellDetection.js:47 | `[...path].sort()` is sorted and a permutation of the path |
| Strings.LexSortedUnique | server/services/detection/shellDetection.js:47 | a multiset of strings has only one sorted arrangement |
| ShellDetection.IndexByKey | server/services/detection/shellDetection.js:50-58 | the Map holds, for each key seen, the first ring with that key, and its keys in first-insertion order |
| ShellDetection.RemoveDuplicateShells | server/services/detection/shellDetection.js:50-61 | `Array.from(unique.values())` is the first ring of each key, in input order |
| ShellDetection.FindShellNetworks | server/services/detection/shellDetection.js:1-43 | `findShellNetworks` returns the first ring of each key among all rings collected from all roots |
| ShellDetection.FindShellNetworksCorrect | server/services/detection/shellDetection.js:1-43 | every reported ring is a shell chain at one of the nodes; every shell chain at a node is reported with its key; no two reported rings share a key |
| SmurfDetection.SortByTimeCorrect | server/services/detection/smurfDetection.js:5-7 | the working copy is in non-decreasing timestamp order, a permutation of the transactions, and keeps the input order of equal timestamps |
| SmurfDetection.GroupByHub | server/services/detection/smurfDetection.js:10-17 | `receiverMap` (`senderMap`) maps each hub to its transactions in sorted order, and its keys are the hubs in first-seen order |
| SmurfDetection.GroupCorrect | server/services/detection/smurfDetection.js:10-17 | a hub's list holds exactly the transactions of that hub, and is time-sorted when the input is |
| SmurfDetection.HubOrderCorrect | server/services/detection/smurfDetection.js:10-19 | the hubs visited are distinct, each has a transaction, and every transaction's hub is visited |
| SmurfDetection.TimeDiffExceeds | server/services/detection/smurfDetection.js:26-29 | `(later - first) / 3600000 > 72` holds exactly when the gap is more than 259200000 ms |
| SmurfDetection.ScanWindow | server/services/detection/smurfDetection.js:23-32 | the `j` loop builds the window set of the start `i` |
| SmurfDetection.WindowIsLongestRun | server/services/detection/smurfDetection.js:25-32 | the window from `i` contains `txList[i]` and only transactions within 72 hours of it, and on a time-sorted list every later transaction is outside it |
| SmurfDetection.WindowSetMembers | server/services/detection/smurfDetection.js:23-32 | the window set holds each counterparty of the window exactly once, and nothing else |
| SmurfDetection.ScanHub | server/services/detection/smurfDetection.js:22-41 | the `i` loop returns the ring of the first qualifying window, or none |
| SmurfDetection.FirstQualifyingIsLeast | server/services/detection/smurfDetection.js:22-41 | a start the scan stops at has a window of at least 10 counterparties, and no earlier start does |
| SmurfDetection.HubRingNone | server/services/detection/smurfDetection.js:34-40 | a hub emits no ring exactly when none of its windows has 10 distinct counterparties |
| SmurfDetection.HubRingSome | server/services/detection/smurfDetection.js:34-40 | otherwise its ring is `[hub, ...windowSet]` of the lowest qualifying start, with the direction's pattern label |
| SmurfDetection.ScanAllHubs | server/services/detection/smurfDetection.js:19-42 | the `for..in` loop collects each hub's ring in hub order |
| SmurfDetection.RingsOfCorrect | server/services/detection/smurfDetection.js:19-42 | over distinct hubs, each collected ring is its leading hub's ring, and no two rings share a hub |
| SmurfDetection.SmurfRingsCorrect | server/services/detection/smurfDetection.js:9-42 | each ring of a direction is its hub's ring, and no two rings have the same hub |
| SmurfDetection.SmurfRingsComplete | server/services/detection/smurfDetection.js:9-42 | every account that has a ring contributes it |
| SmurfDetection.FindSmurfPatterns | server/services/detection/smurfDetection.js:1-83 | `findSmurfPatterns` returns the fan-in and fan-out rings of the time-sorted transaction list |
| Scoring.MaxRawValue | server/services/detection/scoringEngine.js:152-157 | `MAX_RAW` is 36.2 |
| Scoring.Scorer.constructor | server/services/detection/scoringEngine.js:9-12 | empty account map and ring list, and the ring counter at 1 |
| Scoring.Scorer.GenerateRingId | server/services/detection/scoringEngine.js:29-33 | returns `RING_` with the counter zero-padded to 3 digits, then increments the counter |
| Scoring.Scorer.AddScore | server/services/detection/scoringEngine.js:39-51 | creates a zero record when the account is absent, adds the contribution, and adds the label and ring id to its Sets; a new account is appended to the key order |
| Scoring.Scorer.ScoreMembers | server/services/detection/scoringEngine.js:64-66 | `addScore` for each member in turn; the key order grows by the members not seen before |
| Scoring.Scorer.ProcessRing | server/services/detection/scoringEngine.js:57-74 | one ring: a fresh id, every member scored, the ring pushed with risk 0; the state is that after all rings so far |
| Scoring.Scorer.ProcessRings | server/services/detection/scoringEngine.js:57-146 | each of the four processing loops leaves the state of the rings processed so far |
| Scoring.Scorer.SuspiciousAccounts | server/services/detection/scoringEngine.js:166-183 | one normalised entry per key of `accountMap`, in key order |
| Scoring.Scorer.ScoreRings | server/services/detection/scoringEngine.js:192-211 | each ring's `risk_score` is set in place to its risk, and nothing else changes |
| Scoring.RingRiskOf | server/services/detection/scoringEngine.js:193-210 | the `total` loop and the capped structural multiplier give the ring's risk |
| Scoring.ScoringEngine | server/services/detection/scoringEngine.js:1-229 | the report is the sorted accounts, the scored rings and the summary of the rings processed in the order cycles, fan-in, fan-out, shells |
| Scoring.AccountsAfterKeys | server/services/detection/scoringEngine.js:39-46 | an account has a record exactly when it belongs to some processed ring |
| Scoring.ProcessedSnoc | server/services/detection/scoringEngine.js:57-146 | one more ring extends the member list, scores its members under id `RING_` number `|ps|+1`, and appends its ring record with risk 0 |
| ScoringProperties.RingIdInjective | server/services/detection/scoringEngine.js:29-33 | two counters give the same id exactly when they are equal, past 999 as well |
| Strings.PadStartNatToStringInjective | server/services/detection/scoringEngine.js:30 | zero padding of decimal strings is injective |
| Strings.ParseNatToString | server/services/detection/scoringEngine.js:30 | `String(n)` is the decimal representation of `n` |
| ScoringProperties.AddScoresEntry | server/services/detection/scoringEngine.js:39-51 | a ring's `addScore` calls add its contribution to an account once per occurrence among the members, add its label and id exactly when it is a member, and touch no other account |
| ScoringProperties.RawScoreIsTotal | server/services/detection/scoringEngine.js:39-146 | an account's raw score is the sum of the contributions of the rings it belongs to |
| ScoringProperties.RingIdsAreJoined | server/services/detection/scoringEngine.js:50 | an account's ring ids are the ids of its rings, in processing order |
| ScoringProperties.JoinedIdsFirst | server/services/detection/scoringEngine.js:181 | the first recorded ring id of an account is that of the first ring containing it |
| ScoringProperties.PatternsAreLabels | server/services/detection/scoringEngine.js:39-146 | an account's patterns are the labels of its rings, each listed once |
| ScoringProperties.AccountMeaning | server/services/detection/scoringEngine.js:166-183 | a member's entry has the normalised score of its raw total, the id of its first ring, and exactly its rings' labels |
| ScoringProperties.FinalScoreBounds | server/services/detection/scoringEngine.js:169-173 | the score is at most 95, equals 95 exactly when the raw score reaches `MAX_RAW`, and is non-negative for a non-negative raw score |
| ScoringProperties.FinalScoreMonotone | server/services/detection/scoringEngine.js:169-173 | a larger raw score never gives a smaller final score |
| ScoringProperties.ProcessingRawPositive | server/services/detection/scoringEngine.js:57-146 | rings of the sizes the detectors produce (cycles of 3 or more accounts, fans of 11 or more, shells of 4 or more) all have a positive contribution |
| ScoringProperties.RawTotalNonNegative | server/services/detection/scoringEngine.js:39-51 | with positive contributions, an account's raw total is non-negative, and positive exactly when it is in some ring |
| ScoringProperties.ProcessingAt | server/services/detection/scoringEngine.js:57-146 | cycles take the first ring positions, then fan-in, fan-out and shell rings, each with its own contribution and label |
| ScoringProperties.UnsortedAccounts | server/services/detection/scoringEngine.js:166-183 | before sorting, there is one entry per ring member, in first-seen order, with distinct ids |
| ScoringProperties.FlaggedMembers | server/services/detection/scoringEngine.js:164-186 | the flagged accounts are exactly the ring members, each carrying its own record |
| ScoringProperties.FlaggedDistinct | server/services/detection/scoringEngine.js:166-186 | no account is flagged twice |
| ScoringProperties.FlaggedSorted | server/services/detection/scoringEngine.js:186 | the flagged accounts are sorted by non-increasing suspicion score |
| ScoringProperties.FlaggedStable | server/services/detection/scoringEngine.js:186 | accounts with equal scores keep their first-seen order |
| Common.SortBySortsAndPermutes | server/services/detection/scoringEngine.js:186 | the stable sort is sorted by its key and a permutation of its input |
| Common.SortByStable | server/services/detection/scoringEngine.js:186 | elements with equal keys keep their input order |
| ScoringProperties.FindAccountFinds | server/services/detection/scoringEngine.js:196 | with distinct ids, `find` returns the one account with the id |
| ScoringProperties.FindAccountMissing | server/services/detection/scoringEngine.js:196-197 | `find` returns nothing when no account has the id, so that member adds nothing |
| ScoringProperties.MemberTotalIsScoreSum | server/services/detection/scoringEngine.js:193-198 | the `total` loop sums the members' scores as read from the account map |
| ScoringProperties.RingRiskBounds | server/services/detection/scoringEngine.js:200-210 | the risk is NaN exactly for a ring with no members, and otherwise at most 95 |
| ScoringProperties.RingRiskIsReference | server/services/detection/scoringEngine.js:192-211 | when every member is listed once among the accounts, the risk equals the reference risk computed from the account map |
| ScoringProperties.RingMembersFlagged | server/services/detection/scoringEngine.js:192-198 | every member of every ring is among the flagged accounts |
| ScoringProperties.RingAt | server/services/detection/scoringEngine.js:57-211 | ring `k` of the report has id `RING_` number `k+1`, the members and type of the `k`-th processed ring, and the reference risk of its members |
| ScoringProperties.RingIdsDistinct | server/services/detection/scoringEngine.js:29-33 | ring ids are unique across the report |
| ScoringProperties.ReportParts | server/services/detection/scoringEngine.js:217-228 | the report holds the flagged accounts and the scored rings; the summary counts the graph's nodes, the distinct ring members and the rings of all four kinds |
| StronglyConnected.Kosaraju.constructor | server/services/detection/Tarjan.js:2-3 | empty visited sets, stack, component and component list over the graph's lists |
| StronglyConnected.Kosaraju.Dfs1 | server/services/detection/Tarjan.js:6-17 | `dfs1(node)` visits new accounts only, each pushed once, `node` last; every pushed account's forward neighbours are visited |
| StronglyConnected.Kosaraju.Forward | server/services/detection/Tarjan.js:11-13 | the guarded call leaves `nei` visited and pushes only newly visited accounts |
| StronglyConnected.Kosaraju.FillStack | server/services/detection/Tarjan.js:20-24 | afterwards every node is on the stack exactly once, the stack holds exactly the visited accounts, and each one's forward neighbours are visited |
| StronglyConnected.Kosaraju.Dfs2 | server/services/detection/Tarjan.js:30-40 | `dfs2(node, comp)` appends, `node` first, new accounts only, each once, each with a path from `node` over the reverse lists through unclaimed accounts; their reverse neighbours are all claimed afterwards |
| StronglyConnected.Kosaraju.Backward | server/services/detection/Tarjan.js:36-38 | the guarded call leaves `nei` claimed and appends only newly claimed accounts |
| StronglyConnected.Kosaraju.Claim | server/services/detection/Tarjan.js:46-50 | one drained account starts a new component that is exactly what is reverse-reachable from it avoiding earlier components |
| StronglyConnected.Kosaraju.Drain | server/services/detection/Tarjan.js:43-51 | the stack is emptied, every stacked account lands in a component, and the components are disjoint and well formed |
| StronglyConnected.NewComponent | server/services/detection/Tarjan.js:30-40 | what one `dfs2` collected is exactly the set reverse-reachable from its first account without touching accounts already claimed |
| StronglyConnected.ReachClosed | server/services/detection/Tarjan.js:30-40 | a set closed under the reverse lists up to the claimed accounts holds everything reachable from its members |
| StronglyConnected.ComponentsSnoc | server/services/detection/Tarjan.js:46-50 | pushing a component of unclaimed accounts keeps the list disjoint and well formed |
| StronglyConnected.FindScc | server/services/detection/Tarjan.js:1-54 | the components are non-empty, duplicate-free and disjoint, cover every node, and each is what is reverse-reachable from its first account avoiding the earlier components |
| StronglyConnected.FindSccOfGraph | server/services/detection/Tarjan.js:1-54 | on a built graph the components partition exactly the node set |

## Left out

- CSV parsing, the Express route, file handling and `processing_time_seconds` (the clock) are left out. The summary carries the other three fields.
- Wiring defect. The route calls the cycle and shell detectors with the `Graph` of graphBuilder.js. There `graph.nodes` is a Set, and `Object.keys` of a Set is empty, so no search starts. `graph.adjList[id]` on a Map is `undefined`, and `graph.nodes[id].transaction_count` does not exist. As wired, both detectors return no rings. The model gives them the node list, the adjacency and the counts explicitly. So it states the detectors' logic on the inputs they evidently expect, not the empty result the route gets. `findSCC` uses `.get` and iterates the Set, so it works on the real `Graph`; the route never calls it.
- Floating point. Scores, multipliers and `MAX_RAW` are exact reals. `toFixed(2)` and `parseFloat` rounding of scores and risks is not modelled, so equal-looking scores may differ here in their last digits. Timestamps are integer milliseconds; invalid dates (NaN) are not modelled.
- Scoring.Scorer.SuspiciousAccounts: `for..in` order is taken as first-insertion order. JavaScript lists integer-like keys (such as "123") first, in ascending order, and the model does not reorder them.
- SmurfDetection.ScanAllHubs: the same `for..in` order simplification, for `receiverMap` and `senderMap`.
- Object keys such as `__proto__` that collide with the prototype of `{}` are not modelled. Every id is an ordinary key.
- String order is by Dafny characters (code points). JavaScript compares UTF-16 code units, which differ only for characters outside the Basic Multilingual Plane.
- Sorts are the stable sort required of `Array.prototype.sort` since ECMAScript 2019, written as a pure function. The in-place rearrangement of the JavaScript array is not modelled.
- The ring risk of an empty ring is NaN in JavaScript (`0 / 0`), modelled as the `NaN` value. The detectors never produce an empty ring.
- The detectors' pattern strings (`fan_in`, `fan_out`) are carried in their ring values. As in the source, the scoring pass labels by the loop that processes a ring (`fan-in`, `fan-out`), not by that field.
- CycleDetection.RemoveDuplicateCycles: the key joins ids with "-". Ids containing "-" can give two different cycles the same key. The model keeps this behaviour, and no lemma claims that distinct cycles have distinct keys.
- StronglyConnected.Kosaraju.Dfs1: the finish order is stated only as closure (every pushed account's forward neighbours are visited), not as the post-order property.
- StronglyConnected.FindScc: proves that each component is exactly what the reverse search from its first account reaches without touching earlier components. It does not prove that each component is strongly connected (mutual reachability), which needs the finish-order argument.
- The client (React components) is out of scope.
