# SIS epidemic simulation and vaccination strategies

This project models the core of a small epidemic-control toolkit. Its
three parts are:

- **The SIS transition engine** (`run_sis`). Every node of an undirected
  graph is Susceptible (`S`), Infected (`I`) or Vaccinated (`V`). In each
  step:
  - an infected node recovers with probability `gamma`;
  - a susceptible node is infected, with probability `beta`, by each
    infected neighbour it scans in turn;
  - vaccinated nodes never change.

  Each step records how many nodes were susceptible or infected at its
  start, and how many were infected or recovered during it.
- **The greedy vaccination selector** (`greedy_algorithm`). Each round, it
  tentatively vaccinates each non-infected candidate in turn and compares
  the estimated spread with and without that candidate. The estimate comes
  from the two-round "fast SIS" rollout `run_fast_sis`. The round then
  commits the candidate with the largest reduction. The helpers
  `get_not_infected_nodes`, `remove_edge_from_nodes` and `V` are modelled
  too.
- **The ranking-based immunisation routines** (`immun_high_degree`,
  `immun_page_rank`, `immun_betweenness_centrality`, and `sis.py`'s
  `vaccinate_by_degree`). Each ranks the nodes by a score and sets the top
  `n` to `V`.
- **The one-step greedy vaccinator** (`sis.py`'s `vaccinate_greedy`). It is
  an argmax loop, not a ranking. Each pick recomputes the impact table over
  the nodes that are not `V` (beta times the number of infected
  neighbours), vaccinates the first node of largest impact, and repeats. It
  raises (`ok == false`) once no non-`V` node is left before enough picks
  were made.

Representation:

- A graph is a dense adjacency list `seq<seq<nat>>` over node ids
  `0..N-1`. Neighbour order is the iteration order.
- The per-node labels live in an `array<State>`, because the code updates
  them in place. `G.copy()` is a fresh copy of that array.
- Random numbers (`np.random.rand()`) come from an injected stream
  `rng: nat -> real` with a cursor. The cursor counts the draws consumed,
  and every operation returns the advanced cursor. So for a given stream,
  the number and order of draws are part of each contract.
- Python exceptions are status values:
  - `KeyError`, when the fast rollout's commit has more entries than the
    graph has nodes;
  - `EmptyMax`, for `max` over an empty candidate list;
  - `ok == false`, for the `ValueError` in `vaccinate_greedy`.

Modules:

- `Graphs` (graphs.dfy): graph shapes, states, marking nodes `V`, copying
  state arrays.
- `Ranking` (ranking.dfy): the stable descending sort by a score, and its
  prefix `TopN`.
- `Sis` (sis.dfy): `src/sis.py`.
- `Greedy` (greedy.dfy): `src/greedy.py`.
- `Immun` (immun.dfy): `src/immun.py`.

Each method is proved against a specification function. `RunSis` is proved
against `Run`, `RunFastSis` against `FastSis`, and `GreedyAlgorithm`
against `GreedyRounds`. The properties are proved as lemmas about those
functions.

The greedy selector's specification is generic in its estimator (a
function from states and cursor to an optional value and cursor). So its
shape lemmas hold for `run_fast_sis` as written, and also for any other
estimator.

Points of behaviour worth knowing:

- `run_sis` returns `t_max` records, numbered `t = 1..t_max`. There is no
  record for `t = 0`.
- Each record's `cur_sus` and `cur_inf` are the counts at the *start* of
  the step, taken before the new states are written back.
- `cur_inf` counts every node that is not `S`, so `V` nodes are counted in
  it (`Sis.TallyCounts`).
- On the five-cycle with seed {0}, `beta = 1` and `gamma = 0`, the records'
  infected counts are `[1, 3, 5]` when `t_max = 3`
  (`Sis.FiveCycleScenario`). With `t_max = 2` they are `[1, 3]`, and the
  final states are all `I` (`Sis.FiveCycleFirstTwoSteps`).
- In `greedy_algorithm`, every swept candidate is reset to `S` after its
  probe. This includes a candidate that was `V` in the input graph, so
  after the first round such a node is `S` in `GW` unless it was picked
  (`Greedy.Shaped`).

## Model

| member | source | states |
|---|---|---|
| Graphs.CountNonVMark | src/sis.py:116-117 | vaccinating one node that was not `V` lowers the number of non-`V` nodes by exactly one |
| Graphs.CountNonVZero | src/sis.py:113-115 | there is no non-`V` node left exactly when every node is `V`, which is when `max` over the impact table raises |
| Graphs.CountNonVMarked | src/immun.py:10-11 | marking a list of distinct nodes `V` leaves at most N minus the list's length nodes unvaccinated |
| Graphs.CopyStates | src/immun.py:7 | the copy is a fresh array with the same states as the original |
| Graphs.Marked | src/immun.py:10-11 | the listed nodes set to `V`, every other node unchanged |
| Graphs.Degrees | src/immun.py:8 | one degree per node |
| Graphs.RemoveFirst | src/greedy.py:80 | `list.remove` keeps only entries of the list |
| Graphs.RemoveFirstDistinct | src/greedy.py:80 | in a list without repeats, removing a present node leaves the other entries, still without repeats, and one fewer |
| Graphs.MarkVaccinated | src/sis.py:122-123 | afterwards every listed node is `V` and every other node keeps its state |
| Ranking.SortDesc | src/immun.py:9 | the sort lists n node ids below n; `Ranking.SortDescKeys` states that it is a stable descending permutation |
| Ranking.SortDescKeys | src/immun.py:9 | the stable descending sort by score lists every node exactly once, sorted by score with ties in node order |
| Ranking.TopN | src/immun.py:9 | the first n of that sort: min(n, N) distinct nodes, each ranking (score, then node order) ahead of every node not taken |
| Sis.Decide | src/sis.py:81-94 | deciding the first k nodes yields exactly k next states |
| Sis.NextStates | src/sis.py:80-94 | every node gets a next state, decided against the snapshot of the states at the start of the step |
| Sis.Tally | src/sis.py:96-104 | the record carries the step number; `cur_sus + cur_inf` is N; newly infected nodes are among the susceptible ones and recovered nodes among the infected ones |
| Sis.Run | src/sis.py:76-107 | one record per step, numbered 1..t_max, each accounting for all N nodes |
| Sis.DecideNode | src/sis.py:81-94 | one node's decision: `V` skips, `I` draws once for recovery, anything else scans its neighbours |
| Sis.Step | src/sis.py:78-106 | one step replaces the states by the next states and records the tally of old against new |
| Sis.Commit | src/sis.py:96-105 | the commit loop writes the decided states back and counts them against the old ones |
| Sis.RunSis | src/sis.py:76-107 | the in-place run leaves the final states and returns the records and cursor given by `Run` |
| Sis.Scan | src/sis.py:89-94 | the neighbour scan of a node that is neither `V` nor `I`; its contract is stated by `Sis.ScanShape` and `Sis.ScanInfects` |
| Sis.ScanInfects | src/sis.py:89-94 | with k infected neighbours, the scan infects exactly when one of the next k draws is below beta; it then stops right after the first such draw; otherwise it keeps the state and uses all k draws |
| Sis.NodeNext | src/sis.py:81-94 | one node's next state and cursor; its rules are stated by `Sis.NextStateRules` |
| Sis.ScanShape | src/sis.py:89-94 | the neighbour scan either leaves the node as it was or infects it, using at most one draw per infected neighbour; with no infected neighbour it changes nothing and draws nothing, and with `beta <= 0` it never infects |
| Sis.DecideStable | src/sis.py:81-94 | a node's next state does not depend on the decisions made for the nodes after it |
| Sis.NextStateRules | src/sis.py:81-94 | per node: `V` stays `V` and draws nothing; `I` draws once and recovers exactly when the draw is below `gamma`; any other node becomes `I` exactly when one of the draws for its infected neighbours is below `beta`, stopping right after the first such draw, and otherwise keeps its state after one draw per infected neighbour |
| Sis.ZeroBetaNoNewInfection | src/sis.py:88-94 | with `beta <= 0`, no node becomes infected and the step's `infected` count is 0 |
| Sis.FullGammaRecovery | src/sis.py:84-86 | with `gamma >= 1`, every infected node recovers in one step |
| Sis.TallyCounts | src/sis.py:97-102 | `cur_inf` counts every node that was not `S` at the start of the step, `V` nodes included |
| Sis.TallyNoInfection | src/sis.py:97-100 | when no node goes from `S` to `I`, the step's `infected` count is 0 |
| Sis.StepKeepsVaccinated | src/sis.py:82-83 | after a step, a node is `V` exactly when it was `V` before |
| Sis.RunKeepsVaccinated | src/sis.py:78-106 | after any number of steps, a node is `V` exactly when it was `V` at the start |
| Sis.PickGreedy | src/sis.py:114-115 | a node is found exactly when some node is not `V`; the pick is the first non-`V` node of maximal impact (beta times the number of infected neighbours) |
| Sis.Impact | src/sis.py:114 | a node's impact: beta times its number of infected neighbours; the pick over it is stated by `Sis.PickGreedy` |
| Sis.VaccinateGreedy | src/sis.py:111-117 | succeeds exactly when num does not exceed the number of non-`V` nodes; the picks are distinct nodes that were not `V`, each the greedy pick on the states left by the earlier picks; afterwards they are `V` and nothing else changed |
| Sis.MarkedSnoc | src/sis.py:117 | marking one more node equals updating that node to `V` |
| Sis.VaccinateByScore | src/sis.py:120-123 | marks the top n nodes by score `V`, in place |
| Sis.VaccinateByDegree | src/sis.py:119-123 | marks the top n nodes by degree `V`, in place |
| Sis.FiveCycleStep1 | src/sis.py:88-94 | on the five-cycle with seed {0}, `beta = 1` and `gamma = 0`, step one infects nodes 1 and 4 |
| Sis.FiveCycleStep2 | src/sis.py:88-94 | the second step infects the remaining nodes 2 and 3 |
| Sis.CountNotSOfFive | src/sis.py:101-102 | on five nodes, `cur_inf` is the sum of the per-node non-`S` indicators |
| Sis.FiveCycleFirstTwoSteps | src/sis.py:76-107 | with `t_max = 2`, the run returns the two tallies and ends with every node `I` |
| Sis.FiveCycleCounts | src/sis.py:101-102 | the start-of-step infected counts of that example are 1, 3 and 5 |
| Sis.FiveCycleScenario | src/sis.py:76-107 | with `t_max = 3`, the records' infected counts are `[1, 3, 5]` |
| Greedy.NotInfected | src/greedy.py:5-13 | lists node ids only |
| Greedy.NotInfectedMembers | src/greedy.py:9-13 | lists exactly the nodes that are not `I`, in increasing node order |
| Greedy.GetNotInfectedNodes | src/greedy.py:5-13 | the loop returns that list |
| Greedy.Stripped | src/greedy.py:15-30 | the stripped graph has the same nodes |
| Greedy.RemoveEdge | src/greedy.py:29 | removing an edge keeps the node set |
| Greedy.KeepEdgesAdd | src/greedy.py:28-29 | removing edge (w, v) from w's neighbour list equals adding that edge to the removed set |
| Greedy.KeepEdgesNone | src/greedy.py:19 | with nothing removed, a neighbour list is unchanged |
| Greedy.KeepEdgesOther | src/greedy.py:28-29 | removing an edge not touching w leaves w's neighbours unchanged |
| Greedy.KeepEdgesIncident | src/greedy.py:28-29 | once every edge touching a listed node is removed, a listed node has no neighbours and any other node keeps its unlisted neighbours in order |
| Greedy.IncidentEdges | src/greedy.py:20-27 | the gathered set `E` is exactly the edges with a listed endpoint, larger endpoint first |
| Greedy.IncidentSnoc | src/greedy.py:21-27 | scanning one more listed node adds exactly its edges |
| Greedy.RemoveEdges | src/greedy.py:28-29 | after removing every edge of `E`, each node keeps exactly the neighbours whose edge is not in `E`, in order |
| Greedy.RemoveEdgeStep | src/greedy.py:29 | one `remove_edge` call removes that edge from both endpoints' lists |
| Greedy.RemoveEdgeFromNodes | src/greedy.py:15-30 | returns an unchanged copy of the states, the incident-edge set `E`, and the stripped graph |
| Greedy.OutsideMembers | src/greedy.py:28-29 | a node stays in a kept neighbour list exactly when it was a neighbour and is not listed |
| Greedy.OutsideDistinct | src/greedy.py:28-29 | filtering keeps a neighbour list free of duplicates |
| Greedy.OutsideTwice | src/greedy.py:28-29 | filtering twice is filtering once |
| Greedy.StrippedEdges | src/greedy.py:15-30 | the stripped graph is still simple and undirected; v is u's neighbour exactly when it was before and neither is listed; no edge touching a listed node is left |
| Greedy.StrippedIdempotent | src/greedy.py:15-30 | stripping the same nodes again changes nothing |
| Greedy.Contacts | src/greedy.py:48-53 | a seed's contact scan only appends `I` entries for neighbours that were `S`; the infection count grows by the number of entries, which is at most the number of draws, which is at most the degree |
| Greedy.ContactsCounts | src/greedy.py:48-53 | the scan uses exactly one draw per neighbour that was `S`, and appends exactly one entry per such draw below beta |
| Greedy.ContactsEntry | src/greedy.py:48-53 | when the k-th neighbour was `S` and its draw (the one after the draws of the earlier `S` neighbours) is below beta, the scan appends `(neighbour, I)` right after the entries of the earlier successes |
| Greedy.ContactsPrefix | src/greedy.py:48-53 | the entries of a scan over a prefix of the neighbours are a prefix of the full scan's entries |
| Greedy.RecoveryDraw | src/greedy.py:43-47 | the recovery draw uses one random number; it appends one `(seed, S)` entry exactly when that number is below gamma, lowering `inf` by one, and appends nothing otherwise |
| Greedy.SeedTurn | src/greedy.py:43-53 | one seed's turn: the recovery draw, then the contacts; its rules are stated by `Greedy.SeedTurnRules` |
| Greedy.SeedTurnRules | src/greedy.py:43-53 | a seed's turn uses one recovery draw plus one draw per `S` neighbour; its first appended entry is `(seed, S)` exactly when the recovery draw is below gamma; `inf` moves by the neighbour draws below beta, minus one for a recovery |
| Greedy.Round | src/greedy.py:42-53 | the seeds take their turns in list order against the round-start states; its facts are stated by `Greedy.RoundFacts` |
| Greedy.RoundFacts | src/greedy.py:42-53 | a round only appends entries: `I` for a neighbour that was `S` at the round's start, `S` for a seed; `inf` changes by their net count; the bounds on `inf`, draws and entries are given by the seed count and the seeds' degrees (each seed's draw rules are in `Greedy.SeedTurnRules`) |
| Greedy.NetSnoc | src/greedy.py:44-52 | the net count of an appended entry is +1 for `I` and -1 for `S` |
| Greedy.NetInfections | src/greedy.py:51-52 | appending only `I` entries raises the net count by their number |
| Greedy.RoundStep | src/greedy.py:42-53 | one more seed turn keeps the round's invariants |
| Greedy.RoundStepCounts | src/greedy.py:42-53 | the count bounds carry over to one more seed |
| Greedy.SeedTurnCounts | src/greedy.py:43-53 | a seed turn changes `inf` by -1 up to its degree, and uses between 1 and 1 + degree draws |
| Greedy.PrefixChain | src/greedy.py:44-51 | appending to the entry list keeps earlier entries |
| Greedy.JustifiedStep | src/greedy.py:43-53 | a seed turn's entries are its own recovery and infections of neighbours that were `S` |
| Greedy.Commit | src/greedy.py:54-55 | the commit fails (`KeyError`) exactly when there are more entries than nodes; otherwise it keeps the node count |
| Greedy.CommitNothing | src/greedy.py:54-55 | committing no entries changes nothing |
| Greedy.Advance | src/greedy.py:39-55 | a round keeps the node count |
| Greedy.Rounds | src/greedy.py:39-55 | k rounds keep the node count |
| Greedy.RoundsStuck | src/greedy.py:39-55 | once a round raises, the rollout raises |
| Greedy.RoundsStep | src/greedy.py:39-55 | each round changes `inf` and the draw count within the seed-count and degree bounds |
| Greedy.FastSis | src/greedy.py:32-56 | the two-round rollout: `KeyError` if a round's commit raises, otherwise the final `inf` and cursor; its bounds are stated by `Greedy.FastSisBounds` |
| Greedy.FastSisBounds | src/greedy.py:32-56 | the two-round estimate lies between -2·(seed count) and 2·(sum of seed degrees), and uses between 2·(seed count) and 2·(seed count + sum of seed degrees) draws |
| Greedy.FastSeedTurn | src/greedy.py:43-53 | one seed's turn: a recovery draw, then the contact scan |
| Greedy.FastContacts | src/greedy.py:48-53 | the contact loop computes `Contacts` |
| Greedy.FastRound | src/greedy.py:40-53 | one round's loop over the seeds computes `Round` |
| Greedy.CommitChanges | src/greedy.py:54-55 | the write loop computes `Commit` on the copy |
| Greedy.RunFastSis | src/greedy.py:32-56 | works on a copy; returns `FastSis` of the caller's states (value and cursor, or the `KeyError`) |
| Greedy.Estimate | src/greedy.py:58-61 | `V` marks the given node `V` in the caller's states, and that mark stays; it then returns the rollout on the marked states |
| Greedy.GarbledNeverInfected | src/greedy.py:48-55 | a node overwritten by the first round's commit is never infected in the second round |
| Greedy.PathOfThreeFirstRound | src/greedy.py:42-53 | on the path 0–1–2 with seeds 0 and 2 both `I`, the shared neighbour 1 is appended, and counted, once per seed |
| Greedy.PathOfThreeFirstSeed | src/greedy.py:42-53 | the first seed's turn infects node 1 |
| Greedy.PathOfThreeLastSeed | src/greedy.py:42-53 | the second seed infects node 1 again |
| Greedy.PathOfThreeSecondRound | src/greedy.py:42-53 | in the second round no garbled node is infected |
| Greedy.PathOfThreeCommit | src/greedy.py:54-55 | the commit writes entry i into node i |
| Greedy.PathOfThreeOneRound | src/greedy.py:39-55 | one round of that example |
| Greedy.PathOfThreeDoubleCount | src/greedy.py:32-56 | that example estimates 2 new infections of a single node |
| Greedy.PathOfTwoReinfected | src/greedy.py:54-55 | with the commit as written, the two-node example estimates 2: node 1 is infected in both rounds |
| Greedy.CommitFixed | src/greedy.py:54-55 | the intended commit: each node takes the label of the last entry naming it, or keeps its state |
| Greedy.FixedCommitNoReinfection | src/greedy.py:48-55 | with the intended commit, round two infects only nodes that are still `S` after round one |
| Greedy.AdvanceFixed | src/greedy.py:39-55 | a round with the intended commit keeps the node count |
| Greedy.PathOfTwoFixed | src/greedy.py:32-56 | with the intended commit, the two-node example estimates 1 |
| Greedy.FirstMax | src/greedy.py:78 | `max` by gain returns the first entry of maximal gain |
| Greedy.Sweep | src/greedy.py:73-77 | one gain per candidate, in candidate order |
| Greedy.Reset | src/greedy.py:77 | the states with every swept candidate set back to `S`, every other node unchanged; `Greedy.SweepFacts` states that the sweep ends in these states |
| Greedy.SweepFacts | src/greedy.py:73-77 | after the sweep, every candidate is `S` and every other node is unchanged |
| Greedy.SweepStuck | src/greedy.py:73-77 | if probing a prefix of the candidates raises, the sweep raises |
| Greedy.GreedyRound | src/greedy.py:71-81 | a round keeps the node count |
| Greedy.RoundPicksFirstMax | src/greedy.py:71-78 | `max` raises exactly when there is no candidate; otherwise the pick is the first candidate of maximal gain `VW - VWp` |
| Greedy.GreedyRoundStates | src/greedy.py:77-81 | after a round, the candidates are `S` and the pick is `V` |
| Greedy.NextPick | src/greedy.py:70-81 | once a round raised, later rounds change nothing |
| Greedy.GreedyRounds | src/greedy.py:63-82 | the rounds keep the node count and keep the candidates within the graph (the bounds on the picks are in `Greedy.GreedyShape`) |
| Greedy.GreedyRoundsNext | src/greedy.py:70 | round k + 1 is one more round after round k |
| Greedy.GreedyStuck | src/greedy.py:70-81 | once a round raises, the selector ends with that error |
| Greedy.NextPickShaped | src/greedy.py:71-81 | a round keeps the selection's shape and adds exactly one pick; it raises `EmptyMax` only when no candidate is left |
| Greedy.PickShaped | src/greedy.py:79-81 | committing a candidate keeps the shape |
| Greedy.ShapedAtStart | src/greedy.py:66-69 | before any round: no picks, candidates are the non-infected nodes, states as given |
| Greedy.ShapedAfterStep | src/greedy.py:70-81 | the shape carries over one round |
| Greedy.GreedyShape | src/greedy.py:63-82 | after k rounds: the picks `W` are distinct non-infected nodes; the candidates are the other non-infected nodes; picks are `V` and the other non-infected nodes are `S` (unchanged if nothing was picked); infected nodes are unchanged; a completed run has exactly k picks, and `max` raised only if k exceeds the number of non-infected nodes |
| Greedy.PickedSnoc | src/greedy.py:79 | appending a new pick keeps `W` duplicate-free |
| Greedy.FastEst | src/greedy.py:58-61 | the estimator `V(GW, beta, gamma, S)`: `run_fast_sis` on the given states |
| Greedy.FastEstIsFastSis | src/greedy.py:72 | the selector's estimator is `run_fast_sis` |
| Greedy.FastSisFixed | src/greedy.py:32-56 | the rollout with the intended commit; it always returns a value (`Greedy.FixedEstTotal`) |
| Greedy.FixedEst | src/greedy.py:58-61 | the estimator `V` with the intended commit: `FastSisFixed` on the given states; `Greedy.FixedEstTotal` states that it never raises |
| Greedy.FixedEstTotal | src/greedy.py:32-56 | the estimator with the intended commit never raises |
| Greedy.SweepTotal | src/greedy.py:73-77 | with an estimator that never raises, the sweep never raises |
| Greedy.GreedyNeverKeyError | src/greedy.py:63-82 | with an estimator that never raises, the selector never ends in `KeyError` |
| Greedy.NextPickNeverKeyError | src/greedy.py:71-81 | a round with such an estimator does not raise `KeyError` |
| Greedy.FixedSelectorOutcome | src/greedy.py:63-82 | with the intended commit, the selector either picks exactly n_vac nodes, or `max` raises because n_vac exceeds the number of non-infected nodes |
| Greedy.Probe | src/greedy.py:73-77 | the probing loop computes `Sweep` on `GW` |
| Greedy.SelectOne | src/greedy.py:71-81 | one round's code computes `NextPick` |
| Greedy.GreedyLoop | src/greedy.py:70-81 | the round loop computes `GreedyRounds` |
| Greedy.GreedyAlgorithm | src/greedy.py:63-82 | works on a fresh copy `GW`; returns the status, `GW` and `W` given by `GreedyRounds` with `run_fast_sis` as the estimator |
| Immun.ImmunByScore | src/immun.py:18-23 | returns a fresh copy with the top n nodes by score set to `V` |
| Immun.ImmunHighDegree | src/immun.py:3-12 | the same, with degrees as the score |
| Immun.ImmunPageRank | src/immun.py:14-23 | the same, with the PageRank vector as the score |
| Immun.ImmunBetweennessCentrality | src/immun.py:25-34 | the same, with betweenness centrality as the score |
| Immun.Immunized | src/immun.py:7-11 | the copy's states with the top n nodes set to `V`; its contract is stated by `Immun.TopScoresVaccinated` |
| Immun.TopScoresVaccinated | src/immun.py:9-11 | a node ends `V` exactly when it was `V` or ranks in the top n; each newly vaccinated node scores at least as high as each node left unvaccinated; at least min(n, N) nodes end `V` |
| Immun.HighDegreeVaccinated | src/immun.py:8-11 | each newly vaccinated node has at least the degree of each unvaccinated node; at least min(n, N) nodes end `V` |
| Immun.ImmunizedIdempotent | src/immun.py:9-11 | immunising twice with the same scores changes nothing more |

## Left out

- Graph generators, random infection seeding, plotting, printing and progress bars are not part of this model. Nor are data loading, `utils.py` or `main.py`.
- The commented-out variant of `greedy_algorithm` (src/greedy.py:84-107) is not part of this model.
- `vaccinate_by_betweenness_centrality` and `vaccinate_by_pagerank` in src/sis.py are not modelled separately. They are the in-place form of the same ranking pattern (`Sis.VaccinateByScore`).
- The scores from `nx.pagerank` and `nx.betweenness_centrality` are inputs, because they are library computations outside the core.
- Probabilities and scores are exact reals. Floating-point rounding is not modelled.
- Random draws come from an injected stream. Only its range, [0, 1), is assumed, and only where a lemma needs it (`UnitDraws`).
- Greedy.Rounds: the `next_S` list in `run_fast_sis` is built but never read, so it is not modelled.
- Greedy.RemoveEdge: it does not model networkx raising for a missing edge. Every edge `remove_edge_from_nodes` removes exists and is removed once.
- Greedy.Commit: a round whose entry list is longer than the graph raises `KeyError` before any write. The source writes the first N entries and then raises, but the copy is discarded, so the caller sees only the error.
- Greedy.GreedyRounds: the shape lemmas are stated for any estimator. Only `Greedy.GreedyAlgorithm` uses the estimator as written. The no-`KeyError` outcome (`Greedy.FixedSelectorOutcome`) is proved for the estimator with the intended commit.
- Nodes are the dense ids 0..N-1, in that order. Graphs with other node labels or another iteration order are not modelled.
- Ranking.TopN, Immun.Immunized, Immun.ImmunByScore, Immun.ImmunHighDegree, Immun.ImmunPageRank, Immun.ImmunBetweennessCentrality, Sis.VaccinateByScore, Sis.VaccinateByDegree: the count of nodes to vaccinate is a `nat`. Python's `[:n]` with a negative n keeps all but the last |n| ranked nodes (src/immun.py:9, 20, 31; src/sis.py:121), and that negative-slice behaviour is not modelled.
- Greedy.RemoveEdgeFromNodes, Greedy.RunFastSis, Greedy.Estimate, Greedy.GreedyAlgorithm: the node list, the seed list and the probed node must name nodes of the graph (`NodesIn`, `node.value < |adj|`). The networkx errors for an absent node are not modelled: `neighbors` raising for a listed node or seed (src/greedy.py:22, 48, after the seed's recovery draw at line 43), and `G.nodes[node]` raising `KeyError` (src/greedy.py:60).

## Findings

| source | as written | input that shows it | evidently intended | confidence | as-written member | corrected member |
|---|---|---|---|---|---|---|
| src/greedy.py:54-55 | `enumerate(nodes)` writes the i-th `(node, label)` entry, as a tuple, into node i, instead of writing the label into the named node | path 0–1, node 0 infected, seeds [0], `beta = 1`, `gamma = 0`, every draw 0: round one infects node 1 but writes the entry into node 0, so node 1 is still `S` and round two infects and counts it again; the estimate is 2 | each entry's label is stored into its own node, so round two only infects nodes still `S`, and the estimate is 1 | not executed | Greedy.PathOfTwoReinfected | Greedy.FixedCommitNoReinfection |
