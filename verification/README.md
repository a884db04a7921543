# TMT agent simulation: decision model and elimination pass

This project models the core of an agent-based simulation of Terror
Management Theory (TMT). Agents live on a grid and belong to clusters. Each
has one of four attachment styles: dismissive, fearful, preoccupied or
secure. Each holds a social network of weighted ties and a 32-bit
worldview.

At the end of every iteration the server runs one elimination pass:
- it marks natural deaths;
- each agent votes on self-sacrifice, using three weighted scores: mortality
  salience, worldview validation and relationship validation;
- enough agents are sacrificed to meet a quota;
- the survivors record what they lost, in their cluster and in their
  network.

The model covers:
- the agent's own state changes and scoring (`agents/ExtendedAgent.go`);
- the four attachment styles' birth ranges and movement targets;
- the elimination pass (`server/populationLogic.go`);
- tie creation and severance (`server/socialNetworkLogic.go`);
- the standalone decision test (`tests/GetASPDecision_test.go`), modelled
  as written. It names the type `infra.ASMDecison`, while
  `infra/Constants.go:3` declares `ASPDecison`, so the file as it stands
  does not compile against that package. The model follows its logic and
  its table, with the outcomes of `infra/Constants.go`;
- the constants, positions and grid (`infra/`);
- the configuration check (`config/config.go`);
- the turn recorder (`gameRecorder/DataRecorder.go`).

Modules, one per source concern:

| module | file | models |
|---|---|---|
| `Common` | common.dfy | `Option` and `Result` |
| `Collections` | collections.dfy | map-order enumeration of sets, filtering, means, the closest-entries walk |
| `Bits` | bits.dfy | `bits.OnesCount32` and XNOR alignment |
| `Reals` | reals.dfy | small real-arithmetic facts |
| `SortSearch` | sortsearch.dfy | `sort.Ints` and `sort.SearchInts` |
| `Constants` | constants.dfy | decisions and weights |
| `Geometry` | geometry.dfy | positions, squared distance, grid |
| `Agents` | agent.dfy | the agent record and its own updates |
| `Scoring` | scoring.dfy | sub-factors, the three scores, the vote |
| `DecisionTest` | decision_test.dfy | the test's copy of the vote |
| `Styles` | styles.dfy | birth ranges and movement targets |
| `Network` | network.dfy | tie creation and severance |
| `Population` | population.dfy | the elimination pass |
| `Settings` | config.dfy | configuration and its check |
| `Recording` | recorder.dfy | the turn recorder |

Conventions of the model:
- Agents are immutable records keyed by a natural-number identifier.
- The server's agent map is a Dafny `map` (the registry).
- Go's randomised map iteration is modelled as ascending-identifier order.
  Every contract that depends on order says so.
- Random draws are inputs:
  - the set of agents whose mortality draw failed;
  - a shuffle function that returns a permutation of its argument;
  - uniform draws in [0,1);
  - a pick index.
- float32/float64 values are exact reals.
- Distances are integer squared distances. `Geometry.RootOrder` shows that
  comparing square roots agrees with comparing their squares.

Where the description of the system and the code disagree, the model
follows the code:
- **Fixed threshold.** The vote uses the fixed threshold 0.75 of
  `GetASPDecision`, not the configured threshold τ, which the agent never
  reads.
- **Inaction.** `Inaction` is unreachable: three ±1 votes never sum to 0.
- **Heroism.** Heroism grows only with a voluntary sacrifice, not with a
  self-sacrifice vote.
- **Configuration check.** The check rejects only a bad proportion sum. An
  out-of-range threshold is accepted (`Settings.OutOfRangeAccepted`).
- **Exposure counts.** Cluster and network exposures are raw counts, not
  clipped.
- **Relative age.** Relative age is the excess over the peers' mean age, not
  a rank.
- **Estrangement.** Estrangement is the fraction of descendants still in the
  network, not a ratio of created to severed ties.
- **Cluster-mates.** The cluster and network profiles count every
  registered agent, not only living ones.
- **NaN.** Ratio scores are meant to fall back to 0, but two of them can be
  NaN. The heroism tendency is NaN when no network entry is registered (see
  Findings). Memorial proximity guards only the case with no memorials. It
  is 0/0 = NaN when every memorial and every cluster-mate stands on the
  agent's own cell, for instance for an agent alone in its cluster standing
  on its own tombstone. Mortality salience is then NaN, and it votes "no"
  however many eliminations the agent has observed.
- **Ties to the dead.** The design removes a dead agent from every network,
  severing each survivor's tie to it. The elimination pass only calls
  `RemoveAgent`, and no code after it severs ties. Survivors therefore keep
  network entries for removed agents (`Population.PassSurvivor`). The
  ysterofimia update, which runs after the removals, counts those entries,
  and the NaN heroism tendency arises from them.

## Model

| member | source | states |
|---|---|---|
| Constants.FromCode | infra/Constants.go:5-9 | decoding an outcome code inverts the `iota` numbering |
| Constants.CodesRoundTrip | infra/Constants.go:5-9 | the three outcomes have the distinct codes 0, 1, 2, and decoding a code gives the outcome back |
| Constants.WeightsAreConvex | infra/Constants.go:13-22 | within each of the three scores the weights are non-negative and sum to 1 |
| Geometry.SqDist | infra/CommonTypes.go:10-14 | the squared distance is zero exactly between equal positions |
| Geometry.SqDistSymmetric | infra/CommonTypes.go:10-14 | distance is symmetric |
| Geometry.RootOrder | infra/CommonTypes.go:10-14 | comparing `math.Sqrt` distances agrees with comparing squared distances, for both `<` and `==` |
| Geometry.RootOfSelfDistance | infra/CommonTypes.go:10-14 | the distance from a point to itself is 0 |
| Geometry.Reflect | agents/DismissiveAgent.go:73-77 | the "move away" target lies as far from the agent as the closest peer does, on the opposite side, so the agent is the midpoint |
| Geometry.CreateGrid | infra/Grid.go:14-19 | the dimensions are kept as given and there are no memorials yet |
| Geometry.DistanceProperties | infra/Grid.go:21-23 | `Distance` on pairs is symmetric, zero exactly on equal pairs, and agrees with `PositionVector.Dist` |
| Bits.OnesCount32Range | agents/ExtendedAgent.go:284 | a popcount is at most 32, and is 32 exactly for the all-ones word |
| Bits.XnorCountsEqualBits | agents/ExtendedAgent.go:281-284 | the popcount of XNOR(a, b) counts the positions where a and b agree |
| Bits.XnorAllOnes | agents/ExtendedAgent.go:281 | XNOR(a, b) is all ones exactly when a == b |
| Scoring.Alignment | agents/ExtendedAgent.go:279-288 | worldview alignment lies in [0,1], and is 1 exactly for equal worldviews |
| Scoring.AlignmentCountsAgreement | agents/ExtendedAgent.go:279-288 | alignment is the number of agreeing bit positions over 32, and is symmetric |
| Scoring.ProfileRange | agents/ExtendedAgent.go:305-313 | a mean alignment lies in [0,1], is 0 with no peers, and is 1 exactly when there is a peer and all peers share the worldview |
| Scoring.CPR | agents/ExtendedAgent.go:290-314 | the cluster profile lies in [0,1], is 0 with no other cluster member, and is 1 exactly when all others share the worldview |
| Scoring.NPR | agents/ExtendedAgent.go:316-335 | the network profile lies in [0,1], is 0 with no registered entry, and is 1 exactly when every registered entry shares the worldview |
| Scoring.NprCountsSelfEntry | agents/ExtendedAgent.go:320-324 | unlike the cluster profile, a registered self-entry in the network is counted |
| Scoring.AgeExcess | agents/ExtendedAgent.go:234-243 | the relative-age ratio lies in [0,1], and is positive exactly when age > 0, there is a peer, and age exceeds the peers' mean |
| Scoring.RelativeAge | agents/ExtendedAgent.go:222-244 | relative age to network lies in [0,1], and is positive exactly when the agent is older than its registered non-self peers' mean |
| Scoring.Estrangement | agents/ExtendedAgent.go:337-353 | estrangement lies in [0,1]: 0 without descendants or with none connected, 1 exactly when every descendant is connected |
| Scoring.ProSocialEsteemRange | agents/ExtendedAgent.go:355-366 | with tie strengths in [0,1] the mean esteem lies in [0,1]: 0 for an empty network, 1 exactly when every tie is at full strength |
| Scoring.CountLessHeroisms | agents/ExtendedAgent.go:375-381 | counting low heroism values along the entries is filtering the entries by low heroism |
| Scoring.SearchIndexCountsLowerPeers | agents/ExtendedAgent.go:383-387 | the search index of the agent's own heroism in its sorted peer values is the number of registered peers with strictly lower heroism |
| Scoring.HeroismTendency | agents/ExtendedAgent.go:368-390 | as written: 0 for an empty network, and NaN exactly when the network is non-empty but holds no registered agent |
| Scoring.HeroismTendencyIsRank | agents/ExtendedAgent.go:368-390 | with a registered entry the tendency is the fraction of registered entries with lower heroism, in [0,1] |
| Scoring.HeroismRank | agents/ExtendedAgent.go:368-390 | the intended rank: always in [0,1], 0 with no registered entry, and equal to the source's value wherever that is a number |
| Scoring.SqDistSumZero | agents/ExtendedAgent.go:257-260 | the agent's summed distance to the memorials is 0 exactly when every memorial lies on its cell |
| Scoring.MatesSumZero | agents/ExtendedAgent.go:264-274 | the cluster-mates' summed distances to the memorials are 0 exactly when each mate's own sum is |
| Scoring.DenominatorZero | agents/ExtendedAgent.go:262-276 | with some memorial, the proximity denominator is 0 exactly when every memorial and every other agent of the cluster lies on the agent's cell |
| Scoring.MemorialProximity | agents/ExtendedAgent.go:246-277 | memorial proximity is 0 with no tombstones or temples; NaN exactly when the denominator is 0; 0 when only the numerator is; otherwise the ratio, in [0,1] when the ratio is |
| Scoring.LoneAgentOnTombstone | agents/ExtendedAgent.go:246-277 | an agent alone in its cluster, with a single tombstone on its own cell, gets NaN mortality salience |
| Scoring.MortalitySalience | agents/ExtendedAgent.go:392-401 | the score is NaN exactly when memorial proximity is; otherwise it is bounded below by its weighted exposure counts, and above by them plus W3 (no memorials) or W3 + W4 (ratio at most 1) |
| Scoring.WorldviewValidation | agents/ExtendedAgent.go:403-411 | with the ysterofimia score in [0,1] the score lies in [0,1], and is 1 exactly when the two profiles and that score are all 1 |
| Scoring.HeroismNaNWitness | agents/ExtendedAgent.go:370-389 | an agent whose only network entry is no longer registered gets a NaN tendency and relationship score, where the intended rank is 0 |
| Scoring.RelationshipValidation | agents/ExtendedAgent.go:413-421 | as written the relationship score is NaN exactly when the heroism tendency is |
| Scoring.RelationshipValidationIntended | agents/ExtendedAgent.go:413-421 | with the intended rank and unit tie strengths, the relationship score lies in [0,1] |
| Scoring.IntendedRelationshipAgrees | agents/ExtendedAgent.go:413-421 | wherever the source's relationship score is a number, the intended score equals it |
| Scoring.VoteSumOfThree | agents/ExtendedAgent.go:435-442 | the vote loop sums one ±1 vote per score |
| Scoring.Decide | agents/ExtendedAgent.go:435-451 | the vote never yields `Inaction`, and yields self-sacrifice exactly when at least two of the three scores are strictly above the threshold |
| Scoring.AspDecision | agents/ExtendedAgent.go:428-452 | `GetASPDecision` at the fixed threshold 0.75 yields self-sacrifice exactly when at least two of the three scores exceed 0.75, a NaN score exceeding nothing |
| Scoring.NaNRelationshipHarmless | agents/ExtendedAgent.go:413-452 | the NaN relationship score never changes a decision: the intended score votes "no" in the same situations |
| Scoring.IntendedRelationshipWithoutPeers | agents/ExtendedAgent.go:413-421 | with no registered entry the intended relationship score is at most W8 + W9 = 0.5 |
| Scoring.ExposureSettlesMortalityVote | agents/ExtendedAgent.go:392-401 | four observed eliminations push mortality salience above 0.75 unless it is NaN; with none observed and no memorials it is W3 times relative age, at most 0.25 |
| Scoring.NaNMortalityVotesNo | agents/ExtendedAgent.go:392-452 | when every memorial and cluster-mate is on the agent's cell, mortality salience is NaN and votes "no", and the agent self-sacrifices exactly when both other scores exceed 0.75 |
| SortSearch.Sort | agents/ExtendedAgent.go:384 | `sort.Ints` returns a sorted permutation of its input |
| SortSearch.SearchInts | agents/ExtendedAgent.go:387 | `sort.SearchInts` returns the first index whose element is at least x, or the length when there is none |
| SortSearch.SortedSearchCounts | agents/ExtendedAgent.go:387 | on a sorted slice the search index is the number of elements below x |
| SortSearch.SearchCountsBelow | agents/ExtendedAgent.go:384-387 | after sorting, the search index counts the elements of the unsorted input below x |
| SortSearch.CountLessPermutation | agents/ExtendedAgent.go:384 | the count below x depends only on the multiset, so sorting does not change it |
| Agents.IncrementHeroism | agents/ExtendedAgent.go:180-182 | heroism rises by exactly one and nothing else about the agent changes |
| Agents.RandInRange | agents/ExtendedAgent.go:117-119 | for a draw in [0,1) and lo < hi, the result lies in [lo, hi) |
| Agents.NextEsteem | agents/ExtendedAgent.go:470-474 | an esteem step keeps esteem in [0,1] for rates in [0,1]; a check never lowers esteem and its absence never raises it; rate 0 is the identity and rate 1 saturates |
| Agents.UpdateEsteem | agents/ExtendedAgent.go:468-475 | only the friend's entry is written (created from 0 when absent), by one esteem step; every other entry and field is unchanged |
| Agents.RoundsKeepUnitStrengths | agents/ExtendedAgent.go:468-475 | any number of esteem updates keeps every tie strength in [0,1] |
| Agents.ZeroRatesKeepEsteem | agents/ExtendedAgent.go:468-475 | with both rates 0, updates change no existing strength, and leave the agent as it was when every update names an existing peer |
| Agents.FindClosestFriend | agents/ExtendedAgent.go:138-162 | nil exactly when no network entry is registered; otherwise a registered entry at least distance, picked from the full list of equally close entries, each of which can be picked |
| Agents.WalkFindsClosest | agents/ExtendedAgent.go:142-156 | the walk's list is empty exactly when no entry is registered, and otherwise holds exactly the closest entries |
| Styles.Draw | agents/DismissiveAgent.go:21-22 | `randInRange(0, 0.5)` and `randInRange(0.5, 1)` land in the low and the high half |
| Styles.BirthAttachment | agents/DismissiveAgent.go:19-24 | each style draws anxiety and avoidance in its own halves: dismissive low/high, fearful high/high, preoccupied high/low, secure low/low |
| Styles.BirthClassifies | agents/FearfulAgent.go:18-23 | the two drawn scalars always classify back to the style that drew them |
| Styles.BirthPtw | agents/SecureAgent.go:24-30 | each style draws its four wellbeing-protocol parameters in the halves its constructor names |
| Styles.BirthRatesAreUnit | agents/PreoccupiedAgent.go:28-34 | every style's alpha and beta lie in [0,1], so esteem updates stay in [0,1] |
| Styles.FirstNearest | agents/DismissiveAgent.go:46-67 | the `dist < minDist` walk returns nothing exactly when no candidate is accepted, and otherwise the first accepted candidate at least distance |
| Styles.FirstNearestUnique | agents/DismissiveAgent.go:46-67 | the walk's stopping place is determined by its contract |
| Styles.ClosestOf | agents/SecureAgent.go:45-66 | the closest candidate of a set, or none exactly when the set is empty |
| Styles.DismissiveTarget | agents/DismissiveAgent.go:43-78 | no target exactly when there is no registered non-self network peer; otherwise the reflection of the closest such peer through the agent |
| Styles.SecureTarget | agents/SecureAgent.go:42-74 | no target exactly when there is no registered non-self network peer; otherwise the closest such peer's position |
| Styles.FearfulTarget | agents/FearfulAgent.go:41-77 | no target exactly when no other agent shares the cluster; otherwise the reflection of the closest cluster-mate, friend or not |
| Styles.PreoccupiedTarget | agents/PreoccupiedAgent.go:46-75 | no target exactly when no agent on the grid is a friend; otherwise the first closest friend in grid order |
| Network.CreateNetworkConnection | server/socialNetworkLogic.go:5-18 | a no-op unless both agents are registered; otherwise `from` holds the tie at that strength and logs it as performed, `to` logs it as received, and no other agent changes |
| Network.SeverNetworkConnection | server/socialNetworkLogic.go:20-33 | as written: a no-op unless both agents are registered; otherwise `to` leaves `from`'s network and both severance logs go to `to` |
| Network.SeverCreditsTheWrongAgent | server/socialNetworkLogic.go:29-32 | between distinct agents, severance credits the cut to the agent that lost the tie, while creation credits the agent that made it |
| Network.SeverIntended | server/socialNetworkLogic.go:20-33 | the intended severance: "performed" logged on `from`, "received" on `to` |
| Network.SeverIntendedMirrorsCreate | server/socialNetworkLogic.go:14-17 | the intended severance credits the same agents as creation, in the same roles, and undoes the tie |
| Network.SeverUndoesCreate | server/socialNetworkLogic.go:14-29 | severing a freshly created tie restores `from`'s network; only the logs remember it |
| Network.CreateKeepsUnitStrengths | server/socialNetworkLogic.go:14 | creating ties of strength in [0,1] keeps every strength in [0,1] |
| Population.UpdateMortality | server/populationLogic.go:13-21 | exactly the drawn agents are newly marked dead; nobody revives and nothing else changes |
| Population.Entomb | server/populationLogic.go:63-68 | each entombed agent gets a tombstone at its position and an elimination-list entry, in order |
| Population.NaturalEliminations | server/populationLogic.go:23-36 | every dead agent, in map order, gets one tombstone and one list entry; the agents are unchanged |
| Population.DeadInMapOrder | server/populationLogic.go:25-33 | walking the agent map and keeping the dead visits exactly the dead agents |
| Population.Stratify | server/populationLogic.go:38-52 | the volunteers are exactly the registered agents deciding self-sacrifice, the rest are non-volunteers, and together they cover the registry |
| Population.StratifyCounts | server/populationLogic.go:43-50 | the two lists enumerate the volunteers and the rest, and their sizes sum to the population |
| Population.Needed | server/populationLogic.go:72-73 | the quota is ρ·n truncated toward zero |
| Population.QuotaWithinPopulation | server/populationLogic.go:72-73 | a proportion in [0,1] never asks for more agents than there are |
| Population.SacrificeVoluntarily | server/populationLogic.go:54-61 | a voluntary sacrifice adds a temple, raises heroism by one and lists the agent as eliminated and self-sacrificed |
| Population.EnshrineLists | server/populationLogic.go:58-59 | voluntary sacrifices extend both lists by the sacrificed agents, in order |
| Population.EnshrineHeroism | server/populationLogic.go:57 | each voluntary sacrifice raises that agent's heroism by one; nothing else about any agent changes |
| Population.EnshrineGrid | server/populationLogic.go:55-56 | each voluntary sacrifice places one temple at the agent's position; tombstones stay |
| Population.ChooseSacrifices | server/populationLogic.go:76-106 | enough volunteers: a shuffled `needed` of them and nobody else; too few: all volunteers plus min(non-volunteers, 2·shortfall) shuffled non-volunteers; chosen agents come from their lists, each at most once |
| Population.SacrificialEliminations | server/populationLogic.go:70-109 | the quota is ρ·|registry|; the chosen volunteers are sacrificed voluntarily and the drafted ones involuntarily, all registered |
| Population.SacrificeEffects | server/populationLogic.go:84-104 | after the sacrifices both lists are extended, heroism is raised per voluntary sacrifice, with a temple per voluntary and a tombstone per involuntary sacrifice |
| Population.UpdateYsterofimia | server/populationLogic.go:111-130 | the network counter rises by the number of removed network entries; each goes to exactly one bucket, volunteered or other, with its esteem; nothing else changes |
| Population.TallyLost | server/populationLogic.go:113-118 | along any walk order, the count is the number of removed entries |
| Population.LossesSplit | server/populationLogic.go:120-126 | the two buckets partition the losses; with unit tie strengths no bucket gains more esteem than entries |
| Population.Observe | server/populationLogic.go:163-169 | a survivor's cluster counter rises by the eliminations in its cluster, and its network tally records the removed peers: each bucket's count rises by its losses and its esteem total by the sum of their tie strengths |
| Population.Survivors | server/populationLogic.go:145-169 | the survivors are the registry minus the removed agents, each having observed the losses |
| Population.AfterNaturalDeaths | server/populationLogic.go:133-140 | both lists are reset and then hold exactly the dead agents, none self-sacrificed |
| Population.Pass | server/populationLogic.go:132-170 | an elimination pass removes only registered agents and keeps everyone else |
| Population.ApplyElimination | server/populationLogic.go:132-170 | as written, with dead agents stratified alongside the living |
| Population.ApplyEliminationIntended | server/populationLogic.go:132-170 | the pass with only living agents stratified |
| Population.PassLists | server/populationLogic.go:133-142 | the elimination list is the naturally dead, then the voluntary, then the involuntary sacrifices; the voluntary list holds only the voluntary ones |
| Population.PassRemovesListed | server/populationLogic.go:144-154 | the agents removed are exactly the agents listed as eliminated |
| Population.PassChoice | server/populationLogic.go:141-142 | sacrifices come from the stratified lists, without repetition |
| Population.PassVolunteers | server/populationLogic.go:141 | the volunteers are exactly the pool's agents deciding self-sacrifice on the state after the natural deaths; as written the pool includes the newly dead |
| Population.PassChosen | server/populationLogic.go:142 | the sacrifices are chosen from the pass's own strata against the quota |
| Population.PassQuotaMet | server/populationLogic.go:76-86 | with enough volunteers exactly the quota is sacrificed voluntarily, and nobody is drafted |
| Population.PassRemovesTheDead | server/populationLogic.go:138-154 | every agent dead after the mortality step is removed, so every survivor is alive |
| Population.PassSurvivor | server/populationLogic.go:163-169 | a survivor is the agent that entered the pass, plus its observations of the losses in its cluster and network, with both ysterofimia buckets' counts and esteem totals raised by the removed peers that had or had not volunteered |
| Population.PassDeadVolunteer | server/populationLogic.go:138-142 | as written, an agent that dies and votes to sacrifice itself is listed twice among the eliminated when the quota is short, and counted as a self-sacrifice |
| Population.LivingPool | server/populationLogic.go:141 | with only living agents stratified, both lists hold living agents and no agent is on both |
| Population.LivingPoolEliminatesOnce | server/populationLogic.go:132-154 | with only living agents stratified, nobody is listed twice among the eliminated |
| Population.IntendedEliminatesOnce | server/populationLogic.go:132-170 | the intended pass lists every eliminated agent once, and every volunteer is alive |
| DecisionTest.ConfidenceTermRange | tests/GetASPDecision_test.go:15-19 | a confidence term is at most 1, non-negative for a non-negative score, and exactly 1 at or above a positive threshold or for a non-positive one |
| DecisionTest.GetAsmDecision | tests/GetASPDecision_test.go:10-34 | the test's copy agrees with the agent's own vote at any threshold and never yields `Inaction`; the confidence, at most 3, plays no part |
| DecisionTest.ScoreAtThresholdVotesNo | tests/GetASPDecision_test.go:20-24 | a score equal to the threshold votes "no" although its confidence term is full |
| DecisionTest.TableCases | tests/GetASPDecision_test.go:43-60 | the three table cases yield the expected outcomes |
| Settings.Validate | config/config.go:56-61 | the configuration is rejected exactly when the four style proportions sum to more than 1.05 or less than 0.95; otherwise it is returned unchanged |
| Settings.DefaultsValid | config/config.go:34-52 | the defaults pass the check and hold the documented values |
| Settings.OnlyProportionsChecked | config/config.go:57 | settings with the same proportions get the same verdict |
| Settings.OutOfRangeAccepted | config/config.go:57-61 | a threshold above 1, a negative quota or a negative proportion passes the check |
| Recording.NewTurnRecord | gameRecorder/DataRecorder.go:22-27 | a new record carries its iteration and turn and no snapshots |
| Recording.CreateRecorder | gameRecorder/DataRecorder.go:42-48 | a new recorder is empty at iteration -1 and turn -1, and is valid |
| Recording.RecordNewIteration | gameRecorder/DataRecorder.go:51-54 | the iteration moves on by one, the turn resets to -1, the records stay, and validity is kept |
| Recording.RecordNewTurn | gameRecorder/DataRecorder.go:57-70 | the turn moves on by one; turn 0 first adds a header with the infrastructure snapshot; one record with both snapshots is appended; earlier records stay; validity is kept |
| Recording.GetCurrentTurnRecord | gameRecorder/DataRecorder.go:37-39 | an empty recorder has no current record (Go's unguarded `len - 1` index panics); otherwise the current record is a stored record, and in a valid recorder the latest one |
| Recording.CurrentIsLatestTurn | gameRecorder/DataRecorder.go:37-39 | right after a turn is recorded, the current record is that turn, with both snapshots |
| Recording.FirstTurnOfIteration | gameRecorder/DataRecorder.go:51-65 | the first turn after a new iteration is turn 0 and adds two records, the header first |
| Recording.TurnsStrictlyLater | gameRecorder/DataRecorder.go:59-69 | in a valid recorder a newly recorded turn is strictly later than every earlier record |

## Left out

- Randomness. `rand.Float32`, `rand.Intn` and `rand.Shuffle` are inputs: a draw in [0,1), a pick index, the set of agents whose mortality draw failed, and a shuffle function assumed to permute its argument.
- Map iteration order. Go visits map entries in random order; the model visits them in ascending identifier order. Counts, sets and sums do not depend on the order. The elimination-list order does, and the contracts state it for that enumeration.
- Floating point. float32/float64 rounding, infinities and overflow are not modelled; values are exact reals and distances are integer squared distances. Both NaNs the code can produce (heroism tendency and memorial proximity, and the scores built on them) are modelled as `None`.
- Integer overflow. Go's `int` is 64-bit and the counters here never approach its bounds; `Seed` (`int64`) is an unbounded integer.
- Scoring.MemorialProximity: the cases with no memorials, a zero denominator (NaN) and a zero numerator are modelled; otherwise the ratio of summed Euclidean distances is an input, because it is a float64 ratio of square roots, so the model does not promise its value.
- Scoring.WorldviewValidation: the ysterofimia score is an input; `Ysterofimia.ComputeYsterofimia` is not part of this model.
- Code not part of this model: `GetAgentByID`, `GetAgentMap`, `RemoveAgent` (assumed to delete only the agent-map entry; other agents' network entries naming it stay), `Grid.GetAllOccupiedAgentPositions`, `Grid.PlaceTombstone`/`PlaceTemple` (modelled as appending a position), `NewWorldview`, `AddToSocialNetwork` (assumed to set the entry for the counterparty, overwriting any earlier strength), `RemoveFromSocialNetwork` (assumed to delete the entry, with no effect when it is absent), the ysterofimia ledger of `infra/Ysterofimia.go` (assumed to be a record of a count and an esteem total per bucket, shared with the agent rather than copied by `GetYsterofimia`), with `IncrementSelfSacrificeCount` and `IncrementOtherEliminationCount` (assumed to add 1 to their bucket's count) and `AddSelfSacrificeEsteems` and `AddOtherEliminationsEsteems` (assumed to add the given esteem to their bucket's total), the telomere, k-means clustering, reproduction, and the created/severed counters (`PerformCreatedConnection` and the like), which are modelled as per-agent logs of counterparties.
- Grid markers. The grid record in `infra/Grid.go` holds only its dimensions; the tombstone and temple lists it is given elsewhere are modelled as two sequences.
- Messaging: `CreateWellbeingCheckMessage`, `HandleWellbeingCheckMessage`, `HandleReplyMessage` and message delivery are not modelled; `UpdateEsteem` is modelled on its own.
- Creation paths: `CreateExtendedAgent` and the style constructors are modelled only through the draws they make. Their signatures differ between the style files, and the worldview they build depends on `NewWorldview`.
- Logging: `fmt.Printf`, `Log`, JSON and CSV export, `RecordAgentStatus`, `RecordAgentJSON`, `GamePlaybackSummary` (`gameRecorder/DataRecorder.go:73-96`) and the visualisers.
- Recording.TurnRecord: the infrastructure snapshot is an `Option`, with `None` standing for the Go zero value that a new record holds before one is stored.
- Command-line parsing: `flag` parsing is not modelled; `Settings.Validate` takes the parsed record, and a panic is `Err`.
- Population.Pass: the quota is a parameter (`Needed(rho, n)` of the population before the pass, as the source computes it), so its properties hold for any quota.
- Population.PassQuotaMet: the short-quota case of a pass (all volunteers plus min(non-volunteers, 2·shortfall) drafted) is stated by `Population.ChooseSacrifices`, which `Population.PassChosen` connects to the pass, rather than by a lemma of its own.
- Tests other than `tests/GetASPDecision_test.go` are not modelled.

## Findings

| source | as written | input that shows it | evidently intended | confidence | as-written member | corrected member |
|---|---|---|---|---|---|---|
| agents/ExtendedAgent.go:368-390 | `GetHeroismTendency` returns `float32(index) / float32(len(heroismScores))`; it guards only the empty network | an agent whose network holds one entry, for an agent no longer in the agent map: 0/0 gives NaN, so the relationship score is NaN | 0 when no registered peer is left, as for an empty network | high; not executed | Scoring.HeroismTendency | Scoring.HeroismRank |
| server/socialNetworkLogic.go:29-32 | both `PerformSeveredConnected` and `ReceiveSeveredConnected` are called on `toAgent` | any two distinct registered agents: the cut is logged as performed by the agent that lost the tie | performed on `fromAgent`, received on `toAgent`, as for creation (lines 16-17) | medium; not executed | Network.SeverCreditsTheWrongAgent | Network.SeverIntendedMirrorsCreate |
| server/populationLogic.go:138-142 | `stratifyVolunteers` walks the whole agent map after `updateAgentMortality`, so agents that just died still vote | an agent that dies this pass and votes to sacrifice itself, with fewer volunteers than the quota: it is listed twice in `LastEliminatedAgents` and counted as a self-sacrifice and a temple | only living agents are stratified, so each eliminated agent is listed once | medium; not executed | Population.PassDeadVolunteer | Population.LivingPoolEliminatesOnce |
