/**
 * The elimination pass of the server (`server/populationLogic.go`).
 *
 * One pass marks deaths, collects the naturally dead, splits the population
 * into volunteers and non-volunteers by their decision, sacrifices enough
 * agents to meet the quota, removes every eliminated agent, and lets the
 * survivors take note of the losses in their cluster and network.
 *
 * The random choices are inputs: the set of agents whose mortality draw
 * fell below their telomere value, and a shuffle that returns a permutation
 * of the list it is given. Two per-agent numbers are inputs: the ratio of
 * summed Euclidean distances inside memorial proximity
 * (`GetMemorialProximity`, agents/ExtendedAgent.go, modelled in `Scoring`
 * except for that ratio, which is used wherever it is defined), and the
 * ysterofimia score (code not part of this model).
 */
module Population {
  import opened Collections
  import opened Geometry
  import opened Agents
  import opened Constants
  import opened Scoring
  import opened Reals

  /** The server state the pass reads and writes. */
  datatype World = World(
    agents: Registry,
    grid: Grid,
    lastEliminated: seq<Id>,        // every agent eliminated in the last pass, in order
    lastSelfSacrificed: seq<Id>)    // the voluntary ones among them

  /** The positions of a sequence of registered agents. */
  function PositionsOf(reg: Registry, ids: seq<Id>): (ps: seq<Position>)
    requires forall i :: 0 <= i < |ids| ==> ids[i] in reg
    ensures |ps| == |ids|
    ensures forall i :: 0 <= i < |ids| ==> ps[i] == reg[ids[i]].position
  {
    seq(|ids|, i requires 0 <= i < |ids| => reg[ids[i]].position)
  }

  /** Positions depend only on the agents' positions, not on their other fields. */
  lemma PositionsAgree(r1: Registry, r2: Registry, ids: seq<Id>)
    requires forall i :: 0 <= i < |ids| ==> ids[i] in r1 && ids[i] in r2
    requires forall i :: 0 <= i < |ids| ==> r1[ids[i]].position == r2[ids[i]].position
    ensures PositionsOf(r1, ids) == PositionsOf(r2, ids)
  {
  }

  /** All elements of `ids` name registered agents. */
  predicate AllIn(ids: seq<Id>, reg: Registry) {
    forall i :: 0 <= i < |ids| ==> ids[i] in reg
  }

  // ---------------------------------------------------------------- mortality

  /**
   * `updateAgentMortality`: the agents in `dies` (those whose draw fell
   * below their telomere value) are marked dead; nobody comes back to life
   * and nothing else changes.
   */
  function UpdateMortality(reg: Registry, dies: set<Id>): (r: Registry)
    ensures r.Keys == reg.Keys
    ensures forall k :: k in reg ==> (r[k].alive <==> reg[k].alive && k !in dies)
    ensures forall k :: k in reg ==> r[k] == reg[k].(alive := r[k].alive)
  {
    map k | k in reg :: if k in dies then reg[k].(alive := false) else reg[k]
  }

  // ---------------------------------------------------------------- natural eliminations

  function IsDead(reg: Registry): Id -> bool {
    (k: Id) => k in reg && !reg[k].alive
  }

  /** The agents marked dead. */
  function DeadIds(reg: Registry): set<Id> {
    set k | k in reg && !reg[k].alive
  }

  /**
   * A tombstone at each agent's position and an entry in the elimination
   * list, one agent after another: the effect of a natural elimination and
   * of an involuntary sacrifice alike.
   */
  function Entomb(w: World, ids: seq<Id>): (r: World)
    requires AllIn(ids, w.agents)
    ensures r.agents == w.agents
    ensures r.lastEliminated == w.lastEliminated + ids
    ensures r.lastSelfSacrificed == w.lastSelfSacrificed
    ensures r.grid == w.grid.(tombstones := w.grid.tombstones + PositionsOf(w.agents, ids))
    decreases |ids|
  {
    if ids == [] then w
    else
      var init := ids[..|ids| - 1];
      var k := ids[|ids| - 1];
      var v := Entomb(w, init);
      assert ids == init + [k];
      assert PositionsOf(w.agents, ids) == PositionsOf(w.agents, init) + [w.agents[k].position];
      v.(grid := v.grid.PlaceTombstone(v.agents[k].position), lastEliminated := v.lastEliminated + [k])
  }

  /** Walking the registry in map order and keeping the dead visits exactly the dead agents, in order. */
  lemma DeadInMapOrder(reg: Registry)
    ensures Filter(SetToSeq(reg.Keys), IsDead(reg)) == SetToSeq(DeadIds(reg))
  {
    var kept := set x | x in reg.Keys && IsDead(reg)(x);
    forall x ensures x in kept <==> x in DeadIds(reg) {
    }
    assert kept == DeadIds(reg);
    FilterOfSetToSeq(reg.Keys, IsDead(reg));
  }

  /**
   * `getNaturalEliminations`: every agent marked dead, in map order, gets a
   * tombstone at its position and an entry in the elimination list, each
   * exactly once; the agents themselves are not changed.
   */
  function NaturalEliminations(w: World): (r: World)
    ensures r.agents == w.agents
    ensures r.lastEliminated == w.lastEliminated + SetToSeq(DeadIds(w.agents))
    ensures r.lastSelfSacrificed == w.lastSelfSacrificed
    ensures AllIn(SetToSeq(DeadIds(w.agents)), w.agents)
    ensures r.grid == w.grid.(tombstones := w.grid.tombstones + PositionsOf(w.agents, SetToSeq(DeadIds(w.agents))))
  {
    DeadInMapOrder(w.agents);
    Entomb(w, Filter(SetToSeq(w.agents.Keys), IsDead(w.agents)))
  }

  // ---------------------------------------------------------------- volunteers

  /**
   * The decision each agent reaches in `GetASPDecision` on the given
   * registry and grid (agents outside the registry decide nothing).
   */
  function Decisions(w: World, ratio: Id -> real, yst: Id -> real): Id -> Decision {
    (k: Id) => if k in w.agents then AspDecision(w.agents, w.agents[k], w.grid, ratio(k), yst(k)) else Inaction
  }

  function Volunteers(decide: Id -> Decision): Id -> bool {
    (k: Id) => decide(k) == SelfSacrifice
  }

  function NonVolunteers(decide: Id -> Decision): Id -> bool {
    (k: Id) => decide(k) != SelfSacrifice
  }

  /** The registered agents whose decision is self-sacrifice. */
  function VolunteerSet(reg: Registry, decide: Id -> Decision): set<Id> {
    set k | k in reg && decide(k) == SelfSacrifice
  }

  /**
   * `stratifyVolunteers`: one pass over the whole registry, dead agents
   * included, that puts each agent in exactly one of the two lists, in map
   * order: the volunteers are exactly the agents whose decision is
   * self-sacrifice.
   */
  function Stratify(reg: Registry, decide: Id -> Decision): (r: (seq<Id>, seq<Id>))
    ensures r.0 == SetToSeq(VolunteerSet(reg, decide))
    ensures r.1 == SetToSeq(reg.Keys - VolunteerSet(reg, decide))
    ensures |r.0| + |r.1| == |reg|
  {
    var ids := SetToSeq(reg.Keys);
    StratifyCounts(reg, decide);
    (Filter(ids, Volunteers(decide)), Filter(ids, NonVolunteers(decide)))
  }

  /** The two filtered lists enumerate the volunteers and the rest, and together cover the registry. */
  lemma StratifyCounts(reg: Registry, decide: Id -> Decision)
    ensures Filter(SetToSeq(reg.Keys), Volunteers(decide)) == SetToSeq(VolunteerSet(reg, decide))
    ensures Filter(SetToSeq(reg.Keys), NonVolunteers(decide)) == SetToSeq(reg.Keys - VolunteerSet(reg, decide))
    ensures |VolunteerSet(reg, decide)| + |reg.Keys - VolunteerSet(reg, decide)| == |reg|
  {
    VolunteersInMapOrder(reg, decide);
    NonVolunteersInMapOrder(reg, decide);
    SplitCardinality(reg.Keys, VolunteerSet(reg, decide));
  }

  lemma VolunteersInMapOrder(reg: Registry, decide: Id -> Decision)
    ensures Filter(SetToSeq(reg.Keys), Volunteers(decide)) == SetToSeq(VolunteerSet(reg, decide))
  {
    var yes := set x | x in reg.Keys && Volunteers(decide)(x);
    forall x ensures x in yes <==> x in VolunteerSet(reg, decide) {
    }
    assert yes == VolunteerSet(reg, decide);
    FilterOfSetToSeq(reg.Keys, Volunteers(decide));
  }

  lemma NonVolunteersInMapOrder(reg: Registry, decide: Id -> Decision)
    ensures Filter(SetToSeq(reg.Keys), NonVolunteers(decide)) == SetToSeq(reg.Keys - VolunteerSet(reg, decide))
  {
    var no := set x | x in reg.Keys && NonVolunteers(decide)(x);
    forall x ensures x in no <==> x in reg.Keys - VolunteerSet(reg, decide) {
    }
    assert no == reg.Keys - VolunteerSet(reg, decide);
    FilterOfSetToSeq(reg.Keys, NonVolunteers(decide));
  }

  lemma SplitCardinality(s: set<Id>, v: set<Id>)
    requires v <= s
    ensures |v| + |s - v| == |s|
  {
    assert s == v + (s - v);
  }

  // ---------------------------------------------------------------- quota

  /**
   * `int(neededProportionEliminations * totalAgents)`: Go's conversion
   * truncates toward zero. The count includes agents already marked dead.
   */
  function Needed(rho: real, n: nat): (q: int)
    ensures 0.0 <= rho ==> 0 <= q && q as real <= Times(rho, n as real) < q as real + 1.0
    ensures rho < 0.0 ==> q <= 0 && q as real - 1.0 < Times(rho, n as real) <= q as real
  {
    var x := Times(rho, n as real);
    SignOfProduct(rho, n as real);
    if x >= 0.0 then x.Floor else -((-x).Floor)
  }

  lemma SignOfProduct(x: real, y: real)
    requires 0.0 <= y
    ensures 0.0 <= x ==> 0.0 <= Times(x, y)
    ensures x < 0.0 ==> Times(x, y) <= 0.0
  {
  }

  /** A proportion in [0,1] asks for no more agents than there are. */
  lemma QuotaWithinPopulation(rho: real, n: nat)
    requires 0.0 <= rho <= 1.0
    ensures 0 <= Needed(rho, n) <= n
  {
    ScaleWithin(rho, n as real);
  }

  function Max0(x: int): nat {
    if x < 0 then 0 else x
  }

  function Min(x: int, y: int): int {
    if x < y then x else y
  }

  // ---------------------------------------------------------------- sacrifices

  /** One voluntary sacrifice: a temple at the agent's position, heroism up by one, an entry in both lists. */
  function SacrificeVoluntarily(w: World, k: Id): (r: World)
    requires k in w.agents
    ensures r.agents.Keys == w.agents.Keys
    ensures r.grid.temples == w.grid.temples + [w.agents[k].position]
    ensures r.grid.tombstones == w.grid.tombstones && r.grid.width == w.grid.width && r.grid.height == w.grid.height
    ensures r.agents[k].heroism == w.agents[k].heroism + 1
    ensures r.agents[k] == w.agents[k].(heroism := r.agents[k].heroism)
    ensures forall j :: j in w.agents && j != k ==> r.agents[j] == w.agents[j]
    ensures r.lastEliminated == w.lastEliminated + [k]
    ensures r.lastSelfSacrificed == w.lastSelfSacrificed + [k]
  {
    w.(grid := w.grid.PlaceTemple(w.agents[k].position),
       agents := w.agents[k := IncrementHeroism(w.agents[k])],
       lastEliminated := w.lastEliminated + [k],
       lastSelfSacrificed := w.lastSelfSacrificed + [k])
  }

  /** Voluntary sacrifices, one agent after another. */
  function Enshrine(w: World, ids: seq<Id>): (r: World)
    requires AllIn(ids, w.agents)
    ensures r.agents.Keys == w.agents.Keys
    decreases |ids|
  {
    if ids == [] then w
    else SacrificeVoluntarily(Enshrine(w, ids[..|ids| - 1]), ids[|ids| - 1])
  }

  /** Each voluntary sacrifice adds its agent to both lists, in order. */
  lemma {:induction false} EnshrineLists(w: World, ids: seq<Id>)
    requires AllIn(ids, w.agents)
    ensures Enshrine(w, ids).lastEliminated == w.lastEliminated + ids
    ensures Enshrine(w, ids).lastSelfSacrificed == w.lastSelfSacrificed + ids
    decreases |ids|
  {
    if ids != [] {
      var init := ids[..|ids| - 1];
      EnshrineLists(w, init);
      assert ids == init + [ids[|ids| - 1]];
    }
  }

  /** Each voluntary sacrifice raises heroism by one; nothing else about any agent changes. */
  lemma EnshrineHeroism(w: World, ids: seq<Id>)
    requires AllIn(ids, w.agents)
    ensures forall k :: k in w.agents ==>
      Enshrine(w, ids).agents[k] == w.agents[k].(heroism := w.agents[k].heroism + multiset(ids)[k])
  {
    forall k | k in w.agents
      ensures Enshrine(w, ids).agents[k] == w.agents[k].(heroism := w.agents[k].heroism + multiset(ids)[k])
    {
      EnshrineHeroismAt(w, ids, k);
    }
  }

  lemma {:induction false} EnshrineHeroismAt(w: World, ids: seq<Id>, k: Id)
    requires AllIn(ids, w.agents) && k in w.agents
    ensures Enshrine(w, ids).agents[k] == w.agents[k].(heroism := w.agents[k].heroism + multiset(ids)[k])
    decreases |ids|
  {
    if ids != [] {
      var init := ids[..|ids| - 1];
      var last := ids[|ids| - 1];
      EnshrineHeroismAt(w, init, k);
      assert ids == init + [last];
      assert multiset(ids) == multiset(init) + multiset{last};
    }
  }

  /** Each voluntary sacrifice places one temple, at the agent's position; the tombstones stay. */
  lemma {:induction false} EnshrineGrid(w: World, ids: seq<Id>)
    requires AllIn(ids, w.agents)
    ensures Enshrine(w, ids).grid == w.grid.(temples := w.grid.temples + PositionsOf(w.agents, ids))
    decreases |ids|
  {
    if ids != [] {
      var init := ids[..|ids| - 1];
      var k := ids[|ids| - 1];
      EnshrineGrid(w, init);
      EnshrineKeepsPosition(w, init, k);
      var p := w.agents[k].position;
      assert ids == init + [k];
      assert PositionsOf(w.agents, ids) == PositionsOf(w.agents, init) + [p];
      assert Enshrine(w, init).grid.temples + [p] == w.grid.temples + PositionsOf(w.agents, ids);
    }
  }

  /** Sacrifices do not move anybody. */
  lemma {:induction false} EnshrineKeepsPosition(w: World, ids: seq<Id>, k: Id)
    requires AllIn(ids, w.agents) && k in w.agents
    ensures Enshrine(w, ids).agents[k].position == w.agents[k].position
    decreases |ids|
  {
    if ids != [] {
      EnshrineKeepsPosition(w, ids[..|ids| - 1], k);
    }
  }

  /** A shuffle that returns a rearrangement of its input, as `rand.Shuffle` does. */
  ghost predicate IsShuffle(shuffle: seq<Id> -> seq<Id>) {
    forall xs: seq<Id> :: multiset(shuffle(xs)) == multiset(xs)
  }

  /**
   * The choice inside `getSacrificialEliminations`, for the quota `needed`.
   * With enough volunteers, a shuffled prefix of the volunteers of length
   * `needed` (none when it is negative) and nobody else. Otherwise every
   * volunteer in list order, and a shuffled prefix of the non-volunteers of
   * length min(|non-volunteers|, 2 * shortfall). Nobody is chosen twice
   * unless listed twice.
   */
  function ChooseSacrifices(vols: seq<Id>, nons: seq<Id>, needed: int,
                            shuffle: seq<Id> -> seq<Id>): (r: (seq<Id>, seq<Id>))
    requires IsShuffle(shuffle)
    ensures multiset(r.0) <= multiset(vols)
    ensures multiset(r.1) <= multiset(nons)
    ensures |vols| >= needed ==> |r.0| == Max0(needed) && r.1 == []
    ensures |vols| < needed ==> r.0 == vols && |r.1| == Min(|nons|, 2 * (needed - |vols|))
    ensures Distinct(vols) ==> Distinct(r.0)
    ensures Distinct(nons) ==> Distinct(r.1)
  {
    if |vols| >= needed then
      var order := shuffle(vols);
      assert |order| == |multiset(order)| == |vols|;
      PrefixOfPermutation(vols, order, Max0(needed));
      DistinctPermutation(vols, order);
      (order[..Max0(needed)], [])
    else
      var order := shuffle(nons);
      assert |order| == |multiset(order)| == |nons|;
      var n := Min(|nons|, 2 * (needed - |vols|));
      PrefixOfPermutation(nons, order, n);
      DistinctPermutation(nons, order);
      (vols, order[..n])
  }

  /** Chosen agents come from the lists they were chosen from. */
  lemma ChosenAreListed(chosen: seq<Id>, from: seq<Id>, reg: Registry)
    requires multiset(chosen) <= multiset(from) && AllIn(from, reg)
    ensures AllIn(chosen, reg)
  {
    forall i | 0 <= i < |chosen| ensures chosen[i] in reg {
      assert chosen[i] in multiset(chosen);
      assert chosen[i] in multiset(from);
    }
  }

  /** What the sacrificial step did: the new state and who was sacrificed, voluntarily or not. */
  datatype Sacrifices = Sacrifices(world: World, volunteered: seq<Id>, drafted: seq<Id>)

  /** The chosen volunteers are sacrificed voluntarily, then the drafted agents involuntarily. */
  function Sacrifice(w: World, volunteered: seq<Id>, drafted: seq<Id>): (r: World)
    requires AllIn(volunteered, w.agents) && AllIn(drafted, w.agents)
    ensures r.agents.Keys == w.agents.Keys
  {
    Entomb(Enshrine(w, volunteered), drafted)
  }

  /**
   * `getSacrificialEliminations`: the quota is `Needed(rho, |registry|)`;
   * the chosen volunteers are sacrificed voluntarily and then the drafted
   * non-volunteers involuntarily. Everyone sacrificed is registered.
   */
  function SacrificialEliminations(w: World, vols: seq<Id>, nons: seq<Id>, rho: real,
                                   shuffle: seq<Id> -> seq<Id>): (r: Sacrifices)
    requires AllIn(vols, w.agents) && AllIn(nons, w.agents)
    requires IsShuffle(shuffle)
    ensures (r.volunteered, r.drafted) == ChooseSacrifices(vols, nons, Needed(rho, |w.agents|), shuffle)
    ensures AllIn(r.volunteered, w.agents) && AllIn(r.drafted, w.agents)
    ensures r.world == Sacrifice(w, r.volunteered, r.drafted)
  {
    SacrificeQuota(w, vols, nons, Needed(rho, |w.agents|), shuffle)
  }

  /** The sacrifices for a quota already computed. */
  function SacrificeQuota(w: World, vols: seq<Id>, nons: seq<Id>, needed: int,
                          shuffle: seq<Id> -> seq<Id>): (r: Sacrifices)
    requires AllIn(vols, w.agents) && AllIn(nons, w.agents)
    requires IsShuffle(shuffle)
    ensures (r.volunteered, r.drafted) == ChooseSacrifices(vols, nons, needed, shuffle)
    ensures AllIn(r.volunteered, w.agents) && AllIn(r.drafted, w.agents)
    ensures r.world == Sacrifice(w, r.volunteered, r.drafted)
  {
    var chosen := ChooseSacrifices(vols, nons, needed, shuffle);
    ChosenAreListed(chosen.0, vols, w.agents);
    ChosenAreListed(chosen.1, nons, w.agents);
    Sacrifices(Sacrifice(w, chosen.0, chosen.1), chosen.0, chosen.1)
  }

  /**
   * The state after the sacrifices: both lists extended (the voluntary
   * list with the volunteers only), heroism raised for each voluntary
   * sacrifice, a temple per voluntary and a tombstone per involuntary one.
   */
  lemma SacrificeEffects(w: World, volunteered: seq<Id>, drafted: seq<Id>)
    requires AllIn(volunteered, w.agents) && AllIn(drafted, w.agents)
    ensures var r := Sacrifice(w, volunteered, drafted);
      && r.lastEliminated == w.lastEliminated + volunteered + drafted
      && r.lastSelfSacrificed == w.lastSelfSacrificed + volunteered
      && (forall k :: k in w.agents ==>
            r.agents[k] == w.agents[k].(heroism := w.agents[k].heroism + multiset(volunteered)[k]))
      && r.grid.temples == w.grid.temples + PositionsOf(w.agents, volunteered)
      && r.grid.tombstones == w.grid.tombstones + PositionsOf(w.agents, drafted)
  {
    var w1 := Enshrine(w, volunteered);
    EnshrineLists(w, volunteered);
    EnshrineHeroism(w, volunteered);
    EnshrineGrid(w, volunteered);
    PositionsAgree(w1.agents, w.agents, drafted);
  }

  /** The lists part of `SacrificeEffects`. */
  lemma SacrificeLists(w: World, volunteered: seq<Id>, drafted: seq<Id>)
    requires AllIn(volunteered, w.agents) && AllIn(drafted, w.agents)
    ensures Sacrifice(w, volunteered, drafted).lastEliminated == w.lastEliminated + volunteered + drafted
    ensures Sacrifice(w, volunteered, drafted).lastSelfSacrificed == w.lastSelfSacrificed + volunteered
  {
    EnshrineLists(w, volunteered);
  }

  /** The agent part of `SacrificeEffects`, for one agent. */
  lemma SacrificeAgent(w: World, volunteered: seq<Id>, drafted: seq<Id>, k: Id)
    requires AllIn(volunteered, w.agents) && AllIn(drafted, w.agents) && k in w.agents
    ensures Sacrifice(w, volunteered, drafted).agents[k] ==
      w.agents[k].(heroism := w.agents[k].heroism + multiset(volunteered)[k])
    ensures k !in volunteered ==> Sacrifice(w, volunteered, drafted).agents[k] == w.agents[k]
  {
    EnshrineHeroismAt(w, volunteered, k);
  }

  // ---------------------------------------------------------------- ysterofimia

  /** Network entries that were removed. */
  function LostPeers(a: Agent, removed: set<Id>): set<Id> {
    set k | k in a.network && k in removed
  }

  /** Removed network entries that had volunteered. */
  function SelfSacrificeLosses(a: Agent, removed: set<Id>, vols: set<Id>): set<Id> {
    set k | k in a.network && k in removed && k in vols
  }

  /** Removed network entries that had not volunteered. */
  function OtherLosses(a: Agent, removed: set<Id>, vols: set<Id>): set<Id> {
    set k | k in a.network && k in removed && k !in vols
  }

  function IsLost(removed: set<Id>): Id -> bool {
    (k: Id) => k in removed
  }

  function IsSelfSacrificeLoss(removed: set<Id>, vols: set<Id>): Id -> bool {
    (k: Id) => k in removed && k in vols
  }

  function IsOtherLoss(removed: set<Id>, vols: set<Id>): Id -> bool {
    (k: Id) => k in removed && k !in vols
  }

  /** One network entry of the walk: a removed peer goes to exactly one bucket, with its esteem. */
  function Mourn(y: Ysterofimia, k: Id, esteem: real, removed: set<Id>, vols: set<Id>): Ysterofimia {
    if k !in removed then y
    else if k in vols then
      y.(selfSacrificeCount := y.selfSacrificeCount + 1, selfSacrificeEsteem := y.selfSacrificeEsteem + esteem)
    else
      y.(otherCount := y.otherCount + 1, otherEsteem := y.otherEsteem + esteem)
  }

  /** The walk of `updateAgentYsterofimia` over `ids`: the ledger and the count of removed entries. */
  function Tally(a: Agent, ids: seq<Id>, removed: set<Id>, vols: set<Id>): (r: (Ysterofimia, nat))
    decreases |ids|
  {
    if ids == [] then (a.ysterofimia, 0)
    else
      var k := ids[|ids| - 1];
      var t := Tally(a, ids[..|ids| - 1], removed, vols);
      (Mourn(t.0, k, Esteem(a, k), removed, vols), if k in removed then t.1 + 1 else t.1)
  }

  /** Along any walk, the count is the number of removed entries. */
  lemma {:induction false} TallyLost(a: Agent, ids: seq<Id>, removed: set<Id>, vols: set<Id>)
    ensures Tally(a, ids, removed, vols).1 == |Filter(ids, IsLost(removed))|
    decreases |ids|
  {
    if ids != [] {
      var init := ids[..|ids| - 1];
      var k := ids[|ids| - 1];
      TallyLost(a, init, removed, vols);
      assert ids == init + [k];
      FilterAppend(init, k, IsLost(removed));
    }
  }

  /**
   * Along any walk, the self-sacrifice bucket gains one per removed volunteer
   * entry and exactly their esteem.
   */
  lemma {:induction false} TallySelfSacrifice(a: Agent, ids: seq<Id>, removed: set<Id>, vols: set<Id>)
    ensures var y := Tally(a, ids, removed, vols).0;
      var ss := Filter(ids, IsSelfSacrificeLoss(removed, vols));
      && y.selfSacrificeCount == a.ysterofimia.selfSacrificeCount + |ss|
      && y.selfSacrificeEsteem == a.ysterofimia.selfSacrificeEsteem + Sum(Values(ss, StrengthOf(a)))
    decreases |ids|
  {
    if ids != [] {
      var init := ids[..|ids| - 1];
      var k := ids[|ids| - 1];
      TallySelfSacrifice(a, init, removed, vols);
      assert ids == init + [k];
      FilterAppend(init, k, IsSelfSacrificeLoss(removed, vols));
      var ss := Filter(init, IsSelfSacrificeLoss(removed, vols));
      var y0 := Tally(a, init, removed, vols).0;
      if k in removed && k in vols {
        assert Filter(ids, IsSelfSacrificeLoss(removed, vols)) == ss + [k];
        ValuesAppend(ss, k, StrengthOf(a));
        assert StrengthOf(a)(k) == Esteem(a, k);
        SumAppend(Values(ss, StrengthOf(a)), Esteem(a, k));
        assert Tally(a, ids, removed, vols).0.selfSacrificeEsteem == y0.selfSacrificeEsteem + Esteem(a, k);
      } else {
        assert Filter(ids, IsSelfSacrificeLoss(removed, vols)) == ss;
        assert Tally(a, ids, removed, vols).0.selfSacrificeEsteem == y0.selfSacrificeEsteem;
      }
    }
  }

  /**
   * Along any walk, the other bucket gains one per removed entry that did not
   * volunteer and exactly their esteem.
   */
  lemma {:induction false} TallyOther(a: Agent, ids: seq<Id>, removed: set<Id>, vols: set<Id>)
    ensures var y := Tally(a, ids, removed, vols).0;
      var ot := Filter(ids, IsOtherLoss(removed, vols));
      && y.otherCount == a.ysterofimia.otherCount + |ot|
      && y.otherEsteem == a.ysterofimia.otherEsteem + Sum(Values(ot, StrengthOf(a)))
    decreases |ids|
  {
    if ids != [] {
      var init := ids[..|ids| - 1];
      var k := ids[|ids| - 1];
      TallyOther(a, init, removed, vols);
      assert ids == init + [k];
      FilterAppend(init, k, IsOtherLoss(removed, vols));
      var ot := Filter(init, IsOtherLoss(removed, vols));
      var y0 := Tally(a, init, removed, vols).0;
      if k in removed && k !in vols {
        assert Filter(ids, IsOtherLoss(removed, vols)) == ot + [k];
        ValuesAppend(ot, k, StrengthOf(a));
        assert StrengthOf(a)(k) == Esteem(a, k);
        SumAppend(Values(ot, StrengthOf(a)), Esteem(a, k));
        assert Tally(a, ids, removed, vols).0.otherEsteem == y0.otherEsteem + Esteem(a, k);
      } else {
        assert Filter(ids, IsOtherLoss(removed, vols)) == ot;
        assert Tally(a, ids, removed, vols).0.otherEsteem == y0.otherEsteem;
      }
    }
  }

  /**
   * `updateAgentYsterofimia`: the network counter rises by the number of
   * network entries that were removed; each removed entry counts once, in
   * the self-sacrifice bucket when it volunteered and in the other bucket
   * otherwise, and adds its esteem to that bucket. Entries that were not
   * removed change nothing, and nothing else about the agent changes.
   */
  function UpdateYsterofimia(a: Agent, removed: set<Id>, vols: set<Id>): (r: Agent)
    ensures r == a.(ysterofimia := r.ysterofimia, observedNetwork := r.observedNetwork)
    ensures r.observedNetwork == a.observedNetwork + |LostPeers(a, removed)|
    ensures r.ysterofimia.selfSacrificeCount ==
      a.ysterofimia.selfSacrificeCount + |SelfSacrificeLosses(a, removed, vols)|
    ensures r.ysterofimia.otherCount == a.ysterofimia.otherCount + |OtherLosses(a, removed, vols)|
    ensures r.ysterofimia.selfSacrificeEsteem == a.ysterofimia.selfSacrificeEsteem +
      Sum(Values(SetToSeq(SelfSacrificeLosses(a, removed, vols)), StrengthOf(a)))
    ensures r.ysterofimia.otherEsteem == a.ysterofimia.otherEsteem +
      Sum(Values(SetToSeq(OtherLosses(a, removed, vols)), StrengthOf(a)))
  {
    var ids := SetToSeq(a.network.Keys);
    var t := Tally(a, ids, removed, vols);
    TallyLost(a, ids, removed, vols);
    TallySelfSacrifice(a, ids, removed, vols);
    TallyOther(a, ids, removed, vols);
    LossesInMapOrder(a, removed, vols);
    a.(ysterofimia := t.0, observedNetwork := a.observedNetwork + t.1)
  }

  /** Filtering the network walk by each kind of loss enumerates that kind of loss. */
  lemma LossesInMapOrder(a: Agent, removed: set<Id>, vols: set<Id>)
    ensures Filter(SetToSeq(a.network.Keys), IsLost(removed)) == SetToSeq(LostPeers(a, removed))
    ensures Filter(SetToSeq(a.network.Keys), IsSelfSacrificeLoss(removed, vols)) ==
      SetToSeq(SelfSacrificeLosses(a, removed, vols))
    ensures Filter(SetToSeq(a.network.Keys), IsOtherLoss(removed, vols)) == SetToSeq(OtherLosses(a, removed, vols))
  {
    var lost := set x | x in a.network.Keys && IsLost(removed)(x);
    var ss := set x | x in a.network.Keys && IsSelfSacrificeLoss(removed, vols)(x);
    var ot := set x | x in a.network.Keys && IsOtherLoss(removed, vols)(x);
    forall x ensures x in lost <==> x in LostPeers(a, removed) {
    }
    forall x ensures x in ss <==> x in SelfSacrificeLosses(a, removed, vols) {
    }
    forall x ensures x in ot <==> x in OtherLosses(a, removed, vols) {
    }
    assert lost == LostPeers(a, removed);
    assert ss == SelfSacrificeLosses(a, removed, vols);
    assert ot == OtherLosses(a, removed, vols);
    FilterOfSetToSeq(a.network.Keys, IsLost(removed));
    FilterOfSetToSeq(a.network.Keys, IsSelfSacrificeLoss(removed, vols));
    FilterOfSetToSeq(a.network.Keys, IsOtherLoss(removed, vols));
  }

  /**
   * The two buckets split the losses between them, and with tie strengths
   * in [0,1] no bucket gains more esteem than it gains entries.
   */
  lemma LossesSplit(a: Agent, removed: set<Id>, vols: set<Id>)
    ensures |SelfSacrificeLosses(a, removed, vols)| + |OtherLosses(a, removed, vols)| == |LostPeers(a, removed)|
    ensures UnitStrengths(a) ==>
      0.0 <= Sum(Values(SetToSeq(SelfSacrificeLosses(a, removed, vols)), StrengthOf(a)))
        <= |SelfSacrificeLosses(a, removed, vols)| as real
    ensures UnitStrengths(a) ==>
      0.0 <= Sum(Values(SetToSeq(OtherLosses(a, removed, vols)), StrengthOf(a)))
        <= |OtherLosses(a, removed, vols)| as real
  {
    var ss := SelfSacrificeLosses(a, removed, vols);
    var ot := OtherLosses(a, removed, vols);
    assert LostPeers(a, removed) == ss + ot;
    assert ss * ot == {};
    if UnitStrengths(a) {
      UnitValues(a, ss);
      UnitValues(a, ot);
    }
  }

  /** The esteems of network entries lie in [0,1] when every tie strength does. */
  lemma UnitValues(a: Agent, s: set<Id>)
    requires UnitStrengths(a) && s <= a.network.Keys
    ensures 0.0 <= Sum(Values(SetToSeq(s), StrengthOf(a))) <= |s| as real
  {
    var ids := SetToSeq(s);
    var vals := Values(ids, StrengthOf(a));
    forall i | 0 <= i < |vals| ensures 0.0 <= vals[i] <= 1.0 {
      var k := ids[i];
      assert k in s;
      assert vals[i] == Esteem(a, k);
    }
    assert AllUnit(vals);
    SumUnit(vals);
  }

  // ---------------------------------------------------------------- the pass

  /** Eliminations seen in cluster `c`: the removed agents whose cluster is `c`. */
  function ClusterLosses(reg: Registry, removed: set<Id>, c: int): nat {
    |set k | k in removed && k in reg && reg[k].clusterId == c|
  }

  /**
   * A survivor takes note of a pass: its cluster counter rises by the
   * eliminations in its cluster, then its network tally is updated. The two
   * steps touch different fields, so the tally is computed first here.
   */
  function Observe(a: Agent, reg: Registry, removed: set<Id>, vols: set<Id>): (r: Agent)
    ensures r == a.(observedCluster := r.observedCluster, observedNetwork := r.observedNetwork,
                    ysterofimia := r.ysterofimia)
    ensures r.observedCluster == a.observedCluster + ClusterLosses(reg, removed, a.clusterId)
    ensures r.observedNetwork == a.observedNetwork + |LostPeers(a, removed)|
    ensures r.ysterofimia.selfSacrificeCount ==
      a.ysterofimia.selfSacrificeCount + |SelfSacrificeLosses(a, removed, vols)|
    ensures r.ysterofimia.otherCount == a.ysterofimia.otherCount + |OtherLosses(a, removed, vols)|
    ensures r.ysterofimia.selfSacrificeEsteem == a.ysterofimia.selfSacrificeEsteem +
      Sum(Values(SetToSeq(SelfSacrificeLosses(a, removed, vols)), StrengthOf(a)))
    ensures r.ysterofimia.otherEsteem == a.ysterofimia.otherEsteem +
      Sum(Values(SetToSeq(OtherLosses(a, removed, vols)), StrengthOf(a)))
  {
    var u := UpdateYsterofimia(a, removed, vols);
    u.(observedCluster := a.observedCluster + ClusterLosses(reg, removed, a.clusterId))
  }

  /** The agents not marked dead. */
  function Living(reg: Registry): (r: Registry)
    ensures forall k :: k in r <==> k in reg && reg[k].alive
    ensures forall k :: k in r ==> r[k] == reg[k]
  {
    map k | k in reg && reg[k].alive :: reg[k]
  }

  /** The state once deaths are marked and the naturally dead entombed, both lists reset first. */
  function AfterNaturalDeaths(w: World, dies: set<Id>): (r: World)
    ensures r.agents == UpdateMortality(w.agents, dies)
    ensures r.agents.Keys == w.agents.Keys && |r.agents| == |w.agents|
    ensures r.lastEliminated == SetToSeq(DeadIds(r.agents))
    ensures r.lastSelfSacrificed == []
    ensures AllIn(r.lastEliminated, r.agents)
  {
    NaturalEliminations(w.(agents := UpdateMortality(w.agents, dies), lastEliminated := [], lastSelfSacrificed := []))
  }

  /** The agents dead after the mortality step: those already dead and those whose draw failed. */
  lemma DeadAfterMortality(w: World, dies: set<Id>)
    ensures forall k :: k in DeadIds(UpdateMortality(w.agents, dies)) <==>
      k in w.agents && (!w.agents[k].alive || k in dies)
  {
  }

  /** Every enumerated element of a subset of the keys is registered. */
  lemma EnumerationIn(s: set<Id>, reg: Registry)
    requires s <= reg.Keys
    ensures AllIn(SetToSeq(s), reg)
  {
    var ids := SetToSeq(s);
    forall i | 0 <= i < |ids| ensures ids[i] in reg {
      assert ids[i] in s;
    }
  }

  /** A sequence of registered agents has its elements among the keys. */
  lemma AllInKeys(ids: seq<Id>, reg: Registry)
    requires AllIn(ids, reg)
    ensures Elems(ids) <= reg.Keys
  {
    forall x | x in Elems(ids) ensures x in reg {
      var i :| 0 <= i < |ids| && ids[i] == x;
    }
  }

  /** The registry without the removed agents, each survivor having observed the losses. */
  function Survivors(reg: Registry, removed: set<Id>, vols: set<Id>): (r: Registry)
    ensures r.Keys == reg.Keys - removed
    ensures forall k :: k in r ==> r[k] == Observe(reg[k], reg, removed, vols)
  {
    map k | k in reg && k !in removed :: Observe(reg[k], reg, removed, vols)
  }

  /** What a pass did: the new state, who was removed, and the lists it built on the way. */
  datatype Outcome = Outcome(
    world: World,
    removed: set<Id>,
    volunteers: seq<Id>,
    nonVolunteers: seq<Id>,
    natural: seq<Id>,
    volunteered: seq<Id>,
    drafted: seq<Id>)

  /** The agents stratified: all of them as written, the living ones when `livingOnly`. */
  function Pool(reg: Registry, livingOnly: bool): (r: Registry)
    ensures r.Keys <= reg.Keys
  {
    if livingOnly then Living(reg) else reg
  }

  /** The state after the natural deaths, and the pool split by decision on that state. */
  datatype Split = Split(before: World, volunteers: seq<Id>, nonVolunteers: seq<Id>)

  /** Both stratified lists hold registered agents, each at most once. */
  lemma StratifyListed(pool: Registry, decide: Id -> Decision, reg: Registry)
    requires pool.Keys <= reg.Keys
    ensures AllIn(Stratify(pool, decide).0, reg) && AllIn(Stratify(pool, decide).1, reg)
    ensures Distinct(Stratify(pool, decide).0) && Distinct(Stratify(pool, decide).1)
  {
    EnumerationIn(VolunteerSet(pool, decide), reg);
    EnumerationIn(pool.Keys - VolunteerSet(pool, decide), reg);
    IncreasingIsDistinct(Stratify(pool, decide).0);
    IncreasingIsDistinct(Stratify(pool, decide).1);
  }

  /** The first half of a pass after the natural deaths: the pool split by decision on that state. */
  function Stratified(before: World, decideOn: World -> (Id -> Decision), livingOnly: bool): (r: Split)
    ensures r.before == before
    ensures AllIn(r.volunteers, before.agents) && AllIn(r.nonVolunteers, before.agents)
    ensures Distinct(r.volunteers) && Distinct(r.nonVolunteers)
  {
    var pool := Pool(before.agents, livingOnly);
    var split := Stratify(pool, decideOn(before));
    StratifyListed(pool, decideOn(before), before.agents);
    Split(before, split.0, split.1)
  }

  /** Everyone listed by the two halves of a pass is registered, and the sacrifices keep the registry's keys. */
  predicate Ready(st: Split, s: Sacrifices) {
    && AllIn(st.before.lastEliminated, st.before.agents)
    && AllIn(s.volunteered, st.before.agents) && AllIn(s.drafted, st.before.agents)
    && s.world.agents.Keys == st.before.agents.Keys
  }

  /**
   * The second half of a pass, after the sacrifices: everyone listed is
   * removed, and each survivor observes the losses in its cluster and
   * network, counting as self-sacrifices the losses of agents that
   * volunteered.
   */
  function Finish(st: Split, s: Sacrifices): (r: Outcome)
    requires Ready(st, s)
    ensures r.removed <= st.before.agents.Keys
    ensures r.world.agents.Keys == st.before.agents.Keys - r.removed
  {
    AllInKeys(st.before.lastEliminated, st.before.agents);
    AllInKeys(s.volunteered, st.before.agents);
    AllInKeys(s.drafted, st.before.agents);
    var removed := Elems(st.before.lastEliminated) + Elems(s.volunteered) + Elems(s.drafted);
    Outcome(s.world.(agents := Survivors(s.world.agents, removed, Elems(st.volunteers))),
            removed, st.volunteers, st.nonVolunteers, st.before.lastEliminated, s.volunteered, s.drafted)
  }

  /** The lists of a finished pass are those its halves built. */
  lemma FinishCarries(st: Split, s: Sacrifices)
    requires Ready(st, s)
    ensures var r := Finish(st, s);
      && r.volunteers == st.volunteers && r.nonVolunteers == st.nonVolunteers
      && r.natural == st.before.lastEliminated
      && r.volunteered == s.volunteered && r.drafted == s.drafted
      && r.removed == Elems(st.before.lastEliminated) + Elems(s.volunteered) + Elems(s.drafted)
      && r.world == s.world.(agents := r.world.agents)
      && r.world.agents == Survivors(s.world.agents, r.removed, Elems(st.volunteers))
  {
  }

  /**
   * One elimination pass (`ApplyElimination`): mark deaths, collect the
   * naturally dead, stratify the pool by each agent's decision on the state
   * after the natural deaths, sacrifice to meet the quota, remove everyone
   * collected, and let each survivor observe the losses. `decideOn` gives
   * each agent's decision on a state, and `needed` is the quota, which the
   * source computes from the population before the pass.
   */
  function Pass(w: World, dies: set<Id>, decideOn: World -> (Id -> Decision), needed: int,
                shuffle: seq<Id> -> seq<Id>, livingOnly: bool): (r: Outcome)
    requires IsShuffle(shuffle)
    ensures r.removed <= w.agents.Keys
    ensures r.world.agents.Keys == w.agents.Keys - r.removed
  {
    var st := Stratified(AfterNaturalDeaths(w, dies), decideOn, livingOnly);
    Finish(st, SacrificeQuota(st.before, st.volunteers, st.nonVolunteers, needed, shuffle))
  }

  /** Each agent's own vote, as the server asks for it. */
  function DecisionsOn(ratio: Id -> real, yst: Id -> real): World -> (Id -> Decision) {
    (v: World) => Decisions(v, ratio, yst)
  }

  /** `ApplyElimination` as written: dead agents are stratified with the living. */
  function ApplyElimination(w: World, dies: set<Id>, ratio: Id -> real, yst: Id -> real, rho: real,
                            shuffle: seq<Id> -> seq<Id>): (r: Outcome)
    requires IsShuffle(shuffle)
    ensures r.removed <= w.agents.Keys
    ensures r.world.agents.Keys == w.agents.Keys - r.removed
  {
    Pass(w, dies, DecisionsOn(ratio, yst), Needed(rho, |w.agents|), shuffle, false)
  }

  /** `ApplyElimination` with only living agents stratified. */
  function ApplyEliminationIntended(w: World, dies: set<Id>, ratio: Id -> real, yst: Id -> real, rho: real,
                                    shuffle: seq<Id> -> seq<Id>): (r: Outcome)
    requires IsShuffle(shuffle)
    ensures r.removed <= w.agents.Keys
    ensures r.world.agents.Keys == w.agents.Keys - r.removed
  {
    Pass(w, dies, DecisionsOn(ratio, yst), Needed(rho, |w.agents|), shuffle, true)
  }

  // ---------------------------------------------------------------- properties of a pass

  /** A pass is its two halves: what each half computes, the pass reports. */
  lemma PassCarries(w: World, dies: set<Id>, decideOn: World -> (Id -> Decision), needed: int,
                    shuffle: seq<Id> -> seq<Id>, livingOnly: bool)
    requires IsShuffle(shuffle)
    ensures var st := Stratified(AfterNaturalDeaths(w, dies), decideOn, livingOnly);
      var s := SacrificeQuota(st.before, st.volunteers, st.nonVolunteers, needed, shuffle);
      var r := Pass(w, dies, decideOn, needed, shuffle, livingOnly);
      && Ready(st, s)
      && r.volunteers == st.volunteers && r.nonVolunteers == st.nonVolunteers
      && r.natural == st.before.lastEliminated
      && r.volunteered == s.volunteered && r.drafted == s.drafted
      && r.removed == Elems(st.before.lastEliminated) + Elems(s.volunteered) + Elems(s.drafted)
      && r.world.lastEliminated == st.before.lastEliminated + s.volunteered + s.drafted
      && r.world.lastSelfSacrificed == s.volunteered
      && r.world.agents == Survivors(s.world.agents, r.removed, Elems(r.volunteers))
  {
    var st := Stratified(AfterNaturalDeaths(w, dies), decideOn, livingOnly);
    var s := SacrificeQuota(st.before, st.volunteers, st.nonVolunteers, needed, shuffle);
    FinishCarries(st, s);
    SacrificeLists(st.before, s.volunteered, s.drafted);
  }

  /**
   * The lists of a pass: the naturally dead (the agents dead after the
   * mortality step, in map order), then the voluntary and the involuntary
   * sacrifices; the voluntary list holds the voluntary sacrifices only.
   */
  lemma PassLists(w: World, dies: set<Id>, decideOn: World -> (Id -> Decision), needed: int,
                  shuffle: seq<Id> -> seq<Id>, livingOnly: bool)
    requires IsShuffle(shuffle)
    ensures var r := Pass(w, dies, decideOn, needed, shuffle, livingOnly);
      && r.natural == SetToSeq(DeadIds(UpdateMortality(w.agents, dies)))
      && r.world.lastEliminated == r.natural + r.volunteered + r.drafted
      && r.world.lastSelfSacrificed == r.volunteered
  {
    var st := Stratified(AfterNaturalDeaths(w, dies), decideOn, livingOnly);
    var s := SacrificeQuota(st.before, st.volunteers, st.nonVolunteers, needed, shuffle);
    PassCarries(w, dies, decideOn, needed, shuffle, livingOnly);
  }

  /** The agents removed by a pass are exactly the agents it lists as eliminated. */
  lemma PassRemovesListed(w: World, dies: set<Id>, decideOn: World -> (Id -> Decision), needed: int,
                          shuffle: seq<Id> -> seq<Id>, livingOnly: bool)
    requires IsShuffle(shuffle)
    ensures var r := Pass(w, dies, decideOn, needed, shuffle, livingOnly);
      Elems(r.world.lastEliminated) == r.removed
  {
    var r := Pass(w, dies, decideOn, needed, shuffle, livingOnly);
    var st := Stratified(AfterNaturalDeaths(w, dies), decideOn, livingOnly);
    var s := SacrificeQuota(st.before, st.volunteers, st.nonVolunteers, needed, shuffle);
    PassCarries(w, dies, decideOn, needed, shuffle, livingOnly);
    PassLists(w, dies, decideOn, needed, shuffle, livingOnly);
    ElemsOfThree(r.natural, r.volunteered, r.drafted);
  }

  lemma ElemsOfThree(a: seq<Id>, b: seq<Id>, c: seq<Id>)
    ensures Elems(a + b + c) == Elems(a) + Elems(b) + Elems(c)
  {
    forall x ensures x in a + b + c <==> x in a || x in b || x in c {
    }
  }

  /** Sacrifices come from the stratified lists, without repetition. */
  lemma PassChoice(w: World, dies: set<Id>, decideOn: World -> (Id -> Decision), needed: int,
                   shuffle: seq<Id> -> seq<Id>, livingOnly: bool)
    requires IsShuffle(shuffle)
    ensures var r := Pass(w, dies, decideOn, needed, shuffle, livingOnly);
      && Elems(r.volunteered) <= Elems(r.volunteers)
      && Elems(r.drafted) <= Elems(r.nonVolunteers)
      && Distinct(r.volunteered) && Distinct(r.drafted)
  {
    var st := Stratified(AfterNaturalDeaths(w, dies), decideOn, livingOnly);
    var s := SacrificeQuota(st.before, st.volunteers, st.nonVolunteers, needed, shuffle);
    PassCarries(w, dies, decideOn, needed, shuffle, livingOnly);
    SubMultisetElems(s.volunteered, st.volunteers);
    SubMultisetElems(s.drafted, st.nonVolunteers);
  }

  /**
   * Stratification: the volunteers are exactly the agents of the pool whose
   * decision on the state after the natural deaths is self-sacrifice, and
   * the non-volunteers the rest of the pool.
   */
  lemma StratifiedMembers(before: World, decideOn: World -> (Id -> Decision), livingOnly: bool)
    ensures var st := Stratified(before, decideOn, livingOnly);
      var decide := decideOn(before);
      && (forall k :: k in st.volunteers <==>
            k in before.agents && (livingOnly ==> before.agents[k].alive) && decide(k) == SelfSacrifice)
      && (forall k :: k in st.nonVolunteers <==>
            k in before.agents && (livingOnly ==> before.agents[k].alive) && decide(k) != SelfSacrifice)
  {
    var pool := Pool(before.agents, livingOnly);
    assert forall k :: k in pool <==> k in before.agents && (livingOnly ==> before.agents[k].alive);
  }

  /** The pass's stratified lists are those of its first half. */
  lemma PassHalves(w: World, dies: set<Id>, decideOn: World -> (Id -> Decision), needed: int,
                   shuffle: seq<Id> -> seq<Id>, livingOnly: bool)
    requires IsShuffle(shuffle)
    ensures var r := Pass(w, dies, decideOn, needed, shuffle, livingOnly);
      var st := Stratified(AfterNaturalDeaths(w, dies), decideOn, livingOnly);
      r.volunteers == st.volunteers && r.nonVolunteers == st.nonVolunteers
  {
    var st := Stratified(AfterNaturalDeaths(w, dies), decideOn, livingOnly);
    var s := SacrificeQuota(st.before, st.volunteers, st.nonVolunteers, needed, shuffle);
    PassCarries(w, dies, decideOn, needed, shuffle, livingOnly);
  }

  /**
   * The volunteers of a pass are exactly the agents of the pool whose
   * decision on the state after the natural deaths is self-sacrifice, and
   * the non-volunteers the rest of the pool; as written the pool includes
   * the agents that have just died.
   */
  lemma PassVolunteers(w: World, dies: set<Id>, decideOn: World -> (Id -> Decision), needed: int,
                       shuffle: seq<Id> -> seq<Id>, livingOnly: bool, k: Id)
    requires IsShuffle(shuffle)
    ensures var r := Pass(w, dies, decideOn, needed, shuffle, livingOnly);
      var decide := decideOn(AfterNaturalDeaths(w, dies));
      && (k in r.volunteers <==>
            k in w.agents && (livingOnly ==> w.agents[k].alive && k !in dies) && decide(k) == SelfSacrifice)
      && (k in r.nonVolunteers <==>
            k in w.agents && (livingOnly ==> w.agents[k].alive && k !in dies) && decide(k) != SelfSacrifice)
  {
    var before := AfterNaturalDeaths(w, dies);
    PassHalves(w, dies, decideOn, needed, shuffle, livingOnly);
    StratifiedMembers(before, decideOn, livingOnly);
    if k in w.agents {
      assert before.agents[k].alive <==> w.agents[k].alive && k !in dies;
    }
  }

  /** The sacrifices of a pass are chosen from its own strata, against the quota of the whole population. */
  lemma PassChosen(w: World, dies: set<Id>, decideOn: World -> (Id -> Decision), needed: int,
                   shuffle: seq<Id> -> seq<Id>, livingOnly: bool)
    requires IsShuffle(shuffle)
    ensures var r := Pass(w, dies, decideOn, needed, shuffle, livingOnly);
      (r.volunteered, r.drafted) == ChooseSacrifices(r.volunteers, r.nonVolunteers, needed, shuffle)
  {
    var st := Stratified(AfterNaturalDeaths(w, dies), decideOn, livingOnly);
    var s := SacrificeQuota(st.before, st.volunteers, st.nonVolunteers, needed, shuffle);
    PassCarries(w, dies, decideOn, needed, shuffle, livingOnly);
    assert |st.before.agents| == |w.agents|;
  }

  /** The quota met: exactly the quota of volunteers (none for a negative quota), and nobody drafted. */
  lemma PassQuotaMet(w: World, dies: set<Id>, decideOn: World -> (Id -> Decision), needed: int,
                     shuffle: seq<Id> -> seq<Id>, livingOnly: bool)
    requires IsShuffle(shuffle)
    requires |Pass(w, dies, decideOn, needed, shuffle, livingOnly).volunteers| >= needed
    ensures |Pass(w, dies, decideOn, needed, shuffle, livingOnly).volunteered| == Max0(needed)
    ensures Pass(w, dies, decideOn, needed, shuffle, livingOnly).drafted == []
  {
    PassChosen(w, dies, decideOn, needed, shuffle, livingOnly);
  }

  /** Every agent dead after the mortality step is removed, so every survivor is alive. */
  lemma PassRemovesTheDead(w: World, dies: set<Id>, decideOn: World -> (Id -> Decision), needed: int,
                           shuffle: seq<Id> -> seq<Id>, livingOnly: bool)
    requires IsShuffle(shuffle)
    ensures var r := Pass(w, dies, decideOn, needed, shuffle, livingOnly);
      && (forall k :: k in w.agents && (!w.agents[k].alive || k in dies) ==> k in r.removed)
      && (forall k :: k in r.world.agents ==> w.agents[k].alive && k !in dies)
  {
    var r := Pass(w, dies, decideOn, needed, shuffle, livingOnly);
    DeadAfterMortality(w, dies);
    PassLists(w, dies, decideOn, needed, shuffle, livingOnly);
    PassRemovesListed(w, dies, decideOn, needed, shuffle, livingOnly);
    forall k | k in w.agents && (!w.agents[k].alive || k in dies) ensures k in r.removed {
      assert k in r.natural;
    }
  }

  /** Eliminations seen in a cluster depend only on who was removed and their clusters. */
  lemma ClusterLossesAgree(r1: Registry, r2: Registry, removed: set<Id>, c: int)
    requires r1.Keys == r2.Keys
    requires forall k :: k in r1 ==> r1[k].clusterId == r2[k].clusterId
    ensures ClusterLosses(r1, removed, c) == ClusterLosses(r2, removed, c)
  {
    assert (set k | k in removed && k in r1 && r1[k].clusterId == c) ==
           (set k | k in removed && k in r2 && r2[k].clusterId == c);
  }

  /** A survivor reaches the survivors' step exactly as it entered the pass. */
  lemma SurvivorUntouched(w: World, dies: set<Id>, decideOn: World -> (Id -> Decision), needed: int,
                          shuffle: seq<Id> -> seq<Id>, livingOnly: bool, k: Id)
    requires IsShuffle(shuffle)
    requires k in Pass(w, dies, decideOn, needed, shuffle, livingOnly).world.agents
    ensures var st := Stratified(AfterNaturalDeaths(w, dies), decideOn, livingOnly);
      var s := SacrificeQuota(st.before, st.volunteers, st.nonVolunteers, needed, shuffle);
      s.world.agents[k] == w.agents[k]
  {
    var r := Pass(w, dies, decideOn, needed, shuffle, livingOnly);
    var st := Stratified(AfterNaturalDeaths(w, dies), decideOn, livingOnly);
    var s := SacrificeQuota(st.before, st.volunteers, st.nonVolunteers, needed, shuffle);
    PassCarries(w, dies, decideOn, needed, shuffle, livingOnly);
    assert k in w.agents && k !in r.removed;
    assert k !in s.volunteered;
    PassRemovesTheDead(w, dies, decideOn, needed, shuffle, livingOnly);
    assert w.agents[k].alive && k !in dies;
    assert st.before.agents[k] == w.agents[k];
    assert s.world == Sacrifice(st.before, s.volunteered, s.drafted);
    SacrificeAgent(st.before, s.volunteered, s.drafted, k);
  }

  /**
   * A survivor of a pass is the agent that entered it, except that it has
   * counted the eliminations in its cluster and, in its network, the
   * removed peers, split into those that had volunteered and the rest.
   */
  lemma PassSurvivor(w: World, dies: set<Id>, decideOn: World -> (Id -> Decision), needed: int,
                     shuffle: seq<Id> -> seq<Id>, livingOnly: bool, k: Id)
    requires IsShuffle(shuffle)
    requires k in Pass(w, dies, decideOn, needed, shuffle, livingOnly).world.agents
    ensures var r := Pass(w, dies, decideOn, needed, shuffle, livingOnly);
      var a := w.agents[k];
      var b := r.world.agents[k];
      && b == a.(observedCluster := b.observedCluster, observedNetwork := b.observedNetwork,
                 ysterofimia := b.ysterofimia)
      && b.observedCluster == a.observedCluster + ClusterLosses(w.agents, r.removed, a.clusterId)
      && b.observedNetwork == a.observedNetwork + |LostPeers(a, r.removed)|
      && b.ysterofimia.selfSacrificeCount ==
           a.ysterofimia.selfSacrificeCount + |SelfSacrificeLosses(a, r.removed, Elems(r.volunteers))|
      && b.ysterofimia.otherCount == a.ysterofimia.otherCount + |OtherLosses(a, r.removed, Elems(r.volunteers))|
      && b.ysterofimia.selfSacrificeEsteem == a.ysterofimia.selfSacrificeEsteem +
           Sum(Values(SetToSeq(SelfSacrificeLosses(a, r.removed, Elems(r.volunteers))), StrengthOf(a)))
      && b.ysterofimia.otherEsteem == a.ysterofimia.otherEsteem +
           Sum(Values(SetToSeq(OtherLosses(a, r.removed, Elems(r.volunteers))), StrengthOf(a)))
  {
    var r := Pass(w, dies, decideOn, needed, shuffle, livingOnly);
    var st := Stratified(AfterNaturalDeaths(w, dies), decideOn, livingOnly);
    var s := SacrificeQuota(st.before, st.volunteers, st.nonVolunteers, needed, shuffle);
    PassCarries(w, dies, decideOn, needed, shuffle, livingOnly);
    SurvivorUntouched(w, dies, decideOn, needed, shuffle, livingOnly, k);
    SacrificeKeepsClusters(st.before, s.volunteered, s.drafted);
    ClusterLossesAgree(s.world.agents, w.agents, r.removed, w.agents[k].clusterId);
  }

  /** Sacrifices move nobody to another cluster. */
  lemma SacrificeKeepsClusters(w: World, volunteered: seq<Id>, drafted: seq<Id>)
    requires AllIn(volunteered, w.agents) && AllIn(drafted, w.agents)
    ensures forall j :: j in w.agents ==> Sacrifice(w, volunteered, drafted).agents[j].clusterId == w.agents[j].clusterId
  {
    forall j | j in w.agents ensures Sacrifice(w, volunteered, drafted).agents[j].clusterId == w.agents[j].clusterId {
      SacrificeAgent(w, volunteered, drafted, j);
    }
  }

  // ---------------------------------------------------------------- dead volunteers

  /**
   * As written, an agent that dies in the mortality step still takes part
   * in stratification. When it decides to sacrifice itself and volunteers
   * fall short of the quota, it is listed twice among the eliminated (once
   * as a natural death, once as a voluntary sacrifice) and counted as a
   * self-sacrifice. This holds whatever decision procedure is used, so in
   * particular for `ApplyElimination`, which uses each agent's own vote.
   */
  lemma PassDeadVolunteer(w: World, dies: set<Id>, decideOn: World -> (Id -> Decision), needed: int,
                          shuffle: seq<Id> -> seq<Id>, k: Id)
    requires IsShuffle(shuffle)
    requires k in w.agents && k in dies
    requires decideOn(AfterNaturalDeaths(w, dies))(k) == SelfSacrifice
    requires |Pass(w, dies, decideOn, needed, shuffle, false).volunteers| < needed
    ensures multiset(Pass(w, dies, decideOn, needed, shuffle, false).world.lastEliminated)[k] >= 2
    ensures k in Pass(w, dies, decideOn, needed, shuffle, false).world.lastSelfSacrificed
  {
    var r := Pass(w, dies, decideOn, needed, shuffle, false);
    PassVolunteers(w, dies, decideOn, needed, shuffle, false, k);
    PassChosen(w, dies, decideOn, needed, shuffle, false);
    PassLists(w, dies, decideOn, needed, shuffle, false);
    DeadAfterMortality(w, dies);
    assert k in r.natural && k in r.volunteered;
    TwiceListed(r.natural, r.volunteered, r.drafted, k);
  }

  lemma TwiceListed(a: seq<Id>, b: seq<Id>, c: seq<Id>, x: Id)
    requires x in a && x in b
    ensures multiset(a + b + c)[x] >= 2
  {
    assert multiset(a + b + c) == multiset(a) + multiset(b) + multiset(c);
  }

  /**
   * With only living agents stratified, both lists hold agents alive after
   * the mortality step, and no agent is on both.
   */
  lemma LivingPool(w: World, dies: set<Id>, decideOn: World -> (Id -> Decision), needed: int,
                   shuffle: seq<Id> -> seq<Id>)
    requires IsShuffle(shuffle)
    ensures var r := Pass(w, dies, decideOn, needed, shuffle, true);
      && (forall k :: k in r.volunteers ==> k in w.agents && w.agents[k].alive && k !in dies)
      && (forall k :: k in r.nonVolunteers ==> k in w.agents && w.agents[k].alive && k !in dies)
      && Elems(r.volunteers) !! Elems(r.nonVolunteers)
  {
    var r := Pass(w, dies, decideOn, needed, shuffle, true);
    forall k ensures k in r.volunteers || k in r.nonVolunteers ==> k in w.agents && w.agents[k].alive && k !in dies
      ensures !(k in r.volunteers && k in r.nonVolunteers)
    {
      PassVolunteers(w, dies, decideOn, needed, shuffle, true, k);
    }
  }

  /** With only living agents stratified, nobody is listed twice among the eliminated. */
  lemma LivingPoolEliminatesOnce(w: World, dies: set<Id>, decideOn: World -> (Id -> Decision), needed: int,
                                 shuffle: seq<Id> -> seq<Id>)
    requires IsShuffle(shuffle)
    ensures Distinct(Pass(w, dies, decideOn, needed, shuffle, true).world.lastEliminated)
  {
    var r := Pass(w, dies, decideOn, needed, shuffle, true);
    PassLists(w, dies, decideOn, needed, shuffle, true);
    PassChoice(w, dies, decideOn, needed, shuffle, true);
    LivingPool(w, dies, decideOn, needed, shuffle);
    DeadAfterMortality(w, dies);
    IncreasingIsDistinct(r.natural);
    DistinctThree(r.natural, r.volunteered, r.drafted);
  }

  /**
   * `ApplyElimination` with only living agents stratified: every volunteer
   * is alive after the mortality step, and nobody is listed twice among the
   * eliminated.
   */
  lemma IntendedEliminatesOnce(w: World, dies: set<Id>, ratio: Id -> real, yst: Id -> real, rho: real,
                               shuffle: seq<Id> -> seq<Id>)
    requires IsShuffle(shuffle)
    ensures var r := ApplyEliminationIntended(w, dies, ratio, yst, rho, shuffle);
      && (forall k :: k in r.volunteers ==> k in w.agents && w.agents[k].alive && k !in dies)
      && Distinct(r.world.lastEliminated)
  {
    LivingPool(w, dies, DecisionsOn(ratio, yst), Needed(rho, |w.agents|), shuffle);
    LivingPoolEliminatesOnce(w, dies, DecisionsOn(ratio, yst), Needed(rho, |w.agents|), shuffle);
  }
}
