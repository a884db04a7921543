/**
 * The agent record and its own state changes (`agents/ExtendedAgent.go`).
 *
 * One immutable record stands for every attachment style; the registry
 * is a map from identifier to record, a snapshot of the server's agent map.
 */
module Agents {
  import opened Common
  import opened Geometry
  import opened Collections
  import opened Reals

  type Id = nat

  datatype Style = Dismissive | Fearful | Preoccupied | Secure

  /** Attachment orientation: the style and its two scalars. */
  datatype Attachment = Attachment(anxiety: real, avoidance: real, style: Style)

  /** Wellbeing-protocol parameters, fixed at birth. */
  datatype PtwParams = PtwParams(checkProb: real, replyProb: real, alpha: real, beta: real)

  /** Posthumous-esteem ledger: (count, esteem sum) for voluntary and for other deaths of network peers. */
  datatype Ysterofimia = Ysterofimia(
    selfSacrificeCount: nat, selfSacrificeEsteem: real,
    otherCount: nat, otherEsteem: real)

  const EmptyYsterofimia := Ysterofimia(0, 0.0, 0, 0.0)

  datatype Agent = Agent(
    id: Id,
    position: Position,
    clusterId: int,
    age: nat,
    heroism: nat,
    alive: bool,
    network: map<Id, real>,          // tie strength (esteem) per peer
    kinship: seq<Id>,                // descendants
    worldview: bv32,
    attachment: Attachment,
    ptw: PtwParams,
    observedCluster: nat,            // eliminations seen in own cluster
    observedNetwork: nat,            // eliminations seen among network entries
    ysterofimia: Ysterofimia,
    createdPerformed: seq<Id>,       // counterparties of ties this agent created
    createdReceived: seq<Id>,        // counterparties that created a tie to this agent
    severedPerformed: seq<Id>,       // counterparties of severances attributed as performed
    severedReceived: seq<Id>)        // counterparties of severances attributed as received

  type Registry = map<Id, Agent>

  /** Every tie strength lies in [0,1]. */
  predicate UnitStrengths(a: Agent) {
    forall k :: k in a.network ==> 0.0 <= a.network[k] <= 1.0
  }

  /** Both protocol rates lie in [0,1]. */
  predicate UnitRates(a: Agent) {
    0.0 <= a.ptw.alpha <= 1.0 && 0.0 <= a.ptw.beta <= 1.0
  }

  /** `IncrementHeroism`: heroism only ever grows, by one, and nothing else changes. */
  function IncrementHeroism(a: Agent): (r: Agent)
    ensures r.heroism == a.heroism + 1
    ensures r.(heroism := a.heroism) == a
  {
    a.(heroism := a.heroism + 1)
  }

  /**
   * `randInRange`: `lo + u * (hi - lo)` for a draw `u` of `rand.Float32`,
   * which lies in [0,1).
   */
  function RandInRange(lo: real, hi: real, u: real): (r: real)
    requires 0.0 <= u < 1.0
    ensures lo < hi ==> lo <= r < hi
    ensures lo == hi ==> r == lo
  {
    if lo < hi then ScaleBelow(u, hi - lo); lo + Times(u, hi - lo)
    else lo + Times(u, hi - lo)
  }

  /** The esteem held for `k`; Go reads an absent map entry as 0. */
  function Esteem(a: Agent, k: Id): real {
    if k in a.network then a.network[k] else 0.0
  }

  /**
   * The wellbeing-protocol esteem step: a received check pulls the esteem
   * towards 1 by the fraction alpha; no check decays it towards 0 by the
   * fraction beta.
   */
  function NextEsteem(e: real, p: PtwParams, isCheck: bool): (e': real)
    ensures 0.0 <= e <= 1.0 && 0.0 <= p.alpha <= 1.0 && 0.0 <= p.beta <= 1.0 ==>
      && 0.0 <= e' <= 1.0
      && (isCheck ==> e <= e')
      && (!isCheck ==> e' <= e)
    ensures isCheck && p.alpha == 0.0 ==> e' == e
    ensures !isCheck && p.beta == 0.0 ==> e' == e
    ensures isCheck && p.alpha == 1.0 ==> e' == 1.0
    ensures !isCheck && p.beta == 1.0 ==> e' == 0.0
  {
    if isCheck then
      var gain := Times(p.alpha, 1.0 - e);
      (if 0.0 <= e <= 1.0 && 0.0 <= p.alpha <= 1.0 then ScaleWithin(p.alpha, 1.0 - e); e + gain else e + gain)
    else
      var loss := Times(p.beta, e);
      (if 0.0 <= e <= 1.0 && 0.0 <= p.beta <= 1.0 then ScaleWithin(p.beta, e); e - loss else e - loss)
  }

  /**
   * `UpdateEsteem`: only the `friend` entry is written (created when absent,
   * from Go's zero value), by one esteem step.
   */
  function UpdateEsteem(a: Agent, friend: Id, isCheck: bool): (r: Agent)
    ensures r == a.(network := r.network)
    ensures r.network.Keys == a.network.Keys + {friend}
    ensures forall k :: k in a.network && k != friend ==> r.network[k] == a.network[k]
    ensures r.network[friend] == NextEsteem(Esteem(a, friend), a.ptw, isCheck)
  {
    a.(network := a.network[friend := NextEsteem(Esteem(a, friend), a.ptw, isCheck)])
  }

  /** A sequence of wellbeing rounds: each names a peer and whether a check arrived. */
  function ApplyRounds(a: Agent, rounds: seq<(Id, bool)>): Agent
    decreases |rounds|
  {
    if rounds == [] then a
    else ApplyRounds(UpdateEsteem(a, rounds[0].0, rounds[0].1), rounds[1..])
  }

  /** Esteem updates keep every tie strength in [0,1], over any number of rounds. */
  lemma {:induction false} RoundsKeepUnitStrengths(a: Agent, rounds: seq<(Id, bool)>)
    requires UnitStrengths(a) && UnitRates(a)
    ensures UnitStrengths(ApplyRounds(a, rounds))
    ensures ApplyRounds(a, rounds).ptw == a.ptw
    decreases |rounds|
  {
    if rounds != [] {
      var b := UpdateEsteem(a, rounds[0].0, rounds[0].1);
      assert UnitStrengths(b);
      RoundsKeepUnitStrengths(b, rounds[1..]);
    }
  }

  /**
   * With alpha = beta = 0 the updates change no existing strength, over any
   * number of rounds; when every round names an existing peer the agent is
   * left exactly as it was.
   */
  lemma {:induction false} ZeroRatesKeepEsteem(a: Agent, rounds: seq<(Id, bool)>)
    requires a.ptw.alpha == 0.0 && a.ptw.beta == 0.0
    ensures forall k :: k in a.network ==>
      k in ApplyRounds(a, rounds).network && ApplyRounds(a, rounds).network[k] == a.network[k]
    ensures (forall i :: 0 <= i < |rounds| ==> rounds[i].0 in a.network) ==> ApplyRounds(a, rounds) == a
    decreases |rounds|
  {
    if rounds != [] {
      var b := UpdateEsteem(a, rounds[0].0, rounds[0].1);
      ZeroRatesKeepEsteem(b, rounds[1..]);
      if forall i :: 0 <= i < |rounds| ==> rounds[i].0 in a.network {
        assert b.network == a.network;
        assert forall i :: 0 <= i < |rounds[1..]| ==> rounds[1..][i].0 in b.network by {
          forall i | 0 <= i < |rounds[1..]|
            ensures rounds[1..][i].0 in b.network
          {
            assert rounds[1..][i] == rounds[i + 1];
          }
        }
      }
    }
  }

  /** The network entries that name a registered agent (self included, if present). */
  function RegisteredEntries(reg: Registry, a: Agent): set<Id> {
    set k | k in a.network && k in reg
  }

  /** `k` is a registered entry no farther from `a` than any other registered entry. */
  ghost predicate ClosestEntry(reg: Registry, a: Agent, k: Id) {
    && k in RegisteredEntries(reg, a)
    && forall c :: c in RegisteredEntries(reg, a) ==>
         SqDist(a.position, reg[k].position) <= SqDist(a.position, reg[c].position)
  }

  /** The closest registered entries. */
  ghost function ClosestEntries(reg: Registry, a: Agent): set<Id> {
    set k | k in a.network && ClosestEntry(reg, a, k)
  }

  /** Registration test, as a function value for the generic walk. */
  function IsRegistered(reg: Registry): Id -> bool {
    k => k in reg
  }

  /** Squared distance from `a` to a registered agent (0 for an unregistered id, never consulted). */
  function DistanceTo(reg: Registry, a: Agent): Id -> nat {
    k => if k in reg then SqDist(a.position, reg[k].position) else 0
  }

  /**
   * `FindClosestFriend`: one walk over the network that keeps the list of
   * equally closest registered entries, then a uniform pick among them
   * (`rand.Intn`, modelled by the input `pick`). The list is exactly the set
   * of closest entries in walk order, so every closest entry can be picked.
   */
  method FindClosestFriend(reg: Registry, a: Agent, pick: nat) returns (friend: Option<Id>)
    ensures friend.None? <==> RegisteredEntries(reg, a) == {}
    ensures friend.Some? ==> ClosestEntry(reg, a, friend.value) && friend.value in ClosestEntries(reg, a)
    ensures friend.Some? ==> friend.value == SetToSeq(ClosestEntries(reg, a))[pick % |ClosestEntries(reg, a)|]
  {
    var ok := IsRegistered(reg);
    var dist := DistanceTo(reg, a);
    var closest, minDist := NearestWalk(SetToSeq(a.network.Keys), ok, dist);
    WalkFindsClosest(reg, a, closest, minDist);
    if closest == [] {
      friend := None;
    } else {
      friend := Some(closest[pick % |closest|]);
      assert friend.value in ClosestEntries(reg, a);
    }
  }

  /** The walk over the network keeps nothing exactly when no entry is registered, and otherwise the closest entries. */
  lemma WalkFindsClosest(reg: Registry, a: Agent, closest: seq<Id>, m: nat)
    requires MinWalk(SetToSeq(a.network.Keys), IsRegistered(reg), DistanceTo(reg, a), closest, m)
    ensures closest == [] <==> RegisteredEntries(reg, a) == {}
    ensures closest != [] ==> closest == SetToSeq(ClosestEntries(reg, a))
  {
    MinWalkNone(a.network.Keys, IsRegistered(reg), DistanceTo(reg, a), closest, m);
    NearestAreClosest(reg, a);
    if closest != [] {
      MinWalkNearest(a.network.Keys, IsRegistered(reg), DistanceTo(reg, a), closest, m);
    }
  }

  /** The generic nearest set, instantiated for registered entries, is the set of closest entries. */
  lemma NearestAreClosest(reg: Registry, a: Agent)
    ensures Nearest(a.network.Keys, IsRegistered(reg), DistanceTo(reg, a)) == ClosestEntries(reg, a)
    ensures (forall k :: k in a.network.Keys ==> k !in reg) <==> RegisteredEntries(reg, a) == {}
  {
    if forall k :: k in a.network.Keys ==> k !in reg {
      assert forall k :: k !in RegisteredEntries(reg, a);
    } else {
      var k :| k in a.network.Keys && k in reg;
      assert k in RegisteredEntries(reg, a);
    }
  }
}
