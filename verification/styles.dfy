/**
 * The four attachment styles (`agents/DismissiveAgent.go`,
 * `agents/FearfulAgent.go`, `agents/SecureAgent.go`,
 * `agents/PreoccupiedAgent.go`): the parameter ranges each style draws at
 * birth, and each style's movement target.
 *
 * Every movement policy is one walk over its candidates that keeps the
 * first strictly closer one (`dist < minDist`, starting from +Inf); it then
 * moves to that candidate, or to its reflection through the agent's own
 * position (`2*self - closest`), or reports no target with the zero vector.
 */
module Styles {
  import opened Common
  import opened Geometry
  import opened Collections
  import opened Agents

  // ---------------------------------------------------------------- birth ranges

  /** Which half of [0,1) a drawn parameter falls into. */
  datatype Half = Low | High

  predicate InHalf(x: real, h: Half) {
    match h
    case Low => 0.0 <= x < 0.5
    case High => 0.5 <= x < 1.0
  }

  /** The six uniform draws in [0,1) that a constructor consumes, one per parameter. */
  datatype Draws = Draws(anxiety: real, avoidance: real, check: real, reply: real, alpha: real, beta: real)

  predicate ValidDraws(u: Draws) {
    && 0.0 <= u.anxiety < 1.0 && 0.0 <= u.avoidance < 1.0
    && 0.0 <= u.check < 1.0 && 0.0 <= u.reply < 1.0
    && 0.0 <= u.alpha < 1.0 && 0.0 <= u.beta < 1.0
  }

  /** The two-by-two attachment grid: anxiety and avoidance halves of each style. */
  function AnxietyHalf(s: Style): Half {
    match s
    case Dismissive => Low
    case Fearful => High
    case Preoccupied => High
    case Secure => Low
  }

  function AvoidanceHalf(s: Style): Half {
    match s
    case Dismissive => High
    case Fearful => High
    case Preoccupied => Low
    case Secure => Low
  }

  /** Reads the style back from where its two scalars fall. */
  function Classify(anxiety: real, avoidance: real): Style {
    if anxiety < 0.5 then (if avoidance < 0.5 then Secure else Dismissive)
    else (if avoidance < 0.5 then Preoccupied else Fearful)
  }

  /** The low half [0, 0.5) and the high half [0.5, 1) of a draw. */
  function Draw(h: Half, u: real): (x: real)
    requires 0.0 <= u < 1.0
    ensures InHalf(x, h)
  {
    match h
    case Low => RandInRange(0.0, 0.5, u)
    case High => RandInRange(0.5, 1.0, u)
  }

  /**
   * The attachment each constructor sets: Dismissive low anxiety and high
   * avoidance, Fearful both high, Preoccupied high anxiety and low
   * avoidance, Secure both low.
   */
  function BirthAttachment(s: Style, u: Draws): (at: Attachment)
    requires ValidDraws(u)
    ensures at.style == s
    ensures InHalf(at.anxiety, AnxietyHalf(s)) && InHalf(at.avoidance, AvoidanceHalf(s))
  {
    match s
    case Dismissive => Attachment(Draw(Low, u.anxiety), Draw(High, u.avoidance), Dismissive)
    case Fearful => Attachment(Draw(High, u.anxiety), Draw(High, u.avoidance), Fearful)
    case Preoccupied => Attachment(Draw(High, u.anxiety), Draw(Low, u.avoidance), Preoccupied)
    case Secure => Attachment(Draw(Low, u.anxiety), Draw(Low, u.avoidance), Secure)
  }

  /** The drawn scalars always classify back to the style that drew them. */
  lemma BirthClassifies(s: Style, u: Draws)
    requires ValidDraws(u)
    ensures Classify(BirthAttachment(s, u).anxiety, BirthAttachment(s, u).avoidance) == s
  {
    var at := BirthAttachment(s, u);
    assert InHalf(at.anxiety, AnxietyHalf(s)) && InHalf(at.avoidance, AvoidanceHalf(s));
  }

  /**
   * The wellbeing-protocol parameters each constructor draws: Dismissive all
   * four low; Fearful check and beta high, reply and alpha low; Preoccupied
   * all four high; Secure check and beta low, reply and alpha high.
   */
  function BirthPtw(s: Style, u: Draws): (p: PtwParams)
    requires ValidDraws(u)
    ensures s == Dismissive ==>
      InHalf(p.checkProb, Low) && InHalf(p.replyProb, Low) && InHalf(p.alpha, Low) && InHalf(p.beta, Low)
    ensures s == Fearful ==>
      InHalf(p.checkProb, High) && InHalf(p.replyProb, Low) && InHalf(p.alpha, Low) && InHalf(p.beta, High)
    ensures s == Preoccupied ==>
      InHalf(p.checkProb, High) && InHalf(p.replyProb, High) && InHalf(p.alpha, High) && InHalf(p.beta, High)
    ensures s == Secure ==>
      InHalf(p.checkProb, Low) && InHalf(p.replyProb, High) && InHalf(p.alpha, High) && InHalf(p.beta, Low)
  {
    match s
    case Dismissive => PtwParams(Draw(Low, u.check), Draw(Low, u.reply), Draw(Low, u.alpha), Draw(Low, u.beta))
    case Fearful => PtwParams(Draw(High, u.check), Draw(Low, u.reply), Draw(Low, u.alpha), Draw(High, u.beta))
    case Preoccupied => PtwParams(Draw(High, u.check), Draw(High, u.reply), Draw(High, u.alpha), Draw(High, u.beta))
    case Secure => PtwParams(Draw(Low, u.check), Draw(High, u.reply), Draw(High, u.alpha), Draw(Low, u.beta))
  }

  /** Every style's birth rates lie in [0,1], so its esteem updates stay in [0,1]. */
  lemma BirthRatesAreUnit(s: Style, u: Draws, a: Agent)
    requires ValidDraws(u) && a.ptw == BirthPtw(s, u)
    ensures UnitRates(a)
  {
    var p := BirthPtw(s, u);
    match s
    case Dismissive =>
    case Fearful =>
    case Preoccupied =>
    case Secure =>
  }

  // ---------------------------------------------------------------- first-minimum walk

  /**
   * `i` is where the walk over `xs` stops: an accepted element no farther
   * than any accepted one, and strictly closer than every accepted element
   * before it.
   */
  predicate FirstNearestAt(xs: seq<nat>, ok: nat -> bool, dist: nat -> nat, i: nat) {
    && i < |xs| && ok(xs[i])
    && (forall j :: 0 <= j < |xs| && ok(xs[j]) ==> dist(xs[i]) <= dist(xs[j]))
    && (forall j :: 0 <= j < i && ok(xs[j]) ==> dist(xs[i]) < dist(xs[j]))
  }

  /** The `dist < minDist` walk from +Inf: the first accepted element at the least distance. */
  method FirstNearest(xs: seq<nat>, ok: nat -> bool, dist: nat -> nat) returns (r: Option<nat>)
    ensures r.None? <==> forall j :: 0 <= j < |xs| ==> !ok(xs[j])
    ensures r.Some? ==> FirstNearestAt(xs, ok, dist, r.value)
  {
    r := None;
    var i := 0;
    while i < |xs|
      invariant 0 <= i <= |xs|
      invariant r.None? <==> forall j :: 0 <= j < i ==> !ok(xs[j])
      invariant r.Some? ==> FirstNearestAt(xs[..i], ok, dist, r.value)
    {
      if ok(xs[i]) && (r.None? || dist(xs[i]) < dist(xs[r.value])) {
        r := Some(i);
      }
      i := i + 1;
    }
    assert xs[..i] == xs;
  }

  /** The stopping place is unique: the walk's result is fully determined by its contract. */
  lemma FirstNearestUnique(xs: seq<nat>, ok: nat -> bool, dist: nat -> nat, i: nat, k: nat)
    requires FirstNearestAt(xs, ok, dist, i) && FirstNearestAt(xs, ok, dist, k)
    ensures i == k
  {
  }

  // ---------------------------------------------------------------- movement targets

  /** `k` is a candidate no farther from `a` than any other candidate. */
  ghost predicate ClosestCandidate(reg: Registry, a: Agent, cands: set<Id>, k: Id)
    requires cands <= reg.Keys
  {
    k in cands && forall c :: c in cands ==> SqDist(a.position, reg[k].position) <= SqDist(a.position, reg[c].position)
  }

  /** Registered network entries other than the agent itself (the Dismissive and Secure candidates). */
  function NetworkPeers(reg: Registry, a: Agent): set<Id> {
    set k | k in a.network && k != a.id && k in reg
  }

  /** Registered agents other than the agent itself in its cluster (the Fearful candidates). */
  function ClusterCandidates(reg: Registry, a: Agent): set<Id> {
    set k | k in reg && k != a.id && reg[k].clusterId == a.clusterId
  }

  function IsNetworkPeer(reg: Registry, a: Agent): Id -> bool {
    (k: Id) => k != a.id && k in reg
  }

  function IsClusterCandidate(reg: Registry, a: Agent): Id -> bool {
    (k: Id) => k != a.id && k in reg && reg[k].clusterId == a.clusterId
  }

  /** The walk over an enumeration of `domain` found a closest candidate, or there is none. */
  lemma WalkResult(reg: Registry, a: Agent, domain: set<Id>, cands: set<Id>, ok: Id -> bool, ids: seq<Id>, r: Option<nat>)
    requires cands <= reg.Keys
    requires forall k :: k in cands <==> k in domain && ok(k)
    requires ids == SetToSeq(domain)
    requires r.None? <==> forall j :: 0 <= j < |ids| ==> !ok(ids[j])
    requires r.Some? ==> FirstNearestAt(ids, ok, DistanceTo(reg, a), r.value)
    ensures r.None? <==> cands == {}
    ensures r.Some? ==> ClosestCandidate(reg, a, cands, ids[r.value])
  {
    if r.None? {
      assert forall k :: k in cands ==> k in ids;
    } else {
      var k := ids[r.value];
      assert k in cands;
      forall c | c in cands ensures SqDist(a.position, reg[k].position) <= SqDist(a.position, reg[c].position) {
        var j :| 0 <= j < |ids| && ids[j] == c;
        assert ok(ids[j]);
        assert DistanceTo(reg, a)(k) <= DistanceTo(reg, a)(c);
      }
    }
  }

  /** The closest candidate, walking `domain` in ascending order. */
  method ClosestOf(reg: Registry, a: Agent, domain: set<Id>, cands: set<Id>, ok: Id -> bool) returns (r: Option<Id>)
    requires cands <= reg.Keys
    requires forall k :: k in cands <==> k in domain && ok(k)
    ensures r.None? <==> cands == {}
    ensures r.Some? ==> ClosestCandidate(reg, a, cands, r.value)
  {
    var ids := SetToSeq(domain);
    var dist := DistanceTo(reg, a);
    var i := FirstNearest(ids, ok, dist);
    assert i.None? <==> forall j :: 0 <= j < |ids| ==> !ok(ids[j]);
    assert i.Some? ==> FirstNearestAt(ids, ok, dist, i.value);
    WalkResult(reg, a, domain, cands, ok, ids, i);
    r := if i.Some? then Some(ids[i.value]) else None;
  }

  /**
   * Dismissive `GetTargetPosition`: away from the closest registered network
   * peer, to the point on the far side of the agent at the same distance.
   */
  method DismissiveTarget(reg: Registry, a: Agent) returns (target: Position, moved: bool)
    ensures !moved <==> NetworkPeers(reg, a) == {}
    ensures !moved ==> target == Origin
    ensures moved ==>
      exists k ::
        && ClosestCandidate(reg, a, NetworkPeers(reg, a), k)
        && target == Reflect(a.position, reg[k].position)
  {
    var closest := ClosestOf(reg, a, a.network.Keys, NetworkPeers(reg, a), IsNetworkPeer(reg, a));
    if closest.None? {
      target, moved := Origin, false;
    } else {
      target, moved := Reflect(a.position, reg[closest.value].position), true;
    }
  }

  /** Secure `GetTargetPosition`: to the position of the closest registered network peer. */
  method SecureTarget(reg: Registry, a: Agent) returns (target: Position, moved: bool)
    ensures !moved <==> NetworkPeers(reg, a) == {}
    ensures !moved ==> target == Origin
    ensures moved ==>
      exists k ::
        && ClosestCandidate(reg, a, NetworkPeers(reg, a), k)
        && target == reg[k].position
  {
    var closest := ClosestOf(reg, a, a.network.Keys, NetworkPeers(reg, a), IsNetworkPeer(reg, a));
    if closest.None? {
      target, moved := Origin, false;
    } else {
      target, moved := reg[closest.value].position, true;
    }
  }

  /**
   * Fearful `GetTargetPosition`: away from the closest other agent of its
   * own cluster, whether or not it is in the network.
   */
  method FearfulTarget(reg: Registry, a: Agent) returns (target: Position, moved: bool)
    ensures !moved <==> ClusterCandidates(reg, a) == {}
    ensures !moved ==> target == Origin
    ensures moved ==>
      exists k ::
        && ClosestCandidate(reg, a, ClusterCandidates(reg, a), k)
        && target == Reflect(a.position, reg[k].position)
  {
    var closest := ClosestOf(reg, a, reg.Keys, ClusterCandidates(reg, a), IsClusterCandidate(reg, a));
    if closest.None? {
      target, moved := Origin, false;
    } else {
      target, moved := Reflect(a.position, reg[closest.value].position), true;
    }
  }

  /** An agent on the grid that the Preoccupied agent counts as a friend: not itself, and in its network. */
  predicate IsFriendOnGrid(a: Agent, other: Agent) {
    other.id != a.id && other.id in a.network
  }

  function IsFriendAt(a: Agent, occupied: seq<Agent>): nat -> bool {
    (i: nat) => i < |occupied| && IsFriendOnGrid(a, occupied[i])
  }

  function DistanceAt(a: Agent, occupied: seq<Agent>): nat -> nat {
    (i: nat) => if i < |occupied| then SqDist(a.position, occupied[i].position) else 0
  }

  function Indices(n: nat): (r: seq<nat>)
    ensures |r| == n
    ensures forall i :: 0 <= i < n ==> r[i] == i
  {
    seq(n, i requires 0 <= i < n => i)
  }

  /**
   * Preoccupied `GetTargetPosition`: to the closest friend among the agents
   * the grid reports as occupying a cell, in the grid's order; the first of
   * equally close friends wins.
   */
  method PreoccupiedTarget(a: Agent, occupied: seq<Agent>) returns (target: Position, moved: bool)
    ensures !moved <==> forall i :: 0 <= i < |occupied| ==> !IsFriendOnGrid(a, occupied[i])
    ensures !moved ==> target == Origin
    ensures moved ==>
      exists i ::
        && 0 <= i < |occupied| && IsFriendOnGrid(a, occupied[i])
        && target == occupied[i].position
        && (forall j :: 0 <= j < |occupied| && IsFriendOnGrid(a, occupied[j]) ==>
              SqDist(a.position, occupied[i].position) <= SqDist(a.position, occupied[j].position))
        && (forall j :: 0 <= j < i && IsFriendOnGrid(a, occupied[j]) ==>
              SqDist(a.position, occupied[i].position) < SqDist(a.position, occupied[j].position))
  {
    var idx := Indices(|occupied|);
    var r := FirstNearest(idx, IsFriendAt(a, occupied), DistanceAt(a, occupied));
    if r.None? {
      target, moved := Origin, false;
      forall i | 0 <= i < |occupied| ensures !IsFriendOnGrid(a, occupied[i]) {
        assert !IsFriendAt(a, occupied)(idx[i]);
      }
    } else {
      var i := r.value;
      target, moved := occupied[i].position, true;
      forall j | 0 <= j < |occupied| && IsFriendOnGrid(a, occupied[j])
        ensures SqDist(a.position, occupied[i].position) <= SqDist(a.position, occupied[j].position)
      {
        assert IsFriendAt(a, occupied)(idx[j]);
      }
      forall j | 0 <= j < i && IsFriendOnGrid(a, occupied[j])
        ensures SqDist(a.position, occupied[i].position) < SqDist(a.position, occupied[j].position)
      {
        assert IsFriendAt(a, occupied)(idx[j]);
      }
    }
  }
}
