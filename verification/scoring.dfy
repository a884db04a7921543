/**
 * The agent decision model (`agents/ExtendedAgent.go`): the sub-factors
 * computed over a snapshot of the registry, the three weighted scores and
 * the three-vote self-sacrifice decision.
 *
 * Go computes in float32; the model computes in exact reals. A Go
 * division 0/0 yields NaN rather than a panic; the scores that can produce
 * it (memorial proximity, and with it mortality salience; heroism, and with
 * it relationship validation) return an `Option`, with `None` standing for
 * NaN. NaN is never above a threshold, so it always votes "no".
 */
module Scoring {
  import opened Common
  import opened Bits
  import opened Collections
  import opened Reals
  import opened Constants
  import opened SortSearch
  import opened Agents
  import opened Geometry

  // ---------------------------------------------------------------- alignment

  /** `worldviewAlignment`: the fraction of the 32 bit positions where the two words agree. */
  function Alignment(a: bv32, b: bv32): (r: real)
    ensures 0.0 <= r <= 1.0
    ensures r == 1.0 <==> a == b
  {
    OnesCount32Range(!(a ^ b));
    XnorAllOnes(a, b);
    OnesCount32(!(a ^ b)) as real / 32.0
  }

  /** The alignment is the number of equal bit positions over 32, and it is symmetric. */
  lemma AlignmentCountsAgreement(a: bv32, b: bv32)
    ensures Alignment(a, b) == EqualBelow(a, b, 32) as real / 32.0
    ensures Alignment(a, b) == Alignment(b, a)
  {
    XnorCountsEqualBits(a, b, 32);
    assert a ^ b == b ^ a;
  }

  /** The alignment of `self` with a registered agent. */
  function AlignmentWith(reg: Registry, self: Agent): Id -> real {
    k => if k in reg then Alignment(self.worldview, reg[k].worldview) else 0.0
  }

  /** The mean alignment of `self` with a set of registered peers, 0 for none. */
  function Profile(reg: Registry, self: Agent, peers: set<Id>): real {
    Mean(Values(SetToSeq(peers), AlignmentWith(reg, self)))
  }

  /**
   * A profile lies in [0,1], is 0 with no peers, and is 1 exactly when
   * there is a peer and every peer holds the same worldview as `self`.
   */
  lemma ProfileRange(reg: Registry, self: Agent, peers: set<Id>)
    requires peers <= reg.Keys
    ensures 0.0 <= Profile(reg, self, peers) <= 1.0
    ensures peers == {} ==> Profile(reg, self, peers) == 0.0
    ensures Profile(reg, self, peers) == 1.0 <==>
      peers != {} && forall k :: k in peers ==> reg[k].worldview == self.worldview
  {
    var f := AlignmentWith(reg, self);
    MeanOfValues(peers, f);
    assert (forall k :: k in peers ==> f(k) == 1.0) <==>
      (forall k :: k in peers ==> reg[k].worldview == self.worldview);
  }

  /** Agents other than `self` (by identity) that share its cluster. */
  function ClusterMates(reg: Registry, self: Agent): set<Id> {
    set k | k in reg && reg[k].id != self.id && reg[k].clusterId == self.clusterId
  }

  /** `GetCPR`: mean alignment with the cluster-mates, 0 when there are none. */
  function CPR(reg: Registry, self: Agent): (r: real)
    ensures 0.0 <= r <= 1.0
    ensures ClusterMates(reg, self) == {} ==> r == 0.0
    ensures r == 1.0 <==> (ClusterMates(reg, self) != {} &&
      forall k :: k in ClusterMates(reg, self) ==> reg[k].worldview == self.worldview)
  {
    ProfileRange(reg, self, ClusterMates(reg, self));
    Profile(reg, self, ClusterMates(reg, self))
  }

  /**
   * `GetNPR`: mean alignment with the registered network entries, 0 when
   * there are none. A self-entry is not skipped.
   */
  function NPR(reg: Registry, self: Agent): (r: real)
    ensures 0.0 <= r <= 1.0
    ensures RegisteredEntries(reg, self) == {} ==> r == 0.0
    ensures r == 1.0 <==> (RegisteredEntries(reg, self) != {} &&
      forall k :: k in RegisteredEntries(reg, self) ==> reg[k].worldview == self.worldview)
  {
    ProfileRange(reg, self, RegisteredEntries(reg, self));
    Profile(reg, self, RegisteredEntries(reg, self))
  }

  /** A registered self-entry is counted in NPR, and alone it contributes full alignment. */
  lemma NprCountsSelfEntry(reg: Registry, self: Agent)
    requires self.id in self.network && self.id in reg && reg[self.id] == self
    requires RegisteredEntries(reg, self) == {self.id}
    ensures NPR(reg, self) == 1.0
  {
  }

  // ---------------------------------------------------------------- relative age

  /** The registered network entries other than `self`'s own identifier. */
  function AgePeers(reg: Registry, a: Agent): set<Id> {
    set k | k in a.network && k in reg && k != a.id
  }

  /** The summed age of the registered agents in `ids`. */
  function TotalAge(reg: Registry, ids: seq<Id>): nat {
    if ids == [] then 0
    else (if ids[0] in reg then reg[ids[0]].age else 0) + TotalAge(reg, ids[1..])
  }

  /**
   * The arithmetic of `RelativeAgeToNetwork`: how far `age` exceeds the mean
   * `total / n`, as a fraction of `age`; 0 when `n` or `age` is 0 or when
   * `age` does not exceed the mean. The result is in [0,1] and is positive
   * exactly when `age * n > total`.
   */
  function AgeExcess(age: nat, total: nat, n: nat): (r: real)
    ensures 0.0 <= r <= 1.0
    ensures r > 0.0 <==> (age > 0 && n > 0 && Times(age as real, n as real) > total as real)
  {
    if n == 0 || age == 0 then 0.0
    else
      var average := total as real / n as real;
      var diff := age as real - average;
      AboveRatio(age as real, total as real, n as real);
      if diff <= 0.0 then 0.0
      else
        RatioUnit(diff, age as real);
        diff / age as real
  }

  /**
   * `RelativeAgeToNetwork`: the age excess of the agent over its registered
   * non-self peers; 0 when it has no such peer, when its age is 0, or when
   * it is not older than their mean age.
   */
  function RelativeAge(reg: Registry, a: Agent): (r: real)
    ensures 0.0 <= r <= 1.0
    ensures r > 0.0 <==> (a.age > 0 && |AgePeers(reg, a)| > 0 &&
      Times(a.age as real, |AgePeers(reg, a)| as real) > TotalAge(reg, SetToSeq(AgePeers(reg, a))) as real)
  {
    var peers := SetToSeq(AgePeers(reg, a));
    AgeExcess(a.age, TotalAge(reg, peers), |peers|)
  }

  // ---------------------------------------------------------------- relationship sub-factors

  /** Membership in `a`'s network, as a function value. */
  function InNetwork(a: Agent): Id -> bool {
    k => k in a.network
  }

  /**
   * `GetEstrangement`: the fraction of descendant entries that are in the
   * network, 0 with no descendants.
   */
  function Estrangement(a: Agent): (r: real)
    ensures 0.0 <= r <= 1.0
    ensures |a.kinship| == 0 ==> r == 0.0
    ensures r == 1.0 <==> |a.kinship| > 0 && forall i :: 0 <= i < |a.kinship| ==> a.kinship[i] in a.network
    ensures r == 0.0 <==> forall i :: 0 <= i < |a.kinship| ==> a.kinship[i] !in a.network
  {
    if |a.kinship| == 0 then 0.0
    else
      var connected := |Filter(a.kinship, InNetwork(a))|;
      FilterKeepsAll(a.kinship, InNetwork(a));
      FilterKeepsNone(a.kinship, InNetwork(a));
      RatioUnit(connected as real, |a.kinship| as real);
      connected as real / |a.kinship| as real
  }

  /** The tie strength towards `k`, as a function value. */
  function StrengthOf(a: Agent): Id -> real {
    (k: Id) => Esteem(a, k)
  }

  /** `GetProSocialEsteem`: the mean tie strength, 0 for an empty network. */
  function ProSocialEsteem(a: Agent): real {
    if |a.network| == 0 then 0.0
    else Mean(Values(SetToSeq(a.network.Keys), StrengthOf(a)))
  }

  /**
   * With strengths in [0,1] the esteem lies in [0,1], and it is 1 exactly
   * when the network is non-empty and every tie has full strength.
   */
  lemma ProSocialEsteemRange(a: Agent)
    requires UnitStrengths(a)
    ensures 0.0 <= ProSocialEsteem(a) <= 1.0
    ensures |a.network| == 0 ==> ProSocialEsteem(a) == 0.0
    ensures ProSocialEsteem(a) == 1.0 <==> |a.network| > 0 && forall k :: k in a.network ==> a.network[k] == 1.0
  {
    var f := StrengthOf(a);
    var s := a.network.Keys;
    forall k | k in s ensures f(k) == a.network[k] {
    }
    MeanOfValues(s, f);
    if |a.network| > 0 {
      assert s != {};
      assert ProSocialEsteem(a) == Mean(Values(SetToSeq(s), f));
    }
  }

  // ---------------------------------------------------------------- heroism rank

  /** The heroism counts of the agents in `ids`, in that order. */
  function Heroisms(reg: Registry, ids: seq<Id>): (h: seq<int>)
    ensures |h| == |ids|
  {
    if ids == [] then []
    else [if ids[0] in reg then reg[ids[0]].heroism else 0] + Heroisms(reg, ids[1..])
  }

  /** Registered with a heroism count strictly below `x`. */
  function HeroismBelow(reg: Registry, x: int): Id -> bool {
    k => k in reg && reg[k].heroism < x
  }

  /** Counting low heroism counts along `ids` is filtering `ids` by low heroism. */
  lemma {:induction false} CountLessHeroisms(reg: Registry, ids: seq<Id>, x: int)
    requires forall i :: 0 <= i < |ids| ==> ids[i] in reg
    ensures CountLess(Heroisms(reg, ids), x) == |Filter(ids, HeroismBelow(reg, x))|
  {
    if ids != [] {
      CountLessHeroisms(reg, ids[1..], x);
      assert Heroisms(reg, ids)[1..] == Heroisms(reg, ids[1..]);
    }
  }

  /** The registered network entries whose heroism is strictly below `a`'s own. */
  function LowerPeers(reg: Registry, a: Agent): set<Id> {
    set k | k in RegisteredEntries(reg, a) && reg[k].heroism < a.heroism
  }

  /**
   * `GetHeroismTendency`, as written: 0 for an empty network; otherwise
   * the search index of the agent's own heroism in the sorted heroism
   * counts of its registered entries, over their number. With a non-empty
   * network and no registered entry that is 0/0, i.e. NaN (`None`).
   */
  function HeroismTendency(reg: Registry, a: Agent): (r: Option<real>)
    ensures |a.network| == 0 ==> r == Some(0.0)
    ensures r.None? <==> |a.network| > 0 && RegisteredEntries(reg, a) == {}
  {
    if |a.network| == 0 then Some(0.0)
    else
      var scores := Sort(Heroisms(reg, SetToSeq(RegisteredEntries(reg, a))));
      if |scores| == 0 then None
      else Some(SearchInts(scores, a.heroism) as real / |scores| as real)
  }

  /** A registered entry makes the network non-empty. */
  lemma EntriesInNetwork(reg: Registry, a: Agent)
    ensures RegisteredEntries(reg, a) != {} ==> |a.network| > 0
  {
    if RegisteredEntries(reg, a) != {} {
      var k :| k in RegisteredEntries(reg, a);
      assert k in a.network.Keys;
    }
  }

  /** Every enumerated registered entry is registered. */
  lemma EntriesRegistered(reg: Registry, a: Agent)
    ensures forall i :: 0 <= i < |SetToSeq(RegisteredEntries(reg, a))| ==>
      SetToSeq(RegisteredEntries(reg, a))[i] in reg
  {
    var ids := SetToSeq(RegisteredEntries(reg, a));
    forall i | 0 <= i < |ids| ensures ids[i] in reg {
      assert ids[i] in RegisteredEntries(reg, a);
    }
  }

  /** Filtering the enumerated entries by low heroism counts the lower peers. */
  lemma LowerPeersCounted(reg: Registry, a: Agent)
    ensures |Filter(SetToSeq(RegisteredEntries(reg, a)), HeroismBelow(reg, a.heroism))| == |LowerPeers(reg, a)|
    ensures |LowerPeers(reg, a)| <= |RegisteredEntries(reg, a)|
  {
    CountOfSetToSeq(RegisteredEntries(reg, a), HeroismBelow(reg, a.heroism));
    LowerPeersAreFiltered(reg, a);
    SubsetCardinality(LowerPeers(reg, a), RegisteredEntries(reg, a));
  }

  /** The lower peers are the registered entries that pass the low-heroism test. */
  lemma LowerPeersAreFiltered(reg: Registry, a: Agent)
    ensures (set x | x in RegisteredEntries(reg, a) && HeroismBelow(reg, a.heroism)(x)) == LowerPeers(reg, a)
  {
    var filtered := set x | x in RegisteredEntries(reg, a) && HeroismBelow(reg, a.heroism)(x);
    forall x ensures x in filtered <==> x in LowerPeers(reg, a) {
    }
  }

  /**
   * The search index of the agent's own heroism in its sorted peer counts
   * is the number of registered entries with strictly lower heroism.
   */
  lemma SearchIndexCountsLowerPeers(reg: Registry, a: Agent)
    ensures SearchInts(Sort(Heroisms(reg, SetToSeq(RegisteredEntries(reg, a)))), a.heroism) == |LowerPeers(reg, a)|
    ensures |LowerPeers(reg, a)| <= |RegisteredEntries(reg, a)|
  {
    var ids := SetToSeq(RegisteredEntries(reg, a));
    SearchCountsBelow(Heroisms(reg, ids), a.heroism);
    EntriesRegistered(reg, a);
    CountLessHeroisms(reg, ids, a.heroism);
    LowerPeersCounted(reg, a);
  }

  /**
   * Whenever some entry is registered, the tendency is the fraction of
   * registered entries with strictly lower heroism; it lies in [0,1].
   */
  lemma HeroismTendencyIsRank(reg: Registry, a: Agent)
    requires RegisteredEntries(reg, a) != {}
    ensures HeroismTendency(reg, a) ==
      Some(|LowerPeers(reg, a)| as real / |RegisteredEntries(reg, a)| as real)
    ensures 0.0 <= HeroismTendency(reg, a).value <= 1.0
  {
    EntriesInNetwork(reg, a);
    SearchIndexCountsLowerPeers(reg, a);
    RatioUnit(|LowerPeers(reg, a)| as real, |RegisteredEntries(reg, a)| as real);
  }

  lemma SubsetCardinality(a: set<Id>, b: set<Id>)
    requires a <= b
    ensures |a| <= |b|
  {
    assert b == a + (b - a);
  }

  /**
   * The heroism rank as evidently intended: 0 when there is no registered
   * entry to compare with (the source's "no neighbours, no tendency"),
   * otherwise the source's value.
   */
  function HeroismRank(reg: Registry, a: Agent): (r: real)
    ensures 0.0 <= r <= 1.0
    ensures RegisteredEntries(reg, a) == {} ==> r == 0.0
    ensures RegisteredEntries(reg, a) != {} ==>
      r == |LowerPeers(reg, a)| as real / |RegisteredEntries(reg, a)| as real
    ensures HeroismTendency(reg, a).Some? ==> r == HeroismTendency(reg, a).value
  {
    if RegisteredEntries(reg, a) == {} then 0.0
    else
      HeroismTendencyIsRank(reg, a);
      HeroismTendency(reg, a).value
  }

  // ---------------------------------------------------------------- the three scores

  /** The squared distances from `p` to each of `mems`, summed. */
  function SqDistSum(p: Position, mems: seq<Position>): nat {
    if mems == [] then 0 else SqDist(p, mems[0]) + SqDistSum(p, mems[1..])
  }

  /** A sum of squared distances is 0 exactly when every point sits on `p`. */
  lemma {:induction false} SqDistSumZero(p: Position, mems: seq<Position>)
    ensures SqDistSum(p, mems) == 0 <==> forall i :: 0 <= i < |mems| ==> mems[i] == p
  {
    if mems != [] {
      SqDistSumZero(p, mems[1..]);
      assert forall i :: 1 <= i < |mems| ==> mems[i] == mems[1..][i - 1];
    }
  }

  /** For each agent of `ids` in turn, its summed distances to the memorials. */
  function MatesSum(reg: Registry, ids: seq<Id>, mems: seq<Position>): nat
    requires forall i :: 0 <= i < |ids| ==> ids[i] in reg
  {
    if ids == [] then 0 else SqDistSum(reg[ids[0]].position, mems) + MatesSum(reg, ids[1..], mems)
  }

  /** The sum over the agents is 0 exactly when each agent's own sum is. */
  lemma {:induction false} MatesSumZero(reg: Registry, ids: seq<Id>, mems: seq<Position>)
    requires forall i :: 0 <= i < |ids| ==> ids[i] in reg
    ensures MatesSum(reg, ids, mems) == 0 <==> forall i :: 0 <= i < |ids| ==> SqDistSum(reg[ids[i]].position, mems) == 0
  {
    if ids != [] {
      MatesSumZero(reg, ids[1..], mems);
      assert forall i :: 1 <= i < |ids| ==> ids[i] == ids[1..][i - 1];
    }
  }

  /** The cluster-mates, enumerated in map order, are all registered. */
  lemma MatesRegistered(reg: Registry, a: Agent)
    ensures forall i :: 0 <= i < |SetToSeq(ClusterMates(reg, a))| ==> SetToSeq(ClusterMates(reg, a))[i] in reg
  {
    var ids := SetToSeq(ClusterMates(reg, a));
    forall i | 0 <= i < |ids| ensures ids[i] in reg {
      assert ids[i] in ClusterMates(reg, a);
    }
  }

  /**
   * The denominator of `GetMemorialProximity`: the agent's distances to
   * every memorial plus, for each cluster-mate, its distances to every
   * memorial. Squared distances stand in for distances; a distance and its
   * square are 0 together, and only whether the denominator is 0 matters.
   */
  function ProximityDenominator(reg: Registry, a: Agent, grid: Grid): nat {
    MatesRegistered(reg, a);
    SqDistSum(a.position, grid.Memorials()) + MatesSum(reg, SetToSeq(ClusterMates(reg, a)), grid.Memorials())
  }

  /** Every memorial lies on the agent's own cell. */
  predicate MemorialsHere(a: Agent, grid: Grid) {
    forall i :: 0 <= i < |grid.Memorials()| ==> grid.Memorials()[i] == a.position
  }

  /** Every memorial and every cluster-mate lies on the agent's own cell. */
  predicate AllOnOwnCell(reg: Registry, a: Agent, grid: Grid) {
    && MemorialsHere(a, grid)
    && forall k :: k in ClusterMates(reg, a) ==> reg[k].position == a.position
  }

  /** With some memorial, the denominator is 0 exactly when the memorials and the cluster-mates all lie on the agent's cell. */
  lemma DenominatorZero(reg: Registry, a: Agent, grid: Grid)
    requires |grid.Memorials()| > 0
    ensures ProximityDenominator(reg, a, grid) == 0 <==> AllOnOwnCell(reg, a, grid)
  {
    var mems := grid.Memorials();
    var ids := SetToSeq(ClusterMates(reg, a));
    MatesRegistered(reg, a);
    SqDistSumZero(a.position, mems);
    MatesSumZero(reg, ids, mems);
    forall i | 0 <= i < |ids| ensures SqDistSum(reg[ids[i]].position, mems) == 0 <==> reg[ids[i]].position == mems[0] && forall j :: 0 <= j < |mems| ==> mems[j] == mems[0] {
      SqDistSumZero(reg[ids[i]].position, mems);
    }
    if AllOnOwnCell(reg, a, grid) {
      forall i | 0 <= i < |ids| ensures SqDistSum(reg[ids[i]].position, mems) == 0 {
        assert ids[i] in ClusterMates(reg, a);
      }
    }
    if ProximityDenominator(reg, a, grid) == 0 {
      forall k | k in ClusterMates(reg, a) ensures reg[k].position == a.position {
        var i :| 0 <= i < |ids| && ids[i] == k;
        assert SqDistSum(reg[ids[i]].position, mems) == 0;
      }
    }
  }

  /**
   * `GetMemorialProximity`: 0 with no memorial. Otherwise the agent's summed
   * distance to the memorials over the denominator, which is 0/0, i.e. NaN
   * (`None`), exactly when the denominator is 0, and 0 when only the
   * numerator is. In every other case the ratio of summed Euclidean
   * distances is the input `ratio`.
   */
  function MemorialProximity(reg: Registry, a: Agent, grid: Grid, ratio: real): (r: Option<real>)
    ensures |grid.Memorials()| == 0 ==> r == Some(0.0)
    ensures r.None? <==> |grid.Memorials()| > 0 && ProximityDenominator(reg, a, grid) == 0
    ensures |grid.Memorials()| > 0 && SqDistSum(a.position, grid.Memorials()) == 0 && ProximityDenominator(reg, a, grid) > 0 ==>
      r == Some(0.0)
    ensures r.Some? && 0.0 <= ratio ==> 0.0 <= r.value
    ensures r.Some? && ratio <= 1.0 ==> r.value <= 1.0
  {
    if |grid.Memorials()| == 0 then Some(0.0)
    else
      DenominatorZero(reg, a, grid);
      SqDistSumZero(a.position, grid.Memorials());
      if !MemorialsHere(a, grid) then Some(ratio)
      else if AllOnOwnCell(reg, a, grid) then None
      else Some(0.0)
  }

  /**
   * `ComputeMortalitySalience`: W1·cluster exposure + W2·network exposure
   * + W3·relative age + W4·memorial proximity; NaN when the proximity is.
   */
  function MortalitySalience(reg: Registry, a: Agent, grid: Grid, ratio: real): (r: Option<real>)
    ensures r.None? <==> MemorialProximity(reg, a, grid, ratio).None?
    ensures r.Some? && 0.0 <= ratio ==> W1 * a.observedCluster as real + W2 * a.observedNetwork as real <= r.value
    ensures r.Some? && |grid.Memorials()| == 0 ==>
      r.value <= W1 * a.observedCluster as real + W2 * a.observedNetwork as real + W3
    ensures r.Some? && ratio <= 1.0 ==>
      r.value <= W1 * a.observedCluster as real + W2 * a.observedNetwork as real + W3 + W4
  {
    match MemorialProximity(reg, a, grid, ratio)
    case None => None
    case Some(mp) =>
      Some(W1 * a.observedCluster as real + W2 * a.observedNetwork as real + W3 * RelativeAge(reg, a) + W4 * mp)
  }

  /**
   * `ComputeWorldviewValidation`: W5·CPR + W6·NPR + W7·ysterofimia, where
   * the ysterofimia score `yst` comes from code that is not part of this
   * model. With `yst` in [0,1] the score is in [0,1], and it is 1 exactly
   * when all three parts are.
   */
  function WorldviewValidation(reg: Registry, a: Agent, yst: real): (r: real)
    ensures 0.0 <= yst <= 1.0 ==> 0.0 <= r <= 1.0
    ensures 0.0 <= yst <= 1.0 ==> (r == 1.0 <==> CPR(reg, a) == 1.0 && NPR(reg, a) == 1.0 && yst == 1.0)
  {
    W5 * CPR(reg, a) + W6 * NPR(reg, a) + W7 * yst
  }

  /** `ComputeRelationshipValidation`, as written: NaN whenever the heroism tendency is. */
  function RelationshipValidation(reg: Registry, a: Agent): (r: Option<real>)
    ensures r.None? <==> HeroismTendency(reg, a).None?
  {
    match HeroismTendency(reg, a)
    case None => None
    case Some(h) => Some(W8 * Estrangement(a) + W9 * ProSocialEsteem(a) + W10 * h)
  }

  /** `ComputeRelationshipValidation` with the intended heroism rank; in [0,1] when strengths are. */
  function RelationshipValidationIntended(reg: Registry, a: Agent): (r: real)
    ensures UnitStrengths(a) ==> 0.0 <= r <= 1.0
  {
    ProSocialEsteemRangeIf(a);
    W8 * Estrangement(a) + W9 * ProSocialEsteem(a) + W10 * HeroismRank(reg, a)
  }

  /**
   * The NaN case, concretely: a network whose single entry names an agent
   * no longer registered gives a NaN tendency and relationship score, where
   * the intended rank is 0.
   */
  lemma HeroismNaNWitness(reg: Registry, a: Agent, k: Id)
    requires a.network == map[k := 0.5] && k !in reg
    ensures HeroismTendency(reg, a) == None
    ensures RelationshipValidation(reg, a) == None
    ensures HeroismRank(reg, a) == 0.0
  {
  }

  /** Wherever the source's relationship score is a number, the intended one equals it. */
  lemma IntendedRelationshipAgrees(reg: Registry, a: Agent)
    ensures RelationshipValidation(reg, a).Some? ==>
      RelationshipValidationIntended(reg, a) == RelationshipValidation(reg, a).value
  {
    if HeroismTendency(reg, a).Some? {
      assert HeroismRank(reg, a) == HeroismTendency(reg, a).value;
    }
  }

  lemma ProSocialEsteemRangeIf(a: Agent)
    ensures UnitStrengths(a) ==> 0.0 <= ProSocialEsteem(a) <= 1.0
  {
    if UnitStrengths(a) {
      ProSocialEsteemRange(a);
    }
  }

  // ---------------------------------------------------------------- the vote

  /** A score votes "yes" when it is strictly above the threshold; NaN never is. */
  predicate Above(score: Option<real>, tau: real) {
    score.Some? && score.value > tau
  }

  /** One score's vote. */
  function Vote(score: Option<real>, tau: real): int {
    if Above(score, tau) then 1 else -1
  }

  /** The loop over the scores: the sum of their votes. */
  function VoteSum(scores: seq<Option<real>>, tau: real): int {
    if scores == [] then 0 else Vote(scores[0], tau) + VoteSum(scores[1..], tau)
  }

  lemma VoteSumOfThree(x: Option<real>, y: Option<real>, z: Option<real>, tau: real)
    ensures VoteSum([x, y, z], tau) == Vote(x, tau) + Vote(y, tau) + Vote(z, tau)
  {
    assert [z][1..] == [];
    assert VoteSum([z], tau) == Vote(z, tau);
    assert [y, z][1..] == [z];
    assert VoteSum([y, z], tau) == Vote(y, tau) + Vote(z, tau);
    assert [x, y, z][1..] == [y, z];
  }

  /**
   * `GetASPDecision`'s vote, for any threshold: the sign of the vote sum.
   * Three votes of ±1 never sum to 0, so `Inaction` is never returned, and
   * the outcome is self-sacrifice exactly when at least two scores are above.
   */
  function Decide(ms: Option<real>, wv: Option<real>, rv: Option<real>, tau: real): (d: Decision)
    ensures d != Inaction
    ensures d == SelfSacrifice <==>
      (Above(ms, tau) && Above(wv, tau)) || (Above(ms, tau) && Above(rv, tau)) || (Above(wv, tau) && Above(rv, tau))
  {
    var sum := VoteSum([ms, wv, rv], tau);
    VoteSumOfThree(ms, wv, rv, tau);
    if sum > 0 then SelfSacrifice
    else if sum < 0 then NotSelfSacrifice
    else Inaction
  }

  /** The fixed threshold of `GetASPDecision`. */
  const AspThreshold: real := 0.75

  /** `GetASPDecision`: the vote over the three scores at threshold 0.75. */
  function AspDecision(reg: Registry, a: Agent, grid: Grid, ratio: real, yst: real): (d: Decision)
    ensures d != Inaction
    ensures d == SelfSacrifice <==>
      var ms, wv, rv := MortalitySalience(reg, a, grid, ratio), WorldviewValidation(reg, a, yst), RelationshipValidation(reg, a);
      (Above(ms, 0.75) && wv > 0.75) || (Above(ms, 0.75) && Above(rv, 0.75)) || (wv > 0.75 && Above(rv, 0.75))
  {
    Decide(MortalitySalience(reg, a, grid, ratio), Some(WorldviewValidation(reg, a, yst)),
      RelationshipValidation(reg, a), AspThreshold)
  }

  /**
   * The NaN relationship score changes no decision: with tie strengths in
   * [0,1] and no registered entry, the intended score is at most
   * W8 + W9 = 0.5, which also votes "no" at 0.75.
   */
  lemma NaNRelationshipHarmless(reg: Registry, a: Agent, grid: Grid, ratio: real, yst: real)
    requires UnitStrengths(a)
    ensures AspDecision(reg, a, grid, ratio, yst) ==
      Decide(MortalitySalience(reg, a, grid, ratio), Some(WorldviewValidation(reg, a, yst)),
        Some(RelationshipValidationIntended(reg, a)), AspThreshold)
  {
    if RelationshipValidation(reg, a).None? {
      IntendedRelationshipWithoutPeers(reg, a);
    } else {
      IntendedRelationshipAgrees(reg, a);
    }
  }

  /** With no registered entry the intended relationship score is at most W8 + W9 = 0.5. */
  lemma IntendedRelationshipWithoutPeers(reg: Registry, a: Agent)
    requires UnitStrengths(a) && RegisteredEntries(reg, a) == {}
    ensures RelationshipValidationIntended(reg, a) <= 0.5
  {
    ProSocialEsteemRange(a);
    assert HeroismRank(reg, a) == 0.0;
  }

  /**
   * Exposure alone settles the mortality vote unless the score is NaN: four
   * or more observed eliminations push mortality salience above 0.75, and
   * with none observed and no memorial it stays at or below W3 = 0.25.
   */
  lemma ExposureSettlesMortalityVote(reg: Registry, a: Agent, grid: Grid, ratio: real)
    ensures 0.0 <= ratio && a.observedCluster + a.observedNetwork >= 4 && (|grid.Memorials()| == 0 || !AllOnOwnCell(reg, a, grid)) ==>
      Above(MortalitySalience(reg, a, grid, ratio), AspThreshold)
    ensures a.observedCluster == 0 && a.observedNetwork == 0 && |grid.Memorials()| == 0 ==>
      MortalitySalience(reg, a, grid, ratio) == Some(W3 * RelativeAge(reg, a)) && W3 * RelativeAge(reg, a) <= 0.25
  {
    if |grid.Memorials()| > 0 {
      DenominatorZero(reg, a, grid);
    }
    if 0.0 <= ratio && a.observedCluster + a.observedNetwork >= 4 && (|grid.Memorials()| == 0 || !AllOnOwnCell(reg, a, grid)) {
      assert W1 * a.observedCluster as real + W2 * a.observedNetwork as real
        == 0.25 * (a.observedCluster + a.observedNetwork) as real;
      ExposureAboveThreshold(reg, a, grid, ratio);
    }
  }

  /** Four observed eliminations weigh at least 1, above the threshold, whatever the other defined parts. */
  lemma ExposureAboveThreshold(reg: Registry, a: Agent, grid: Grid, ratio: real)
    requires 0.0 <= ratio && a.observedCluster + a.observedNetwork >= 4
    requires MortalitySalience(reg, a, grid, ratio).Some?
    ensures MortalitySalience(reg, a, grid, ratio).value > 0.75
  {
    assert W1 * a.observedCluster as real + W2 * a.observedNetwork as real >= 1.0;
    assert 0.0 <= RelativeAge(reg, a);
  }

  /**
   * When every memorial and every cluster-mate sits on the agent's own cell
   * (as for a lone agent on its own tombstone) mortality salience is NaN:
   * it votes "no" however much the agent has seen die, and the agent
   * sacrifices itself only if both other scores exceed the threshold.
   */
  lemma NaNMortalityVotesNo(reg: Registry, a: Agent, grid: Grid, ratio: real, yst: real)
    requires |grid.Memorials()| > 0 && AllOnOwnCell(reg, a, grid)
    ensures MortalitySalience(reg, a, grid, ratio).None?
    ensures Vote(MortalitySalience(reg, a, grid, ratio), AspThreshold) == -1
    ensures AspDecision(reg, a, grid, ratio, yst) == SelfSacrifice <==>
      WorldviewValidation(reg, a, yst) > 0.75 && Above(RelationshipValidation(reg, a), 0.75)
  {
    DenominatorZero(reg, a, grid);
  }

  /** A lone agent of its cluster standing on its own tombstone has NaN mortality salience. */
  lemma LoneAgentOnTombstone(a: Agent, ratio: real)
    ensures MortalitySalience(map[a.id := a], a, Grid(1, 1, [a.position], []), ratio).None?
  {
    var reg, grid := map[a.id := a], Grid(1, 1, [a.position], []);
    assert ClusterMates(reg, a) == {};
    assert grid.Memorials() == [a.position];
    DenominatorZero(reg, a, grid);
  }
}
