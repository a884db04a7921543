/**
 * The standalone copy of the decision vote in `tests/GetASPDecision_test.go`:
 * the same three-way vote as `GetASPDecision`, for any threshold, plus a
 * confidence accumulator that is computed and then ignored.
 */
module DecisionTest {
  import opened Common
  import opened Constants
  import opened Scoring

  /** One confidence term: `min(score/tau, 1)` for a positive threshold, 1 otherwise. */
  function ConfidenceTerm(score: real, tau: real): real {
    if tau > 0.0 then (if score / tau < 1.0 then score / tau else 1.0) else 1.0
  }

  /**
   * A term never exceeds 1, is non-negative for a non-negative score, and is
   * exactly 1 once the score reaches a positive threshold.
   */
  lemma ConfidenceTermRange(score: real, tau: real)
    ensures ConfidenceTerm(score, tau) <= 1.0
    ensures 0.0 <= score ==> 0.0 <= ConfidenceTerm(score, tau)
    ensures tau > 0.0 && score >= tau ==> ConfidenceTerm(score, tau) == 1.0
    ensures tau <= 0.0 ==> ConfidenceTerm(score, tau) == 1.0
  {
    if tau > 0.0 {
      var q := score / tau;
      assert q * tau == score;
    }
  }

  /** Sums of votes split over concatenation. */
  lemma {:induction false} VoteSumAppend(xs: seq<Option<real>>, ys: seq<Option<real>>, tau: real)
    ensures VoteSum(xs + ys, tau) == VoteSum(xs, tau) + VoteSum(ys, tau)
  {
    if xs == [] {
      assert xs + ys == ys;
    } else {
      assert (xs + ys)[1..] == xs[1..] + ys;
      VoteSumAppend(xs[1..], ys, tau);
    }
  }

  /** The scores as present values, for the vote of the agent's own decision. */
  function Present(xs: seq<real>): (r: seq<Option<real>>)
    ensures |r| == |xs|
    ensures forall i :: 0 <= i < |xs| ==> r[i] == Some(xs[i])
  {
    seq(|xs|, i requires 0 <= i < |xs| => Some(xs[i]))
  }

  /**
   * `GetASMDecision`: the loop over (ms, wv, rv) adds one confidence term and
   * one ±1 vote per score, a score equal to the threshold voting "no"; the
   * decision is the sign of the vote sum. It agrees with the agent's own vote
   * at every threshold, never returns `Inaction`, and the confidence, at most
   * 3 for non-negative scores, plays no part in the decision.
   */
  method GetAsmDecision(ms: real, wv: real, rv: real, tau: real) returns (d: Decision, confidence: real)
    ensures d == Decide(Some(ms), Some(wv), Some(rv), tau)
    ensures d != Inaction
    ensures (ms > tau && wv > tau && rv > tau) ==> d == SelfSacrifice
    ensures (ms <= tau && wv <= tau && rv <= tau) ==> d == NotSelfSacrifice
    ensures confidence <= 3.0
    ensures 0.0 <= ms && 0.0 <= wv && 0.0 <= rv ==> 0.0 <= confidence
    ensures tau <= 0.0 ==> confidence == 3.0
  {
    var scores := [ms, wv, rv];
    confidence := 0.0;
    var sum := 0;
    var i := 0;
    while i < |scores|
      invariant 0 <= i <= |scores|
      invariant sum == VoteSum(Present(scores[..i]), tau)
      invariant confidence <= i as real
      invariant (forall j :: 0 <= j < |scores| ==> 0.0 <= scores[j]) ==> 0.0 <= confidence
      invariant tau <= 0.0 ==> confidence == i as real
    {
      var score := scores[i];
      ConfidenceTermRange(score, tau);
      if tau > 0.0 {
        confidence := confidence + (if score / tau < 1.0 then score / tau else 1.0);
      } else {
        confidence := confidence + 1.0;
      }
      assert Present(scores[..i + 1]) == Present(scores[..i]) + [Some(score)];
      VoteSumAppend(Present(scores[..i]), [Some(score)], tau);
      assert VoteSum([Some(score)], tau) == Vote(Some(score), tau) by {
        assert [Some(score)][1..] == [];
      }
      if score > tau {
        sum := sum + 1;
      } else {
        sum := sum - 1;
      }
      i := i + 1;
    }
    assert scores[..3] == scores;
    assert Present(scores) == [Some(ms), Some(wv), Some(rv)];
    if sum > 0 {
      d := SelfSacrifice;
    } else if sum < 0 {
      d := NotSelfSacrifice;
    } else {
      d := Inaction;
    }
  }

  /** A score equal to the threshold counts as a "no", although its confidence term is full. */
  lemma ScoreAtThresholdVotesNo(tau: real)
    requires tau > 0.0
    ensures Vote(Some(tau), tau) == -1
    ensures ConfidenceTerm(tau, tau) == 1.0
    ensures Decide(Some(tau), Some(tau), Some(tau), tau) == NotSelfSacrifice
  {
    ConfidenceTermRange(tau, tau);
  }

  /** The three table cases: all above, all below, and a zero threshold with positive scores. */
  lemma TableCases()
    ensures Decide(Some(0.8), Some(0.9), Some(0.85), 0.5) == SelfSacrifice
    ensures Decide(Some(0.3), Some(0.2), Some(0.1), 0.5) == NotSelfSacrifice
    ensures Decide(Some(0.4), Some(0.6), Some(0.8), 0.0) == SelfSacrifice
  {
  }
}
