/** processVulnerabilities: a pool of workers scores every record and sends
    it back on a result channel, in whatever order the workers finish. The
    model keeps that freedom: each step collects the scored copy of any record
    still pending. */
module Dispatcher {
  import opened Vulnerabilities
  import opened Scoring
  import opened Permutations

  /** What a worker does to its copy of a record: fill in the score and the
      timeframe, read at the same instant `now`. */
  function Scored(v: Vulnerability, weights: Weights, now: real): Vulnerability {
    v.(priorityScore := PriorityScore(v, weights, now),
       recommendedActionTimeframe := RecommendedActionTimeframe(v, now))
  }

  /** A record with its two computed fields reset to their zero values. */
  function Unscored(v: Vulnerability): Vulnerability {
    v.(priorityScore := 0.0, recommendedActionTimeframe := "")
  }

  /** Every record scored, in input order. */
  function ScoreAll(vulns: seq<Vulnerability>, weights: Weights, now: real): (scored: seq<Vulnerability>)
    ensures |scored| == |vulns|
  {
    MapSeq(v => Scored(v, weights, now), vulns)
  }

  /** Every record with its computed fields reset, in input order. */
  function UnscoredAll(vulns: seq<Vulnerability>): (bare: seq<Vulnerability>)
    ensures |bare| == |vulns|
  {
    MapSeq(Unscored, vulns)
  }

  /** A record whose computed fields hold what the workers compute for it. */
  predicate IsScored(v: Vulnerability, weights: Weights, now: real) {
    v == Scored(v, weights, now)
  }

  /** Scoring changes nothing but the two computed fields, and the score of a
      scored record is its own: scoring it again changes nothing. */
  lemma ScoredChangesOnlyComputed(v: Vulnerability, weights: Weights, now: real)
    ensures Unscored(Scored(v, weights, now)) == Unscored(v)
    ensures IsScored(Scored(v, weights, now), weights, now)
    ensures Scored(v, weights, now).priorityScore == PriorityScore(v, weights, now)
    ensures Scored(v, weights, now).recommendedActionTimeframe == RecommendedActionTimeframe(v, now)
  {
    var s := Scored(v, weights, now);
    assert PriorityScore(s, weights, now) == PriorityScore(v, weights, now);
    assert RecommendedActionTimeframe(s, now) == RecommendedActionTimeframe(v, now);
  }

  /** processVulnerabilities. The result holds, once each, the scored copy of
      every input record, in an order the model leaves open. */
  method ProcessVulnerabilities(vulns: seq<Vulnerability>, weights: Weights, now: real) returns (processed: seq<Vulnerability>)
    ensures multiset(processed) == multiset(ScoreAll(vulns, weights, now))
    ensures |processed| == |vulns|
  {
    processed := [];
    var pending := vulns;
    while pending != []
      invariant multiset(processed) + multiset(ScoreAll(pending, weights, now)) == multiset(ScoreAll(vulns, weights, now))
      decreases |pending|
    {
      var k :| 0 <= k < |pending|;
      ScoreAllRemove(pending, k, weights, now);
      processed := processed + [Scored(pending[k], weights, now)];
      pending := pending[..k] + pending[k + 1..];
    }
    assert |multiset(processed)| == |multiset(ScoreAll(vulns, weights, now))|;
  }

  /** Taking the record at `k` out of the pending ones takes exactly its
      scored copy out of the scored multiset. */
  lemma ScoreAllRemove(pending: seq<Vulnerability>, k: nat, weights: Weights, now: real)
    requires k < |pending|
    ensures multiset(ScoreAll(pending, weights, now))
            == multiset{Scored(pending[k], weights, now)} + multiset(ScoreAll(pending[..k] + pending[k + 1..], weights, now))
  {
    MapSeqRemoveAt(v => Scored(v, weights, now), pending, k);
  }

  /** Every record ProcessVulnerabilities returns is scored. */
  lemma ScoreAllScored(vulns: seq<Vulnerability>, weights: Weights, now: real)
    ensures forall v | v in ScoreAll(vulns, weights, now) :: IsScored(v, weights, now)
  {
    var scored := ScoreAll(vulns, weights, now);
    forall v | v in scored
      ensures IsScored(v, weights, now)
    {
      var i :| 0 <= i < |scored| && scored[i] == v;
      ScoredChangesOnlyComputed(vulns[i], weights, now);
    }
  }

  /** Apart from the computed fields the scored records are the input
      records, in the same order. */
  lemma ScoreAllKeepsInput(vulns: seq<Vulnerability>, weights: Weights, now: real)
    ensures UnscoredAll(ScoreAll(vulns, weights, now)) == UnscoredAll(vulns)
  {
    var scored := ScoreAll(vulns, weights, now);
    forall i | 0 <= i < |vulns|
      ensures UnscoredAll(scored)[i] == UnscoredAll(vulns)[i]
    {
      ScoredChangesOnlyComputed(vulns[i], weights, now);
    }
  }

  /** What any run of ProcessVulnerabilities returns, whatever order the
      workers finish in: every record is scored, and once the computed fields
      are reset the result is a permutation of the input, so no record is
      lost, duplicated or otherwise altered. */
  lemma ProcessedIsScoredPermutation(vulns: seq<Vulnerability>, processed: seq<Vulnerability>, weights: Weights, now: real)
    requires multiset(processed) == multiset(ScoreAll(vulns, weights, now))
    ensures forall v | v in processed :: IsScored(v, weights, now)
    ensures multiset(UnscoredAll(processed)) == multiset(UnscoredAll(vulns))
  {
    ScoreAllScored(vulns, weights, now);
    forall v | v in processed
      ensures IsScored(v, weights, now)
    {
      assert v in multiset(ScoreAll(vulns, weights, now));
    }
    MapSeqPermutation(Unscored, processed, ScoreAll(vulns, weights, now));
    ScoreAllKeepsInput(vulns, weights, now);
  }
}
