/** calculatePriorityScore and recommendedActionTimeframe. Scores are exact
    reals; the current instant `now` is a parameter, counted in days (with
    fraction) since 0000-01-01T00:00:00Z, the midnight from which day numbers
    count. */
module Scoring {
  import opened Calendar
  import opened Vulnerabilities

  /** The weights map: severity labels, source bonuses and the fix bonus. */
  type Weights = map<string, real>

  /** weights[key]: a Go map yields 0 for a key it does not hold. */
  function Weight(weights: Weights, key: string): real {
    if key in weights then weights[key] else 0.0
  }

  /** The weights main builds from its flags when none is given. */
  const DefaultWeights: Weights := map[
    "Critical" := 2.0, "High" := 1.5, "Medium" := 1.2, "Low" := 1.0,
    "AWS" := 1.0, "GitHub" := 0.5, "FixBonus" := 1.0]

  /** The raw score of the worst case under the default weights:
      10 * 2.0 + 3 + 1. */
  const TheoreticalMax: real := 24.0

  /** v.DueDate.Sub(now).Hours() / 24. */
  function DaysLeft(due: CalendarDate, now: real): real {
    DayNumber(due) as real - now
  }

  /** The severity's weight, or 1.0 when the map holds none (or a zero). */
  function SeverityWeight(weights: Weights, severity: string): (w: real)
    ensures w != 0.0
    ensures Weight(weights, severity) != 0.0 ==> w == Weight(weights, severity)
    ensures Weight(weights, severity) == 0.0 ==> w == 1.0
  {
    var w := Weight(weights, severity);
    if w == 0.0 then 1.0 else w
  }

  /** 3 within a week of the due date (or past it), 2 within a month, else 1. */
  function TimeComponent(daysLeft: real): (t: real)
    ensures 1.0 <= t <= 3.0
  {
    if daysLeft <= 7.0 then 3.0
    else if daysLeft <= 30.0 then 2.0
    else 1.0
  }

  /** The bonus for the two named sources; any other source earns none. */
  function SourceComponent(weights: Weights, source: string): real {
    if source == "AWS" then Weight(weights, "AWS")
    else if source == "GitHub" then Weight(weights, "GitHub")
    else 0.0
  }

  /** The penalty when a fixed version is known. */
  function FixComponent(weights: Weights, fixedVersion: string): real {
    if fixedVersion != "" then Weight(weights, "FixBonus") else 0.0
  }

  /** The raw score of a finding with `daysLeft` days to its due date. */
  function RawScore(v: Vulnerability, weights: Weights, daysLeft: real): real {
    v.cvss * SeverityWeight(weights, v.severity)
    + TimeComponent(daysLeft)
    + SourceComponent(weights, v.source)
    - FixComponent(weights, v.fixedVersion)
  }

  /** calculatePriorityScore: the raw score at the instant `now`, scaled so
      that the theoretical maximum maps to 10. */
  function PriorityScore(v: Vulnerability, weights: Weights, now: real): real {
    RawScore(v, weights, DaysLeft(v.dueDate, now)) / TheoreticalMax * 10.0
  }

  /** recommendedActionTimeframe on the number of days left. */
  function Timeframe(daysLeft: real): string {
    if daysLeft <= 7.0 then "Immediate"
    else if daysLeft <= 30.0 then "Urgent"
    else "Scheduled"
  }

  /** recommendedActionTimeframe(v) at the instant `now`. */
  function RecommendedActionTimeframe(v: Vulnerability, now: real): string {
    Timeframe(DaysLeft(v.dueDate, now))
  }

  // ---------------------------------------------------------------------------
  // Properties of the timeframe
  // ---------------------------------------------------------------------------

  /** The three timeframes partition the time line at 7 and 30 days. */
  lemma TimeframeBuckets(daysLeft: real)
    ensures Timeframe(daysLeft) == "Immediate" <==> daysLeft <= 7.0
    ensures Timeframe(daysLeft) == "Urgent" <==> 7.0 < daysLeft <= 30.0
    ensures Timeframe(daysLeft) == "Scheduled" <==> 30.0 < daysLeft
  {
  }

  /** The timeframe label and the score's time component always agree. */
  lemma TimeframeMatchesTimeComponent(daysLeft: real)
    ensures Timeframe(daysLeft) == "Immediate" <==> TimeComponent(daysLeft) == 3.0
    ensures Timeframe(daysLeft) == "Urgent" <==> TimeComponent(daysLeft) == 2.0
    ensures Timeframe(daysLeft) == "Scheduled" <==> TimeComponent(daysLeft) == 1.0
  {
  }

  /** A due date 3, 10 or 40 days ahead gets "Immediate", "Urgent" and
      "Scheduled" respectively. */
  lemma TimeframeExamples()
    ensures Timeframe(3.0) == "Immediate"
    ensures Timeframe(10.0) == "Urgent"
    ensures Timeframe(40.0) == "Scheduled"
  {
  }

  // ---------------------------------------------------------------------------
  // Properties of the score
  // ---------------------------------------------------------------------------

  /** A CVSS 9.0 Critical AWS finding without a fix, due in 5 days, scores
      22 / 24 * 10 under the default weights. */
  lemma ScoreExample(v: Vulnerability, now: real)
    requires v.cvss == 9.0 && v.severity == "Critical" && v.source == "AWS" && v.fixedVersion == ""
    requires DaysLeft(v.dueDate, now) == 5.0
    ensures PriorityScore(v, DefaultWeights, now) == 55.0 / 6.0
  {
    assert SeverityWeight(DefaultWeights, "Critical") == 2.0;
    assert SourceComponent(DefaultWeights, "AWS") == 1.0;
  }

  /** Weights no larger than the defaults where it matters: every weight
      in [0, 2], and each source bonus and the fix bonus at most 1. */
  ghost predicate WithinDefaultBounds(weights: Weights) {
    && (forall key :: 0.0 <= Weight(weights, key) <= 2.0)
    && Weight(weights, "AWS") <= 1.0 && Weight(weights, "GitHub") <= 1.0 && Weight(weights, "FixBonus") <= 1.0
  }

  lemma DefaultWeightsWithinBounds()
    ensures WithinDefaultBounds(DefaultWeights)
  {
    forall key
      ensures 0.0 <= Weight(DefaultWeights, key) <= 2.0
    {
    }
    assert Weight(DefaultWeights, "AWS") == 1.0;
    assert Weight(DefaultWeights, "GitHub") == 0.5;
    assert Weight(DefaultWeights, "FixBonus") == 1.0;
  }

  /** With weights within those bounds a CVSS score in [0, 10] gives a
      priority score in [0, 10]: TheoreticalMax is the largest raw score, and
      the fix bonus never outweighs the smallest time component. */
  lemma ScoreInRange(v: Vulnerability, weights: Weights, now: real)
    requires WithinDefaultBounds(weights) && 0.0 <= v.cvss <= 10.0
    ensures 0.0 <= PriorityScore(v, weights, now) <= 10.0
  {
    RawInRange(v, weights, DaysLeft(v.dueDate, now));
  }

  /** The raw score lies between 0 and TheoreticalMax. */
  lemma RawInRange(v: Vulnerability, weights: Weights, daysLeft: real)
    requires WithinDefaultBounds(weights) && 0.0 <= v.cvss <= 10.0
    ensures 0.0 <= RawScore(v, weights, daysLeft) <= TheoreticalMax
  {
    var sw := SeverityWeight(weights, v.severity);
    var source := SourceComponent(weights, v.source);
    var fix := FixComponent(weights, v.fixedVersion);
    assert 0.0 < sw <= 2.0 by {
      assert 0.0 <= Weight(weights, v.severity);
    }
    assert 0.0 <= source <= 1.0 by {
      assert 0.0 <= Weight(weights, "AWS") && 0.0 <= Weight(weights, "GitHub");
    }
    assert 0.0 <= fix <= 1.0 by {
      assert 0.0 <= Weight(weights, "FixBonus");
    }
    ProductBound(v.cvss, sw);
    SumInRange(v.cvss * sw, TimeComponent(daysLeft), source, fix);
  }

  lemma SumInRange(product: real, time: real, source: real, fix: real)
    requires 0.0 <= product <= 20.0 && 1.0 <= time <= 3.0
    requires 0.0 <= source <= 1.0 && 0.0 <= fix <= 1.0
    ensures 0.0 <= product + time + source - fix <= TheoreticalMax
  {
  }

  /** In particular under the default weights. */
  lemma DefaultScoreInRange(v: Vulnerability, now: real)
    requires 0.0 <= v.cvss <= 10.0
    ensures 0.0 <= PriorityScore(v, DefaultWeights, now) <= 10.0
  {
    DefaultWeightsWithinBounds();
    ScoreInRange(v, DefaultWeights, now);
  }

  lemma ProductBound(a: real, b: real)
    requires 0.0 <= a <= 10.0 && 0.0 < b <= 2.0
    ensures 0.0 <= a * b <= 20.0
  {
    assert a * b <= 10.0 * b;
  }

  /** The bound depends on the default weights: raising the Critical weight
      to 3 gives a CVSS 10 Critical AWS finding due within a week a score
      above 10. */
  lemma ScoreAboveTenWithHeavierWeight(v: Vulnerability, now: real)
    requires v.cvss == 10.0 && v.severity == "Critical" && v.source == "AWS" && v.fixedVersion == ""
    requires DaysLeft(v.dueDate, now) <= 7.0
    ensures PriorityScore(v, DefaultWeights["Critical" := 3.0], now) > 10.0
  {
    var w := DefaultWeights["Critical" := 3.0];
    assert SeverityWeight(w, "Critical") == 3.0;
    assert SourceComponent(w, "AWS") == 1.0;
  }

  /** Knowing a fixed version lowers the score by exactly the fix bonus,
      scaled like the raw score. */
  lemma FixLowersScore(v: Vulnerability, weights: Weights, now: real)
    requires v.fixedVersion != ""
    ensures PriorityScore(v.(fixedVersion := ""), weights, now) - PriorityScore(v, weights, now)
            == Weight(weights, "FixBonus") / TheoreticalMax * 10.0
  {
  }

  /** The source bonus is the configured weight for exactly "AWS" and
      "GitHub": moving such a finding to any other source lowers its score
      by that weight, scaled like the raw score, and findings from any two
      other sources score alike. */
  lemma SourceBonus(v: Vulnerability, weights: Weights, now: real, other: string)
    requires other != "AWS" && other != "GitHub"
    ensures (v.source == "AWS" || v.source == "GitHub") ==>
              PriorityScore(v, weights, now) - PriorityScore(v.(source := other), weights, now)
              == Weight(weights, v.source) / TheoreticalMax * 10.0
    ensures v.source != "AWS" && v.source != "GitHub" ==>
              PriorityScore(v, weights, now) == PriorityScore(v.(source := other), weights, now)
  {
    var u := v.(source := other);
    assert u.dueDate == v.dueDate;
    RawSourceBonus(v, weights, DaysLeft(v.dueDate, now), other);
  }

  lemma RawSourceBonus(v: Vulnerability, weights: Weights, daysLeft: real, other: string)
    requires other != "AWS" && other != "GitHub"
    ensures RawScore(v, weights, daysLeft) - RawScore(v.(source := other), weights, daysLeft)
            == SourceComponent(weights, v.source)
    ensures (v.source == "AWS" || v.source == "GitHub") ==> SourceComponent(weights, v.source) == Weight(weights, v.source)
    ensures v.source != "AWS" && v.source != "GitHub" ==> SourceComponent(weights, v.source) == 0.0
  {
    var u := v.(source := other);
    assert SourceComponent(weights, u.source) == 0.0;
  }

  /** Nothing checks the CVSS range: under the default weights a CVSS of 15
      on a Critical finding without a fix scores above 10. */
  lemma LargeCVSSScoresAboveTen(v: Vulnerability, now: real)
    requires v.cvss == 15.0 && v.severity == "Critical" && v.fixedVersion == ""
    ensures PriorityScore(v, DefaultWeights, now) > 10.0
  {
    assert SeverityWeight(DefaultWeights, "Critical") == 2.0;
    assert SourceComponent(DefaultWeights, v.source) >= 0.0;
  }

  /** Of two findings alike but for the due date, the one with fewer days
      left never scores lower. */
  lemma ScoreOrderedByDaysLeft(v: Vulnerability, u: Vulnerability, weights: Weights, now: real, later: real)
    requires v.cvss == u.cvss && v.severity == u.severity && v.source == u.source && v.fixedVersion == u.fixedVersion
    requires DaysLeft(v.dueDate, later) <= DaysLeft(u.dueDate, now)
    ensures PriorityScore(v, weights, later) >= PriorityScore(u, weights, now)
  {
    assert TimeComponent(DaysLeft(v.dueDate, later)) >= TimeComponent(DaysLeft(u.dueDate, now));
  }

  /** As time passes the score of a finding never falls. */
  lemma ScoreRisesOverTime(v: Vulnerability, weights: Weights, earlier: real, later: real)
    requires earlier <= later
    ensures PriorityScore(v, weights, earlier) <= PriorityScore(v, weights, later)
  {
    ScoreOrderedByDaysLeft(v, v, weights, earlier, later);
  }

  /** Of two findings alike but for the due date, the one due first never
      scores lower. */
  lemma EarlierDueScoresHigher(v: Vulnerability, due: CalendarDate, weights: Weights, now: real)
    requires Before(v.dueDate, due)
    ensures PriorityScore(v, weights, now) >= PriorityScore(v.(dueDate := due), weights, now)
  {
    DayNumberOrder(v.dueDate, due);
    var u := v.(dueDate := due);
    assert u.dueDate == due;
    ScoreOrderedByDaysLeft(v, u, weights, now, now);
  }
}
