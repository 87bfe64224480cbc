/** The answers chosen from continuation scores, how safely they were chosen, and the baseline check: metrics
    and verify_baseline in scripts/quality_eval_placement_replay.py. */
module BaselineMetrics {
  import opened Common
  import opened HttpCoverage
  import opened ContinuationGroups

  const METRIC_TOLERANCE := 0.000000000001

  /** lengths: the answer texts' lengths; recorded: the scores the harness wrote for them. */
  datatype Sample = Sample(lengths: seq<nat>, recorded: seq<real>, gold: int)

  function Offset(samples: seq<Sample>, n: nat): nat
    requires n <= |samples|
  {
    if n == 0 then 0 else Offset(samples, n - 1) + |samples[n - 1].lengths|
  }

  lemma {:induction false} OffsetGrows(samples: seq<Sample>, n: nat, m: nat)
    requires n <= m <= |samples|
    ensures Offset(samples, n) <= Offset(samples, m)
    decreases m
  {
    if n < m {
      OffsetGrows(samples, n, m - 1);
    }
  }

  /** The scores of one sample's answers. */
  function GroupAt(sums: seq<real>, samples: seq<Sample>, n: nat): seq<real>
    requires n < |samples| && Offset(samples, n) + |samples[n].lengths| <= |sums|
  {
    sums[Offset(samples, n)..Offset(samples, n) + |samples[n].lengths|]
  }

  predicate Positive(lengths: seq<nat>) { forall i :: 0 <= i < |lengths| ==> lengths[i] > 0 }

  function Normalised(scores: seq<real>, lengths: seq<nat>): seq<real>
    requires |scores| == |lengths| && Positive(lengths)
  {
    seq(|scores|, i requires 0 <= i < |scores| => scores[i] / lengths[i] as real)
  }

  // ---------------------------------------------------------------- the chosen answer and its margin

  /** The first of the largest. */
  ghost predicate IsFirstMax(scores: seq<real>, k: nat) {
    && k < |scores|
    && (forall i :: 0 <= i < |scores| ==> scores[i] <= scores[k])
    && (forall i :: 0 <= i < k ==> scores[i] < scores[k])
  }

  /** How far the answer is above the best of the others. */
  ghost predicate IsMargin(scores: seq<real>, k: nat, margin: real) {
    && k < |scores|
    && (forall i :: 0 <= i < |scores| && i != k ==> scores[k] - scores[i] >= margin)
    && (exists i :: 0 <= i < |scores| && i != k && scores[k] - scores[i] == margin)
  }

  method FirstMax(scores: seq<real>) returns (k: nat)
    requires scores != []
    ensures IsFirstMax(scores, k)
  {
    k := 0;
    for i := 1 to |scores|
      invariant k < i
      invariant forall j :: 0 <= j < i ==> scores[j] <= scores[k]
      invariant forall j :: 0 <= j < k ==> scores[j] < scores[k]
    {
      if scores[i] > scores[k] {
        k := i;
      }
    }
  }

  method Margin(scores: seq<real>, k: nat) returns (margin: real)
    requires |scores| >= 2 && k < |scores|
    ensures IsMargin(scores, k, margin)
  {
    var best: nat := if k == 0 then 1 else 0;
    for i := 0 to |scores|
      invariant best < |scores| && best != k
      invariant forall j :: 0 <= j < i && j != k ==> scores[j] <= scores[best]
    {
      if i != k && scores[i] > scores[best] {
        best := i;
      }
    }
    margin := scores[k] - scores[best];
    assert exists i :: 0 <= i < |scores| && i != k && scores[k] - scores[i] == margin by {
      assert 0 <= best < |scores| && best != k;
    }
  }

  /** Every score moved by less than d. */
  predicate MovedLessThan(d: real, scores: seq<real>, moved: seq<real>) {
    |moved| == |scores| && forall i :: 0 <= i < |scores| ==> -d < moved[i] - scores[i] < d
  }

  ghost predicate Survives(scores: seq<real>, k: nat, d: real) {
    forall moved :: MovedLessThan(d, scores, moved) ==> IsFirstMax(moved, k)
  }

  lemma SurvivesWithinMargin(scores: seq<real>, k: nat, margin: real, d: real, moved: seq<real>)
    requires IsMargin(scores, k, margin) && 2.0 * d <= margin && MovedLessThan(d, scores, moved)
    ensures IsFirstMax(moved, k)
  {
  }

  lemma FlipsBeyondMargin(scores: seq<real>, k: nat, margin: real, d: real)
    requires IsMargin(scores, k, margin) && margin < 2.0 * d && d > 0.0
    ensures !Survives(scores, k, d)
  {
    var rival :| 0 <= rival < |scores| && rival != k && scores[k] - scores[rival] == margin;
    var half := if margin < 0.0 then 0.0 else margin / 2.0;
    var step := (half + d) / 2.0;
    var moved := scores[k := scores[k] - step][rival := scores[rival] + step];
    assert moved[rival] > moved[k];
    assert MovedLessThan(d, scores, moved);
    assert !IsFirstMax(moved, k);
  }

  /** Half the margin is exactly what a change of every score must reach to flip the answer. */
  lemma HalfTheMarginIsTheThreshold(scores: seq<real>, k: nat, margin: real, d: real)
    requires IsMargin(scores, k, margin) && d > 0.0
    ensures Survives(scores, k, d) <==> 2.0 * d <= margin
  {
    if 2.0 * d <= margin {
      forall moved | MovedLessThan(d, scores, moved) ensures IsFirstMax(moved, k) {
        SurvivesWithinMargin(scores, k, margin, d, moved);
      }
    } else {
      FlipsBeyondMargin(scores, k, margin, d);
    }
  }

  lemma QuotientShrinks(change: real, d: real, divisor: real)
    requires -d < change < d && divisor >= 1.0
    ensures -d < change / divisor < d
  {
  }

  lemma DifferenceOfQuotients(a: real, b: real, divisor: real)
    requires divisor > 0.0
    ensures a / divisor - b / divisor == (a - b) / divisor
  {
  }

  /** Dividing by the answer lengths never magnifies a change, so a normalised margin is safe too. */
  lemma NormalisedAnswerSurvives(scores: seq<real>, moved: seq<real>, lengths: seq<nat>, k: nat, margin: real, d: real)
    requires |scores| == |lengths| && Positive(lengths)
    requires MovedLessThan(d, scores, moved) && IsMargin(Normalised(scores, lengths), k, margin) && 2.0 * d <= margin
    ensures IsFirstMax(Normalised(moved, lengths), k)
  {
    var before, after := Normalised(scores, lengths), Normalised(moved, lengths);
    forall i | 0 <= i < |before| ensures -d < after[i] - before[i] < d {
      DifferenceOfQuotients(moved[i], scores[i], lengths[i] as real);
      QuotientShrinks(moved[i] - scores[i], d, lengths[i] as real);
    }
    SurvivesWithinMargin(before, k, margin, d, after);
  }

  lemma CrossMultiplied(a: real, m: real, b: real, n: real)
    requires m > 0.0 && n > 0.0
    ensures a / m <= b / n <==> a * n <= b * m
    ensures a / m < b / n <==> a * n < b * m
  {
    var x, y := a / m, b / n;
    assert x * m == a && y * n == b;
    assert a * n == x * (m * n) && b * m == y * (m * n);
  }

  /** Each score is measured against its own answer's length: the normalised answer is the first that no other
      beats with the lengths multiplied across. */
  lemma NormalisedIsPerLength(scores: seq<real>, lengths: seq<nat>, k: nat)
    requires |scores| == |lengths| && Positive(lengths) && k < |scores|
    ensures Normalised(scores, lengths)[k] * lengths[k] as real == scores[k]
    ensures IsFirstMax(Normalised(scores, lengths), k) <==>
      && (forall i :: 0 <= i < |scores| ==> scores[i] * lengths[k] as real <= scores[k] * lengths[i] as real)
      && (forall i :: 0 <= i < k ==> scores[i] * lengths[k] as real < scores[k] * lengths[i] as real)
  {
    forall i | 0 <= i < |scores|
      ensures scores[i] * lengths[k] as real <= scores[k] * lengths[i] as real
         <==> Normalised(scores, lengths)[i] <= Normalised(scores, lengths)[k]
      ensures scores[i] * lengths[k] as real < scores[k] * lengths[i] as real
         <==> Normalised(scores, lengths)[i] < Normalised(scores, lengths)[k]
    {
      CrossMultiplied(scores[i], lengths[i] as real, scores[k], lengths[k] as real);
    }
  }

  // ---------------------------------------------------------------- the report

  datatype Answer = Answer(
    raw: nat, norm: nat, hit: bool, normHit: bool, marginRaw: real, marginNorm: real)

  datatype Report = Report(accuracy: real, normAccuracy: real, answers: seq<Answer>)

  /** An argmax and a margin exist, and no answer is empty. */
  predicate Scorable(s: Sample) { |s.lengths| >= 2 && Positive(s.lengths) }

  ghost predicate AnswerOk(a: Answer, group: seq<real>, s: Sample)
    requires |group| == |s.lengths| && Positive(s.lengths)
  {
    && IsFirstMax(group, a.raw) && IsMargin(group, a.raw, a.marginRaw)
    && IsFirstMax(Normalised(group, s.lengths), a.norm) && IsMargin(Normalised(group, s.lengths), a.norm, a.marginNorm)
    && a.hit == (a.raw == s.gold) && a.normHit == (a.norm == s.gold)
  }

  function Hits(answers: seq<Answer>): nat {
    if answers == [] then 0 else Hits(answers[..|answers| - 1]) + (if answers[|answers| - 1].hit then 1 else 0)
  }

  function NormHits(answers: seq<Answer>): nat {
    if answers == [] then 0 else NormHits(answers[..|answers| - 1]) + (if answers[|answers| - 1].normHit then 1 else 0)
  }

  function HitSet(answers: seq<Answer>): set<nat> { set n: nat | n < |answers| && answers[n].hit }

  function NormHitSet(answers: seq<Answer>): set<nat> { set n: nat | n < |answers| && answers[n].normHit }

  lemma OneMoreHit(answers: seq<Answer>)
    requires answers != []
    ensures
      var last := |answers| - 1;
      && HitSet(answers) == HitSet(answers[..last]) + (if answers[last].hit then {last} else {})
      && NormHitSet(answers) == NormHitSet(answers[..last]) + (if answers[last].normHit then {last} else {})
  {
  }

  /** The hits are counted, each once. */
  lemma {:induction false} HitsAreCounted(answers: seq<Answer>)
    ensures Hits(answers) == |HitSet(answers)| && NormHits(answers) == |NormHitSet(answers)|
  {
    if answers != [] {
      HitsAreCounted(answers[..|answers| - 1]);
      OneMoreHit(answers);
    }
  }

  lemma OneMoreAnswer(answers: seq<Answer>, a: Answer)
    ensures Hits(answers + [a]) == Hits(answers) + (if a.hit then 1 else 0)
    ensures NormHits(answers + [a]) == NormHits(answers) + (if a.normHit then 1 else 0)
  {
  }

  ghost predicate AnswerAt(answers: seq<Answer>, sums: seq<real>, samples: seq<Sample>, n: nat)
    requires n < |samples| && n < |answers|
  {
    && Scorable(samples[n]) && Offset(samples, n) + |samples[n].lengths| <= |sums|
    && AnswerOk(answers[n], GroupAt(sums, samples, n), samples[n])
  }

  ghost predicate ReportOk(r: Report, sums: seq<real>, samples: seq<Sample>) {
    && |r.answers| == |samples|
    && (forall n :: 0 <= n < |samples| ==> AnswerAt(r.answers, sums, samples, n))
    && r.accuracy * |samples| as real == Hits(r.answers) as real
    && r.normAccuracy * |samples| as real == NormHits(r.answers) as real
  }

  lemma OneMoreAnswerOk(answers: seq<Answer>, a: Answer, sums: seq<real>, samples: seq<Sample>)
    requires |answers| < |samples| && forall m :: 0 <= m < |answers| ==> AnswerAt(answers, sums, samples, m)
    requires AnswerAt(answers + [a], sums, samples, |answers|)
    ensures forall m :: 0 <= m < |answers| + 1 ==> AnswerAt(answers + [a], sums, samples, m)
  {
    forall m | 0 <= m < |answers| ensures AnswerAt(answers + [a], sums, samples, m) {
      assert AnswerAt(answers, sums, samples, m);
    }
  }

  method AnswerFor(group: seq<real>, s: Sample) returns (a: Answer)
    requires |group| == |s.lengths| && Scorable(s)
    ensures AnswerOk(a, group, s)
  {
    var normalised := Normalised(group, s.lengths);
    var raw := FirstMax(group);
    var norm := FirstMax(normalised);
    var marginRaw := Margin(group, raw);
    var marginNorm := Margin(normalised, norm);
    a := Answer(raw, norm, raw == s.gold, norm == s.gold, marginRaw, marginNorm);
  }

  predicate Covers(sums: seq<real>, samples: seq<Sample>) {
    |sums| == Offset(samples, |samples|) && forall n :: 0 <= n < |samples| ==> Scorable(samples[n])
  }

  /** Slicing past the end shortens a group, which the final count refuses; the model refuses it at once. */
  method AnswerAll(sums: seq<real>, samples: seq<Sample>)
    returns (ok: bool, answers: seq<Answer>, hits: nat, normHits: nat)
    ensures ok <==> Covers(sums, samples)
    ensures ok ==>
      && |answers| == |samples| && hits == Hits(answers) && normHits == NormHits(answers)
      && forall n :: 0 <= n < |samples| ==> AnswerAt(answers, sums, samples, n)
  {
    var consumed := 0;
    answers, hits, normHits := [], 0, 0;
    for n := 0 to |samples|
      invariant |answers| == n && consumed == Offset(samples, n) <= |sums|
      invariant forall m :: 0 <= m < n ==> AnswerAt(answers, sums, samples, m)
      invariant hits == Hits(answers) && normHits == NormHits(answers)
    {
      var s := samples[n];
      if consumed + |s.lengths| > |sums| {
        OffsetGrows(samples, n + 1, |samples|);
        return false, answers, hits, normHits;
      }
      if !Scorable(s) {
        return false, answers, hits, normHits;
      }
      var a := AnswerFor(sums[consumed..consumed + |s.lengths|], s);
      OneMoreAnswer(answers, a);
      OneMoreAnswerOk(answers, a, sums, samples);
      answers := answers + [a];
      hits := hits + (if a.hit then 1 else 0);
      normHits := normHits + (if a.normHit then 1 else 0);
      consumed := consumed + |s.lengths|;
    }
    ok := consumed == |sums|;
    if ok {
      forall n | 0 <= n < |samples| ensures Scorable(samples[n]) {
        assert AnswerAt(answers, sums, samples, n);
      }
    }
  }

  predicate MetricsDefined(sums: seq<real>, samples: seq<Sample>) { samples != [] && Covers(sums, samples) }

  method Average(count: nat, n: nat) returns (average: real)
    requires n > 0
    ensures average * n as real == count as real
  {
    average := count as real / n as real;
  }

  method Metrics(sums: seq<real>, samples: seq<Sample>) returns (r: Result<Report, string>)
    ensures r.Ok? <==> MetricsDefined(sums, samples)
    ensures r.Ok? ==> ReportOk(r.value, sums, samples)
  {
    var ok, answers, hits, normHits := AnswerAll(sums, samples);
    if !ok || samples == [] {
      return Err("Captured continuations do not match the recorded samples");
    }
    var accuracy := Average(hits, |samples|);
    var normAccuracy := Average(normHits, |samples|);
    r := Ok(Report(accuracy, normAccuracy, answers));
  }

  // ---------------------------------------------------------------- the whole baseline check

  function Recorded(samples: seq<Sample>): seq<real> {
    if samples == [] then [] else Recorded(samples[..|samples| - 1]) + samples[|samples| - 1].recorded
  }

  /** A sample that recorded one score per answer finds them where its own sums are. */
  lemma {:induction false} RecordedAreInPlace(samples: seq<Sample>, n: nat)
    requires n < |samples| && forall m :: 0 <= m < |samples| ==> |samples[m].recorded| == |samples[m].lengths|
    ensures |Recorded(samples)| == Offset(samples, |samples|)
    ensures Offset(samples, n) + |samples[n].lengths| <= |Recorded(samples)|
    ensures GroupAt(Recorded(samples), samples, n) == samples[n].recorded
    decreases |samples|
  {
    var last := |samples| - 1;
    OffsetPrefix(samples, last, last);
    OffsetPrefix(samples, last, n);
    if n < last {
      RecordedAreInPlace(samples[..last], n);
    } else if last > 0 {
      RecordedAreInPlace(samples[..last], 0);
    }
  }

  lemma {:induction false} OffsetPrefix(samples: seq<Sample>, k: nat, n: nat)
    requires n <= k <= |samples|
    ensures Offset(samples[..k], n) == Offset(samples, n)
    decreases n
  {
    if n > 0 {
      OffsetPrefix(samples, k, n - 1);
    }
  }

  predicate CloseMetric(a: real, b: real) { -METRIC_TOLERANCE <= a - b <= METRIC_TOLERANCE }

  method VerifyBaseline(scores: seq<real>, groups: Groups, samples: seq<Sample>, accuracy: real, normAccuracy: real)
    returns (r: Result<Report, string>)
    requires AllWithin(groups, |scores|)
    ensures r.Ok? ==>
      && Reproduces(scores, groups, Recorded(samples))
      && MetricsDefined(LogLikelihoods(scores, groups), samples)
      && ReportOk(r.value, LogLikelihoods(scores, groups), samples)
      && CloseMetric(r.value.accuracy, accuracy) && CloseMetric(r.value.normAccuracy, normAccuracy)
    ensures r.Err? ==>
      || !Reproduces(scores, groups, Recorded(samples))
      || !MetricsDefined(LogLikelihoods(scores, groups), samples)
      || exists report :: ReportOk(report, LogLikelihoods(scores, groups), samples)
           && !(CloseMetric(report.accuracy, accuracy) && CloseMetric(report.normAccuracy, normAccuracy))
  {
    var reproduced := VerifyBaselineSums(scores, groups, Recorded(samples));
    if !reproduced {
      return Err("Captured requests do not reconstruct the bundle continuation scores");
    }
    var computed := Metrics(LogLikelihoods(scores, groups), samples);
    if computed.Err? {
      return computed;
    }
    if !CloseMetric(computed.value.accuracy, accuracy) || !CloseMetric(computed.value.normAccuracy, normAccuracy) {
      return Err("Recomputed metrics differ from the harness result");
    }
    r := computed;
  }

  /** A sum that reproduces a recorded score picks the recorded answer, as soon as the recorded answer won by
      more than twice the tolerance. */
  lemma ReproducedAnswerIsRecorded(group: seq<real>, recorded: seq<real>, k: nat, margin: real, raw: nat)
    requires |group| == |recorded| && forall i :: 0 <= i < |group| ==> IsClose(group[i], recorded[i])
    requires IsMargin(recorded, k, margin) && margin > 2.0 * SCORE_TOLERANCE
    requires IsFirstMax(group, raw)
    ensures raw == k
  {
  }
}
