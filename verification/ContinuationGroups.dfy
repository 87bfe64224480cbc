/** Recovering which scoring requests belong to one continuation from prompt lengths alone, as
    scripts/quality_eval_placement_replay.py does, and when that recovery is right. */
module ContinuationGroups {
  import opened Common
  import opened HttpCoverage

  type Groups = seq<seq<nat>>

  /** count numbers from low on. */
  function Range(low: nat, count: nat): seq<nat> {
    if count == 0 then [] else Range(low, count - 1) + [low + count - 1]
  }

  /** The finished groups and the one still open, if any request was seen. */
  datatype Scan = Nothing | Scanning(done: Groups, current: seq<nat>)

  function Closed(scan: Scan): Groups {
    if scan.Nothing? then [] else scan.done + [scan.current]
  }

  /** Requests that join the open group, or open one of their own. */
  function Extended(scan: Scan, continues: bool, added: seq<nat>): Scan {
    if continues && scan.Scanning? then Scanning(scan.done, scan.current + added)
    else Scanning(Closed(scan), added)
  }

  /** Request i joins the group before it when its prompt is one token longer than the one before, and
      opens a group otherwise. */
  function ScanOf(lengths: seq<nat>): (scan: Scan)
    ensures scan.Nothing? <==> lengths == []
  {
    if lengths == [] then Nothing
    else
      var n := |lengths| - 1;
      Extended(ScanOf(lengths[..n]), n > 0 && lengths[n] == lengths[n - 1] + 1, [n])
  }

  function GroupsOf(lengths: seq<nat>): Groups { Closed(ScanOf(lengths)) }

  /** The caller has refused a bundle without scoring requests. */
  method FindGroups(lengths: seq<nat>) returns (groups: Groups)
    requires lengths != []
    ensures groups == GroupsOf(lengths)
  {
    groups := [];
    var current: seq<nat> := [0];
    for index := 1 to |lengths|
      invariant Scanning(groups, current) == ScanOf(lengths[..index])
    {
      assert lengths[..index + 1][..index] == lengths[..index];
      if lengths[index] == lengths[index - 1] + 1 {
        current := current + [index];
      } else {
        groups := groups + [current];
        current := [index];
      }
    }
    assert lengths[..|lengths|] == lengths;
    groups := groups + [current];
  }

  // ---------------------------------------------------------------- the truth

  /** A continuation scores count tokens, the first one after a prompt of start tokens. */
  datatype Scored = Scored(start: nat, count: nat)

  function Run(c: Scored): seq<nat> { Range(c.start, c.count) }

  function Prompts(truth: seq<Scored>): seq<nat> {
    if truth == [] then [] else Prompts(truth[..|truth| - 1]) + Run(truth[|truth| - 1])
  }

  /** The requests of the last continuation. */
  function LastRequests(truth: seq<Scored>): seq<nat>
    requires truth != []
  {
    var before := |Prompts(truth[..|truth| - 1])|;
    Range(before, truth[|truth| - 1].count)
  }

  function TrueGroups(truth: seq<Scored>): (groups: Groups)
    ensures |groups| == |truth|
  {
    if truth == [] then [] else TrueGroups(truth[..|truth| - 1]) + [LastRequests(truth)]
  }

  predicate Continues(lengths: seq<nat>, start: nat) {
    lengths != [] && start == lengths[|lengths| - 1] + 1
  }

  lemma ScanStep(lengths: seq<nat>, x: nat)
    ensures ScanOf(lengths + [x]) == Extended(ScanOf(lengths), Continues(lengths, x), [|lengths|])
  {
    assert (lengths + [x])[..|lengths|] == lengths;
  }

  lemma {:induction false} RangeAt(low: nat, count: nat)
    ensures |Range(low, count)| == count
    ensures forall k :: 0 <= k < count ==> Range(low, count)[k] == low + k
  {
    if count > 0 {
      RangeAt(low, count - 1);
    }
  }

  /** One run appended to a log either extends the last group as a whole or forms a group of its own. */
  lemma {:induction false} AppendRun(lengths: seq<nat>, start: nat, count: nat) returns (log: seq<nat>, added: seq<nat>)
    requires count > 0
    ensures log == lengths + Range(start, count) && added == Range(|lengths|, count)
    ensures |log| == |lengths| + count && log[|log| - 1] == start + count - 1
    ensures ScanOf(log) == Extended(ScanOf(lengths), Continues(lengths, start), added)
  {
    if count == 1 {
      log, added := lengths + [start], [|lengths|];
      ScanStep(lengths, start);
    } else {
      var before, run := AppendRun(lengths, start, count - 1);
      RunGrows(lengths, start, count - 1, before, run);
      log, added := before + [start + count - 1], run + [|before|];
    }
  }

  lemma RunGrows(lengths: seq<nat>, start: nat, n: nat, log: seq<nat>, added: seq<nat>)
    requires n > 0 && log == lengths + Range(start, n) && added == Range(|lengths|, n)
    requires |log| == |lengths| + n && log[|log| - 1] == start + n - 1
    requires ScanOf(log) == Extended(ScanOf(lengths), Continues(lengths, start), added)
    ensures log + [start + n] == lengths + Range(start, n + 1) && added + [|log|] == Range(|lengths|, n + 1)
    ensures ScanOf(log + [start + n]) == Extended(ScanOf(lengths), Continues(lengths, start), added + [|log|])
  {
    ScanStep(log, start + n);
    ExtendedTwice(ScanOf(lengths), Continues(lengths, start), added, [|log|]);
    RangeGrows(lengths, start, n);
    RangeGrows([], |lengths|, n);
    assert [] + Range(|lengths|, n) == added && [] + Range(|lengths|, n + 1) == Range(|lengths|, n + 1);
  }

  lemma RangeGrows(before: seq<nat>, low: nat, n: nat)
    ensures (before + Range(low, n)) + [low + n] == before + Range(low, n + 1)
  {
    assert (before + Range(low, n)) + [low + n] == before + (Range(low, n) + [low + n]);
  }

  lemma ExtendedTwice(scan: Scan, continues: bool, a: seq<nat>, b: seq<nat>)
    ensures Extended(Extended(scan, continues, a), true, b) == Extended(scan, continues, a + b)
  {
  }

  /** The one way to be misled: a continuation whose first prompt happens to be one token longer than the
      last prompt of the one before. */
  predicate LooksContinued(truth: seq<Scored>, k: nat)
    requires 0 < k < |truth|
  {
    truth[k].start == truth[k - 1].start + truth[k - 1].count
  }

  predicate Separable(truth: seq<Scored>) {
    && (forall k :: 0 <= k < |truth| ==> truth[k].count > 0)
    && (forall k :: 0 < k < |truth| ==> !LooksContinued(truth, k))
  }

  lemma SeparableStep(truth: seq<Scored>)
    requires truth != []
    ensures
      var n := |truth| - 1;
      Separable(truth)
      <==> Separable(truth[..n]) && truth[n].count > 0 && (n > 0 ==> !LooksContinued(truth, n))
  {
    var before := truth[..|truth| - 1];
    forall k | 0 < k < |before| ensures LooksContinued(before, k) == LooksContinued(truth, k) {
    }
  }

  lemma ContinuesIsLooks(truth: seq<Scored>)
    requires |truth| > 1 && truth[|truth| - 2].count > 0
    ensures Continues(Prompts(truth[..|truth| - 1]), truth[|truth| - 1].start) <==> LooksContinued(truth, |truth| - 1)
  {
  }

  lemma PromptsStep(truth: seq<Scored>)
    requires truth != []
    ensures Prompts(truth) == Prompts(truth[..|truth| - 1]) + Run(truth[|truth| - 1])
  {
  }

  lemma {:induction false} GroupCount(truth: seq<Scored>)
    ensures |GroupsOf(Prompts(truth))| <= |truth|
    ensures |GroupsOf(Prompts(truth))| == |truth| <==> Separable(truth)
  {
    if truth != [] {
      var n := |truth| - 1;
      var before, last := truth[..n], truth[n];
      var lengths := Prompts(before);
      GroupCount(before);
      SeparableStep(truth);
      if last.count == 0 {
        assert Prompts(truth) == lengths;
      } else {
        PromptsStep(truth);
        var log, added := AppendRun(lengths, last.start, last.count);
        if n > 0 && before[n - 1].count > 0 {
          ContinuesIsLooks(truth);
        }
      }
    }
  }

  /** A run that continues nothing becomes a group of its own. */
  lemma OwnGroup(log: seq<nat>, lengths: seq<nat>, c: Scored, added: seq<nat>)
    requires c.count > 0 && !Continues(lengths, c.start)
    requires log == lengths + Run(c) && added == Range(|lengths|, c.count)
    ensures GroupsOf(log) == GroupsOf(lengths) + [added]
  {
    var whole, run := AppendRun(lengths, c.start, c.count);
  }

  lemma NeverContinued(truth: seq<Scored>)
    requires truth != [] && Separable(truth)
    ensures !Continues(Prompts(truth[..|truth| - 1]), truth[|truth| - 1].start)
  {
    if |truth| == 1 {
      assert Prompts(truth[..0]) == [];
    } else {
      ContinuesIsLooks(truth);
    }
  }

  lemma {:induction false} SeparableIsTrue(truth: seq<Scored>)
    requires Separable(truth)
    ensures GroupsOf(Prompts(truth)) == TrueGroups(truth)
  {
    if truth != [] {
      SeparableStep(truth);
      SeparableIsTrue(truth[..|truth| - 1]);
      NeverContinued(truth);
      PromptsStep(truth);
      OwnGroup(Prompts(truth), Prompts(truth[..|truth| - 1]), truth[|truth| - 1], LastRequests(truth));
    }
  }

  /** Grouping never finds too many groups, and finds as many as there are continuations exactly when
      every continuation scored something and none looks like a continuation of the one before; the
      groups are then the true ones. */
  lemma GroupsOfTruth(truth: seq<Scored>)
    ensures |GroupsOf(Prompts(truth))| <= |truth|
    ensures |GroupsOf(Prompts(truth))| == |truth| <==> Separable(truth)
    ensures Separable(truth) <==> GroupsOf(Prompts(truth)) == TrueGroups(truth)
  {
    GroupCount(truth);
    if Separable(truth) {
      SeparableIsTrue(truth);
    }
  }

  /** The main result: the segmentation is right if and only if the group count matches the recorded one. */
  lemma SegmentationIsExact(truth: seq<Scored>)
    ensures |GroupsOf(Prompts(truth))| == |truth| <==> GroupsOf(Prompts(truth)) == TrueGroups(truth)
  {
    GroupsOfTruth(truth);
  }

  /** All these requests are in one group. */
  ghost predicate KeptTogether(groups: Groups, part: seq<nat>) {
    exists j :: 0 <= j < |groups| && Contains(groups[j], part)
  }

  predicate Contains(group: seq<nat>, part: seq<nat>) { forall i :: i in part ==> i in group }

  lemma ExtendedKeepsTogether(scan: Scan, continues: bool, added: seq<nat>, part: seq<nat>)
    ensures KeptTogether(Closed(scan), part) ==> KeptTogether(Closed(Extended(scan, continues, added)), part)
    ensures KeptTogether(Closed(Extended(scan, continues, added)), added)
  {
    var after := Closed(Extended(scan, continues, added));
    assert Contains(after[|after| - 1], added);
    if KeptTogether(Closed(scan), part) {
      var j :| 0 <= j < |Closed(scan)| && Contains(Closed(scan)[j], part);
      assert Contains(after[j], part);
    }
  }

  lemma RunKeepsTogether(log: seq<nat>, lengths: seq<nat>, c: Scored, added: seq<nat>, part: seq<nat>)
    requires c.count > 0
    requires log == lengths + Run(c) && added == Range(|lengths|, c.count)
    ensures KeptTogether(GroupsOf(lengths), part) ==> KeptTogether(GroupsOf(log), part)
    ensures KeptTogether(GroupsOf(log), added)
  {
    var whole, run := AppendRun(lengths, c.start, c.count);
    ExtendedKeepsTogether(ScanOf(lengths), Continues(lengths, c.start), added, part);
  }

  /** Even when the count is wrong the grouping only merged: no continuation is ever split. */
  lemma {:induction false} NeverSplits(truth: seq<Scored>, k: nat)
    requires k < |truth| && truth[k].count > 0
    ensures KeptTogether(GroupsOf(Prompts(truth)), TrueGroups(truth)[k])
  {
    var before, last := truth[..|truth| - 1], truth[|truth| - 1];
    PromptsStep(truth);
    if k == |before| {
      RunKeepsTogether(Prompts(truth), Prompts(before), last, LastRequests(truth), []);
    } else {
      NeverSplits(before, k);
      if last.count == 0 {
        assert Prompts(truth) == Prompts(before);
      } else {
        RunKeepsTogether(Prompts(truth), Prompts(before), last, LastRequests(truth), TrueGroups(before)[k]);
      }
    }
  }

  function Concat(groups: Groups): seq<nat> {
    if groups == [] then [] else Concat(groups[..|groups| - 1]) + groups[|groups| - 1]
  }

  lemma ConcatAppend(groups: Groups, last: seq<nat>)
    ensures Concat(groups + [last]) == Concat(groups) + last
  {
    assert (groups + [last])[..|groups|] == groups;
  }

  lemma ConcatExtended(scan: Scan, continues: bool, added: seq<nat>)
    ensures Concat(Closed(Extended(scan, continues, added))) == Concat(Closed(scan)) + added
  {
    ConcatAppend(Closed(scan), added);
    if scan.Scanning? {
      ConcatAppend(scan.done, scan.current);
      ConcatAppend(scan.done, scan.current + added);
      assert (Concat(scan.done) + scan.current) + added == Concat(scan.done) + (scan.current + added);
    }
  }

  /** The groups so far are not empty and list the first n requests in order. */
  predicate Partitions(scan: Scan, n: nat) {
    Concat(Closed(scan)) == Range(0, n) && forall k :: 0 <= k < |Closed(scan)| ==> Closed(scan)[k] != []
  }

  lemma PartitionGrows(scan: Scan, n: nat, continues: bool)
    requires Partitions(scan, n)
    ensures Partitions(Extended(scan, continues, [n]), n + 1)
  {
    ConcatExtended(scan, continues, [n]);
  }

  lemma {:induction false} ScanPartitions(lengths: seq<nat>)
    ensures Partitions(ScanOf(lengths), |lengths|)
  {
    if lengths != [] {
      var n := |lengths| - 1;
      ScanPartitions(lengths[..n]);
      PartitionGrows(ScanOf(lengths[..n]), n, n > 0 && lengths[n] == lengths[n - 1] + 1);
    }
  }

  /** Whatever the lengths, the groups partition the requests in order. */
  lemma GroupsPartition(lengths: seq<nat>)
    ensures Concat(GroupsOf(lengths)) == Range(0, |lengths|)
    ensures forall k :: 0 <= k < |GroupsOf(lengths)| ==> GroupsOf(lengths)[k] != []
  {
    ScanPartitions(lengths);
  }

  // ---------------------------------------------------------------- scores

  predicate Within(indexes: seq<nat>, n: nat) { forall k :: 0 <= k < |indexes| ==> indexes[k] < n }

  predicate AllWithin(groups: Groups, n: nat) { forall k :: 0 <= k < |groups| ==> Within(groups[k], n) }

  function SumAt(scores: seq<real>, indexes: seq<nat>): real
    requires Within(indexes, |scores|)
  {
    if indexes == [] then 0.0
    else
      var n := |indexes| - 1;
      SumAt(scores, indexes[..n]) + scores[indexes[n]]
  }

  function LogLikelihoods(scores: seq<real>, groups: Groups): seq<real>
    requires AllWithin(groups, |scores|)
  {
    if groups == [] then []
    else
      var n := |groups| - 1;
      LogLikelihoods(scores, groups[..n]) + [SumAt(scores, groups[n])]
  }

  lemma {:induction false} LogLikelihoodAt(scores: seq<real>, groups: Groups, k: nat)
    requires AllWithin(groups, |scores|) && k < |groups|
    ensures |LogLikelihoods(scores, groups)| == |groups|
    ensures LogLikelihoods(scores, groups)[k] == SumAt(scores, groups[k])
    decreases |groups|
  {
    var n := |groups| - 1;
    if n > 0 {
      LogLikelihoodAt(scores, groups[..n], if k < n then k else 0);
    }
  }

  lemma {:induction false} SumAtAppend(scores: seq<real>, a: seq<nat>, b: seq<nat>)
    requires Within(a, |scores|) && Within(b, |scores|)
    ensures Within(a + b, |scores|) && SumAt(scores, a + b) == SumAt(scores, a) + SumAt(scores, b)
    decreases |b|
  {
    if b == [] {
      assert a + b == a;
    } else {
      var n := |b| - 1;
      assert (a + b)[..|a| + n] == a + b[..n];
      SumAtAppend(scores, a, b[..n]);
    }
  }

  lemma {:induction false} SumOfGroups(scores: seq<real>, groups: Groups)
    requires AllWithin(groups, |scores|)
    ensures Within(Concat(groups), |scores|)
    ensures Sum(LogLikelihoods(scores, groups)) == SumAt(scores, Concat(groups))
  {
    if groups != [] {
      var n := |groups| - 1;
      SumOfGroups(scores, groups[..n]);
      SumAtAppend(scores, Concat(groups[..n]), groups[n]);
      assert LogLikelihoods(scores, groups)[..n] == LogLikelihoods(scores, groups[..n]) by {
        if n > 0 {
          LogLikelihoodAt(scores, groups[..n], 0);
        }
      }
    }
  }

  lemma {:induction false} ConcatWithin(groups: Groups, n: nat)
    requires Within(Concat(groups), n)
    ensures AllWithin(groups, n)
  {
    if groups != [] {
      var last := |groups| - 1;
      assert Concat(groups) == Concat(groups[..last]) + groups[last];
      assert forall k :: 0 <= k < |Concat(groups[..last])| ==> Concat(groups)[k] == Concat(groups[..last])[k];
      assert forall k :: 0 <= k < |groups[last]| ==> Concat(groups)[|Concat(groups[..last])| + k] == groups[last][k];
      ConcatWithin(groups[..last], n);
      forall k | 0 <= k < |groups| ensures Within(groups[k], n) {
        if k < last {
          assert groups[..last][k] == groups[k];
        }
      }
    }
  }

  lemma {:induction false} SumAtAll(scores: seq<real>, n: nat)
    requires n <= |scores|
    ensures Within(Range(0, n), |scores|) && SumAt(scores, Range(0, n)) == Sum(scores[..n])
  {
    RangeAt(0, n);
    if n > 0 {
      SumAtAll(scores, n - 1);
      assert scores[..n][..n - 1] == scores[..n - 1];
    }
  }

  lemma GroupsWithin(lengths: seq<nat>)
    ensures AllWithin(GroupsOf(lengths), |lengths|)
  {
    GroupsPartition(lengths);
    RangeAt(0, |lengths|);
    ConcatWithin(GroupsOf(lengths), |lengths|);
  }

  /** Merged or not, no score is lost or counted twice. */
  lemma TotalScorePreserved(scores: seq<real>, lengths: seq<nat>)
    requires |scores| == |lengths|
    ensures AllWithin(GroupsOf(lengths), |scores|)
    ensures Sum(LogLikelihoods(scores, GroupsOf(lengths))) == Sum(scores)
  {
    GroupsWithin(lengths);
    GroupsPartition(lengths);
    SumOfGroups(scores, GroupsOf(lengths));
    SumAtAll(scores, |scores|);
    assert scores[..|scores|] == scores;
  }

  // ---------------------------------------------------------------- the baseline check

  ghost predicate Reproduces(scores: seq<real>, groups: Groups, recorded: seq<real>)
    requires AllWithin(groups, |scores|)
  {
    && |groups| == |recorded|
    && forall k :: 0 <= k < |groups| ==> IsClose(SumAt(scores, groups[k]), recorded[k])
  }

  /** The recorded scores are reproduced, as many of them and each within the tolerance. */
  method VerifyBaselineSums(scores: seq<real>, groups: Groups, recorded: seq<real>) returns (ok: bool)
    requires AllWithin(groups, |scores|)
    ensures ok <==> Reproduces(scores, groups, recorded)
  {
    var sums := LogLikelihoods(scores, groups);
    if groups != [] {
      LogLikelihoodAt(scores, groups, 0);
    }
    if |sums| != |recorded| {
      return false;
    }
    for k := 0 to |sums|
      invariant forall i :: 0 <= i < k ==> IsClose(SumAt(scores, groups[i]), recorded[i])
    {
      LogLikelihoodAt(scores, groups, k);
      if !IsClose(sums[k], recorded[k]) {
        return false;
      }
    }
    ok := true;
  }

  /** A baseline that passes was segmented correctly: every recorded score is the sum of exactly the
      requests of its own continuation. */
  lemma PassingBaselineIsTrue(scores: seq<real>, truth: seq<Scored>, recorded: seq<real>)
    requires |scores| == |Prompts(truth)| && |recorded| == |truth|
    requires AllWithin(GroupsOf(Prompts(truth)), |scores|)
    requires Reproduces(scores, GroupsOf(Prompts(truth)), recorded)
    ensures GroupsOf(Prompts(truth)) == TrueGroups(truth) && Reproduces(scores, TrueGroups(truth), recorded)
  {
    SegmentationIsExact(truth);
  }
}
