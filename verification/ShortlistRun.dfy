/** What every run of the shortlist keeps, for any set of entries, any limit and any machine. */
module ShortlistRun {
  import opened Common
  import opened Placement
  import opened Sizing
  import opened Ordering
  import opened ShortlistSpec

  // ---------------------------------------------------------------- what holds of one loop step

  /** Placement class, then smallness unless small sizes are covered, then other-task: the priority that
      no score and no diversity may overrule. */
  function Priority(setup: Setup, e: Entry): nat {
    4 * setup.Class(e) + 2 * Flag(!setup.coverSmall && e.Small()) + Flag(e.otherTask)
  }

  ghost predicate LeastPriority(setup: Setup, remaining: set<Entry>, leader: Entry) {
    leader in remaining && forall e :: e in remaining ==> Priority(setup, leader) <= Priority(setup, e)
  }

  ghost function PriorityGroup(setup: Setup, remaining: set<Entry>, leader: Entry): set<Entry> {
    set e | e in remaining && Priority(setup, e) == Priority(setup, leader)
  }

  ghost predicate BestScoreAmong(e: Entry, group: set<Entry>) {
    e in group && forall x :: x in group ==> e.score >= x.score - SCORE_TIE_EPSILON
  }

  /** A relevance pick: least priority, and a score only a rounding error away from the best version there
      that is not selected yet (from the best of all when every version is). */
  ghost predicate RelevancePickOk(setup: Setup, remaining: set<Entry>, versions: set<Version>, step: Step)
    requires step.LoopStep?
  {
    && Priority(setup, step.entry) == Priority(setup, step.leader)
    && BestScoreAmong(step.entry, Waiting(PriorityGroup(setup, remaining, step.leader), versions))
  }

  /** Exploration goes by size first: the actual count for Quality, the size class otherwise. */
  function ExploredSize(setup: Setup, e: Entry): real {
    if !setup.quality then ScaleOrder(e.candidate.billions) as real
    else if e.candidate.billions.Some? then e.candidate.billions.value
    else 0.0
  }

  ghost predicate LargestThenBest(setup: Setup, first: Entry, group: set<Entry>) {
    first in group && forall x :: x in group ==>
      ExploredSize(setup, x) < ExploredSize(setup, first)
      || (ExploredSize(setup, x) == ExploredSize(setup, first) && x.score <= first.score)
  }

  predicate OnAccelerator(e: Entry) { e.mode in {Some(GpuResident), Some(GpuOffload)} }

  /** An exploration pick: same task flag as the leader, new when chosen, within the evidence gap, of the leader's
      priority (for Quality beside a resident leader, any larger model the accelerator can hold), and a score
      only a rounding error away from that of the largest eligible version not selected yet. */
  ghost predicate ExplorationPickOk(setup: Setup, before: seq<Entry>, step: Step)
    requires step.LoopStep?
  {
    && step.entry.otherTask == step.leader.otherTask
    && IsNew(setup, step.entry, Redundancies(before), Versions(before))
    && WithinEvidenceGap(setup, step.entry, step.leader)
    && (Priority(setup, step.entry) == Priority(setup, step.leader)
        || (setup.quality && step.leader.mode == Some(GpuResident) && OnAccelerator(step.entry) && !step.entry.Small()))
    && (exists first :: LargestThenBest(setup, first, Waiting(step.novel, Versions(before))) && Near(step.entry, first))
  }

  /** A version already represented is only reserve. */
  ghost predicate ReserveRule(before: seq<Entry>, step: Step) {
    && step.entry in step.DecisionGroup()
    && (step.entry.Version() in Versions(before)
        ==> forall e :: e in step.DecisionGroup() ==> e.Version() in Versions(before))
  }

  /** The leader is the best-scored entry of the least priority, and everything else is measured from it. */
  ghost predicate LoopStepOk(setup: Setup, plausible: set<Entry>, before: seq<Entry>, step: Step)
    requires step.LoopStep?
  {
    var remaining := Remaining(plausible, before);
    && step.entry in remaining
    && IsBest(setup.Relevance(), remaining, step.leader)
    && LeastPriority(setup, remaining, step.leader)
    && step.relevanceGroup == PriorityGroup(setup, remaining, step.leader)
    && step.selectedVersions == Versions(before)
    && step.explorationGroup == ExplorationGroup(setup, remaining, step.leader)
    && step.novel == Novel(setup, step.explorationGroup, step.leader, before)
    && (step.explored <==> step.explorationLeft > 0 && step.novel != {})
    && (if step.explored then ExplorationPickOk(setup, before, step)
        else RelevancePickOk(setup, remaining, Versions(before), step))
    && ReserveRule(before, step)
  }

  lemma ClassIsSmall(setup: Setup, a: Entry, b: Entry)
    ensures SameGroup(setup, a, b) <==> Priority(setup, a) == Priority(setup, b)
    ensures Before(setup.Relevance(), a, b) ==> Priority(setup, a) <= Priority(setup, b)
    ensures Before(setup.Relevance(), a, b) && SameGroup(setup, a, b) ==> a.score >= b.score
  {
  }

  lemma WaitingVersionIsReserve(group: set<Entry>, versions: set<Version>, e: Entry)
    requires e in Waiting(group, versions) && e.Version() in versions
    ensures forall x :: x in group ==> x.Version() in versions
  {
    var unseen := set x | x in group && x.Version() !in versions;
    forall x | x in group ensures x.Version() in versions {
      assert x.Version() !in versions ==> x in unseen;
    }
  }

  lemma LargestIsFirst(setup: Setup, group: set<Entry>)
    requires group != {} && DistinctIds(group)
    ensures LargestThenBest(setup, Best(ExplorationOrder(setup.quality), group), group)
  {
    var first := Best(ExplorationOrder(setup.quality), group);
    forall x | x in group
      ensures ExploredSize(setup, x) < ExploredSize(setup, first)
           || (ExploredSize(setup, x) == ExploredSize(setup, first) && x.score <= first.score)
    {
      assert x == first || Before(ExplorationOrder(setup.quality), first, x);
    }
  }

  lemma DecisionIsOk(setup: Setup, plausible: set<Entry>, st: RunState)
    requires DistinctIds(plausible) && Remaining(plausible, st.selected) != {}
    ensures LoopStepOk(setup, plausible, st.selected, LoopDecision(setup, plausible, st))
  {
    var step := LoopDecision(setup, plausible, st);
    var remaining := Remaining(plausible, st.selected);
    forall e | e in remaining
      ensures Priority(setup, step.leader) <= Priority(setup, e)
      ensures e in step.relevanceGroup <==> Priority(setup, e) == Priority(setup, step.leader)
    {
      ClassIsSmall(setup, step.leader, e);
      ClassIsSmall(setup, e, step.leader);
    }
    assert step.relevanceGroup == PriorityGroup(setup, remaining, step.leader);
    var waiting := Waiting(step.DecisionGroup(), Versions(st.selected));
    assert step.entry in waiting;
    if step.entry.Version() in Versions(st.selected) {
      WaitingVersionIsReserve(step.DecisionGroup(), Versions(st.selected), step.entry);
    }
    if step.explored {
      LargestIsFirst(setup, waiting);
      ClassIsSmall(setup, step.entry, step.leader);
    } else {
      var first := Best(setup.Relevance(), waiting);
      forall x | x in waiting ensures step.entry.score >= x.score - SCORE_TIE_EPSILON {
        ClassIsSmall(setup, first, x);
      }
    }
  }

  // ---------------------------------------------------------------- what holds along the loop

  ghost function ExplorationCount(steps: seq<Step>): nat {
    if steps == [] then 0
    else ExplorationCount(steps[..|steps| - 1])
         + (if steps[|steps| - 1].LoopStep? && steps[|steps| - 1].explored then 1 else 0)
  }

  /** The leaders' priorities never decrease. */
  ghost predicate PrioritiesAscend(setup: Setup, steps: seq<Step>) {
    forall i, j :: 0 <= i < j < |steps| && steps[i].LoopStep? && steps[j].LoopStep?
      ==> Priority(setup, steps[i].leader) <= Priority(setup, steps[j].leader)
  }

  /** Every step was taken with the budget that the explorations before it had left. */
  ghost predicate BudgetKept(setup: Setup, steps: seq<Step>) {
    forall i :: 0 <= i < |steps| && steps[i].LoopStep? ==>
      steps[i].explorationLeft + ExplorationCount(steps[..i]) == setup.ExplorationBudget()
  }

  /** The trace names the selected entries, and every loop step in it was right when it was taken. */
  ghost predicate StepsOk(setup: Setup, plausible: set<Entry>, selected: seq<Entry>, steps: seq<Step>) {
    && |steps| == |selected|
    && (forall i :: 0 <= i < |steps| ==> steps[i].entry == selected[i])
    && (forall i :: 0 <= i < |steps| && steps[i].LoopStep? ==> LoopStepOk(setup, plausible, selected[..i], steps[i]))
  }

  /** The whole invariant of a run. */
  ghost predicate RunOk(setup: Setup, plausible: set<Entry>, st: RunState) {
    && Distinct(st.selected)
    && |st.selected| <= setup.limit
    && StepsOk(setup, plausible, st.selected, st.steps)
    && PrioritiesAscend(setup, st.steps)
    && BudgetKept(setup, st.steps)
    && ExplorationCount(st.steps) + st.explorationLeft == setup.ExplorationBudget()
  }

  lemma AppendKeepsStepsOk(setup: Setup, plausible: set<Entry>, selected: seq<Entry>, steps: seq<Step>, step: Step)
    requires StepsOk(setup, plausible, selected, steps)
    requires step.LoopStep? ==> LoopStepOk(setup, plausible, selected, step)
    ensures StepsOk(setup, plausible, selected + [step.entry], steps + [step])
  {
    forall i | 0 <= i < |steps| + 1 && (steps + [step])[i].LoopStep?
      ensures LoopStepOk(setup, plausible, (selected + [step.entry])[..i], (steps + [step])[i])
    {
      assert (selected + [step.entry])[..i] == selected[..i];
      assert selected[..|steps|] == selected;
    }
  }

  lemma AppendKeepsBudget(setup: Setup, steps: seq<Step>, step: Step)
    requires BudgetKept(setup, steps)
    requires step.LoopStep? ==> step.explorationLeft + ExplorationCount(steps) == setup.ExplorationBudget()
    ensures BudgetKept(setup, steps + [step])
  {
    forall i | 0 <= i < |steps| + 1 && (steps + [step])[i].LoopStep?
      ensures (steps + [step])[i].explorationLeft + ExplorationCount((steps + [step])[..i]) == setup.ExplorationBudget()
    {
      assert (steps + [step])[..i] == steps[..i];
      assert steps[..|steps|] == steps;
    }
  }

  lemma LeaderIsNoBetterThanBefore(setup: Setup, plausible: set<Entry>, selected: seq<Entry>, steps: seq<Step>,
                                   leader: Entry)
    requires StepsOk(setup, plausible, selected, steps) && leader in Remaining(plausible, selected)
    ensures forall i :: 0 <= i < |steps| && steps[i].LoopStep? ==> Priority(setup, steps[i].leader) <= Priority(setup, leader)
  {
  }

  lemma AdvanceKeepsRunOk(setup: Setup, plausible: set<Entry>, st: RunState)
    requires DistinctIds(plausible) && Remaining(plausible, st.selected) != {}
    requires RunOk(setup, plausible, st) && Elems(st.selected) <= plausible && |st.selected| < setup.limit
    ensures
      var next := Advance(st, LoopDecision(setup, plausible, st));
      RunOk(setup, plausible, next) && Elems(next.selected) <= plausible
  {
    var step := LoopDecision(setup, plausible, st);
    DecisionIsOk(setup, plausible, st);
    StepKeepsRunOk(setup, plausible, st, step);
    assert Elems(st.selected + [step.entry]) == Elems(st.selected) + {step.entry};
  }

  lemma StepKeepsRunOk(setup: Setup, plausible: set<Entry>, st: RunState, step: Step)
    requires RunOk(setup, plausible, st) && |st.selected| < setup.limit
    requires step.LoopStep? && LoopStepOk(setup, plausible, st.selected, step) && step.explorationLeft == st.explorationLeft
    ensures RunOk(setup, plausible, Advance(st, step))
  {
    AppendKeepsStepsOk(setup, plausible, st.selected, st.steps, step);
    LeaderIsNoBetterThanBefore(setup, plausible, st.selected, st.steps, step.leader);
    AppendKeepsAscent(setup, st.steps, step);
    AppendKeepsBudget(setup, st.steps, step);
    assert (st.steps + [step])[..|st.steps|] == st.steps;
    assert step.entry !in Elems(st.selected);
  }

  lemma AppendKeepsAscent(setup: Setup, steps: seq<Step>, step: Step)
    requires PrioritiesAscend(setup, steps) && step.LoopStep?
    requires forall i :: 0 <= i < |steps| && steps[i].LoopStep? ==> Priority(setup, steps[i].leader) <= Priority(setup, step.leader)
    ensures PrioritiesAscend(setup, steps + [step])
  {
  }

  lemma {:induction false} LoopKeepsRunOk(setup: Setup, plausible: set<Entry>, st: RunState)
    requires DistinctIds(plausible)
    requires RunOk(setup, plausible, st) && Elems(st.selected) <= plausible
    ensures
      var end := RelevanceLoop(setup, plausible, st);
      && RunOk(setup, plausible, end) && Elems(end.selected) <= plausible
      && (Remaining(plausible, end.selected) == {} || |end.selected| == setup.limit)
    decreases |Remaining(plausible, st.selected)|
  {
    if Remaining(plausible, st.selected) != {} && |st.selected| < setup.limit {
      var step := LoopDecision(setup, plausible, st);
      AdvanceKeepsRunOk(setup, plausible, st);
      var next := Advance(st, step);
      assert Remaining(plausible, next.selected) == Remaining(plausible, st.selected) - {step.entry};
      LoopKeepsRunOk(setup, plausible, next);
    }
  }

  // ---------------------------------------------------------------- coverage and fallback

  /** One pick per bucket, in bucket order. */
  ghost predicate CoveredSoFar(setup: Setup, plausible: set<Entry>, code: nat, selected: seq<Entry>) {
    && |selected| <= setup.limit
    && Elems(selected) <= plausible
    && (forall i, j :: 0 <= i < j < |selected| ==> BucketCode(setup, selected[i]) < BucketCode(setup, selected[j]))
    && (forall i :: 0 <= i < |selected| ==> BucketCode(setup, selected[i]) < code)
  }

  lemma NextIsCovered(setup: Setup, plausible: set<Entry>, code: nat, selected: seq<Entry>, next: seq<Entry>)
    requires CoveredSoFar(setup, plausible, code, selected) && |selected| < setup.limit
    requires next == selected || exists e :: e in plausible && BucketCode(setup, e) == code && next == selected + [e]
    ensures CoveredSoFar(setup, plausible, code + 1, next)
  {
  }

  lemma {:induction false} VisitInduction(next: (nat, seq<Entry>) -> seq<Entry>, limit: nat, code: nat,
                                          selected: seq<Entry>, keeps: (nat, seq<Entry>) -> bool) returns (end: nat)
    requires code <= BUCKET_CODES && keeps(code, selected)
    requires forall c: nat, s :: keeps(c, s) && c < BUCKET_CODES && |s| < limit ==> keeps(c + 1, next(c, s))
    ensures end <= BUCKET_CODES && keeps(end, Visit(next, limit, code, selected))
    ensures end == BUCKET_CODES || |Visit(next, limit, code, selected)| >= limit
    decreases BUCKET_CODES - code
  {
    if code < BUCKET_CODES && |selected| < limit {
      end := VisitInduction(next, limit, code + 1, next(code, selected), keeps);
    } else {
      end := code;
    }
  }

  /** Whatever visiting one bucket keeps, the coverage pass keeps, until the last bucket or the limit. */
  lemma CoverageInduction(setup: Setup, plausible: set<Entry>, keeps: (nat, seq<Entry>) -> bool) returns (end: nat)
    requires DistinctIds(plausible) && keeps(0, [])
    requires forall c: nat, s :: keeps(c, s) && c < BUCKET_CODES && |s| < setup.limit
               ==> keeps(c + 1, CoverNext(setup, plausible, c, s))
    ensures end <= BUCKET_CODES && keeps(end, Coverage(setup, plausible, 0, []))
    ensures end == BUCKET_CODES || |Coverage(setup, plausible, 0, [])| >= setup.limit
  {
    var next := NextSlot(setup, plausible);
    forall c: nat, s | keeps(c, s) && c < BUCKET_CODES && |s| < setup.limit ensures keeps(c + 1, next(c, s)) {
      assert next(c, s) == CoverNext(setup, plausible, c, s);
    }
    end := VisitInduction(next, setup.limit, 0, [], keeps);
  }

  lemma CoverageIsOnePerBucket(setup: Setup, plausible: set<Entry>)
    requires DistinctIds(plausible)
    ensures CoveredSoFar(setup, plausible, BUCKET_CODES, Coverage(setup, plausible, 0, []))
  {
    forall c: nat, s | CoveredSoFar(setup, plausible, c, s) && c < BUCKET_CODES && |s| < setup.limit
      ensures CoveredSoFar(setup, plausible, c + 1, CoverNext(setup, plausible, c, s))
    {
      NextIsCovered(setup, plausible, c, s, CoverNext(setup, plausible, c, s));
    }
    var end := CoverageInduction(setup, plausible, (c: nat, s: seq<Entry>) => CoveredSoFar(setup, plausible, c, s));
  }

  lemma AfterCoverageIsOk(setup: Setup, entries: set<Entry>)
    requires DistinctIds(entries)
    ensures RunOk(setup, Plausible(entries), AfterCoverage(setup, entries))
    ensures Elems(AfterCoverage(setup, entries).selected) <= Plausible(entries)
  {
    var plausible := Plausible(entries);
    CoverageIsOnePerBucket(setup, plausible);
    var st := AfterCoverage(setup, entries);
    NoExplorationWithoutLoop(st.steps);
  }

  lemma {:induction false} NoExplorationWithoutLoop(steps: seq<Step>)
    requires forall i :: 0 <= i < |steps| ==> !steps[i].LoopStep?
    ensures ExplorationCount(steps) == 0
  {
    if steps != [] {
      NoExplorationWithoutLoop(steps[..|steps| - 1]);
    }
  }

  function FallbackNext(st: RunState, e: Entry): RunState {
    RunState(st.selected + [e], st.explorationLeft, st.steps + [FallbackStep(e)])
  }

  lemma FallbackStepKeepsRunOk(setup: Setup, plausible: set<Entry>, st: RunState, e: Entry)
    requires RunOk(setup, plausible, st) && e !in Elems(st.selected) && |st.selected| < setup.limit
    ensures RunOk(setup, plausible, FallbackNext(st, e))
  {
    AppendKeepsStepsOk(setup, plausible, st.selected, st.steps, FallbackStep(e));
    AppendKeepsBudget(setup, st.steps, FallbackStep(e));
    assert (st.steps + [FallbackStep(e)])[..|st.steps|] == st.steps;
  }

  lemma StillDistinct(tooLarge: set<Entry>, selected: seq<Entry>, e: Entry)
    requires DistinctIds(tooLarge) && e in tooLarge && Elems(selected) !! tooLarge
    ensures e !in Elems(selected)
    ensures DistinctIds(tooLarge - {e}) && Elems(selected + [e]) !! tooLarge - {e}
  {
  }

  /** Whatever appending an unselected entry keeps, the fallback keeps. */
  lemma {:induction false} FallbackInduction(setup: Setup, tooLarge: set<Entry>, budget: nat, st: RunState,
                                             keeps: RunState -> bool)
    requires DistinctIds(tooLarge) && Elems(st.selected) !! tooLarge && keeps(st)
    requires forall s, e :: keeps(s) && e !in Elems(s.selected) && |s.selected| < setup.limit ==> keeps(FallbackNext(s, e))
    ensures keeps(Fallback(setup, tooLarge, budget, st))
    decreases budget
  {
    if budget > 0 && tooLarge != {} && |st.selected| < setup.limit {
      var e := Best(ScoreOrder, tooLarge);
      StillDistinct(tooLarge, st.selected, e);
      FallbackInduction(setup, tooLarge - {e}, budget - 1, FallbackNext(st, e), keeps);
    }
  }

  lemma FallbackKeepsRunOk(setup: Setup, plausible: set<Entry>, tooLarge: set<Entry>, budget: nat, st: RunState)
    requires DistinctIds(tooLarge) && RunOk(setup, plausible, st) && Elems(st.selected) !! tooLarge
    ensures RunOk(setup, plausible, Fallback(setup, tooLarge, budget, st))
  {
    forall s, e | RunOk(setup, plausible, s) && e !in Elems(s.selected) && |s.selected| < setup.limit
      ensures RunOk(setup, plausible, FallbackNext(s, e))
    {
      FallbackStepKeepsRunOk(setup, plausible, s, e);
    }
    FallbackInduction(setup, tooLarge, budget, st, s => RunOk(setup, plausible, s));
  }

  lemma FallbackStarts(setup: Setup, tooLarge: set<Entry>, budget: nat, st: RunState)
    requires DistinctIds(tooLarge) && budget > 0 && tooLarge != {} && |st.selected| < setup.limit
    ensures
      var e := Best(ScoreOrder, tooLarge);
      Fallback(setup, tooLarge, budget, st) == Fallback(setup, tooLarge - {e}, budget - 1, FallbackNext(st, e))
  {
  }

  lemma {:induction false} FallbackAppends(setup: Setup, tooLarge: set<Entry>, budget: nat, st: RunState)
    requires DistinctIds(tooLarge) && |st.selected| <= setup.limit
    ensures
      var end := Fallback(setup, tooLarge, budget, st).selected;
      var n := |st.selected|;
      && st.selected <= end
      && |end| == Least(setup.limit, n + Least(budget, |tooLarge|))
      && (forall i :: n <= i < |end| ==> end[i] in tooLarge)
    decreases budget
  {
    if budget > 0 && tooLarge != {} && |st.selected| < setup.limit {
      var e := Best(ScoreOrder, tooLarge);
      var rest := tooLarge - {e};
      FallbackAppends(setup, rest, budget - 1, FallbackNext(st, e));
      assert |rest| == |tooLarge| - 1;
      FallbackStarts(setup, tooLarge, budget, st);
    }
  }

  /** An entry the fallback passed over comes after everything it took. */
  lemma {:induction false} FallbackTakesBest(setup: Setup, tooLarge: set<Entry>, budget: nat, st: RunState,
                                             x: Entry, i: nat)
    requires DistinctIds(tooLarge) && |st.selected| <= setup.limit && x in tooLarge
    requires x !in Fallback(setup, tooLarge, budget, st).selected
    requires |st.selected| <= i < |Fallback(setup, tooLarge, budget, st).selected|
    ensures Before(ScoreOrder, Fallback(setup, tooLarge, budget, st).selected[i], x)
    decreases budget
  {
    var end := Fallback(setup, tooLarge, budget, st).selected;
    FallbackAppends(setup, tooLarge, budget, st);
    var e, next := Best(ScoreOrder, tooLarge), FallbackNext(st, Best(ScoreOrder, tooLarge));
    FallbackStarts(setup, tooLarge, budget, st);
    FallbackAppends(setup, tooLarge - {e}, budget - 1, next);
    assert next.selected <= end;
    assert end[|st.selected|] == next.selected[|st.selected|] == e;
    if i > |st.selected| {
      FallbackTakesBest(setup, tooLarge - {e}, budget - 1, next, x, i);
    }
  }

  // ---------------------------------------------------------------- main results

  lemma {:induction false} CountElems(s: seq<Entry>)
    requires Distinct(s)
    ensures |Elems(s)| == |s|
  {
    if s != [] {
      CountElems(s[1..]);
      assert Elems(s) == Elems(s[1..]) + {s[0]};
    }
  }

  lemma LoopFillsTheLimit(setup: Setup, entries: set<Entry>)
    requires DistinctIds(entries)
    ensures
      var end := RelevanceLoop(setup, Plausible(entries), AfterCoverage(setup, entries));
      && RunOk(setup, Plausible(entries), end)
      && Elems(end.selected) <= Plausible(entries)
      && |end.selected| == Least(setup.limit, |Plausible(entries)|)
      && (|end.selected| < setup.limit ==> Elems(end.selected) == Plausible(entries))
  {
    var plausible := Plausible(entries);
    AfterCoverageIsOk(setup, entries);
    LoopKeepsRunOk(setup, plausible, AfterCoverage(setup, entries));
    var end := RelevanceLoop(setup, plausible, AfterCoverage(setup, entries));
    CountElems(end.selected);
    if |end.selected| < setup.limit {
      forall e | e in plausible ensures e in Elems(end.selected) {
        assert e !in Remaining(plausible, end.selected);
      }
      assert Elems(end.selected) == plausible;
    } else {
      SubsetCount(Elems(end.selected), plausible);
    }
  }

  lemma SubsetCount(a: set<Entry>, b: set<Entry>)
    requires a <= b
    ensures |a| <= |b|
  {
    assert b == a + (b - a);
  }

  /** Every run keeps the invariant: each relevance pick has least priority and a top score there, each
      exploration pick is new and comparable, priorities only ascend, and exploration stays in budget. */
  lemma EveryRunIsOk(setup: Setup, entries: set<Entry>)
    requires DistinctIds(entries)
    ensures RunOk(setup, Plausible(entries), Run(setup, entries))
    ensures ExplorationCount(Run(setup, entries).steps) <= setup.ExplorationBudget()
  {
    LoopFillsTheLimit(setup, entries);
    FallbackKeepsRunOk(setup, Plausible(entries), TooLargeOnes(entries), MAX_TOO_LARGE_FALLBACKS,
                       RelevanceLoop(setup, Plausible(entries), AfterCoverage(setup, entries)));
  }

  /** The exact size, no repetition, nothing invented, and the too-large entries last: at most two of them,
      and none before every plausible entry is in. */
  lemma RunShape(setup: Setup, entries: set<Entry>)
    requires DistinctIds(entries)
    ensures
      var s := Run(setup, entries).selected;
      var p := Least(setup.limit, |Plausible(entries)|);
      && |s| == Least(setup.limit, |Plausible(entries)| + Least(MAX_TOO_LARGE_FALLBACKS, |TooLargeOnes(entries)|))
      && Distinct(s) && Elems(s) <= entries
      && (forall i :: 0 <= i < p ==> s[i] in Plausible(entries))
      && (forall i :: p <= i < |s| ==> s[i] in TooLargeOnes(entries))
      && |s| - p <= MAX_TOO_LARGE_FALLBACKS
      && (|s| > p ==> Elems(s[..p]) == Plausible(entries))
  {
    var plausible, tooLarge := Plausible(entries), TooLargeOnes(entries);
    LoopShape(setup, entries);
    RunIsDistinct(setup, entries);
    var mid := RelevanceLoop(setup, plausible, AfterCoverage(setup, entries));
    FallbackAppends(setup, tooLarge, MAX_TOO_LARGE_FALLBACKS, mid);
    var s := Run(setup, entries).selected;
    var p := |mid.selected|;
    assert s[..p] == mid.selected;
    forall i | 0 <= i < p ensures s[i] in plausible {
      assert s[i] == mid.selected[i] && s[i] in Elems(mid.selected);
    }
    AllAmong(s, entries);
  }

  lemma AllAmong(s: seq<Entry>, entries: set<Entry>)
    requires forall i :: 0 <= i < |s| ==> s[i] in entries
    ensures Elems(s) <= entries
  {
  }

  /** What later stages do: they append steps of their own kind and leave the rest as it was. */
  ghost predicate Extends(before: RunState, after: RunState) {
    && before.selected <= after.selected && before.steps <= after.steps
    && |after.steps| - |before.steps| == |after.selected| - |before.selected|
  }

  /** Whatever any loop step keeps, the loop keeps. */
  lemma {:induction false} LoopInduction(setup: Setup, plausible: set<Entry>, st: RunState, keeps: RunState -> bool)
    requires DistinctIds(plausible) && keeps(st)
    requires forall s, step: Step :: keeps(s) && step.LoopStep? && (step.explored ==> s.explorationLeft > 0)
               ==> keeps(Advance(s, step))
    ensures keeps(RelevanceLoop(setup, plausible, st))
    decreases |Remaining(plausible, st.selected)|
  {
    if Remaining(plausible, st.selected) != {} && |st.selected| < setup.limit {
      LoopUnfolds(setup, plausible, st);
      LoopInduction(setup, plausible, Advance(st, LoopDecision(setup, plausible, st)), keeps);
    }
  }

  lemma LoopUnfolds(setup: Setup, plausible: set<Entry>, st: RunState)
    requires DistinctIds(plausible) && Remaining(plausible, st.selected) != {} && |st.selected| < setup.limit
    ensures
      var step := LoopDecision(setup, plausible, st);
      var next := Advance(st, step);
      && RelevanceLoop(setup, plausible, st) == RelevanceLoop(setup, plausible, next)
      && Remaining(plausible, next.selected) == Remaining(plausible, st.selected) - {step.entry}
  {
  }

  ghost predicate OnlyLoopSteps(start: RunState, end: RunState) {
    Extends(start, end) && forall i :: |start.steps| <= i < |end.steps| ==> end.steps[i].LoopStep?
  }

  lemma LoopAppends(setup: Setup, plausible: set<Entry>, st: RunState)
    requires DistinctIds(plausible)
    ensures OnlyLoopSteps(st, RelevanceLoop(setup, plausible, st))
  {
    LoopInduction(setup, plausible, st, s => OnlyLoopSteps(st, s));
  }

  lemma {:induction false} FallbackStepsAppend(setup: Setup, tooLarge: set<Entry>, budget: nat, st: RunState)
    requires DistinctIds(tooLarge)
    ensures
      var end := Fallback(setup, tooLarge, budget, st);
      Extends(st, end) && forall i :: |st.steps| <= i < |end.steps| ==> end.steps[i].FallbackStep?
    decreases budget
  {
    if budget > 0 && tooLarge != {} && |st.selected| < setup.limit {
      FallbackStarts(setup, tooLarge, budget, st);
      var e := Best(ScoreOrder, tooLarge);
      FallbackStepsAppend(setup, tooLarge - {e}, budget - 1, FallbackNext(st, e));
    }
  }

  /** The trace is what coverage picked, then one loop step for every further plausible entry, then the
      fallback: no step can pass for one of another stage. */
  lemma RunStages(setup: Setup, entries: set<Entry>)
    requires DistinctIds(entries)
    ensures
      var run, covered := Run(setup, entries), AfterCoverage(setup, entries).selected;
      var p := Least(setup.limit, |Plausible(entries)|);
      && |covered| <= p <= |run.steps| == |run.selected|
      && covered <= run.selected
      && (forall i :: 0 <= i < |covered| ==> run.steps[i] == CoverageStep(covered[i]))
      && (forall i :: |covered| <= i < p ==> run.steps[i].LoopStep?)
      && (forall i :: p <= i < |run.steps| ==> run.steps[i].FallbackStep?)
  {
    var start := AfterCoverage(setup, entries);
    LoopAppends(setup, Plausible(entries), start);
    LoopShape(setup, entries);
    FallbackStepsAppend(setup, TooLargeOnes(entries), MAX_TOO_LARGE_FALLBACKS,
                        RelevanceLoop(setup, Plausible(entries), start));
  }

  /** The too-large suffix is the best of the too-large entries. */
  lemma FallbackIsTheBest(setup: Setup, entries: set<Entry>, x: Entry, i: nat)
    requires DistinctIds(entries) && x in TooLargeOnes(entries) && x !in Run(setup, entries).selected
    requires Least(setup.limit, |Plausible(entries)|) <= i < |Run(setup, entries).selected|
    ensures Before(ScoreOrder, Run(setup, entries).selected[i], x)
  {
    LoopShape(setup, entries);
    FallbackTakesBest(setup, TooLargeOnes(entries), MAX_TOO_LARGE_FALLBACKS,
                      RelevanceLoop(setup, Plausible(entries), AfterCoverage(setup, entries)), x, i);
  }

  lemma LoopShape(setup: Setup, entries: set<Entry>)
    requires DistinctIds(entries)
    ensures
      var s := RelevanceLoop(setup, Plausible(entries), AfterCoverage(setup, entries)).selected;
      && Elems(s) <= Plausible(entries) && |s| == Least(setup.limit, |Plausible(entries)|)
      && (|s| < setup.limit ==> Elems(s) == Plausible(entries))
  {
    LoopFillsTheLimit(setup, entries);
  }

  lemma RunIsDistinct(setup: Setup, entries: set<Entry>)
    requires DistinctIds(entries)
    ensures Distinct(Run(setup, entries).selected)
  {
    EveryRunIsOk(setup, entries);
  }

  /** Between two relevance picks the priority never falls, so family diversity only ever broke ties. */
  lemma RelevancePicksAscend(setup: Setup, entries: set<Entry>, i: nat, j: nat)
    requires DistinctIds(entries)
    requires i < j < |Run(setup, entries).steps|
    requires
      var steps := Run(setup, entries).steps;
      steps[i].LoopStep? && !steps[i].explored && steps[j].LoopStep? && !steps[j].explored
    ensures
      var s := Run(setup, entries).selected;
      |s| == |Run(setup, entries).steps| && Priority(setup, s[i]) <= Priority(setup, s[j])
  {
    EveryRunIsOk(setup, entries);
  }
}
