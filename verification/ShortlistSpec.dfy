/** What the hardware-aware shortlist selects, as a function of the SET of entries: no list, no order of
    arrival, no mutable collection. ShortlistRun proves what every run keeps; Shortlist proves that the
    list-mutating code computes this function. */
module ShortlistSpec {
  import opened Common
  import opened Placement
  import opened Sizing
  import opened Ordering

  /** Only inside this score distance may diversity decide. */
  const SCORE_TIE_EPSILON := 0.000000001

  /** log(100), as the nearest double. */
  const MAX_EXPLORATION_SCORE_GAP := 4.605170185988092
  const MAX_DOWNLOAD_RATIO := 100
  const MAX_TOO_LARGE_FALLBACKS: nat := 2

  /** quality: Quality priority on a machine that does not need small-model coverage. */
  datatype Setup = Setup(limit: nat, coverSmall: bool, cpuFirst: bool, quality: bool) {
    function Relevance(): Order { RelevanceOrder(coverSmall, cpuFirst) }

    function ExplorationBudget(): nat { if quality then limit / 2 else limit / 4 }

    function Class(e: Entry): nat { ModeOrder(e.mode, cpuFirst) }
  }

  function Redundancies(selected: seq<Entry>): set<Redundancy> { set e | e in selected :: e.Redundancy() }

  function Families(selected: seq<Entry>): set<string> { set e | e in selected :: e.candidate.family }

  function Versions(selected: seq<Entry>): set<Version> { set e | e in selected :: e.Version() }

  // ---------------------------------------------------------------- picking among ties

  ghost function NewInSize(tied: set<Entry>, reds: set<Redundancy>): set<Entry> {
    set e | e in tied && e.Redundancy() !in reds
  }

  ghost function NewInBoth(tied: set<Entry>, reds: set<Redundancy>, fams: set<string>): set<Entry> {
    set e | e in tied && e.Redundancy() !in reds && e.candidate.family !in fams
  }

  /** Those new in size class and family; failing that, new in size class; failing that, all. */
  ghost function Preferred(tied: set<Entry>, reds: set<Redundancy>, fams: set<string>): (p: set<Entry>)
    ensures p <= tied && (tied != {} ==> p != {})
  {
    if NewInBoth(tied, reds, fams) != {} then NewInBoth(tied, reds, fams)
    else if NewInSize(tied, reds) != {} then NewInSize(tied, reds)
    else tied
  }

  ghost function Pick(o: Order, tied: set<Entry>, reds: set<Redundancy>, fams: set<string>): (e: Entry)
    requires tied != {} && DistinctIds(tied)
    ensures e in tied
  {
    Best(o, Preferred(tied, reds, fams))
  }

  // ---------------------------------------------------------------- coverage

  const BUCKET_CODES: nat := 120

  /** Ascending codes are the order in which the buckets are visited: placement class, then (when small
      models are covered) larger before small, then size class. */
  function BucketCode(setup: Setup, e: Entry): nat {
    var size := ScaleOrder(e.candidate.billions);
    var billions := e.candidate.billions;
    var split := setup.coverSmall && billions.Some? && SMALL_COVERAGE_SPLIT < billions.value <= SMALL_MAX;
    24 * setup.Class(e) + 12 * Flag(setup.coverSmall && e.Small())
    + (if setup.coverSmall then 2 * size + Flag(split) else size)
  }

  ghost function Bucket(setup: Setup, plausible: set<Entry>, code: nat): set<Entry> {
    set e | e in plausible && BucketCode(setup, e) == code
  }

  predicate InBestClass(setup: Setup, plausible: set<Entry>, e: Entry) {
    e.mode.Some? && forall x :: x in plausible && x.mode.Some? ==> setup.Class(e) <= setup.Class(x)
  }

  predicate LargerInBestClass(setup: Setup, plausible: set<Entry>) {
    exists e :: e in plausible && InBestClass(setup, plausible, e) && !e.Small()
  }

  ghost function TiedWith(head: Entry, bucket: set<Entry>): set<Entry> {
    set e | e in bucket && e.score >= head.score - SCORE_TIE_EPSILON && e.otherTask == head.otherTask
  }

  ghost function CoveragePick(setup: Setup, plausible: set<Entry>, bucket: set<Entry>,
                              selected: seq<Entry>): (p: Option<Entry>)
    requires DistinctIds(bucket)
    ensures p.Some? ==> p.value in bucket
  {
    if bucket == {} then None
    else
      var first := Best(CoverageOrder, bucket);
      var order := if first.mode.None? then UnknownSizeOrder else CoverageOrder;
      var head := Best(order, bucket);
      if first.mode.None? && !head.HasTextSignal() then None
      else if first.mode.Some? && !InBestClass(setup, plausible, first) then None
      else if LargerInBestClass(setup, plausible) && !setup.coverSmall && head.Small() then None
      else
        assert head in TiedWith(head, bucket);
        Some(Pick(order, TiedWith(head, bucket), Redundancies(selected), Families(selected)))
  }

  ghost function CoverNext(setup: Setup, plausible: set<Entry>, code: nat, selected: seq<Entry>): (next: seq<Entry>)
    requires DistinctIds(plausible)
    ensures next == selected
         || exists e :: e in plausible && BucketCode(setup, e) == code && next == selected + [e]
  {
    var pick := CoveragePick(setup, plausible, Bucket(setup, plausible, code), selected);
    if pick.Some? then selected + [pick.value] else selected
  }

  /** Visiting the buckets from code on, each adding what next says, until the limit. */
  function Visit(next: (nat, seq<Entry>) -> seq<Entry>, limit: nat, code: nat, selected: seq<Entry>): seq<Entry>
    decreases BUCKET_CODES - code
  {
    if code >= BUCKET_CODES || |selected| >= limit then selected
    else Visit(next, limit, code + 1, next(code, selected))
  }

  ghost function NextSlot(setup: Setup, plausible: set<Entry>): (nat, seq<Entry>) -> seq<Entry>
    requires DistinctIds(plausible)
  {
    (code: nat, selected: seq<Entry>) => CoverNext(setup, plausible, code, selected)
  }

  /** What the coverage pass has selected once the buckets from code on have been visited. */
  ghost function Coverage(setup: Setup, plausible: set<Entry>, code: nat, selected: seq<Entry>): seq<Entry>
    requires DistinctIds(plausible)
  {
    Visit(NextSlot(setup, plausible), setup.limit, code, selected)
  }

  // ---------------------------------------------------------------- the relevance loop

  datatype Step =
    | CoverageStep(entry: Entry)
    | LoopStep(entry: Entry, explored: bool, leader: Entry, relevanceGroup: set<Entry>,
               explorationLeft: nat, explorationGroup: set<Entry>, novel: set<Entry>,
               selectedVersions: set<Version>)
    | FallbackStep(entry: Entry)
  {
    /** The entries the step chose among. */
    function DecisionGroup(): set<Entry> {
      match this
      case CoverageStep(e) => {e}
      case FallbackStep(e) => {e}
      case LoopStep(_, explored, _, relevanceGroup, _, _, novel, _) => if explored then novel else relevanceGroup
    }
  }

  datatype RunState = RunState(selected: seq<Entry>, explorationLeft: nat, steps: seq<Step>)

  predicate SameGroup(setup: Setup, a: Entry, b: Entry) {
    && setup.Class(a) == setup.Class(b)
    && (setup.coverSmall || a.Small() == b.Small())
    && a.otherTask == b.otherTask
  }

  ghost function RelevanceGroup(setup: Setup, remaining: set<Entry>, leader: Entry): set<Entry> {
    set e | e in remaining && SameGroup(setup, e, leader)
  }

  ghost function ExplorationGroup(setup: Setup, remaining: set<Entry>, leader: Entry): set<Entry> {
    if setup.quality && leader.mode == Some(GpuResident) then
      set e | e in remaining && e.mode in {Some(GpuResident), Some(GpuOffload)} && !e.Small()
              && e.otherTask == leader.otherTask
    else RelevanceGroup(setup, remaining, leader)
  }

  /** Not across an arbitrary evidence gap: a hundredfold in downloads for Quality, the log of it in
      desirability otherwise. */
  predicate WithinEvidenceGap(setup: Setup, e: Entry, leader: Entry) {
    if setup.quality then MAX_DOWNLOAD_RATIO * (1 + e.Downloads()) >= 1 + leader.Downloads()
    else e.score - FitBonus(e.mode) >= leader.score - FitBonus(leader.mode) - MAX_EXPLORATION_SCORE_GAP
  }

  predicate IsNew(setup: Setup, e: Entry, reds: set<Redundancy>, versions: set<Version>) {
    if setup.quality then e.Version() !in versions else e.Redundancy() !in reds
  }

  ghost function Novel(setup: Setup, group: set<Entry>, leader: Entry, selected: seq<Entry>): set<Entry> {
    set e | e in group && IsNew(setup, e, Redundancies(selected), Versions(selected))
            && WithinEvidenceGap(setup, e, leader)
  }

  function Near(a: Entry, b: Entry): bool {
    -SCORE_TIE_EPSILON <= a.score - b.score <= SCORE_TIE_EPSILON
  }

  /** Versions already selected wait behind the others of the group. */
  ghost function Waiting(group: set<Entry>, versions: set<Version>): set<Entry> {
    var unseen := set e | e in group && e.Version() !in versions;
    if unseen != {} then unseen else group
  }

  ghost function Choose(o: Order, group: set<Entry>, selected: seq<Entry>): (e: Entry)
    requires group != {} && DistinctIds(group)
    ensures e in Waiting(group, Versions(selected))
    ensures Near(e, Best(o, Waiting(group, Versions(selected))))
  {
    var waiting := Waiting(group, Versions(selected));
    var first := Best(o, waiting);
    var tied := set e | e in waiting && Near(e, first);
    assert first in tied;
    Pick(o, tied, Redundancies(selected), Families(selected))
  }

  ghost function Remaining(plausible: set<Entry>, selected: seq<Entry>): set<Entry> {
    plausible - Elems(selected)
  }

  ghost function LoopDecision(setup: Setup, plausible: set<Entry>, st: RunState): (step: Step)
    requires DistinctIds(plausible) && Remaining(plausible, st.selected) != {}
    ensures step.LoopStep? && step.entry in Remaining(plausible, st.selected)
    ensures step.explored ==> st.explorationLeft > 0
  {
    var remaining := Remaining(plausible, st.selected);
    var leader := Best(setup.Relevance(), remaining);
    var group := RelevanceGroup(setup, remaining, leader);
    assert leader in group;
    var explorationGroup := ExplorationGroup(setup, remaining, leader);
    var novel := Novel(setup, explorationGroup, leader, st.selected);
    var explored := st.explorationLeft > 0 && novel != {};
    var order := if explored then ExplorationOrder(setup.quality) else setup.Relevance();
    LoopStep(Choose(order, if explored then novel else group, st.selected), explored, leader, group,
             st.explorationLeft, explorationGroup, novel, Versions(st.selected))
  }

  ghost function Advance(st: RunState, step: Step): RunState
    requires step.LoopStep? && (step.explored ==> st.explorationLeft > 0)
  {
    RunState(st.selected + [step.entry],
             if step.explored then st.explorationLeft - 1 else st.explorationLeft,
             st.steps + [step])
  }

  ghost function RelevanceLoop(setup: Setup, plausible: set<Entry>, st: RunState): RunState
    requires DistinctIds(plausible)
    decreases |Remaining(plausible, st.selected)|
  {
    if Remaining(plausible, st.selected) == {} || |st.selected| >= setup.limit then st
    else
      var step := LoopDecision(setup, plausible, st);
      var next := Advance(st, step);
      assert Remaining(plausible, next.selected) == Remaining(plausible, st.selected) - {step.entry};
      RelevanceLoop(setup, plausible, next)
  }

  // ---------------------------------------------------------------- fallback and the whole run

  ghost function Fallback(setup: Setup, tooLarge: set<Entry>, budget: nat, st: RunState): RunState
    requires DistinctIds(tooLarge)
    decreases budget
  {
    if budget == 0 || tooLarge == {} || |st.selected| >= setup.limit then st
    else
      var e := Best(ScoreOrder, tooLarge);
      Fallback(setup, tooLarge - {e}, budget - 1,
               RunState(st.selected + [e], st.explorationLeft, st.steps + [FallbackStep(e)]))
  }

  function Plausible(entries: set<Entry>): set<Entry> { set e | e in entries && e.mode != Some(TooLarge) }

  function TooLargeOnes(entries: set<Entry>): set<Entry> { set e | e in entries && e.mode == Some(TooLarge) }

  ghost function AfterCoverage(setup: Setup, entries: set<Entry>): RunState
    requires DistinctIds(entries)
  {
    var covered := Coverage(setup, Plausible(entries), 0, []);
    RunState(covered, setup.ExplorationBudget(), seq(|covered|, i requires 0 <= i < |covered| => CoverageStep(covered[i])))
  }

  ghost function Run(setup: Setup, entries: set<Entry>): RunState
    requires DistinctIds(entries)
  {
    var st := RelevanceLoop(setup, Plausible(entries), AfterCoverage(setup, entries));
    Fallback(setup, TooLargeOnes(entries), MAX_TOO_LARGE_FALLBACKS, st)
  }
}
