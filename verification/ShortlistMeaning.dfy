/** What a run of the shortlist promises in the caller's own terms: placements by rank, sizes in billions,
    downloads and scores, with no class number, no size label and no sort key. */
module ShortlistMeaning {
  import opened Common
  import opened Placement
  import opened Sizing
  import opened Ordering
  import opened ShortlistSpec
  import opened ShortlistRun
  import opened Shortlist
  import opened Text
  import Cover = ShortlistCoverage

  // ---------------------------------------------------------------- sizes and placements

  predicate SmallSized(e: Entry) { e.candidate.billions.Some? && e.candidate.billions.value <= 4.0 }

  /** The same of the six size classes: at most 1, 4, 14 or 32 billion, larger, or unknown. */
  predicate SameSizeClass(a: Entry, b: Entry) {
    match (a.candidate.billions, b.candidate.billions)
    case (None, None) => true
    case (Some(x), Some(y)) =>
      (x <= 1.0 <==> y <= 1.0) && (x <= 4.0 <==> y <= 4.0) && (x <= 14.0 <==> y <= 14.0) && (x <= 32.0 <==> y <= 32.0)
    case _ => false
  }

  predicate SameVersion(a: Entry, b: Entry) {
    a.candidate.family == b.candidate.family && a.candidate.billions == b.candidate.billions
  }

  /** The same option: family, size class and placement. */
  predicate SameOption(a: Entry, b: Entry) {
    a.candidate.family == b.candidate.family && SameSizeClass(a, b) && a.mode == b.mode
  }

  /** A known placement before an unknown one; of two known ones, the better first. */
  predicate NoWorse(a: Entry, b: Entry) {
    b.mode.None? || (a.mode.Some? && Rank(a.mode.value) <= Rank(b.mode.value))
  }

  /** No later in line: placement first, then larger models before small ones (unless small ones are covered),
      then models that do not advertise another task. */
  predicate NoLater(coverSmall: bool, a: Entry, b: Entry) {
    && NoWorse(a, b)
    && (a.mode == b.mode ==>
          && (!coverSmall && SmallSized(a) ==> SmallSized(b))
          && ((coverSmall || SmallSized(a) == SmallSized(b)) && a.otherTask ==> b.otherTask))
  }

  predicate SamePlace(coverSmall: bool, a: Entry, b: Entry) { NoLater(coverSmall, a, b) && NoLater(coverSmall, b, a) }

  // ---------------------------------------------------------------- what the code builds

  function Bonus(mode: Option<Mode>): real {
    if mode == Some(GpuResident) then 4.0
    else if mode == Some(GpuOffload) then 3.0
    else if mode == Some(CpuRam) then 1.5
    else if mode.None? then 0.0
    else -9.0
  }

  /** A machine with no device to plan with never places anything on one, and a score is the candidate's
      desirability and the bonus of its placement. */
  predicate Built(setup: Setup, entries: set<Entry>) {
    forall e :: e in entries ==>
      && (setup.cpuFirst ==> e.mode in {None, Some(CpuRam), Some(TooLarge)})
      && e.score == e.candidate.desirability + Bonus(e.mode)
  }

  lemma OfferedIsDiscrete(c: Candidate, hw: Hardware)
    ensures CandidateVram(c, hw).Some? ==> HasDiscrete(hw, CandidateVram(c, hw).value)
  {
    if CandidateVram(c, hw).Some? {
      CandidateVramIsOneDevice(c, hw, CandidateVram(c, hw).value);
    }
  }

  /** The setup in the machine's and the caller's terms, and what is built for it. */
  lemma SetupMeans(limit: nat, candidates: set<Candidate>, req: Requirements, hw: Hardware, targets: Candidate -> bool)
    ensures
      var setup, largest := SetupOf(limit, req, hw), LargestFitting(hw, req);
      && setup.limit == limit
      && (setup.cpuFirst <==> forall bytes :: !HasDiscrete(hw, bytes))
      && (setup.coverSmall <==> largest.Some? && 0.0 < largest.value <= 14.0)
      && (setup.quality <==> req.priority == Quality && !setup.coverSmall)
    ensures Built(SetupOf(limit, req, hw), EntriesOf(candidates, req, hw, targets))
  {
    var setup, entries := SetupOf(limit, req, hw), EntriesOf(candidates, req, hw, targets);
    if PlanningVram(hw).Some? {
      PlanningVramIsOneDevice(hw, PlanningVram(hw).value);
    }
    LargestOfIsOne(hw.gpuBytes);
    LargestPlanningIsOne(hw.accelerators);
    forall e | e in entries && setup.cpuFirst ensures e.mode in {None, Some(CpuRam), Some(TooLarge)} {
      OfferedIsDiscrete(e.candidate, hw);
    }
  }

  /** One entry per candidate, with its placement on this machine and its own other-task flag. */
  lemma EntriesAre(candidates: set<Candidate>, req: Requirements, hw: Hardware, targets: Candidate -> bool)
    ensures
      var entries := EntriesOf(candidates, req, hw, targets);
      && (forall c :: c in candidates ==> exists e :: e in entries && e.candidate == c)
      && (forall e :: e in entries ==>
            e.candidate in candidates && e.mode == PlacementMode(e.candidate, req, hw) && e.otherTask == targets(e.candidate))
  {
    var entries := EntriesOf(candidates, req, hw, targets);
    forall c | c in candidates ensures exists e :: e in entries && e.candidate == c {
      assert EntryOf(c, req, hw, targets) in entries;
    }
  }

  // ---------------------------------------------------------------- the orders, in these terms

  lemma ClassIsRank(setup: Setup, entries: set<Entry>, a: Entry, b: Entry)
    requires Built(setup, entries) && a in Plausible(entries) && b in Plausible(entries)
    ensures setup.Class(a) <= setup.Class(b) <==> NoWorse(a, b)
    ensures a.Small() <==> SmallSized(a)
  {
  }

  lemma PriorityIsLine(setup: Setup, entries: set<Entry>, a: Entry, b: Entry)
    requires Built(setup, entries) && a in Plausible(entries) && b in Plausible(entries)
    ensures ShortlistRun.Priority(setup, a) <= ShortlistRun.Priority(setup, b) <==> NoLater(setup.coverSmall, a, b)
  {
    ClassIsRank(setup, entries, a, b);
    ClassIsRank(setup, entries, b, a);
  }

  lemma KeysAre(a: Entry, b: Entry)
    ensures a.Version() == b.Version() <==> SameVersion(a, b)
    ensures a.Redundancy() == b.Redundancy() <==> SameOption(a, b)
  {
  }

  // ---------------------------------------------------------------- the coverage pass

  /** Everything of known size that the coverage pass takes has the best placement on offer, and is small only
      if all there is in that placement is small; and it takes something of unknown size only if something of
      unknown size is GGUF or declares a text pipeline. */
  lemma CoverageTakesTheBestPlaced(setup: Setup, entries: set<Entry>, i: nat)
    requires DistinctIds(entries) && Built(setup, entries) && i < |AfterCoverage(setup, entries).selected|
    ensures
      var e := AfterCoverage(setup, entries).selected[i];
      && e in entries && e.mode != Some(TooLarge)
      && (e.mode.Some? ==>
            forall x :: x in entries && x.mode.Some? && x.mode != Some(TooLarge) ==> Rank(e.mode.value) <= Rank(x.mode.value))
      && (!setup.coverSmall && e.mode.Some? && SmallSized(e) ==>
            forall x :: x in entries && x.mode == e.mode ==> SmallSized(x))
      && (e.mode.None? ==>
            exists x :: x in entries && x.mode.None? && (x.candidate.isGguf || x.candidate.declaresTextPipeline))
  {
    var plausible, covered := Plausible(entries), AfterCoverage(setup, entries).selected;
    var e := covered[i];
    var bucket := Bucket(setup, plausible, BucketCode(setup, e));
    Cover.CoverageIsPicks(setup, entries);
    assert Cover.IsPickOfItsBucket(setup, plausible, covered, i);
    Cover.PickedIffEligible(setup, plausible, BucketCode(setup, e), covered[..i]);
    assert e in bucket && Cover.Eligible(setup, plausible, bucket);
    forall x | x in entries && x.mode.Some? && x.mode != Some(TooLarge) && e.mode.Some? ensures NoWorse(e, x) {
      ClassIsRank(setup, entries, e, x);
      assert InBestClass(setup, plausible, e) && x in plausible;
    }
    forall x | x in entries && x.mode == e.mode && !setup.coverSmall && e.mode.Some? && SmallSized(e)
      ensures SmallSized(x)
    {
      ClassIsRank(setup, entries, x, e);
      ClassIsRank(setup, entries, e, x);
      assert x in plausible && InBestClass(setup, plausible, x);
    }
    if e.mode.None? {
      SameModes(setup, plausible, bucket, e);
    }
  }

  lemma SameModes(setup: Setup, plausible: set<Entry>, bucket: set<Entry>, e: Entry)
    requires bucket == Bucket(setup, plausible, BucketCode(setup, e)) && e in bucket
    ensures forall x :: x in bucket ==> x.mode == e.mode
  {
    forall x | x in bucket ensures x.mode == e.mode {
      Cover.SameBucketSameMode(setup, plausible, BucketCode(setup, e), x, e);
    }
  }

  /** Its slots go from better to worse placement and, within one, from smaller to larger; where small models
      are covered, all larger ones come before them. */
  lemma CoverageGoesBySize(setup: Setup, entries: set<Entry>, i: nat, j: nat)
    requires DistinctIds(entries) && Built(setup, entries) && i < j < |AfterCoverage(setup, entries).selected|
    ensures
      var a, b := AfterCoverage(setup, entries).selected[i], AfterCoverage(setup, entries).selected[j];
      && NoWorse(a, b)
      && (a.mode == b.mode && setup.coverSmall && SmallSized(a) ==> SmallSized(b))
      && (a.mode == b.mode && a.candidate.billions.Some? && b.candidate.billions.Some?
          && (!setup.coverSmall || SmallSized(a) == SmallSized(b))
          ==> a.candidate.billions.value < b.candidate.billions.value)
  {
    var covered := AfterCoverage(setup, entries).selected;
    CoverageIsOnePerBucket(setup, Plausible(entries));
    assert covered[i] in Elems(covered) && covered[j] in Elems(covered);
    CodeGoesBySize(setup, entries, covered[i], covered[j]);
  }

  lemma CodeGoesBySize(setup: Setup, entries: set<Entry>, a: Entry, b: Entry)
    requires Built(setup, entries) && a in Plausible(entries) && b in Plausible(entries)
    requires BucketCode(setup, a) < BucketCode(setup, b)
    ensures NoWorse(a, b)
    ensures a.mode == b.mode && setup.coverSmall && SmallSized(a) ==> SmallSized(b)
    ensures a.mode == b.mode && a.candidate.billions.Some? && b.candidate.billions.Some?
            && (!setup.coverSmall || SmallSized(a) == SmallSized(b))
            ==> a.candidate.billions.value < b.candidate.billions.value
  {
    ClassIsRank(setup, entries, a, b);
    Cover.CodeOrder(setup, a, b);
  }

  /** Among ties, one of a new option and a new family if there is any, else one of a new option. */
  lemma PickIsFresh(o: Order, tied: set<Entry>, selected: seq<Entry>)
    requires tied != {} && DistinctIds(tied)
    ensures
      var pick := Pick(o, tied, Redundancies(selected), Families(selected));
      && pick in tied
      && ((exists e :: e in tied && NewOption(e, selected) && NewFamily(e, selected))
          ==> NewOption(pick, selected) && NewFamily(pick, selected))
      && ((exists e :: e in tied && NewOption(e, selected)) ==> NewOption(pick, selected))
  {
    forall e | e in tied
      ensures e.Redundancy() !in Redundancies(selected) <==> NewOption(e, selected)
      ensures e.candidate.family !in Families(selected) <==> NewFamily(e, selected)
    {
      OptionIsNew(e, selected);
    }
    assert forall e :: e in tied && NewOption(e, selected) ==> e in NewInSize(tied, Redundancies(selected));
    assert forall e :: e in tied && NewOption(e, selected) && NewFamily(e, selected)
             ==> e in NewInBoth(tied, Redundancies(selected), Families(selected));
  }

  ghost predicate NewOption(e: Entry, selected: seq<Entry>) { forall x :: x in selected ==> !SameOption(x, e) }

  ghost predicate NewVersion(e: Entry, selected: seq<Entry>) { forall x :: x in selected ==> !SameVersion(x, e) }

  ghost predicate NewFamily(e: Entry, selected: seq<Entry>) {
    forall x :: x in selected ==> x.candidate.family != e.candidate.family
  }

  lemma OptionIsNew(e: Entry, selected: seq<Entry>)
    ensures e.Redundancy() !in Redundancies(selected) <==> NewOption(e, selected)
    ensures e.Version() !in Versions(selected) <==> NewVersion(e, selected)
    ensures e.candidate.family !in Families(selected) <==> NewFamily(e, selected)
  {
    forall x | x in selected
      ensures x.Version() == e.Version() <==> SameVersion(x, e)
      ensures x.Redundancy() == e.Redundancy() <==> SameOption(x, e)
      ensures x.Redundancy() in Redundancies(selected) && x.Version() in Versions(selected)
      ensures x.candidate.family in Families(selected)
    {
      KeysAre(x, e);
    }
  }

  // ---------------------------------------------------------------- the relevance loop

  /** What the caller could still be given at step i. */
  ghost predicate Open(entries: set<Entry>, selected: seq<Entry>, i: nat, e: Entry)
    requires i <= |selected|
  {
    e in entries && e.mode != Some(TooLarge) && e !in selected[..i]
  }

  lemma OpenIsRemaining(entries: set<Entry>, selected: seq<Entry>, i: nat, e: Entry)
    requires i <= |selected|
    ensures Open(entries, selected, i, e) <==> e in Remaining(Plausible(entries), selected[..i])
  {
  }

  lemma StepAt(setup: Setup, entries: set<Entry>, i: nat)
    requires DistinctIds(entries) && i < |Run(setup, entries).steps| && Run(setup, entries).steps[i].LoopStep?
    ensures
      var run := Run(setup, entries);
      && |run.selected| == |run.steps| && run.selected[i] == run.steps[i].entry
      && LoopStepOk(setup, Plausible(entries), run.selected[..i], run.steps[i])
  {
    EveryRunIsOk(setup, entries);
  }

  /** A relevance pick is no later in line than anything still open, and nothing in its place in line scores
      better, but for versions of models already selected, which wait behind all others. */
  lemma RelevancePickIsFirst(setup: Setup, entries: set<Entry>, i: nat, e: Entry)
    requires DistinctIds(entries) && Built(setup, entries) && i < |Run(setup, entries).steps|
    requires Run(setup, entries).steps[i].LoopStep? && !Run(setup, entries).steps[i].explored
    requires i <= |Run(setup, entries).selected| && Open(entries, Run(setup, entries).selected, i, e)
    ensures
      var s := Run(setup, entries).selected;
      && |s| == |Run(setup, entries).steps|
      && Open(entries, s, i, s[i])
      && NoLater(setup.coverSmall, s[i], e)
      && (SamePlace(setup.coverSmall, s[i], e) && (NewVersion(e, s[..i]) || !NewVersion(s[i], s[..i]))
          ==> s[i].score >= e.score - SCORE_TIE_EPSILON)
      && (SamePlace(setup.coverSmall, s[i], e) && NewVersion(e, s[..i]) ==> NewVersion(s[i], s[..i]))
  {
    StepAt(setup, entries, i);
    var s, step := Run(setup, entries).selected, Run(setup, entries).steps[i];
    OpenIsRemaining(entries, s, i, e);
    OpenIsRemaining(entries, s, i, s[i]);
    PriorityIsLine(setup, entries, s[i], e);
    PriorityIsLine(setup, entries, e, s[i]);
    OptionIsNew(e, s[..i]);
    OptionIsNew(s[i], s[..i]);
    WaitingIs(step.relevanceGroup, Versions(s[..i]), step.entry);
  }

  lemma WaitingIs(group: set<Entry>, versions: set<Version>, pick: Entry)
    requires pick in group && (pick.Version() in versions ==> forall x :: x in group ==> x.Version() in versions)
    ensures forall x :: x in group && (x.Version() !in versions || pick.Version() in versions)
              ==> x in Waiting(group, versions)
  {
    var unseen := set x | x in group && x.Version() !in versions;
    assert pick.Version() !in versions ==> pick in unseen;
  }

  /** From one relevance pick to a later one the place in line never gets better: in particular the rank of
      the placement never falls, and an unknown size is only followed by unknown sizes. */
  lemma RelevanceNeverGoesBack(setup: Setup, entries: set<Entry>, i: nat, j: nat)
    requires DistinctIds(entries) && Built(setup, entries) && i < j < |Run(setup, entries).steps|
    requires
      var steps := Run(setup, entries).steps;
      steps[i].LoopStep? && !steps[i].explored && steps[j].LoopStep? && !steps[j].explored
    ensures
      var s := Run(setup, entries).selected;
      |s| == |Run(setup, entries).steps| && NoLater(setup.coverSmall, s[i], s[j])
  {
    var s := Run(setup, entries).selected;
    StepAt(setup, entries, j);
    RunIsDistinct(setup, entries);
    assert s[j] !in s[..i];
    OpenIsRemaining(entries, s, j, s[j]);
    RelevancePickIsFirst(setup, entries, i, s[j]);
  }

  /** The leader an exploration pick is measured from: first in line, best scored, first by name. */
  ghost predicate Leads(coverSmall: bool, entries: set<Entry>, selected: seq<Entry>, i: nat, leader: Entry)
    requires i <= |selected|
  {
    && Open(entries, selected, i, leader)
    && forall e :: Open(entries, selected, i, e) && e != leader ==>
         && NoLater(coverSmall, leader, e)
         && (SamePlace(coverSmall, leader, e) ==>
               leader.score > e.score || (leader.score == e.score && StringBefore(leader.Id(), e.Id())))
  }

  lemma LeaderLeads(setup: Setup, entries: set<Entry>, selected: seq<Entry>, i: nat, leader: Entry)
    requires Built(setup, entries) && i <= |selected|
    requires IsBest(setup.Relevance(), Remaining(Plausible(entries), selected[..i]), leader)
    ensures Leads(setup.coverSmall, entries, selected, i, leader)
  {
    OpenIsRemaining(entries, selected, i, leader);
    forall e | Open(entries, selected, i, e) && e != leader
      ensures NoLater(setup.coverSmall, leader, e)
      ensures SamePlace(setup.coverSmall, leader, e) ==>
                leader.score > e.score || (leader.score == e.score && StringBefore(leader.Id(), e.Id()))
    {
      OpenIsRemaining(entries, selected, i, e);
      BeforeInLine(setup, entries, leader, e);
    }
  }

  lemma BeforeInLine(setup: Setup, entries: set<Entry>, a: Entry, b: Entry)
    requires Built(setup, entries) && a in Plausible(entries) && b in Plausible(entries)
    requires Before(setup.Relevance(), a, b)
    ensures NoLater(setup.coverSmall, a, b)
    ensures SamePlace(setup.coverSmall, a, b) ==> a.score > b.score || (a.score == b.score && StringBefore(a.Id(), b.Id()))
  {
    PriorityIsLine(setup, entries, a, b);
    PriorityIsLine(setup, entries, b, a);
    ClassIsSmall(setup, a, b);
  }

  // ---------------------------------------------------------------- exploration

  function Positive(n: int): int { if n < 0 then 0 else n }

  /** What may be explored beside this leader: a new option (for Quality a new version) with the leader's task
      flag, close to it in evidence (downloads for Quality, desirability otherwise), in its place in line; or,
      for Quality beside a leader that fits the device, any larger model the device can help to run. */
  ghost predicate MayExplore(setup: Setup, entries: set<Entry>, selected: seq<Entry>, i: nat, leader: Entry, e: Entry)
    requires i <= |selected|
  {
    && Open(entries, selected, i, e) && e.otherTask == leader.otherTask
    && (if setup.quality then NewVersion(e, selected[..i]) else NewOption(e, selected[..i]))
    && (if setup.quality
        then 100 * (1 + Positive(e.candidate.downloads)) >= 1 + Positive(leader.candidate.downloads)
        else e.candidate.desirability >= leader.candidate.desirability - MAX_EXPLORATION_SCORE_GAP)
    && (if setup.quality && leader.mode == Some(GpuResident)
        then (e.mode == Some(GpuResident) || e.mode == Some(GpuOffload)) && !SmallSized(e)
        else SamePlace(setup.coverSmall, e, leader))
  }

  lemma EvidenceIs(setup: Setup, entries: set<Entry>, e: Entry, leader: Entry)
    requires Built(setup, entries) && e in entries && leader in entries
    ensures WithinEvidenceGap(setup, e, leader) <==>
      if setup.quality
      then 100 * (1 + Positive(e.candidate.downloads)) >= 1 + Positive(leader.candidate.downloads)
      else e.candidate.desirability >= leader.candidate.desirability - MAX_EXPLORATION_SCORE_GAP
  {
    assert FitBonus(e.mode) == Bonus(e.mode) && FitBonus(leader.mode) == Bonus(leader.mode);
  }

  lemma GroupIsPlace(setup: Setup, entries: set<Entry>, remaining: set<Entry>, leader: Entry, e: Entry)
    requires Built(setup, entries) && remaining <= Plausible(entries) && e in remaining && leader in remaining
    ensures e in ExplorationGroup(setup, remaining, leader) <==>
      && e.otherTask == leader.otherTask
      && if setup.quality && leader.mode == Some(GpuResident)
         then (e.mode == Some(GpuResident) || e.mode == Some(GpuOffload)) && !SmallSized(e)
         else SamePlace(setup.coverSmall, e, leader)
  {
    PriorityIsLine(setup, entries, e, leader);
    PriorityIsLine(setup, entries, leader, e);
    ClassIsSmall(setup, e, leader);
    ClassIsRank(setup, entries, e, leader);
  }

  lemma NovelIs(setup: Setup, entries: set<Entry>, selected: seq<Entry>, i: nat, step: Step, e: Entry)
    requires Built(setup, entries) && i <= |selected| && step.LoopStep?
    requires LoopStepOk(setup, Plausible(entries), selected[..i], step)
    ensures e in step.novel <==> MayExplore(setup, entries, selected, i, step.leader, e)
  {
    OpenIsRemaining(entries, selected, i, e);
    OptionIsNew(e, selected[..i]);
    if Open(entries, selected, i, e) {
      EvidenceIs(setup, entries, e, step.leader);
      GroupIsPlace(setup, entries, Remaining(Plausible(entries), selected[..i]), step.leader, e);
    }
  }

  /** How large an exploration counts a model: by its billions for Quality, else by its size class. */
  function Magnitude(quality: bool, billions: Option<real>): real {
    match billions
    case None => if quality then 0.0 else 5.0
    case Some(b) =>
      if quality then b
      else if b <= 1.0 then 0.0
      else if b <= 4.0 then 1.0
      else if b <= 14.0 then 2.0
      else if b <= 32.0 then 3.0
      else 4.0
  }

  /** The largest that may be explored, versions already selected last, and of those as large the best scored. */
  ghost predicate LargestToExplore(setup: Setup, entries: set<Entry>, selected: seq<Entry>, i: nat, leader: Entry,
                                   first: Entry)
    requires i <= |selected|
  {
    && MayExplore(setup, entries, selected, i, leader, first)
    && forall x :: MayExplore(setup, entries, selected, i, leader, x) ==>
         && (NewVersion(x, selected[..i]) ==> NewVersion(first, selected[..i]))
         && (NewVersion(x, selected[..i]) || !NewVersion(first, selected[..i]) ==>
               var m, n := Magnitude(setup.quality, x.candidate.billions), Magnitude(setup.quality, first.candidate.billions);
               m < n || (m == n && x.score <= first.score))
  }

  lemma LargestIs(setup: Setup, entries: set<Entry>, selected: seq<Entry>, i: nat, step: Step, first: Entry)
    requires Built(setup, entries) && i <= |selected| && step.LoopStep?
    requires LoopStepOk(setup, Plausible(entries), selected[..i], step)
    requires LargestThenBest(setup, first, Waiting(step.novel, Versions(selected[..i])))
    ensures LargestToExplore(setup, entries, selected, i, step.leader, first)
  {
    var versions := Versions(selected[..i]);
    NovelIs(setup, entries, selected, i, step, first);
    OptionIsNew(first, selected[..i]);
    if first.Version() in versions {
      WaitingVersionIsReserve(step.novel, versions, first);
    }
    WaitingIs(step.novel, versions, first);
    forall x | MayExplore(setup, entries, selected, i, step.leader, x)
      ensures NewVersion(x, selected[..i]) ==> NewVersion(first, selected[..i])
      ensures NewVersion(x, selected[..i]) || !NewVersion(first, selected[..i]) ==>
                var m, n := Magnitude(setup.quality, x.candidate.billions), Magnitude(setup.quality, first.candidate.billions);
                m < n || (m == n && x.score <= first.score)
    {
      NovelIs(setup, entries, selected, i, step, x);
      OptionIsNew(x, selected[..i]);
      MagnitudeIs(setup, x);
      MagnitudeIs(setup, first);
    }
  }

  lemma MagnitudeIs(setup: Setup, e: Entry)
    ensures ExploredSize(setup, e) == Magnitude(setup.quality, e.candidate.billions)
  {
  }

  /** An exploration pick is one of those that may be explored, with the score of the largest of them. */
  lemma ExplorationPickIsLargest(setup: Setup, entries: set<Entry>, i: nat)
    requires DistinctIds(entries) && Built(setup, entries) && i < |Run(setup, entries).steps|
    requires Run(setup, entries).steps[i].LoopStep? && Run(setup, entries).steps[i].explored
    ensures
      var s, leader := Run(setup, entries).selected, Run(setup, entries).steps[i].leader;
      && |s| == |Run(setup, entries).steps|
      && Leads(setup.coverSmall, entries, s, i, leader)
      && MayExplore(setup, entries, s, i, leader, s[i])
      && exists first :: LargestToExplore(setup, entries, s, i, leader, first) && Near(s[i], first)
  {
    StepAt(setup, entries, i);
    var s, step := Run(setup, entries).selected, Run(setup, entries).steps[i];
    LeaderLeads(setup, entries, s, i, step.leader);
    NovelIs(setup, entries, s, i, step, step.entry);
    var first :| LargestThenBest(setup, first, Waiting(step.novel, Versions(s[..i]))) && Near(step.entry, first);
    LargestIs(setup, entries, s, i, step, first);
  }

  function Explored(steps: seq<Step>): set<nat> { set i: nat | i < |steps| && steps[i].LoopStep? && steps[i].explored }

  lemma {:induction false} CountIsExplored(steps: seq<Step>)
    ensures ExplorationCount(steps) == |Explored(steps)|
  {
    if steps != [] {
      var n := |steps| - 1;
      CountIsExplored(steps[..n]);
      if steps[n].LoopStep? && steps[n].explored {
        assert Explored(steps) == Explored(steps[..n]) + {n};
      } else {
        assert Explored(steps) == Explored(steps[..n]);
      }
    }
  }

  /** A step explores exactly when there is budget left and something to explore. */
  lemma ExploresIff(setup: Setup, entries: set<Entry>, i: nat)
    requires DistinctIds(entries) && Built(setup, entries) && i < |Run(setup, entries).steps|
    requires Run(setup, entries).steps[i].LoopStep?
    ensures
      var s, steps := Run(setup, entries).selected, Run(setup, entries).steps;
      && |s| == |steps|
      && (steps[i].explored <==>
            && (if setup.quality then 2 else 4) * (|Explored(steps[..i])| + 1) <= setup.limit
            && exists e :: MayExplore(setup, entries, s, i, steps[i].leader, e))
  {
    StepAt(setup, entries, i);
    EveryRunIsOk(setup, entries);
    var s, steps := Run(setup, entries).selected, Run(setup, entries).steps;
    CountIsExplored(steps[..i]);
    forall e ensures e in steps[i].novel <==> MayExplore(setup, entries, s, i, steps[i].leader, e) {
      NovelIs(setup, entries, s, i, steps[i], e);
    }
  }

  /** At most a quarter of the limit is explored, for Quality (where small models are not covered) half. */
  lemma ExplorationIsBounded(setup: Setup, entries: set<Entry>)
    requires DistinctIds(entries)
    ensures (if setup.quality then 2 else 4) * |Explored(Run(setup, entries).steps)| <= setup.limit
  {
    EveryRunIsOk(setup, entries);
    CountIsExplored(Run(setup, entries).steps);
  }

  // ---------------------------------------------------------------- the fallback

  lemma TooLargeIsLast(setup: Setup, entries: set<Entry>, i: nat)
    requires DistinctIds(entries)
    requires i < |Run(setup, entries).selected| && Run(setup, entries).selected[i].mode == Some(TooLarge)
    ensures i >= Least(setup.limit, |Plausible(entries)|)
  {
    RunShape(setup, entries);
  }

  /** Too-large models fill what is left, by score and then by name. */
  lemma FallbackGoesByScore(setup: Setup, entries: set<Entry>, x: Entry, i: nat)
    requires DistinctIds(entries) && x in entries && x.mode == Some(TooLarge) && x !in Run(setup, entries).selected
    requires i < |Run(setup, entries).selected| && Run(setup, entries).selected[i].mode == Some(TooLarge)
    ensures
      var e := Run(setup, entries).selected[i];
      e.score > x.score || (e.score == x.score && StringBefore(e.Id(), x.Id()))
  {
    TooLargeIsLast(setup, entries, i);
    FallbackIsTheBest(setup, entries, x, i);
    ByScoreThenName(Run(setup, entries).selected[i], x);
  }

  lemma ByScoreThenName(a: Entry, b: Entry)
    requires Before(ScoreOrder, a, b)
    ensures a.score > b.score || (a.score == b.score && StringBefore(a.Id(), b.Id()))
  {
  }
}
