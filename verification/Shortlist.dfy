/** The shortlist as the code runs it: lists that are sorted, popped and extended, three sets that grow. */
module Shortlist {
  import opened Common
  import opened Placement
  import opened Sizing
  import opened Ordering
  import opened ShortlistSpec
  import opened ShortlistRun
  import Cover = ShortlistCoverage

  // ---------------------------------------------------------------- inputs

  ghost function EntryOf(c: Candidate, req: Requirements, hw: Hardware, targets: Candidate -> bool): Entry {
    var mode := PlacementMode(c, req, hw);
    Entry(c, mode, c.desirability + FitBonus(mode), targets(c))
  }

  ghost function EntriesOf(candidates: set<Candidate>, req: Requirements, hw: Hardware,
                           targets: Candidate -> bool): set<Entry> {
    set c | c in candidates :: EntryOf(c, req, hw, targets)
  }

  function Candidates(list: seq<Candidate>): set<Candidate> { set c | c in list }

  function SetupOf(limit: nat, req: Requirements, hw: Hardware): Setup {
    var coverSmall := NeedsSmallCoverage(LargestFitting(hw, req));
    Setup(limit, coverSmall, PlanningVram(hw).None? || HasUnifiedMemory(hw), req.priority == Quality && !coverSmall)
  }

  ghost predicate DistinctRepoIds(list: seq<Candidate>) {
    forall i, j :: 0 <= i < j < |list| ==> list[i].repoId != list[j].repoId
  }

  // ---------------------------------------------------------------- picking

  /** Walks a sorted list of ties for one not yet represented. */
  method FindPreferred(ghost o: Order, tied: seq<Entry>, reds: set<Redundancy>,
                       fams: set<string>) returns (chosen: Entry)
    requires tied != [] && Ranked(o, tied) && DistinctIds(Elems(tied))
    ensures Elems(tied) != {} && chosen == Pick(o, Elems(tied), reds, fams)
  {
    ghost var all := Elems(tied);
    EmptyElems(tied);
    var index := 0;
    while index < |tied| && !(tied[index].Redundancy() !in reds && tied[index].candidate.family !in fams)
      invariant 0 <= index <= |tied|
      invariant forall i :: 0 <= i < index ==> tied[i] !in NewInBoth(all, reds, fams)
    {
      index := index + 1;
    }
    if index < |tied| {
      chosen := tied[index];
      FirstIsBest(o, tied, NewInBoth(all, reds, fams), index);
      return;
    }
    assert NewInBoth(all, reds, fams) == {};
    index := 0;
    while index < |tied| && tied[index].Redundancy() in reds
      invariant 0 <= index <= |tied|
      invariant forall i :: 0 <= i < index ==> tied[i] !in NewInSize(all, reds)
    {
      index := index + 1;
    }
    if index < |tied| {
      chosen := tied[index];
      FirstIsBest(o, tied, NewInSize(all, reds), index);
      return;
    }
    assert NewInSize(all, reds) == {};
    chosen := tied[0];
    RankedHeadIsBest(o, tied);
  }

  lemma FirstIsBest(o: Order, s: seq<Entry>, part: set<Entry>, index: nat)
    requires Ranked(o, s) && DistinctIds(Elems(s)) && part <= Elems(s)
    requires index < |s| && s[index] in part && forall i :: 0 <= i < index ==> s[i] !in part
    ensures s[index] == Best(o, part)
  {
    forall e | e in part ensures e == s[index] || Before(o, s[index], e) {
      var k :| 0 <= k < |s| && s[k] == e;
    }
    BestIsUnique(o, part, s[index]);
  }

  /** Takes the best-scored entry of a sorted list; among exact ties prefers one not yet represented. */
  method PopBucketCandidate(ghost o: Order, bucket: seq<Entry>, reds: set<Redundancy>, fams: set<string>)
    returns (picked: Option<Entry>, rest: seq<Entry>)
    requires Ranked(o, bucket) && DistinctIds(Elems(bucket))
    ensures picked.None? <==> bucket == []
    ensures picked.Some? ==>
      && TiedWith(bucket[0], Elems(bucket)) != {}
      && picked.value == Pick(o, TiedWith(bucket[0], Elems(bucket)), reds, fams)
      && Elems(rest) == Elems(bucket) - {picked.value} && Ranked(o, rest)
    ensures picked.None? ==> rest == []
  {
    if bucket == [] {
      return None, [];
    }
    var head := bucket[0];
    var isTied := (e: Entry) => e.score >= head.score - SCORE_TIE_EPSILON && e.otherTask == head.otherTask;
    var tied := Filter(bucket, isTied);
    SortedGroup(o, bucket, isTied);
    assert Elems(tied) == TiedWith(head, Elems(bucket));
    assert head in Elems(tied);
    EmptyElems(tied);
    var chosen := FindPreferred(o, tied, reds, fams);
    picked := Some(chosen);
    rest := Without(bucket, chosen);
    WithoutIs(o, bucket, chosen);
  }

  function Without(s: seq<Entry>, e: Entry): seq<Entry> { Filter(s, x => x != e) }

  lemma WithoutIs(o: Order, s: seq<Entry>, e: Entry)
    requires Ranked(o, s)
    ensures Ranked(o, Without(s, e)) && Elems(Without(s, e)) == Elems(s) - {e}
  {
    FilterElems(s, x => x != e);
    FilterRanked(o, s, x => x != e);
  }

  // ---------------------------------------------------------------- the relevance step

  lemma SortedGroup(o: Order, s: seq<Entry>, keep: Entry -> bool)
    requires Ranked(o, s)
    ensures Ranked(o, Filter(s, keep))
    ensures Elems(Filter(s, keep)) == set e | e in s && keep(e)
  {
    FilterElems(s, keep);
    FilterRanked(o, s, keep);
  }

  /** The head of the not-yet-selected versions, or the head of the list when there are none. */
  method FirstWaiting(ghost o: Order, group: seq<Entry>, versions: set<Version>) returns (first: Entry)
    requires group != [] && Ranked(o, group) && DistinctIds(Elems(group))
    ensures Waiting(Elems(group), versions) != {}
    ensures first == Best(o, Waiting(Elems(group), versions))
    ensures first.Version() in versions <==> forall e :: e in group ==> e.Version() in versions
  {
    ghost var unseen := set e | e in Elems(group) && e.Version() !in versions;
    EmptyElems(group);
    var index := 0;
    while index < |group| && group[index].Version() in versions
      invariant 0 <= index <= |group|
      invariant forall i :: 0 <= i < index ==> group[i].Version() in versions
    {
      index := index + 1;
    }
    if index < |group| {
      first := group[index];
      FirstIsBest(o, group, unseen, index);
    } else {
      first := group[0];
      assert unseen == {};
      RankedHeadIsBest(o, group);
    }
  }

  lemma TiesAreWaiting(group: set<Entry>, versions: set<Version>, first: Entry, others: seq<Entry>)
    requires first in Waiting(group, versions)
    requires first.Version() in versions <==> forall e :: e in group ==> e.Version() in versions
    requires Elems(others) == set e | e in group && e != first && Near(e, first)
                                      && (first.Version() in versions || e.Version() !in versions)
    ensures Elems([first] + others) == set e | e in Waiting(group, versions) && Near(e, first)
  {
    var unseen := set e | e in group && e.Version() !in versions;
    assert first.Version() !in versions ==> first in unseen;
    assert Elems([first] + others) == {first} + Elems(others);
  }

  lemma HeadOfTies(o: Order, waiting: set<Entry>, first: Entry, others: seq<Entry>)
    requires DistinctIds(waiting) && waiting != {} && first == Best(o, waiting)
    requires Ranked(o, others) && first !in Elems(others) && Elems([first] + others) <= waiting
    ensures Ranked(o, [first] + others)
  {
    forall i | 0 <= i < |others| ensures Before(o, first, others[i]) {
      assert others[i] in Elems(others) && ([first] + others)[i + 1] in Elems([first] + others);
    }
  }

  /** The final choice inside a decision group: first waiting version, its score ties, then diversity. */
  method ChooseFrom(ghost o: Order, group: seq<Entry>, ghost selected: seq<Entry>,
                    reds: set<Redundancy>, fams: set<string>, versions: set<Version>) returns (chosen: Entry)
    requires group != [] && Ranked(o, group) && DistinctIds(Elems(group))
    requires forall a, b :: a in group && b in group ==> a.otherTask == b.otherTask
    requires reds == Redundancies(selected) && fams == Families(selected) && versions == Versions(selected)
    ensures Elems(group) != {} && chosen == Choose(o, Elems(group), selected)
  {
    var first := FirstWaiting(o, group, versions);
    ghost var waiting := Waiting(Elems(group), versions);
    var keep := (e: Entry) => e != first && Near(e, first) && (first.Version() in versions || e.Version() !in versions);
    var others := Filter(group, keep);
    SortedGroup(o, group, keep);
    var tied := [first] + others;
    TiesAreWaiting(Elems(group), versions, first, others);
    ghost var near := set e | e in waiting && Near(e, first);
    HeadOfTies(o, waiting, first, others);
    assert TiedWith(first, near) == near;
    var picked, _ := PopBucketCandidate(o, tied, reds, fams);
    chosen := picked.value;
  }

  method DecideStep(setup: Setup, sorted: seq<Entry>, ghost plausible: set<Entry>, ghost st: RunState,
                    explorationLeft: nat, reds: set<Redundancy>, fams: set<string>, versions: set<Version>)
    returns (step: Step)
    requires DistinctIds(plausible)
    requires sorted != [] && Ranked(setup.Relevance(), sorted) && Elems(sorted) == Remaining(plausible, st.selected)
    requires explorationLeft == st.explorationLeft
    requires reds == Redundancies(st.selected) && fams == Families(st.selected) && versions == Versions(st.selected)
    ensures Remaining(plausible, st.selected) != {} && step == LoopDecision(setup, plausible, st)
  {
    ghost var remaining := Remaining(plausible, st.selected);
    var leader := sorted[0];
    RankedHeadIsBest(setup.Relevance(), sorted);
    var inGroup := (e: Entry) => SameGroup(setup, e, leader);
    var group := Filter(sorted, inGroup);
    SortedGroup(setup.Relevance(), sorted, inGroup);
    assert Elems(group) == RelevanceGroup(setup, remaining, leader);
    var explorationGroup := group;
    if setup.quality && leader.mode == Some(GpuResident) {
      var accelerated := (e: Entry) => e.mode in {Some(GpuResident), Some(GpuOffload)} && !e.Small()
                                       && e.otherTask == leader.otherTask;
      explorationGroup := Filter(sorted, accelerated);
      SortedGroup(setup.Relevance(), sorted, accelerated);
    }
    assert Elems(explorationGroup) == ExplorationGroup(setup, remaining, leader);
    var isNovel := (e: Entry) => IsNew(setup, e, reds, versions) && WithinEvidenceGap(setup, e, leader);
    var novel := Filter(explorationGroup, isNovel);
    SortedGroup(setup.Relevance(), explorationGroup, isNovel);
    assert Elems(novel) == Novel(setup, ExplorationGroup(setup, remaining, leader), leader, st.selected);
    EmptyElems(novel);
    var explored := explorationLeft > 0 && novel != [];
    var chosen: Entry;
    if explored {
      RankedIsDistinct(setup.Relevance(), novel);
      SortIsRanked(ExplorationOrder(setup.quality), novel);
      var candidates := SortBy(ExplorationOrder(setup.quality), novel);
      EmptyElems(candidates);
      forall e | e in candidates ensures e.otherTask == leader.otherTask {
        assert e in Elems(candidates);
        assert e in Elems(novel);
      }
      chosen := ChooseFrom(ExplorationOrder(setup.quality), candidates, st.selected, reds, fams, versions);
    } else {
      assert leader in Elems(group);
      forall e | e in group ensures e.otherTask == leader.otherTask {
        assert e in Elems(group);
      }
      chosen := ChooseFrom(setup.Relevance(), group, st.selected, reds, fams, versions);
    }
    step := LoopStep(chosen, explored, leader, Elems(group), explorationLeft, Elems(explorationGroup),
                     Elems(novel), versions);
  }

  lemma GrowSets(selected: seq<Entry>, e: Entry)
    ensures Redundancies(selected + [e]) == Redundancies(selected) + {e.Redundancy()}
    ensures Families(selected + [e]) == Families(selected) + {e.candidate.family}
    ensures Versions(selected + [e]) == Versions(selected) + {e.Version()}
    ensures Elems(selected + [e]) == Elems(selected) + {e}
  {
  }

  // ---------------------------------------------------------------- buckets

  type Buckets = map<nat, seq<Entry>>

  /** Each bucket holds what is left of its code. */
  ghost predicate BucketsHold(setup: Setup, plausible: set<Entry>, buckets: Buckets, selected: seq<Entry>) {
    && (forall e :: e in plausible ==> BucketCode(setup, e) in buckets)
    && (forall code :: code in buckets ==>
          && code < BUCKET_CODES
          && Distinct(buckets[code])
          && Elems(buckets[code]) == Bucket(setup, plausible, code) - Elems(selected))
  }

  lemma CodesAreSmall(setup: Setup, e: Entry)
    ensures BucketCode(setup, e) < BUCKET_CODES
  {
  }

  method GroupShortlistBuckets(setup: Setup, entries: seq<Entry>) returns (buckets: Buckets)
    requires Distinct(entries)
    ensures BucketsHold(setup, Elems(entries), buckets, [])
    ensures forall code :: code in buckets ==> buckets[code] != []
  {
    buckets := map[];
    for i := 0 to |entries|
      invariant BucketsHold(setup, Elems(entries[..i]), buckets, [])
      invariant forall code :: code in buckets ==> buckets[code] != []
    {
      var e := entries[i];
      CodesAreSmall(setup, e);
      var code := BucketCode(setup, e);
      var old_ := if code in buckets then buckets[code] else [];
      assert Elems(old_) == Bucket(setup, Elems(entries[..i]), code) by {
        if code !in buckets {
          assert Bucket(setup, Elems(entries[..i]), code) == {};
        }
      }
      assert entries[..i + 1] == entries[..i] + [e];
      assert Elems(entries[..i + 1]) == Elems(entries[..i]) + {e};
      assert e !in Elems(entries[..i]);
      assert e !in Elems(old_);
      assert Distinct(old_ + [e]);
      assert Elems(old_ + [e]) == Elems(old_) + {e};
      forall c | c in buckets && c != code
        ensures Bucket(setup, Elems(entries[..i + 1]), c) == Bucket(setup, Elems(entries[..i]), c)
      {
      }
      buckets := buckets[code := old_ + [e]];
    }
    assert entries[..|entries|] == entries;
  }

  lemma SameCodeSameClass(setup: Setup, a: Entry, b: Entry)
    requires BucketCode(setup, a) == BucketCode(setup, b)
    ensures setup.Class(a) == setup.Class(b) && a.mode == b.mode && a.Small() == b.Small()
  {
  }

  // ---------------------------------------------------------------- coverage

  /** The best placement class on offer, and whether it offers anything larger than small. */
  method BestClassOf(setup: Setup, ghost plausible: set<Entry>, buckets: Buckets) returns (best: Option<nat>,
                     larger: bool)
    requires BucketsHold(setup, plausible, buckets, [])
    requires forall code :: code in buckets ==> buckets[code] != []
    ensures forall e :: e in plausible && e.mode.Some?
              ==> best.Some? && (setup.Class(e) == best.value <==> InBestClass(setup, plausible, e))
    ensures larger == LargerInBestClass(setup, plausible)
  {
    best := None;
    for code := 0 to BUCKET_CODES
      invariant best.Some? ==> exists e :: e in plausible && e.mode.Some? && setup.Class(e) == best.value
      invariant forall e :: e in plausible && e.mode.Some? && BucketCode(setup, e) < code
                  ==> best.Some? && best.value <= setup.Class(e)
    {
      if code in buckets && buckets[code][0].mode.Some? {
        var head := buckets[code][0];
        assert head in Elems(buckets[code]);
        if best.None? || setup.Class(head) < best.value {
          best := Some(setup.Class(head));
        }
      }
      forall e | e in plausible && e.mode.Some? && BucketCode(setup, e) == code
        ensures best.Some? && best.value <= setup.Class(e)
      {
        assert e in Elems(buckets[code]);
        assert buckets[code][0] in Elems(buckets[code]);
        SameCodeSameClass(setup, e, buckets[code][0]);
      }
    }
    forall e | e in plausible && e.mode.Some?
      ensures best.Some? && (setup.Class(e) == best.value <==> InBestClass(setup, plausible, e))
    {
      CodesAreSmall(setup, e);
    }
    larger := false;
    for code := 0 to BUCKET_CODES
      invariant larger ==> LargerInBestClass(setup, plausible)
      invariant forall e :: e in plausible && BucketCode(setup, e) < code
                  ==> (InBestClass(setup, plausible, e) && !e.Small() ==> larger)
    {
      if code in buckets {
        var head := buckets[code][0];
        assert head in Elems(buckets[code]);
        if head.mode.Some? && setup.Class(head) == best.value && !head.Small() {
          larger := true;
        }
      }
      forall e | e in plausible && BucketCode(setup, e) == code
        ensures InBestClass(setup, plausible, e) && !e.Small() ==> larger
      {
        assert e in Elems(buckets[code]);
        assert buckets[code][0] in Elems(buckets[code]);
        SameCodeSameClass(setup, e, buckets[code][0]);
      }
    }
    forall e | e in plausible ensures InBestClass(setup, plausible, e) && !e.Small() ==> larger {
      CodesAreSmall(setup, e);
    }
  }

  /** A bucket of unknown sizes is sorted again, text signals first. */
  ghost function BucketOrder(bucket: seq<Entry>): Order
    requires bucket != []
  {
    if bucket[0].mode.None? then UnknownSizeOrder else CoverageOrder
  }

  method SortBucket(bucket: seq<Entry>) returns (sorted: seq<Entry>)
    requires bucket != [] && Distinct(bucket) && DistinctIds(Elems(bucket))
    requires forall a, b :: a in bucket && b in bucket ==> a.mode == b.mode
    ensures Elems(sorted) == Elems(bucket) != {} && sorted != []
    ensures Ranked(BucketOrder(bucket), sorted) && Distinct(sorted)
    ensures sorted[0] == Best(BucketOrder(bucket), Elems(bucket))
    ensures Best(CoverageOrder, Elems(bucket)).mode == sorted[0].mode == bucket[0].mode
  {
    EmptyElems(bucket);
    SortIsRanked(CoverageOrder, bucket);
    sorted := SortBy(CoverageOrder, bucket);
    EmptyElems(sorted);
    RankedHeadIsBest(CoverageOrder, sorted);
    RankedIsDistinct(CoverageOrder, sorted);
    assert sorted[0] in Elems(bucket);
    if sorted[0].mode.None? {
      SortIsRanked(UnknownSizeOrder, sorted);
      sorted := SortBy(UnknownSizeOrder, sorted);
      EmptyElems(sorted);
      RankedHeadIsBest(UnknownSizeOrder, sorted);
      RankedIsDistinct(UnknownSizeOrder, sorted);
      assert sorted[0] in Elems(bucket);
    }
  }

  method VisitBucket(setup: Setup, ghost plausible: set<Entry>, bucket: seq<Entry>, best: Option<nat>, larger: bool,
                     ghost selected: seq<Entry>, reds: set<Redundancy>, fams: set<string>)
    returns (picked: Option<Entry>, rest: seq<Entry>)
    requires bucket != [] && Distinct(bucket) && DistinctIds(Elems(bucket))
    requires forall a, b :: a in bucket && b in bucket ==> a.mode == b.mode && a.Small() == b.Small()
    requires forall e :: e in bucket && e.mode.Some?
               ==> best.Some? && (setup.Class(e) == best.value <==> InBestClass(setup, plausible, e))
    requires larger == LargerInBestClass(setup, plausible)
    requires reds == Redundancies(selected) && fams == Families(selected)
    ensures picked == CoveragePick(setup, plausible, Elems(bucket), selected)
    ensures Distinct(rest)
    ensures Elems(rest) == Elems(bucket) - (if picked.Some? then {picked.value} else {})
  {
    var sorted := SortBucket(bucket);
    ghost var order := BucketOrder(bucket);
    assert sorted[0] in Elems(bucket);
    if sorted[0].mode.None? && !sorted[0].HasTextSignal() {
      return None, sorted;
    }
    if sorted[0].mode.Some? && setup.Class(sorted[0]) != best.value {
      return None, sorted;
    }
    if larger && !setup.coverSmall && sorted[0].Small() {
      return None, sorted;
    }
    picked, rest := PopBucketCandidate(order, sorted, reds, fams);
    RankedIsDistinct(order, rest);
  }

  method CoveragePass(setup: Setup, ghost plausible: set<Entry>, initial: Buckets)
    returns (selected: seq<Entry>, buckets: Buckets, reds: set<Redundancy>, fams: set<string>, versions: set<Version>)
    requires DistinctIds(plausible) && BucketsHold(setup, plausible, initial, [])
    requires forall code :: code in initial ==> initial[code] != []
    ensures selected == Coverage(setup, plausible, 0, [])
    ensures BucketsHold(setup, plausible, buckets, selected)
    ensures reds == Redundancies(selected) && fams == Families(selected) && versions == Versions(selected)
  {
    var best, larger := BestClassOf(setup, plausible, initial);
    selected, buckets, reds, fams, versions := [], initial, {}, {}, {};
    var code := 0;
    while code < BUCKET_CODES && |selected| < setup.limit
      invariant code <= BUCKET_CODES
      invariant Coverage(setup, plausible, code, selected) == Coverage(setup, plausible, 0, [])
      invariant BucketsHold(setup, plausible, buckets, selected)
      invariant forall c :: code <= c && c in buckets ==> buckets[c] != []
      invariant forall e :: e in selected ==> BucketCode(setup, e) < code
      invariant reds == Redundancies(selected) && fams == Families(selected) && versions == Versions(selected)
    {
      CoverageUnfolds(setup, plausible, code, selected);
      selected, buckets, reds, fams, versions :=
        VisitCode(setup, plausible, buckets, code, best, larger, selected, reds, fams, versions);
      code := code + 1;
    }
  }

  lemma CoverageUnfolds(setup: Setup, plausible: set<Entry>, code: nat, selected: seq<Entry>)
    requires DistinctIds(plausible) && code < BUCKET_CODES && |selected| < setup.limit
    ensures Coverage(setup, plausible, code, selected)
         == Coverage(setup, plausible, code + 1, CoverNext(setup, plausible, code, selected))
  {
  }

  /** Visits one code: pops the pick of its bucket, if it has one, and remembers it. */
  method VisitCode(setup: Setup, ghost plausible: set<Entry>, initial: Buckets, code: nat, best: Option<nat>,
                   larger: bool,
                   before: seq<Entry>, initialReds: set<Redundancy>, initialFams: set<string>, initialVersions: set<Version>)
    returns (selected: seq<Entry>, buckets: Buckets, reds: set<Redundancy>, fams: set<string>, versions: set<Version>)
    requires DistinctIds(plausible) && BucketsHold(setup, plausible, initial, before)
    requires (code in initial ==> initial[code] != []) && forall e :: e in before ==> BucketCode(setup, e) < code
    requires forall e :: e in plausible && e.mode.Some?
               ==> best.Some? && (setup.Class(e) == best.value <==> InBestClass(setup, plausible, e))
    requires larger == LargerInBestClass(setup, plausible)
    requires initialReds == Redundancies(before) && initialFams == Families(before) && initialVersions == Versions(before)
    ensures selected == CoverNext(setup, plausible, code, before)
    ensures BucketsHold(setup, plausible, buckets, selected)
    ensures forall c :: c in buckets && c != code ==> c in initial && buckets[c] == initial[c]
    ensures reds == Redundancies(selected) && fams == Families(selected) && versions == Versions(selected)
  {
    selected, buckets, reds, fams, versions := before, initial, initialReds, initialFams, initialVersions;
    if code !in buckets {
      assert Bucket(setup, plausible, code) == {};
      return;
    }
    WholeBucket(setup, plausible, buckets, code, selected);
    var picked, rest := VisitBucket(setup, plausible, buckets[code], best, larger, selected, reds, fams);
    BucketUpdate(setup, plausible, buckets, selected, code, picked, rest);
    buckets := buckets[code := rest];
    if picked.Some? {
      GrowSets(selected, picked.value);
      versions := versions + {picked.value.Version()};
      selected, reds, fams := RememberSelection(picked.value, selected, reds, fams);
    }
  }

  /** A bucket not visited yet is whole, and all alike in placement and smallness. */
  lemma WholeBucket(setup: Setup, plausible: set<Entry>, buckets: Buckets, code: nat, selected: seq<Entry>)
    requires DistinctIds(plausible) && BucketsHold(setup, plausible, buckets, selected) && code in buckets
    requires forall e :: e in selected ==> BucketCode(setup, e) < code
    ensures Elems(buckets[code]) == Bucket(setup, plausible, code) && DistinctIds(Elems(buckets[code]))
    ensures forall e :: e in buckets[code] ==> e in plausible
    ensures forall a, b :: a in buckets[code] && b in buckets[code] ==> a.mode == b.mode && a.Small() == b.Small()
  {
    assert Elems(buckets[code]) == Bucket(setup, plausible, code);
    forall e | e in buckets[code] ensures e in Bucket(setup, plausible, code) {
      assert e in Elems(buckets[code]);
    }
    forall a, b | a in buckets[code] && b in buckets[code] ensures a.mode == b.mode && a.Small() == b.Small() {
      SameCodeSameClass(setup, a, b);
    }
  }

  method RememberSelection(e: Entry, selected: seq<Entry>, reds: set<Redundancy>, fams: set<string>)
    returns (selected': seq<Entry>, reds': set<Redundancy>, fams': set<string>)
    requires reds == Redundancies(selected) && fams == Families(selected)
    ensures selected' == selected + [e]
    ensures reds' == Redundancies(selected') && fams' == Families(selected')
  {
    GrowSets(selected, e);
    selected' := selected + [e];
    reds' := reds + {e.Redundancy()};
    fams' := fams + {e.candidate.family};
  }

  lemma BucketUpdate(setup: Setup, plausible: set<Entry>, buckets: Buckets, selected: seq<Entry>, code: nat,
                     picked: Option<Entry>, rest: seq<Entry>)
    requires BucketsHold(setup, plausible, buckets, selected) && code in buckets
    requires Distinct(rest)
    requires Elems(rest) == Elems(buckets[code]) - (if picked.Some? then {picked.value} else {})
    requires picked.Some? ==> picked.value in Elems(buckets[code])
    ensures BucketsHold(setup, plausible, buckets[code := rest],
                        if picked.Some? then selected + [picked.value] else selected)
  {
  }

  // ---------------------------------------------------------------- the whole run

  lemma AppendDistinct(a: seq<Entry>, b: seq<Entry>)
    requires Distinct(a) && Distinct(b) && forall e :: e in a ==> e !in b
    ensures Distinct(a + b)
  {
    forall i, j | 0 <= i < j < |a + b| ensures (a + b)[i] != (a + b)[j] {
      if i < |a| <= j {
        assert a[i] !in b && b[j - |a|] in b;
      }
    }
  }

  /** What the coverage pass left, bucket after bucket. */
  method Flatten(setup: Setup, ghost plausible: set<Entry>, buckets: Buckets, ghost selected: seq<Entry>)
    returns (remaining: seq<Entry>)
    requires BucketsHold(setup, plausible, buckets, selected)
    ensures Distinct(remaining) && Elems(remaining) == Remaining(plausible, selected)
  {
    remaining := [];
    for code := 0 to BUCKET_CODES
      invariant Distinct(remaining)
      invariant Elems(remaining)
             == set e | e in Remaining(plausible, selected) && BucketCode(setup, e) < code
    {
      if code in buckets {
        forall e | e in buckets[code] ensures e in Remaining(plausible, selected) && BucketCode(setup, e) == code {
          assert e in Elems(buckets[code]);
        }
        forall e | e in remaining ensures BucketCode(setup, e) < code && e !in buckets[code] {
          assert e in Elems(remaining);
        }
        assert Elems(remaining + buckets[code]) == Elems(remaining) + Elems(buckets[code]);
        AppendDistinct(remaining, buckets[code]);
        remaining := remaining + buckets[code];
      }
    }
    forall e | e in Remaining(plausible, selected) ensures BucketCode(setup, e) < BUCKET_CODES {
      CodesAreSmall(setup, e);
    }
  }

  method RelevancePass(setup: Setup, ghost plausible: set<Entry>, start: RunState, left: seq<Entry>,
                       initialReds: set<Redundancy>, initialFams: set<string>, initialVersions: set<Version>)
    returns (st: RunState)
    requires DistinctIds(plausible)
    requires Distinct(left) && Elems(left) == Remaining(plausible, start.selected)
    requires initialReds == Redundancies(start.selected) && initialFams == Families(start.selected)
    requires initialVersions == Versions(start.selected)
    ensures st == RelevanceLoop(setup, plausible, start)
  {
    st := start;
    var remaining, reds, fams, versions := left, initialReds, initialFams, initialVersions;
    while remaining != [] && |st.selected| < setup.limit
      invariant RelevanceLoop(setup, plausible, st) == RelevanceLoop(setup, plausible, start)
      invariant Distinct(remaining) && Elems(remaining) == Remaining(plausible, st.selected)
      invariant reds == Redundancies(st.selected) && fams == Families(st.selected) && versions == Versions(st.selected)
      decreases |remaining|
    {
      ghost var before := st;
      var step, rest := RelevanceStep(setup, plausible, st, remaining, reds, fams, versions);
      LoopUnfolds(setup, plausible, before);
      remaining := rest;
      versions := versions + {step.entry.Version()};
      GrowSets(st.selected, step.entry);
      var selected: seq<Entry>;
      selected, reds, fams := RememberSelection(step.entry, st.selected, reds, fams);
      st := RunState(selected, if step.explored then st.explorationLeft - 1 else st.explorationLeft, st.steps + [step]);
    }
    EmptyElems(remaining);
  }

  method RelevanceStep(setup: Setup, ghost plausible: set<Entry>, st: RunState, remaining: seq<Entry>,
                       reds: set<Redundancy>, fams: set<string>, versions: set<Version>)
    returns (step: Step, rest: seq<Entry>)
    requires DistinctIds(plausible)
    requires remaining != [] && Distinct(remaining) && Elems(remaining) == Remaining(plausible, st.selected)
    requires reds == Redundancies(st.selected) && fams == Families(st.selected) && versions == Versions(st.selected)
    ensures Remaining(plausible, st.selected) != {} && step == LoopDecision(setup, plausible, st)
    ensures Distinct(rest) && Elems(rest) == Elems(remaining) - {step.entry} && |rest| < |remaining|
  {
    EmptyElems(remaining);
    SortIsRanked(setup.Relevance(), remaining);
    var sorted := SortBy(setup.Relevance(), remaining);
    EmptyElems(sorted);
    step := DecideStep(setup, sorted, plausible, st, st.explorationLeft, reds, fams, versions);
    WithoutIs(setup.Relevance(), sorted, step.entry);
    rest := Without(sorted, step.entry);
    RankedIsDistinct(setup.Relevance(), rest);
    CountElems(rest);
    CountElems(remaining);
  }

  lemma FallbackUnfolds(setup: Setup, tail: seq<Entry>, budget: nat, st: RunState)
    requires tail != [] && Ranked(ScoreOrder, tail) && DistinctIds(Elems(tail))
    requires budget > 0 && |st.selected| < setup.limit
    ensures DistinctIds(Elems(tail[1..])) && Ranked(ScoreOrder, tail[1..])
    ensures Fallback(setup, Elems(tail), budget, st)
         == Fallback(setup, Elems(tail[1..]), budget - 1, FallbackNext(st, tail[0]))
  {
    RankedHeadIsBest(ScoreOrder, tail);
    RankedIsDistinct(ScoreOrder, tail);
    assert tail == [tail[0]] + tail[1..];
    assert Elems(tail[1..]) == Elems(tail) - {tail[0]};
  }

  method FallbackPass(setup: Setup, tooLarge: seq<Entry>, start: RunState) returns (st: RunState)
    requires Distinct(tooLarge) && DistinctIds(Elems(tooLarge))
    requires |start.selected| <= setup.limit
    ensures st == Fallback(setup, Elems(tooLarge), MAX_TOO_LARGE_FALLBACKS, start)
  {
    SortIsRanked(ScoreOrder, tooLarge);
    var sorted := SortBy(ScoreOrder, tooLarge);
    var room := setup.limit - |start.selected|;
    var budget := if room < MAX_TOO_LARGE_FALLBACKS then room else MAX_TOO_LARGE_FALLBACKS;
    var taken := if budget < |sorted| then sorted[..budget] else sorted;
    st := start;
    ghost var whole := Fallback(setup, Elems(sorted), MAX_TOO_LARGE_FALLBACKS, start);
    ghost var tail := sorted;
    var i := 0;
    while i < |taken| && |st.selected| < setup.limit
      invariant 0 <= i <= |taken| && |st.selected| == |start.selected| + i
      invariant tail == sorted[i..] && Ranked(ScoreOrder, tail) && DistinctIds(Elems(tail))
      invariant Fallback(setup, Elems(tail), MAX_TOO_LARGE_FALLBACKS - i, st) == whole
    {
      FallbackUnfolds(setup, tail, MAX_TOO_LARGE_FALLBACKS - i, st);
      tail := tail[1..];
      st := FallbackNext(st, taken[i]);
      i := i + 1;
    }
    EmptyElems(tail);
  }

  lemma DistinctEntries(list: seq<Candidate>, req: Requirements, hw: Hardware, targets: Candidate -> bool)
    requires DistinctRepoIds(list)
    ensures DistinctIds(EntriesOf(Candidates(list), req, hw, targets))
  {
  }

  method BuildEntries(list: seq<Candidate>, req: Requirements, hw: Hardware, targets: Candidate -> bool)
    returns (entries: seq<Entry>)
    requires DistinctRepoIds(list)
    ensures Distinct(entries) && Elems(entries) == EntriesOf(Candidates(list), req, hw, targets)
  {
    entries := [];
    for i := 0 to |list|
      invariant |entries| == i
      invariant forall k :: 0 <= k < i ==> entries[k] == EntryOf(list[k], req, hw, targets)
    {
      var hint := CoarsePlacementHint(list[i], req, hw);
      entries := entries + [Entry(list[i], hint.mode, list[i].desirability + FitBonus(hint.mode), targets(list[i]))];
    }
    forall e | e in EntriesOf(Candidates(list), req, hw, targets) ensures e in Elems(entries) {
      var i :| 0 <= i < |list| && list[i] == e.candidate;
      assert entries[i] == e;
    }
    forall e | e in Elems(entries) ensures e in EntriesOf(Candidates(list), req, hw, targets) {
      var i :| 0 <= i < |entries| && entries[i] == e;
      assert list[i] in Candidates(list);
    }
  }

  method RunPasses(setup: Setup, built: seq<Entry>) returns (end: RunState)
    requires Distinct(built) && DistinctIds(Elems(built))
    ensures end == Run(setup, Elems(built))
  {
    ghost var all := Elems(built);
    SortIsRanked(CoverageOrder, built);
    var entries := SortBy(CoverageOrder, built);
    var tooLarge := Filter(entries, (e: Entry) => e.mode == Some(TooLarge));
    var plausible := Filter(entries, (e: Entry) => e.mode != Some(TooLarge));
    SortedGroup(CoverageOrder, entries, (e: Entry) => e.mode == Some(TooLarge));
    SortedGroup(CoverageOrder, entries, (e: Entry) => e.mode != Some(TooLarge));
    RankedIsDistinct(CoverageOrder, tooLarge);
    RankedIsDistinct(CoverageOrder, plausible);
    assert Elems(plausible) == Plausible(all);
    assert Elems(tooLarge) == TooLargeOnes(all);

    var start, remaining, reds, fams, versions := CoverPlausible(setup, plausible, all);
    var mid := RelevancePass(setup, Plausible(all), start, remaining, reds, fams, versions);
    LoopFillsTheLimit(setup, all);
    end := FallbackPass(setup, tooLarge, mid);
  }

  method CoverPlausible(setup: Setup, plausible: seq<Entry>, ghost all: set<Entry>)
    returns (start: RunState, remaining: seq<Entry>, reds: set<Redundancy>, fams: set<string>, versions: set<Version>)
    requires DistinctIds(all) && Distinct(plausible) && Elems(plausible) == Plausible(all)
    ensures start == AfterCoverage(setup, all)
    ensures Distinct(remaining) && Elems(remaining) == Remaining(Plausible(all), start.selected)
    ensures reds == Redundancies(start.selected) && fams == Families(start.selected) && versions == Versions(start.selected)
  {
    var buckets := GroupShortlistBuckets(setup, plausible);
    var selected: seq<Entry>;
    var left: Buckets;
    selected, left, reds, fams, versions := CoveragePass(setup, Plausible(all), buckets);
    remaining := Flatten(setup, Plausible(all), left, selected);
    start := RunState(selected, setup.ExplorationBudget(),
                      seq(|selected|, i requires 0 <= i < |selected| => CoverageStep(selected[i])));
  }

  /** The run the code makes is the run of the SET of candidates: arrival order plays no part. */
  method HardwareAwareShortlist(list: seq<Candidate>, req: Requirements, limit: int, hw: Hardware,
                                targets: Candidate -> bool)
    returns (result: seq<Candidate>, steps: seq<Step>)
    requires DistinctRepoIds(list)
    ensures limit <= 0 ==> result == [] && steps == []
    ensures DistinctIds(EntriesOf(Candidates(list), req, hw, targets))
    ensures limit > 0 ==>
      var run := Run(SetupOf(limit, req, hw), EntriesOf(Candidates(list), req, hw, targets));
      && steps == run.steps
      && |result| == |run.selected|
      && forall i :: 0 <= i < |result| ==> result[i] == run.selected[i].candidate
  {
    DistinctEntries(list, req, hw, targets);
    if limit <= 0 {
      return [], [];
    }
    var entries := BuildEntries(list, req, hw, targets);
    var largest := LargestFittingBillions(hw, req);
    var coverSmall := NeedsSmallCoverage(largest);
    var setup := Setup(limit, coverSmall, PlanningVram(hw).None? || HasUnifiedMemory(hw), req.priority == Quality && !coverSmall);
    var end := RunPasses(setup, entries);
    result := seq(|end.selected|, i requires 0 <= i < |end.selected| => end.selected[i].candidate);
    steps := end.steps;
  }

  /** The trace depends on the set of candidates and on their other-task flags, nothing else: permuting
      the candidates, or replaying them with the recorded flags, makes the same run. */
  method ReplayShortlist(list: seq<Candidate>, rows: seq<Candidate>, req: Requirements, limit: int, hw: Hardware,
                         targets: Candidate -> bool, recorded: map<string, bool>)
    returns (expected: seq<Candidate>, trace: seq<Step>, replayed: seq<Candidate>, replayTrace: seq<Step>)
    requires DistinctRepoIds(list) && DistinctRepoIds(rows) && Candidates(rows) == Candidates(list)
    requires forall c :: c in list ==> c.repoId in recorded && recorded[c.repoId] == targets(c)
    ensures replayed == expected && replayTrace == trace
  {
    expected, trace := HardwareAwareShortlist(list, req, limit, hw, targets);
    var flags := (c: Candidate) => c.repoId in recorded && recorded[c.repoId];
    replayed, replayTrace := HardwareAwareShortlist(rows, req, limit, hw, flags);
    assert EntriesOf(Candidates(rows), req, hw, flags) == EntriesOf(Candidates(list), req, hw, targets) by {
      forall c | c in Candidates(list) ensures EntryOf(c, req, hw, flags) == EntryOf(c, req, hw, targets) {
      }
    }
  }

  // ---------------------------------------------------------------- the unknown-size pick, from candidates on

  /** Every entry the code builds has a known placement exactly when its size is known. */
  lemma EntriesAreSized(candidates: set<Candidate>, req: Requirements, hw: Hardware, targets: Candidate -> bool)
    ensures Cover.SizesDecideModes(EntriesOf(candidates, req, hw, targets))
  {
  }

  const PLAIN := Requirements(Balanced, 4096, 1)
  const ONE_GPU := Hardware(64 * GIB, [24 * GIB], [])

  lemma OneGpuFits()
    ensures PlanningVram(ONE_GPU) == Some(24 * GIB) && !HasUnifiedMemory(ONE_GPU)
    ensures CandidateVram(Cover.KNOWN.candidate, ONE_GPU) == Some(24 * GIB)
    ensures PlacementMode(Cover.KNOWN.candidate, PLAIN, ONE_GPU) == Some(GpuResident)
  {
    assert LargestOf([24 * GIB]) == Some(24 * GIB);
    var load := LoadOf(Cover.KNOWN.candidate, PLAIN);
    assert load.weights == 4200000000;
    assert load.ResidentNeed() <= 24 * GIB;
  }

  lemma OneGpuIsNotSmall()
    ensures SetupOf(2, PLAIN, ONE_GPU) == Cover.TwoSlots()
  {
    OneGpuFits();
    LargestFittingIsTheThreshold(ONE_GPU, PLAIN);
    assert Fits(15.0, PLAIN, 24 * GIB);
  }

  /** The same failure from the three repositories themselves, on a machine with one 24 GiB card. */
  lemma UnknownSizePickWithoutSignalIsReal()
    ensures
      var candidates := {Cover.KNOWN.candidate, Cover.SIGNALLED.candidate, Cover.SILENT.candidate};
      var entries := EntriesOf(candidates, PLAIN, ONE_GPU, _ => false);
      && DistinctIds(entries) && entries == Cover.ThreeEntries()
      && Run(SetupOf(2, PLAIN, ONE_GPU), entries).selected == [Cover.KNOWN, Cover.SILENT]
  {
    OneGpuFits();
    OneGpuIsNotSmall();
    var candidates := {Cover.KNOWN.candidate, Cover.SIGNALLED.candidate, Cover.SILENT.candidate};
    assert EntriesOf(candidates, PLAIN, ONE_GPU, _ => false) == Cover.ThreeEntries() by {
      assert EntryOf(Cover.KNOWN.candidate, PLAIN, ONE_GPU, _ => false) == Cover.KNOWN;
      assert EntryOf(Cover.SIGNALLED.candidate, PLAIN, ONE_GPU, _ => false) == Cover.SIGNALLED;
      assert EntryOf(Cover.SILENT.candidate, PLAIN, ONE_GPU, _ => false) == Cover.SILENT;
    }
    Cover.UnknownSizePickWithoutSignal();
  }
}
