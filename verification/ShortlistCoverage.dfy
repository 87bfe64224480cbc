/** What the coverage pass represents, and when its unknown-size pick can be trusted to run. */
module ShortlistCoverage {
  import opened Common
  import opened Placement
  import opened Sizing
  import opened Ordering
  import opened ShortlistSpec
  import opened ShortlistRun

  /** A size class deserves a slot: it is in the best placement class on offer (or, when its size is
      unknown, something in it declares text use), and it is not small where larger ones exist. */
  ghost predicate Eligible(setup: Setup, plausible: set<Entry>, bucket: set<Entry>) {
    && bucket != {}
    && ((forall e :: e in bucket ==> e.mode.None?) ==> exists e :: e in bucket && e.HasTextSignal())
    && (forall e :: e in bucket && e.mode.Some? ==> InBestClass(setup, plausible, e))
    && (LargerInBestClass(setup, plausible) && !setup.coverSmall ==> forall e :: e in bucket ==> !e.Small())
  }

  lemma SameBucketSameMode(setup: Setup, plausible: set<Entry>, code: nat, a: Entry, b: Entry)
    requires a in Bucket(setup, plausible, code) && b in Bucket(setup, plausible, code)
    ensures a.mode == b.mode && a.Small() == b.Small() && setup.Class(a) == setup.Class(b)
  {
  }

  lemma PickedIffEligible(setup: Setup, plausible: set<Entry>, code: nat, selected: seq<Entry>)
    requires DistinctIds(plausible)
    ensures CoveragePick(setup, plausible, Bucket(setup, plausible, code), selected).Some?
       <==> Eligible(setup, plausible, Bucket(setup, plausible, code))
  {
    var bucket := Bucket(setup, plausible, code);
    if bucket != {} {
      var first := Best(CoverageOrder, bucket);
      var order := if first.mode.None? then UnknownSizeOrder else CoverageOrder;
      var head := Best(order, bucket);
      forall e | e in bucket
        ensures e.mode == first.mode == head.mode && e.Small() == head.Small() && setup.Class(e) == setup.Class(first)
        ensures first.mode.None? && e.HasTextSignal() ==> head.HasTextSignal()
      {
        SameBucketSameMode(setup, plausible, code, e, first);
        SameBucketSameMode(setup, plausible, code, head, first);
      }
    }
  }

  /** The pick of a class of known size has the best other-task flag of its class, and a score within a
      rounding error of the best that has that flag. */
  ghost predicate BestOfItsBucket(bucket: set<Entry>, pick: Entry) {
    && pick in bucket
    && (forall e :: e in bucket && pick.otherTask ==> e.otherTask)
    && (forall e :: e in bucket && e.otherTask == pick.otherTask ==> pick.score >= e.score - SCORE_TIE_EPSILON)
  }

  lemma KnownSizePickIsBest(setup: Setup, plausible: set<Entry>, code: nat, selected: seq<Entry>)
    requires DistinctIds(plausible)
    requires
      var pick := CoveragePick(setup, plausible, Bucket(setup, plausible, code), selected);
      pick.Some? && pick.value.mode.Some?
    ensures
      var bucket := Bucket(setup, plausible, code);
      BestOfItsBucket(bucket, CoveragePick(setup, plausible, bucket, selected).value)
  {
    var bucket := Bucket(setup, plausible, code);
    var pick := CoveragePick(setup, plausible, bucket, selected).value;
    var first := Best(CoverageOrder, bucket);
    SameBucketSameMode(setup, plausible, code, pick, first);
    assert pick in TiedWith(first, bucket);
    forall e | e in bucket
      ensures pick.otherTask ==> e.otherTask
      ensures e.otherTask == pick.otherTask ==> pick.score >= e.score - SCORE_TIE_EPSILON
    {
      assert e == first || Before(CoverageOrder, first, e);
    }
  }

  ghost predicate Represented(setup: Setup, selected: seq<Entry>, code: nat) {
    exists i :: 0 <= i < |selected| && BucketCode(setup, selected[i]) == code
  }

  function Below(p: nat -> bool, bound: nat): set<nat> {
    if bound == 0 then {} else Below(p, bound - 1) + (if p(bound - 1) then {bound - 1} else {})
  }

  lemma {:induction false} BelowIs(p: nat -> bool, bound: nat, code: nat)
    ensures code in Below(p, bound) <==> code < bound && p(code)
  {
    if bound > 0 {
      BelowIs(p, bound - 1, code);
    }
  }

  ghost function EligibleCodes(setup: Setup, plausible: set<Entry>): set<nat> {
    Below((c: nat) => Eligible(setup, plausible, Bucket(setup, plausible, c)), BUCKET_CODES)
  }

  lemma CoverNextIs(setup: Setup, plausible: set<Entry>, code: nat, selected: seq<Entry>)
    requires DistinctIds(plausible) && code < BUCKET_CODES
    ensures
      var next := CoverNext(setup, plausible, code, selected);
      if code in EligibleCodes(setup, plausible)
      then |next| == |selected| + 1 && selected <= next && BucketCode(setup, next[|selected|]) == code
      else next == selected
  {
    PickedIffEligible(setup, plausible, code, selected);
    BelowIs((c: nat) => Eligible(setup, plausible, Bucket(setup, plausible, c)), BUCKET_CODES, code);
  }

  /** Unless the limit cuts it short, every class of codes gets a slot; and no other class gets one. */
  ghost predicate CoverageFair(setup: Setup, codes: set<nat>, code: nat, selected: seq<Entry>) {
    && (forall i :: 0 <= i < |selected| ==> BucketCode(setup, selected[i]) in codes)
    && (|selected| < setup.limit ==> forall c :: c in codes && c < code ==> Represented(setup, selected, c))
  }

  lemma NextKeepsFair(setup: Setup, codes: set<nat>, code: nat, selected: seq<Entry>, next: seq<Entry>)
    requires |selected| < setup.limit && CoverageFair(setup, codes, code, selected)
    requires
      if code in codes
      then |next| == |selected| + 1 && selected <= next && BucketCode(setup, next[|selected|]) == code
      else next == selected
    ensures CoverageFair(setup, codes, code + 1, next)
  {
  }

  lemma CoverageIsFair(setup: Setup, plausible: set<Entry>, codes: set<nat>)
    requires DistinctIds(plausible) && codes == EligibleCodes(setup, plausible)
    ensures CoverageFair(setup, codes, BUCKET_CODES, Coverage(setup, plausible, 0, []))
  {
    forall c: nat, s | CoverageFair(setup, codes, c, s) && c < BUCKET_CODES && |s| < setup.limit
      ensures CoverageFair(setup, codes, c + 1, CoverNext(setup, plausible, c, s))
    {
      CoverNextIs(setup, plausible, c, s);
      NextKeepsFair(setup, codes, c, s, CoverNext(setup, plausible, c, s));
    }
    var end := CoverageInduction(setup, plausible, (c: nat, s: seq<Entry>) => CoverageFair(setup, codes, c, s));
  }

  lemma CoverageRepresentsEveryClass(setup: Setup, entries: set<Entry>)
    requires DistinctIds(entries)
    ensures
      var plausible, covered := Plausible(entries), AfterCoverage(setup, entries).selected;
      && CoveredSoFar(setup, plausible, BUCKET_CODES, covered)
      && CoverageFair(setup, EligibleCodes(setup, plausible), BUCKET_CODES, covered)
  {
    CoverageIsFair(setup, Plausible(entries), EligibleCodes(setup, Plausible(entries)));
    CoverageIsOnePerBucket(setup, Plausible(entries));
  }

  /** On machines that need small models, sizes up to and above the split do not compete for one slot. */
  predicate SameSide(a: Entry, b: Entry) {
    a.candidate.billions.Some? && b.candidate.billions.Some? && ScaleBucket(a.candidate.billions) == Small
    ==> (a.candidate.billions.value <= SMALL_COVERAGE_SPLIT <==> b.candidate.billions.value <= SMALL_COVERAGE_SPLIT)
  }

  lemma SameBucketIff(setup: Setup, a: Entry, b: Entry)
    ensures BucketCode(setup, a) == BucketCode(setup, b)
       <==> a.mode == b.mode && ScaleBucket(a.candidate.billions) == ScaleBucket(b.candidate.billions)
            && (setup.coverSmall ==> SameSide(a, b))
  {
  }

  /** Coverage goes through the placement classes in order and, where small models are covered, takes larger
      models before small ones, so that even a single slot goes to a larger one. */
  lemma CoverageTakesLargerFirst(setup: Setup, entries: set<Entry>, i: nat, j: nat)
    requires DistinctIds(entries) && i < j < |AfterCoverage(setup, entries).selected|
    ensures
      var covered := AfterCoverage(setup, entries).selected;
      && setup.Class(covered[i]) <= setup.Class(covered[j])
      && (setup.coverSmall && setup.Class(covered[i]) == setup.Class(covered[j]) && covered[i].Small()
          ==> covered[j].Small())
  {
    var covered := AfterCoverage(setup, entries).selected;
    CoverageIsOnePerBucket(setup, Plausible(entries));
    CodeOrder(setup, covered[i], covered[j]);
  }

  lemma CodeOrder(setup: Setup, a: Entry, b: Entry)
    requires BucketCode(setup, a) < BucketCode(setup, b)
    ensures setup.Class(a) <= setup.Class(b)
    ensures setup.coverSmall && setup.Class(a) == setup.Class(b) && a.Small() ==> b.Small()
  {
  }

  // ---------------------------------------------------------------- each slot is the pick of its bucket

  ghost predicate IsPickOfItsBucket(setup: Setup, plausible: set<Entry>, covered: seq<Entry>, i: nat)
    requires DistinctIds(plausible) && i < |covered|
  {
    CoveragePick(setup, plausible, Bucket(setup, plausible, BucketCode(setup, covered[i])), covered[..i]) == Some(covered[i])
  }

  ghost predicate PicksInOrder(setup: Setup, plausible: set<Entry>, covered: seq<Entry>)
    requires DistinctIds(plausible)
  {
    forall i :: 0 <= i < |covered| ==> IsPickOfItsBucket(setup, plausible, covered, i)
  }

  lemma PickAppends(setup: Setup, plausible: set<Entry>, code: nat, covered: seq<Entry>)
    requires DistinctIds(plausible) && PicksInOrder(setup, plausible, covered)
    ensures PicksInOrder(setup, plausible, CoverNext(setup, plausible, code, covered))
  {
    var next := CoverNext(setup, plausible, code, covered);
    forall i | 0 <= i < |next| ensures IsPickOfItsBucket(setup, plausible, next, i) {
      assert next[..i] == covered[..i];
      if i < |covered| {
        assert IsPickOfItsBucket(setup, plausible, covered, i);
      } else {
        assert covered[..i] == covered;
      }
    }
  }

  /** Every slot the pass fills holds the pick of one bucket, given what the pass had selected before it. */
  lemma CoverageIsPicks(setup: Setup, entries: set<Entry>)
    requires DistinctIds(entries)
    ensures PicksInOrder(setup, Plausible(entries), AfterCoverage(setup, entries).selected)
  {
    var plausible := Plausible(entries);
    forall c: nat, s | PicksInOrder(setup, plausible, s) && c < BUCKET_CODES && |s| < setup.limit
      ensures PicksInOrder(setup, plausible, CoverNext(setup, plausible, c, s))
    {
      PickAppends(setup, plausible, c, s);
    }
    var end := CoverageInduction(setup, plausible, (c: nat, s: seq<Entry>) => PicksInOrder(setup, plausible, s));
  }

  // ---------------------------------------------------------------- the unknown-size pick

  /** The placement is unknown exactly when the size is, as for every entry the code builds. */
  predicate SizesDecideModes(entries: set<Entry>) {
    forall e :: e in entries ==> (e.mode.None? <==> e.candidate.billions.None?)
  }

  /** The entries of unknown size that tie with the one sorted first, which the text-use test looks at. */
  ghost function UnknownTie(entries: set<Entry>): set<Entry>
    requires DistinctIds(entries)
  {
    var unknown := set e | e in entries && e.mode.None?;
    if unknown == {} then {} else TiedWith(Best(UnknownSizeOrder, unknown), unknown)
  }

  ghost function NewFamilies(tied: set<Entry>, selected: seq<Entry>): set<Entry> {
    set e | e in tied && e.candidate.family !in Families(selected)
  }

  /** What the caller can see before the pick: nothing in the tie is of a new family, or something of a new
      family declares text use. */
  ghost predicate NewFamilySignals(tied: set<Entry>, selected: seq<Entry>) {
    NewFamilies(tied, selected) == {} || exists e :: e in NewFamilies(tied, selected) && e.HasTextSignal()
  }

  lemma BestSignals(pool: set<Entry>)
    requires DistinctIds(pool) && pool != {}
    ensures Best(UnknownSizeOrder, pool).HasTextSignal() <==> exists e :: e in pool && e.HasTextSignal()
  {
    var x := Best(UnknownSizeOrder, pool);
    forall e | e in pool && e.HasTextSignal() ensures x.HasTextSignal() {
      assert x == e || Before(UnknownSizeOrder, x, e);
    }
  }

  /** With nothing of unknown size selected yet, every size class in the tie is new, and only families count. */
  lemma PreferredIsNewFamilies(tied: set<Entry>, selected: seq<Entry>)
    requires forall e :: e in tied ==> e.mode.None?
    requires forall e :: e in selected ==> e.mode.Some?
    ensures Preferred(tied, Redundancies(selected), Families(selected))
         == if NewFamilies(tied, selected) != {} then NewFamilies(tied, selected) else tied
  {
    forall e | e in tied ensures e.Redundancy() !in Redundancies(selected) {
      assert e.Redundancy().2 == None;
    }
    assert NewInBoth(tied, Redundancies(selected), Families(selected)) == NewFamilies(tied, selected);
    assert NewInSize(tied, Redundancies(selected)) == tied;
  }

  lemma TiePickSignals(tied: set<Entry>, head: Entry, selected: seq<Entry>)
    requires DistinctIds(tied) && head in tied && head.HasTextSignal()
    requires forall e :: e in tied ==> e.mode.None?
    requires forall e :: e in selected ==> e.mode.Some?
    ensures Pick(UnknownSizeOrder, tied, Redundancies(selected), Families(selected)).HasTextSignal()
       <==> NewFamilySignals(tied, selected)
  {
    PreferredIsNewFamilies(tied, selected);
    BestSignals(Preferred(tied, Redundancies(selected), Families(selected)));
  }

  /** The bucket of an unknown-size slot is everything of unknown size, and nothing of unknown size was
      selected before it. */
  lemma UnknownSlotFacts(setup: Setup, entries: set<Entry>, i: nat)
    requires DistinctIds(entries) && SizesDecideModes(entries)
    requires i < |AfterCoverage(setup, entries).selected| && AfterCoverage(setup, entries).selected[i].mode.None?
    ensures
      var covered := AfterCoverage(setup, entries).selected;
      && Bucket(setup, Plausible(entries), BucketCode(setup, covered[i])) == (set e | e in entries && e.mode.None?)
      && forall e :: e in covered[..i] ==> e.mode.Some?
  {
    var covered := AfterCoverage(setup, entries).selected;
    CoverageIsOnePerBucket(setup, Plausible(entries));
    assert covered[i] in Elems(covered);
    forall e | e in entries ensures e.mode.None? <==> BucketCode(setup, e) == BucketCode(setup, covered[i]) {
      SameBucketIff(setup, e, covered[i]);
    }
    forall k | 0 <= k < i ensures covered[k].mode.Some? {
      assert covered[k] in Elems(covered);
    }
  }

  /** An unknown-size slot of the coverage pass holds an entry that declares text use if and only if nothing in
      the tie is of a family not selected yet, or something of such a family declares text use. */
  lemma UnknownSizePickSignals(setup: Setup, entries: set<Entry>, i: nat)
    requires DistinctIds(entries) && SizesDecideModes(entries)
    requires i < |AfterCoverage(setup, entries).selected| && AfterCoverage(setup, entries).selected[i].mode.None?
    ensures
      var covered := AfterCoverage(setup, entries).selected;
      covered[i].HasTextSignal() <==> NewFamilySignals(UnknownTie(entries), covered[..i])
  {
    var covered := AfterCoverage(setup, entries).selected;
    var unknown := set e | e in entries && e.mode.None?;
    UnknownSlotFacts(setup, entries, i);
    CoverageIsPicks(setup, entries);
    assert IsPickOfItsBucket(setup, Plausible(entries), covered, i);
    assert covered[i] in unknown;
    var head := Best(UnknownSizeOrder, unknown);
    TiePickSignals(TiedWith(head, unknown), head, covered[..i]);
  }

  // ---------------------------------------------------------------- a run that picks without a signal

  const KNOWN :=
    Entry(Candidate("a/one-7b-gguf", 500, 0, 2.0, Some(7.0), Q4, true, false, "one"), Some(GpuResident), 6.0, false)
  const SIGNALLED := Entry(Candidate("b/one-gguf", 10, 0, 1.0, None, Q4, true, false, "one"), None, 1.0, false)
  const SILENT := Entry(Candidate("c/two", 900, 0, 5.0, None, Float16, false, false, "two"), None, 5.0, false)

  function ThreeEntries(): set<Entry> { {KNOWN, SIGNALLED, SILENT} }

  function TwoSlots(): Setup { Setup(2, false, false, false) }

  lemma ThreeEntriesFacts()
    ensures DistinctIds(ThreeEntries()) && SizesDecideModes(ThreeEntries())
    ensures Plausible(ThreeEntries()) == ThreeEntries()
    ensures BucketCode(TwoSlots(), KNOWN) == 2 && BucketCode(TwoSlots(), SIGNALLED) == BucketCode(TwoSlots(), SILENT) == 77
    ensures UnknownTie(ThreeEntries()) == {SIGNALLED, SILENT}
    ensures Best(UnknownSizeOrder, {SIGNALLED, SILENT}) == SIGNALLED
  {
    assert KNOWN.Id()[0] == 'a' && SIGNALLED.Id()[0] == 'b' && SILENT.Id()[0] == 'c';
    assert (set e | e in ThreeEntries() && e.mode.None?) == {SIGNALLED, SILENT};
    BestIsUnique(UnknownSizeOrder, {SIGNALLED, SILENT}, SIGNALLED);
    assert TiedWith(SIGNALLED, {SIGNALLED, SILENT}) == {SIGNALLED, SILENT};
  }

  lemma ThreeEntriesEligible()
    ensures Eligible(TwoSlots(), ThreeEntries(), {KNOWN}) && Eligible(TwoSlots(), ThreeEntries(), {SIGNALLED, SILENT})
    ensures !Eligible(TwoSlots(), ThreeEntries(), {})
  {
    assert SIGNALLED.HasTextSignal();
  }

  lemma ThreeEntriesBucket(code: nat)
    ensures Bucket(TwoSlots(), ThreeEntries(), code)
         == if code == 2 then {KNOWN} else if code == 77 then {SIGNALLED, SILENT} else {}
  {
    ThreeEntriesFacts();
  }

  lemma ThreeEntriesCodes()
    ensures EligibleCodes(TwoSlots(), ThreeEntries()) == {2, 77}
  {
    ThreeEntriesEligible();
    var eligible := (c: nat) => Eligible(TwoSlots(), ThreeEntries(), Bucket(TwoSlots(), ThreeEntries(), c));
    forall c: nat ensures eligible(c) <==> c == 2 || c == 77 {
      ThreeEntriesBucket(c);
    }
    TwoBelow(eligible, BUCKET_CODES, 2, 77);
  }

  lemma TwoBelow(p: nat -> bool, bound: nat, a: nat, b: nat)
    requires a < bound && b < bound && forall c :: p(c) <==> c == a || c == b
    ensures Below(p, bound) == {a, b}
  {
    forall c: nat ensures c in Below(p, bound) <==> c == a || c == b {
      BelowIs(p, bound, c);
    }
  }

  lemma TwoRepresented(setup: Setup, covered: seq<Entry>, a: nat, b: nat)
    requires a != b
    ensures Represented(setup, covered, a) && Represented(setup, covered, b) ==> |covered| >= 2
  {
  }

  /** With two slots and two eligible classes, each class gets one. */
  lemma TwoSlotsFilled(setup: Setup, plausible: set<Entry>, covered: seq<Entry>, a: nat, b: nat)
    requires setup.limit == 2 && a < b < BUCKET_CODES
    requires CoveredSoFar(setup, plausible, BUCKET_CODES, covered)
    requires CoverageFair(setup, {a, b}, BUCKET_CODES, covered)
    ensures |covered| == 2 && covered[0] in Bucket(setup, plausible, a) && covered[1] in Bucket(setup, plausible, b)
  {
    assert |covered| == 2 || (Represented(setup, covered, a) && Represented(setup, covered, b));
    TwoRepresented(setup, covered, a, b);
    assert BucketCode(setup, covered[0]) < BucketCode(setup, covered[1]);
    assert covered[0] in Elems(covered) && covered[1] in Elems(covered);
  }

  lemma FullCoverageIsTheRun(setup: Setup, entries: set<Entry>)
    requires DistinctIds(entries) && |AfterCoverage(setup, entries).selected| >= setup.limit
    ensures Run(setup, entries).selected == AfterCoverage(setup, entries).selected
  {
  }

  lemma SlotsOfThree(covered: seq<Entry>)
    requires DistinctIds(ThreeEntries()) && covered == AfterCoverage(TwoSlots(), ThreeEntries()).selected
    ensures |covered| == 2 && covered[0] == KNOWN && covered[1] in {SIGNALLED, SILENT}
  {
    ThreeEntriesFacts();
    ThreeEntriesCodes();
    ThreeEntriesBucket(2);
    ThreeEntriesBucket(77);
    CoverageRepresentsEveryClass(TwoSlots(), ThreeEntries());
    TwoSlotsFilled(TwoSlots(), ThreeEntries(), covered, 2, 77);
  }

  lemma NewInTheTie(selected: seq<Entry>)
    requires selected == [KNOWN]
    ensures NewFamilies({SIGNALLED, SILENT}, selected) == {SILENT}
    ensures !NewFamilySignals({SIGNALLED, SILENT}, selected)
  {
    assert "one"[0] != "two"[0];
    assert Families(selected) == {"one"};
    assert NewFamilies({SIGNALLED, SILENT}, selected) == {SILENT};
  }

  /** A whole run on one input: the 7B model is covered first; its family is then taken, so the entry the
      text-use test looked at, of the same family, loses its slot to one with no signal at all. */
  lemma UnknownSizePickWithoutSignal()
    ensures DistinctIds(ThreeEntries()) && UnknownTie(ThreeEntries()) == {SIGNALLED, SILENT}
    ensures Run(TwoSlots(), ThreeEntries()).selected == [KNOWN, SILENT]
    ensures Best(UnknownSizeOrder, {SIGNALLED, SILENT}) == SIGNALLED
    ensures SIGNALLED.HasTextSignal() && !SILENT.HasTextSignal()
  {
    ThreeEntriesFacts();
    var covered := AfterCoverage(TwoSlots(), ThreeEntries()).selected;
    SlotsOfThree(covered);
    UnknownSizePickSignals(TwoSlots(), ThreeEntries(), 1);
    assert covered[..1] == [KNOWN];
    NewInTheTie(covered[..1]);
    assert covered == [KNOWN, SILENT];
    FullCoverageIsTheRun(TwoSlots(), ThreeEntries());
  }
}
