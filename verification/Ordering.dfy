/** Shortlist entries and the orders they are sorted by. */
module Ordering {
  import opened Common
  import opened Placement
  import opened Sizing
  import opened Sorting
  import opened Text

  // ---------------------------------------------------------------- entries

  type Version = (string, Option<real>)
  type Redundancy = (string, Scale, Option<Mode>)

  datatype Entry = Entry(candidate: Candidate, mode: Option<Mode>, score: real, otherTask: bool) {
    function Id(): string { candidate.repoId }

    /** Entries with one version are versions of one model, not different options. */
    function Version(): Version { (candidate.family, candidate.billions) }

    function Redundancy(): Redundancy { (candidate.family, ScaleBucket(candidate.billions), mode) }

    predicate Small() { ScaleBucket(candidate.billions) in {Tiny, Scale.Small} }

    predicate HasTextSignal() { candidate.isGguf || candidate.declaresTextPipeline }

    function Downloads(): int { if candidate.downloads < 0 then 0 else candidate.downloads }
  }

  function FitBonus(mode: Option<Mode>): real {
    match mode
    case None => 0.0
    case Some(GpuResident) => 4.0
    case Some(GpuOffload) => 3.0
    case Some(CpuRam) => 1.5
    case Some(TooLarge) => -9.0
  }

  /** cpuFirst: no dedicated device with known memory, so system memory is the best class. */
  function ModeOrder(mode: Option<Mode>, cpuFirst: bool): nat {
    if cpuFirst then
      match mode
      case Some(CpuRam) => 0
      case None => 1
      case Some(GpuResident) => 2
      case Some(GpuOffload) => 3
      case Some(TooLarge) => 4
    else
      match mode
      case Some(GpuResident) => 0
      case Some(GpuOffload) => 1
      case Some(CpuRam) => 2
      case None => 3
      case Some(TooLarge) => 4
  }

  // ---------------------------------------------------------------- orders

  datatype Order =
    | CoverageOrder
    | UnknownSizeOrder
    | RelevanceOrder(coverSmall: bool, cpuFirst: bool)
    | ExplorationOrder(quality: bool)
    | ScoreOrder

  /** Compared field by field; the score descending, the rest ascending. */
  datatype SortKey = SortKey(major: real, middle: int, minor: int, score: real, id: string)

  function Flag(b: bool): int { if b then 1 else 0 }

  function KeyOf(o: Order, e: Entry): SortKey {
    match o
    case CoverageOrder => SortKey(0.0, 0, Flag(e.otherTask), e.score, e.Id())
    case UnknownSizeOrder => SortKey(0.0, Flag(!e.HasTextSignal()), Flag(e.otherTask), e.score, e.Id())
    case RelevanceOrder(coverSmall, cpuFirst) =>
      SortKey(ModeOrder(e.mode, cpuFirst) as real, Flag(!coverSmall && e.Small()), Flag(e.otherTask), e.score, e.Id())
    case ExplorationOrder(true) =>
      SortKey(if e.candidate.billions.Some? then -e.candidate.billions.value else 0.0, 0, 0, e.score, e.Id())
    case ExplorationOrder(false) =>
      SortKey(-(ScaleOrder(e.candidate.billions) as real), 0, 0, e.score, e.Id())
    case ScoreOrder => SortKey(0.0, 0, 0, e.score, e.Id())
  }

  predicate KeyBefore(a: SortKey, b: SortKey) {
    || a.major < b.major
    || (a.major == b.major && a.middle < b.middle)
    || (a.major == b.major && a.middle == b.middle && a.minor < b.minor)
    || (a.major == b.major && a.middle == b.middle && a.minor == b.minor && a.score > b.score)
    || (a.major == b.major && a.middle == b.middle && a.minor == b.minor && a.score == b.score
        && StringBefore(a.id, b.id))
  }

  predicate Before(o: Order, a: Entry, b: Entry) { KeyBefore(KeyOf(o, a), KeyOf(o, b)) }

  lemma BeforeTotal(o: Order, a: Entry, b: Entry)
    ensures a.Id() != b.Id() ==> Before(o, a, b) || Before(o, b, a)
    ensures !(Before(o, a, b) && Before(o, b, a))
  {
    StringTotal(a.Id(), b.Id());
  }

  lemma BeforeTransitive(o: Order, a: Entry, b: Entry, c: Entry)
    requires Before(o, a, b) && Before(o, b, c)
    ensures Before(o, a, c)
  {
    if StringBefore(a.Id(), b.Id()) && StringBefore(b.Id(), c.Id()) {
      StringTransitive(a.Id(), b.Id(), c.Id());
    }
  }

  // ---------------------------------------------------------------- the best of a set

  predicate DistinctIds(s: set<Entry>) {
    forall a, b :: a in s && b in s && a.Id() == b.Id() ==> a == b
  }

  ghost predicate IsBest(o: Order, s: set<Entry>, b: Entry) {
    b in s && forall e :: e in s ==> e == b || Before(o, b, e)
  }

  lemma {:induction false} BestExists(o: Order, s: set<Entry>)
    requires s != {} && DistinctIds(s)
    ensures exists b :: IsBest(o, s, b)
  {
    var x :| x in s;
    if s == {x} {
      assert IsBest(o, s, x);
    } else {
      BestExists(o, s - {x});
      var b :| IsBest(o, s - {x}, b);
      BeforeTotal(o, b, x);
      if Before(o, b, x) {
        assert IsBest(o, s, b);
      } else {
        forall e | e in s ensures e == x || Before(o, x, e) {
          if e != x && e != b {
            BeforeTransitive(o, x, b, e);
          }
        }
        assert IsBest(o, s, x);
      }
    }
  }

  ghost function Best(o: Order, s: set<Entry>): (b: Entry)
    requires s != {} && DistinctIds(s)
    ensures IsBest(o, s, b)
  {
    BestExists(o, s);
    var b :| IsBest(o, s, b);
    b
  }

  lemma BestIsUnique(o: Order, s: set<Entry>, b: Entry)
    requires DistinctIds(s) && IsBest(o, s, b)
    ensures Best(o, s) == b
  {
    BeforeTotal(o, b, Best(o, s));
  }

  // ---------------------------------------------------------------- sorted lists

  function Elems(s: seq<Entry>): set<Entry> { set e | e in s }

  lemma EmptyElems(s: seq<Entry>)
    ensures s == [] <==> Elems(s) == {}
  {
    if s != [] {
      assert s[0] in Elems(s);
    }
  }

  /** Sorted by the order, and therefore without repetition. */
  ghost predicate Ranked(o: Order, s: seq<Entry>) {
    forall i, j :: 0 <= i < j < |s| ==> Before(o, s[i], s[j])
  }

  function SortBy(o: Order, s: seq<Entry>): seq<Entry> { Sort((a: Entry, b: Entry) => Before(o, a, b), s) }

  lemma SortIsRanked(o: Order, s: seq<Entry>)
    requires Distinct(s) && DistinctIds(Elems(s))
    ensures Ranked(o, SortBy(o, s)) && Elems(SortBy(o, s)) == Elems(s)
  {
    var less := (a: Entry, b: Entry) => Before(o, a, b);
    forall a, b, c | less(a, b) && less(b, c) ensures less(a, c) {
      BeforeTransitive(o, a, b, c);
    }
    forall i, j | 0 <= i < j < |s| ensures less(s[i], s[j]) || less(s[j], s[i]) {
      assert s[i] in Elems(s) && s[j] in Elems(s) && s[i] != s[j];
      BeforeTotal(o, s[i], s[j]);
    }
    SortOrders(less, s);
    assert Ordered(less, SortBy(o, s));
  }

  lemma RankedIsDistinct(o: Order, s: seq<Entry>)
    requires Ranked(o, s)
    ensures Distinct(s)
  {
    forall i, j | 0 <= i < j < |s| ensures s[i] != s[j] {
      BeforeTotal(o, s[i], s[j]);
    }
  }

  lemma RankedHeadIsBest(o: Order, s: seq<Entry>)
    requires Ranked(o, s) && s != [] && DistinctIds(Elems(s))
    ensures s[0] in Elems(s) && s[0] == Best(o, Elems(s))
  {
    assert IsBest(o, Elems(s), s[0]);
    BestIsUnique(o, Elems(s), s[0]);
  }

  function Filter(s: seq<Entry>, keep: Entry -> bool): seq<Entry> {
    if s == [] then [] else (if keep(s[0]) then [s[0]] else []) + Filter(s[1..], keep)
  }

  lemma {:induction false} FilterElems(s: seq<Entry>, keep: Entry -> bool)
    ensures forall e :: e in Filter(s, keep) <==> e in s && keep(e)
  {
    if s != [] {
      FilterElems(s[1..], keep);
      assert s == [s[0]] + s[1..];
    }
  }

  lemma {:induction false} FilterRanked(o: Order, s: seq<Entry>, keep: Entry -> bool)
    requires Ranked(o, s)
    ensures Ranked(o, Filter(s, keep))
  {
    if s != [] {
      FilterRanked(o, s[1..], keep);
      FilterElems(s[1..], keep);
      var rest := Filter(s[1..], keep);
      forall i | 0 <= i < |rest| ensures Before(o, s[0], rest[i]) {
        assert rest[i] in rest;
        var k :| 0 <= k < |s[1..]| && s[1..][k] == rest[i];
        assert s[k + 1] == rest[i];
      }
    }
  }
}
