/** Size classes, the bisection for the largest model a machine can hold, and the search bands. */
module Sizing {
  import opened Common
  import opened Placement

  datatype Scale = Tiny | Small | Medium | Large | Huge | UnknownScale

  const TINY_MAX := 1.0
  const SMALL_MAX := 4.0
  const MEDIUM_MAX := 14.0
  const LARGE_MAX := 32.0
  const SMALL_COVERAGE_SPLIT := 2.0

  function ScaleBucket(billions: Option<real>): Scale {
    match billions
    case None => UnknownScale
    case Some(b) =>
      if b <= TINY_MAX then Tiny
      else if b <= SMALL_MAX then Small
      else if b <= MEDIUM_MAX then Medium
      else if b <= LARGE_MAX then Large
      else Huge
  }

  function ScaleOrder(billions: Option<real>): nat {
    match ScaleBucket(billions)
    case Tiny => 0
    case Small => 1
    case Medium => 2
    case Large => 3
    case Huge => 4
    case UnknownScale => 5
  }

  predicate NeedsSmallCoverage(maxBillions: Option<real>) {
    maxBillions.Some? && 0.0 < maxBillions.value <= MEDIUM_MAX
  }

  // ---------------------------------------------------------------- the largest fitting size

  const UPPER_SIZE := 1000.0
  const BISECTION_STEPS: nat := 40

  function Needed(billions: real, req: Requirements): int {
    var weights := RawWeightBytes(billions, Q4);
    WithSafetyMargin(KvCacheBytes(billions, req) + DEVICE_RESERVE_BYTES + weights + OverheadBytes(weights))
  }

  predicate Fits(billions: real, req: Requirements, pool: int) {
    Needed(billions, req) <= pool
  }

  /** Zero counts as unknown, for a device as for system memory. */
  function Pool(hw: Hardware): int {
    var vram := PlanningVram(hw);
    if vram.Some? && vram.value != 0 then vram.value else hw.ramBytes
  }

  function Bisect(low: real, high: real, steps: nat, req: Requirements, pool: int): real
    decreases steps
  {
    if steps == 0 then low
    else
      var middle := (low + high) / 2.0;
      if Fits(middle, req, pool) then Bisect(middle, high, steps - 1, req, pool)
      else Bisect(low, middle, steps - 1, req, pool)
  }

  function LargestFitting(hw: Hardware, req: Requirements): Option<real> {
    if Pool(hw) == 0 then None
    else Some(Bisect(0.0, UPPER_SIZE, BISECTION_STEPS, req, Pool(hw)))
  }

  method LargestFittingBillions(hw: Hardware, req: Requirements) returns (size: Option<real>)
    ensures size == LargestFitting(hw, req)
  {
    var pool := Pool(hw);
    if pool == 0 {
      return None;
    }
    var low, high := 0.0, UPPER_SIZE;
    for step := 0 to BISECTION_STEPS
      invariant Bisect(low, high, BISECTION_STEPS - step, req, pool)
             == Bisect(0.0, UPPER_SIZE, BISECTION_STEPS, req, pool)
    {
      var middle := (low + high) / 2.0;
      if Fits(middle, req, pool) {
        low := middle;
      } else {
        high := middle;
      }
    }
    size := Some(low);
  }

  /** The pool is the largest discrete device when there is one and its size is not zero, else system memory. */
  lemma PoolIs(hw: Hardware)
    ensures (forall bytes :: !HasDiscrete(hw, bytes)) ==> Pool(hw) == hw.ramBytes
    ensures forall bytes :: HasDiscrete(hw, bytes) && (forall other :: HasDiscrete(hw, other) ==> other <= bytes)
              ==> Pool(hw) == if bytes != 0 then bytes else hw.ramBytes
  {
    if PlanningVram(hw).Some? {
      PlanningVramIsOneDevice(hw, PlanningVram(hw).value);
    }
    forall bytes | HasDiscrete(hw, bytes) && (forall other :: HasDiscrete(hw, other) ==> other <= bytes)
      ensures PlanningVram(hw) == Some(bytes)
    {
      PlanningVramIsOneDevice(hw, bytes);
    }
  }

  /** The bisection asks what placement asks: whether a 4-bit model of that size would be resident. */
  lemma NeededIsResident(c: Candidate, req: Requirements)
    requires c.billions.Some? && c.quantization == Q4 && RawWeightBytes(c.billions.value, Q4) >= 1
    ensures Needed(c.billions.value, req) == LoadOf(c, req).ResidentNeed()
  {
  }

  lemma FloorMonotone(a: real, b: real)
    requires a <= b
    ensures a.Floor <= b.Floor
  {
  }

  lemma KvCacheMonotone(a: real, b: real, req: Requirements)
    requires 0.0 <= a <= b
    ensures KvCacheBytes(a, req) <= KvCacheBytes(b, req)
  {
  }

  lemma OverheadMonotone(a: int, b: int)
    requires a <= b
    ensures OverheadBytes(a) <= OverheadBytes(b)
  {
  }

  /** Cache, weights, overhead and margin together never shrink as the model grows. */
  lemma NeededMonotone(a: real, b: real, req: Requirements)
    requires 0.0 <= a <= b
    ensures Needed(a, req) <= Needed(b, req)
  {
    KvCacheMonotone(a, b, req);
    FloorMonotone(a * 1000000000.0 * BytesPerParameter(Q4), b * 1000000000.0 * BytesPerParameter(Q4));
    OverheadMonotone(RawWeightBytes(a, Q4), RawWeightBytes(b, Q4));
  }

  function Halved(width: real, steps: nat): real
    decreases steps
  {
    if steps == 0 then width else Halved(width / 2.0, steps - 1)
  }

  /** The bisection keeps a bracket: the answer fits or is the lower end, and one final width above it
      the size does not fit or is the upper end. */
  lemma {:induction false} BisectBracket(low: real, high: real, steps: nat, req: Requirements, pool: int)
    requires low <= high
    ensures
      var r := Bisect(low, high, steps, req, pool);
      var above := r + Halved(high - low, steps);
      && low <= r <= above <= high
      && (r == low || Fits(r, req, pool))
      && (above == high || !Fits(above, req, pool))
    decreases steps
  {
    if steps > 0 {
      var middle := (low + high) / 2.0;
      assert high - middle == (high - low) / 2.0 == middle - low;
      if Fits(middle, req, pool) {
        BisectBracket(middle, high, steps - 1, req, pool);
      } else {
        BisectBracket(low, middle, steps - 1, req, pool);
      }
    }
  }

  lemma {:induction false} HalvedTen(width: real, steps: nat)
    ensures Halved(width, steps + 10) == Halved(width / 1024.0, steps)
  {
    var w := width;
    assert Halved(w, steps + 10) == Halved(w / 2.0, steps + 9) == Halved(w / 2.0 / 2.0, steps + 8);
    var w2 := w / 4.0;
    assert Halved(w2, steps + 8) == Halved(w2 / 2.0, steps + 7) == Halved(w2 / 2.0 / 2.0, steps + 6);
    var w4 := w2 / 4.0;
    assert Halved(w4, steps + 6) == Halved(w4 / 2.0, steps + 5) == Halved(w4 / 2.0 / 2.0, steps + 4);
    var w6 := w4 / 4.0;
    assert Halved(w6, steps + 4) == Halved(w6 / 2.0, steps + 3) == Halved(w6 / 2.0 / 2.0, steps + 2);
    var w8 := w6 / 4.0;
    assert Halved(w8, steps + 2) == Halved(w8 / 2.0, steps + 1) == Halved(w8 / 2.0 / 2.0, steps);
  }

  /** 1000 / 2^40 */
  const RESOLUTION: real := 1000.0 / 1099511627776.0

  lemma FortyHalvings()
    ensures Halved(UPPER_SIZE - 0.0, BISECTION_STEPS) == RESOLUTION
  {
    HalvedTen(1000.0, 30);
    HalvedTen(1000.0 / 1024.0, 20);
    HalvedTen(1000.0 / 1048576.0, 10);
    HalvedTen(1000.0 / 1073741824.0, 0);
  }

  lemma AllBelowFit(size: real, req: Requirements, pool: int)
    requires Fits(size, req, pool)
    ensures forall b: real :: 0.0 <= b <= size ==> Fits(b, req, pool)
  {
    forall b: real | 0.0 <= b <= size ensures Fits(b, req, pool) {
      NeededMonotone(b, size, req);
    }
  }

  lemma NoneAboveFits(size: real, req: Requirements, pool: int)
    requires 0.0 <= size && !Fits(size, req, pool)
    ensures forall b: real :: size <= b ==> !Fits(b, req, pool)
  {
    forall b: real | size <= b ensures !Fits(b, req, pool) {
      NeededMonotone(size, b, req);
    }
  }

  /** Every size up to the answer fits (unless the answer is zero), and no size from one resolution
      step above it up to the limit does: the true threshold is within RESOLUTION of the answer. */
  lemma LargestFittingIsTheThreshold(hw: Hardware, req: Requirements)
    requires Pool(hw) != 0
    ensures
      var size := LargestFitting(hw, req).value;
      && 0.0 <= size <= UPPER_SIZE - RESOLUTION
      && (size > 0.0 ==> forall b: real :: 0.0 <= b <= size ==> Fits(b, req, Pool(hw)))
      && (forall b: real :: size + RESOLUTION <= b < UPPER_SIZE ==> !Fits(b, req, Pool(hw)))
  {
    var pool := Pool(hw);
    var size := LargestFitting(hw, req).value;
    BisectBracket(0.0, UPPER_SIZE, BISECTION_STEPS, req, pool);
    FortyHalvings();
    if size > 0.0 {
      AllBelowFit(size, req, pool);
    }
    if size + RESOLUTION < UPPER_SIZE {
      NoneAboveFits(size + RESOLUTION, req, pool);
    }
  }

  // ---------------------------------------------------------------- search bands

  datatype Band = Band(low: real, high: real)

  function Inner(bounds: seq<real>, lower: real, upper: real): seq<real> {
    if bounds == [] then []
    else (if lower < bounds[0] < upper then [bounds[0]] else []) + Inner(bounds[1..], lower, upper)
  }

  function Pairwise(edges: seq<real>): seq<Band> {
    if |edges| < 2 then []
    else (if edges[1] > edges[0] then [Band(edges[0], edges[1])] else []) + Pairwise(edges[1..])
  }

  function LowerBound(maxBillions: real): real {
    if NeedsSmallCoverage(Some(maxBillions)) then 0.0 else SMALL_MAX
  }

  function Bounds(maxBillions: real): seq<real> {
    if NeedsSmallCoverage(Some(maxBillions)) then [TINY_MAX, SMALL_COVERAGE_SPLIT, SMALL_MAX, MEDIUM_MAX, LARGE_MAX]
    else [TINY_MAX, SMALL_MAX, MEDIUM_MAX, LARGE_MAX]
  }

  function Edges(maxBillions: real): seq<real> {
    [LowerBound(maxBillions)] + Inner(Bounds(maxBillions), LowerBound(maxBillions), maxBillions) + [maxBillions]
  }

  function SizeBands(maxBillions: real): seq<Band> {
    if maxBillions <= 0.0 then [] else Pairwise(Edges(maxBillions))
  }

  ghost predicate Increasing(xs: seq<real>) {
    forall i, j :: 0 <= i < j < |xs| ==> xs[i] < xs[j]
  }

  lemma {:induction false} InnerMembers(bounds: seq<real>, lower: real, upper: real)
    ensures forall x :: x in Inner(bounds, lower, upper) <==> x in bounds && lower < x < upper
  {
    if bounds != [] {
      InnerMembers(bounds[1..], lower, upper);
      assert bounds == [bounds[0]] + bounds[1..];
    }
  }

  lemma {:induction false} InnerIncreasing(bounds: seq<real>, lower: real, upper: real)
    requires Increasing(bounds)
    ensures Increasing(Inner(bounds, lower, upper))
  {
    if bounds != [] {
      InnerIncreasing(bounds[1..], lower, upper);
      InnerMembers(bounds[1..], lower, upper);
      var rest := Inner(bounds[1..], lower, upper);
      forall i | 0 <= i < |rest| ensures bounds[0] < rest[i] {
        assert rest[i] in rest;
        var k :| 0 <= k < |bounds[1..]| && bounds[1..][k] == rest[i];
        assert bounds[0] < bounds[k + 1];
      }
    }
  }

  lemma EdgesIncreasing(maxBillions: real)
    requires maxBillions > 0.0
    ensures Increasing(Edges(maxBillions))
  {
    var bounds, lower := Bounds(maxBillions), LowerBound(maxBillions);
    assert Increasing(bounds);
    InnerIncreasing(bounds, lower, maxBillions);
    InnerMembers(bounds, lower, maxBillions);
    var inner := Inner(bounds, lower, maxBillions);
    forall i | 0 <= i < |inner| ensures lower < inner[i] < maxBillions {
      assert inner[i] in inner;
    }
  }

  lemma {:induction false} PairwiseKeepsEveryGap(edges: seq<real>)
    requires Increasing(edges) && |edges| >= 1
    ensures |Pairwise(edges)| == |edges| - 1
    ensures forall i :: 0 <= i < |edges| - 1 ==> Pairwise(edges)[i] == Band(edges[i], edges[i + 1])
  {
    if |edges| >= 2 {
      PairwiseKeepsEveryGap(edges[1..]);
    }
  }

  ghost predicate InBand(b: Band, x: real) { b.low < x <= b.high }

  /** The bands tile the interval from zero (from 4 above a ceiling of 14) to the ceiling: they touch, they are
      not empty, they meet only at class limits and at the split of small models, and no band straddles one. */
  lemma SizeBandsTile(maxBillions: real)
    requires maxBillions > 0.0
    ensures
      var bands := SizeBands(maxBillions);
      && |bands| >= 1
      && bands[0].low == (if maxBillions <= 14.0 then 0.0 else 4.0) && bands[|bands| - 1].high == maxBillions
      && (forall i :: 0 <= i < |bands| ==> bands[i].low < bands[i].high)
      && (forall i :: 0 <= i < |bands| - 1 ==> bands[i].high == bands[i + 1].low)
      && (forall i :: 0 <= i < |bands| - 1 ==> bands[i].high in {1.0, 2.0, 4.0, 14.0, 32.0})
      && (maxBillions <= 14.0 ==> forall i :: 0 <= i < |bands| ==> !(bands[i].low < 2.0 < bands[i].high))
      && (forall i, x, y :: 0 <= i < |bands| && InBand(bands[i], x) && InBand(bands[i], y)
            ==> ScaleBucket(Some(x)) == ScaleBucket(Some(y)))
  {
    var lower := LowerBound(maxBillions);
    var bounds := Bounds(maxBillions);
    var edges := Edges(maxBillions);
    EdgesIncreasing(maxBillions);
    PairwiseKeepsEveryGap(edges);
    var bands := SizeBands(maxBillions);
    assert |bands| == |edges| - 1 >= 1;
    assert edges[0] == lower && edges[|edges| - 1] == maxBillions;
    forall i | 0 <= i < |bands| ensures bands[i].low < bands[i].high {
      assert bands[i] == Band(edges[i], edges[i + 1]);
    }
    forall i | 0 <= i < |bands| - 1 ensures bands[i].high == bands[i + 1].low {
      assert bands[i] == Band(edges[i], edges[i + 1]) && bands[i + 1] == Band(edges[i + 1], edges[i + 2]);
    }
    forall i | 0 <= i < |bands| - 1 ensures bands[i].high in {1.0, 2.0, 4.0, 14.0, 32.0} {
      assert bands[i] == Band(edges[i], edges[i + 1]);
      InnerMembers(bounds, lower, maxBillions);
      assert edges[i + 1] in Inner(bounds, lower, maxBillions);
    }
    forall i, c | 0 <= i < |bands| && c in bounds ensures !(bands[i].low < c < bands[i].high) {
      BoundIsAnEdge(maxBillions, i, c);
      assert bands[i] == Band(edges[i], edges[i + 1]);
    }
    forall i, x, y | 0 <= i < |bands| && InBand(bands[i], x) && InBand(bands[i], y)
      ensures ScaleBucket(Some(x)) == ScaleBucket(Some(y))
    {
      assert TINY_MAX in bounds && SMALL_MAX in bounds && MEDIUM_MAX in bounds && LARGE_MAX in bounds;
    }
    assert maxBillions <= 14.0 ==> SMALL_COVERAGE_SPLIT in bounds;
  }

  lemma BoundIsAnEdge(maxBillions: real, i: int, bound: real)
    requires maxBillions > 0.0 && Increasing(Edges(maxBillions))
    requires 0 <= i < |Edges(maxBillions)| - 1 && bound in Bounds(maxBillions)
    ensures !(Edges(maxBillions)[i] < bound < Edges(maxBillions)[i + 1])
  {
    var edges := Edges(maxBillions);
    var lower := LowerBound(maxBillions);
    InnerMembers(Bounds(maxBillions), lower, maxBillions);
    if lower < bound < maxBillions {
      var inner := Inner(Bounds(maxBillions), lower, maxBillions);
      assert bound in inner;
      var k :| 0 <= k < |inner| && inner[k] == bound;
      assert edges[k + 1] == bound;
    } else {
      assert edges[0] == lower && edges[|edges| - 1] == maxBillions;
    }
  }

  /** Every size between the bound and the ceiling is searched by exactly one band. */
  lemma SizeBandsCoverOnce(maxBillions: real, x: real)
    requires (if maxBillions <= 14.0 then 0.0 else 4.0) < x <= maxBillions
    ensures exists i :: 0 <= i < |SizeBands(maxBillions)| && InBand(SizeBands(maxBillions)[i], x)
    ensures forall i, j :: 0 <= i < j < |SizeBands(maxBillions)|
              ==> !(InBand(SizeBands(maxBillions)[i], x) && InBand(SizeBands(maxBillions)[j], x))
  {
    SizeBandsTile(maxBillions);
    var bands := SizeBands(maxBillions);
    BandsOrdered(bands);
    var i := 0;
    while !InBand(bands[i], x)
      invariant 0 <= i < |bands| && bands[i].low < x
      decreases |bands| - i
    {
      assert bands[i].high < x;
      i := i + 1;
    }
  }

  lemma {:induction false} BandsOrdered(bands: seq<Band>)
    requires forall i :: 0 <= i < |bands| ==> bands[i].low < bands[i].high
    requires forall i :: 0 <= i < |bands| - 1 ==> bands[i].high == bands[i + 1].low
    ensures forall i, j :: 0 <= i < j < |bands| ==> bands[i].high <= bands[j].low
  {
    if |bands| > 1 {
      BandsOrdered(bands[..|bands| - 1]);
      forall i | 0 <= i < |bands| - 2 ensures bands[i].high <= bands[|bands| - 1].low {
        assert bands[..|bands| - 1][i].high <= bands[..|bands| - 1][|bands| - 2].low;
      }
    }
  }
}
