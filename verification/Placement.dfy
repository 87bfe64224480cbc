/** The coarse placement decision of src/jaull/discovery/candidate_filter.py: how many bytes a model is
    assumed to need, and whether they fit GPU memory, a GPU/RAM split, RAM, or nothing. */
module Placement {
  import opened Common

  // ---------------------------------------------------------------- policy constants

  const GIB: int := 1024 * 1024 * 1024
  const MIB: int := 1024 * 1024
  const SAFETY_MARGIN_PERCENT: int := 10
  const DEVICE_RESERVE_BYTES: int := 512 * MIB
  const OVERHEAD_BASE_BYTES: int := 512 * MIB
  const OVERHEAD_MIN_BYTES: int := 256 * MIB
  const OVERHEAD_WEIGHT_FRACTION: real := 0.10

  // ---------------------------------------------------------------- what a search hit says

  datatype Quantization = Q2 | Q3 | Q4 | Q5 | Q6 | Q7 | Q8 | Int4 | Awq | Gptq | Int8 | Float16 | Bfloat16

  /** A search hit, with the hints that regular expressions read from its name and tags. */
  datatype Candidate = Candidate(
    repoId: string,
    downloads: int,
    likes: int,
    desirability: real,
    billions: Option<real>,
    quantization: Quantization,
    isGguf: bool,
    declaresTextPipeline: bool,
    family: string)

  datatype Priority = Quality | Balanced | Speed | Memory

  datatype Requirements = Requirements(priority: Priority, desiredContext: nat, concurrentUsers: nat)

  // ---------------------------------------------------------------- what the machine offers

  datatype Backend = CpuBackend | Cuda | Vulkan | Hip

  datatype BackendInfo = BackendInfo(backend: Backend, available: bool, softwareRenderer: bool)

  datatype AcceleratorKind = Dedicated | Integrated | Software | UnknownKind

  datatype Accelerator = Accelerator(
    kind: AcceleratorKind, sharedMemory: bool, dedicatedBytes: Option<int>, backends: seq<BackendInfo>)

  /** gpuBytes is the legacy NVML list of total VRAM sizes. */
  datatype Hardware = Hardware(ramBytes: int, gpuBytes: seq<int>, accelerators: seq<Accelerator>)

  function MaxOption(a: Option<int>, b: Option<int>): Option<int> {
    match (a, b)
    case (None, _) => b
    case (_, None) => a
    case (Some(x), Some(y)) => Some(if x < y then y else x)
  }

  function LargestOf(sizes: seq<int>): Option<int> {
    if sizes == [] then None else MaxOption(Some(sizes[0]), LargestOf(sizes[1..]))
  }

  function PlanningBytes(a: Accelerator): Option<int> {
    if a.kind == Dedicated && !a.sharedMemory then a.dedicatedBytes else None
  }

  function LargestPlanning(accelerators: seq<Accelerator>): Option<int> {
    if accelerators == [] then None
    else MaxOption(PlanningBytes(accelerators[0]), LargestPlanning(accelerators[1..]))
  }

  function PlanningVram(hw: Hardware): Option<int> {
    MaxOption(LargestOf(hw.gpuBytes), LargestPlanning(hw.accelerators))
  }

  predicate HasUnifiedMemory(hw: Hardware) {
    PlanningVram(hw).None? && exists a :: a in hw.accelerators && a.sharedMemory
  }

  function Usable(a: Accelerator): set<Backend> {
    set b | b in a.backends && b.available && !b.softwareRenderer :: b.backend
  }

  predicate CudaAvailable(hw: Hardware) {
    || (exists a :: a in hw.accelerators && a.kind != Software && Cuda in Usable(a))
    || (hw.gpuBytes != [] && hw.accelerators == [])
  }

  function SupportedBackends(c: Candidate): set<Backend> {
    if c.isGguf then {Cuda, Hip, Vulkan}
    else if c.quantization in {Awq, Gptq} then {Cuda}
    else {Cuda, Hip}
  }

  function DeviceBytes(a: Accelerator, supported: set<Backend>): Option<int> {
    if PlanningBytes(a).Some? && PlanningBytes(a).value > 0 && Usable(a) * supported != {}
    then PlanningBytes(a) else None
  }

  function LargestDevice(accelerators: seq<Accelerator>, supported: set<Backend>): Option<int> {
    if accelerators == [] then None
    else MaxOption(DeviceBytes(accelerators[0], supported), LargestDevice(accelerators[1..], supported))
  }

  /** One device only: memory of several devices is never added up. */
  function CandidateVram(c: Candidate, hw: Hardware): Option<int> {
    var supported := SupportedBackends(c);
    MaxOption(
      LargestDevice(hw.accelerators, supported),
      if hw.accelerators == [] && Cuda in supported then LargestOf(hw.gpuBytes) else None)
  }

  // ---------------------------------------------------------------- byte arithmetic

  /** The size with the safety margin on top, rounded up to a whole byte. */
  function WithSafetyMargin(bytes: int): int {
    (bytes * (100 + SAFETY_MARGIN_PERCENT) + 99) / 100
  }

  function SplitProportionally(total: int, part: int, whole: int): int {
    if whole <= 0 then 0
    else
      var share := total * part / whole;
      var atLeastZero := if share < 0 then 0 else share;
      if total < atLeastZero then total else atLeastZero
  }

  function MaxReal(a: real, b: real): real { if a < b then b else a }

  function MaxInt(a: int, b: int): int { if a < b then b else a }

  function BytesPerParameter(q: Quantization): real {
    match q
    case Q2 => 0.35
    case Q3 => 0.45
    case Q4 => 0.60
    case Q5 => 0.72
    case Q6 => 0.86
    case Q7 => 0.60
    case Q8 => 1.05
    case Int4 => 0.60
    case Awq => 0.60
    case Gptq => 0.60
    case Int8 => 1.05
    case Float16 => 2.0
    case Bfloat16 => 2.0
  }

  function RawWeightBytes(billions: real, q: Quantization): int {
    (billions * 1000000000.0 * BytesPerParameter(q)).Floor
  }

  function ContextFactor(req: Requirements): real {
    MaxReal(1.0, req.desiredContext as real / 4096.0)
  }

  function UserFactor(req: Requirements): real {
    MaxReal(1.0, req.concurrentUsers as real)
  }

  function KvCacheBytes(billions: real, req: Requirements): int {
    (MaxReal(0.15, billions * 0.035 * ContextFactor(req) * UserFactor(req)) * GIB as real).Floor
  }

  function OverheadBytes(weights: int): int {
    MaxInt(OVERHEAD_MIN_BYTES, (OVERHEAD_BASE_BYTES as real + weights as real * OVERHEAD_WEIGHT_FRACTION).Floor)
  }

  // ---------------------------------------------------------------- the declarative meaning

  datatype Mode = GpuResident | GpuOffload | CpuRam | TooLarge

  /** The byte counts of one candidate. */
  datatype Load = Load(weights: int, kvCache: int, overhead: int) {
    predicate Valid() { weights >= 1 && kvCache >= 0 && overhead >= 0 }

    /** GPU bytes when a share of the weights is on the device. */
    function GpuNeed(share: int): int {
      WithSafetyMargin(kvCache + DEVICE_RESERVE_BYTES + share + SplitProportionally(overhead, share, weights))
    }

    /** RAM bytes for everything the device share leaves behind. */
    function RamNeed(share: int): int {
      WithSafetyMargin(weights - share + (overhead - SplitProportionally(overhead, share, weights)))
    }

    function CpuNeed(): int { WithSafetyMargin(weights + kvCache + overhead) }

    function ResidentNeed(): int { WithSafetyMargin(weights + kvCache + overhead + DEVICE_RESERVE_BYTES) }

    /** A proper split, at least a tenth of the weights on the device, that fits both pools. */
    predicate SplitFits(share: int, vram: int, ram: int) {
      share < weights && 10 * share >= weights && GpuNeed(share) <= vram && RamNeed(share) <= ram
    }
  }

  function LoadOf(c: Candidate, req: Requirements): Load
    requires c.billions.Some?
  {
    var weights := MaxInt(1, RawWeightBytes(c.billions.value, c.quantization));
    Load(weights, KvCacheBytes(c.billions.value, req), OverheadBytes(weights))
  }

  ghost predicate SomeSplitFits(load: Load, vram: int, ram: int) {
    exists share :: load.SplitFits(share, vram, ram)
  }

  ghost predicate LargestSplit(load: Load, vram: int, ram: int, share: int) {
    load.SplitFits(share, vram, ram) && forall s :: load.SplitFits(s, vram, ram) ==> s <= share
  }

  /** What the placement means, with no search in it: the best of the four that is possible. */
  ghost function DeclaredMode(load: Load, vram: Option<int>, ram: int): Mode {
    if vram.Some? && load.ResidentNeed() <= vram.value then GpuResident
    else if vram.Some? && SomeSplitFits(load, vram.value, ram) then GpuOffload
    else if load.CpuNeed() <= ram then CpuRam
    else TooLarge
  }

  predicate BackendBlocked(c: Candidate, hw: Hardware) {
    c.quantization in {Awq, Gptq} && !c.isGguf && !CudaAvailable(hw)
  }

  ghost function PlacementMode(c: Candidate, req: Requirements, hw: Hardware): Option<Mode> {
    if c.billions.None? then None
    else if BackendBlocked(c, hw) then Some(TooLarge)
    else Some(DeclaredMode(LoadOf(c, req), CandidateVram(c, hw), hw.ramBytes))
  }

  // ---------------------------------------------------------------- arithmetic facts

  lemma MarginIsLeastCover(bytes: int)
    ensures 100 * WithSafetyMargin(bytes) >= bytes * (100 + SAFETY_MARGIN_PERCENT)
    ensures forall m: int :: 100 * m >= bytes * (100 + SAFETY_MARGIN_PERCENT) ==> m >= WithSafetyMargin(bytes)
  {
  }

  lemma MarginStrictlyMonotone(a: int, b: int)
    requires a < b
    ensures WithSafetyMargin(a) < WithSafetyMargin(b)
  {
  }

  lemma ProductMonotone(factor: int, a: int, b: int)
    requires factor >= 0 && a <= b
    ensures factor * a <= factor * b
  {
  }

  /** The quotient is the largest multiple count that does not overshoot. */
  lemma QuotientAtMost(a: int, d: int, q: int)
    requires d > 0 && a < d * (q + 1)
    ensures a / d <= q
  {
    if q + 1 <= a / d {
      ProductMonotone(d, q + 1, a / d);
    }
  }

  lemma DivisionMonotone(a: int, b: int, d: int)
    requires a <= b && d > 0
    ensures a / d <= b / d
  {
    assert d * (b / d + 1) == d * (b / d) + d;
    QuotientAtMost(a, d, b / d);
  }

  lemma MultipleDivides(total: int, whole: int)
    requires whole > 0
    ensures total * whole / whole == total
  {
    assert total * whole == whole * total + 0;
    QuotientAtMost(total * whole, whole, total);
    if total * whole / whole < total {
      ProductMonotone(whole, total * whole / whole + 1, total);
    }
  }

  lemma SplitMonotone(total: int, a: int, b: int, whole: int)
    requires total >= 0 && 0 <= a <= b <= whole && whole > 0
    ensures 0 <= SplitProportionally(total, a, whole) <= SplitProportionally(total, b, whole) <= total
    ensures SplitProportionally(total, whole, whole) == total
  {
    var shareA, shareB, all := total * a, total * b, total * whole;
    ProductMonotone(total, 0, a);
    ProductMonotone(total, a, b);
    ProductMonotone(total, b, whole);
    DivisionMonotone(0, shareA, whole);
    DivisionMonotone(shareA, shareB, whole);
    DivisionMonotone(shareB, all, whole);
    MultipleDivides(total, whole);
  }

  /** A larger device share needs strictly more GPU bytes and strictly fewer RAM bytes. */
  lemma NeedsTradeOff(load: Load, a: int, b: int)
    requires load.Valid() && 0 <= a < b <= load.weights
    ensures load.GpuNeed(a) < load.GpuNeed(b)
    ensures load.RamNeed(b) < load.RamNeed(a)
  {
    SplitMonotone(load.overhead, a, b, load.weights);
  }

  lemma FullShareIsResident(load: Load)
    requires load.Valid()
    ensures load.GpuNeed(load.weights) == load.ResidentNeed()
  {
    SplitMonotone(load.overhead, load.weights, load.weights, load.weights);
  }

  // ---------------------------------------------------------------- the code

  /** Binary search for the largest share of the weights whose GPU need fits. */
  method MaxGpuWeightBytes(load: Load, vram: int) returns (share: int)
    requires load.Valid()
    ensures 0 <= share <= load.weights
    ensures share > 0 ==> load.GpuNeed(share) <= vram
    ensures forall s :: share < s <= load.weights ==> load.GpuNeed(s) > vram
  {
    var low, high := 0, load.weights;
    while low < high
      invariant 0 <= low <= high <= load.weights
      invariant low > 0 ==> load.GpuNeed(low) <= vram
      invariant forall s :: high < s <= load.weights ==> load.GpuNeed(s) > vram
    {
      var candidate := (low + high + 1) / 2;
      if load.GpuNeed(candidate) <= vram {
        low := candidate;
      } else {
        forall s | candidate < s <= load.weights ensures load.GpuNeed(s) > vram {
          NeedsTradeOff(load, candidate, s);
        }
        high := candidate - 1;
      }
    }
    share := low;
  }

  /** The shortlist-only hint; only its byte fields and its mode are modelled. */
  datatype Hint = Hint(
    mode: Option<Mode>,
    weightBytes: Option<int>,
    totalBytes: Option<int>,
    gpuRequired: Option<int>,
    ramRequired: Option<int>,
    gpuWeightBytes: int,
    ramWeightBytes: int)

  /** Tries the largest GPU share only. That this loses nothing, unless the whole model fits the device, is
      its postcondition. */
  method CoarseOffloadHint(load: Load, vram: int, ram: int) returns (hint: Option<Hint>)
    requires load.Valid()
    ensures hint.Some? <==> load.ResidentNeed() > vram && SomeSplitFits(load, vram, ram)
    ensures hint.Some? ==>
      var h := hint.value;
      && h.mode == Some(GpuOffload)
      && LargestSplit(load, vram, ram, h.gpuWeightBytes)
      && load.weights <= 10 * h.gpuWeightBytes < 10 * load.weights
      && h.gpuRequired.Some? && h.gpuRequired.value <= vram && h.ramRequired.Some? && h.ramRequired.value <= ram
      && h.weightBytes == Some(load.weights)
      && h.gpuWeightBytes + h.ramWeightBytes == load.weights
      && h.gpuRequired == Some(load.GpuNeed(h.gpuWeightBytes))
      && h.ramRequired == Some(load.RamNeed(h.gpuWeightBytes))
      && h.totalBytes == Some(h.gpuRequired.value + h.ramRequired.value)
  {
    FullShareIsResident(load);
    var gpuFixed := load.kvCache + DEVICE_RESERVE_BYTES;
    if WithSafetyMargin(gpuFixed) >= vram {
      forall s | load.SplitFits(s, vram, ram) ensures false {
        SplitMonotone(load.overhead, 0, s, load.weights);
        MarginStrictlyMonotone(gpuFixed, gpuFixed + s + SplitProportionally(load.overhead, s, load.weights));
      }
      return None;
    }
    var gpuWeights := MaxGpuWeightBytes(load, vram);
    var ramWeights := load.weights - gpuWeights;
    if load.ResidentNeed() > vram {
      LargestShareSuffices(load, vram, ram, gpuWeights);
    }
    if ramWeights <= 0 || 10 * gpuWeights < load.weights {
      return None;
    }
    var gpuOverhead := SplitProportionally(load.overhead, gpuWeights, load.weights);
    var ramOverhead := load.overhead - gpuOverhead;
    var gpuRequired := WithSafetyMargin(gpuFixed + gpuWeights + gpuOverhead);
    var ramRequired := WithSafetyMargin(ramWeights + ramOverhead);
    if gpuRequired <= vram && ramRequired <= ram {
      assert load.SplitFits(gpuWeights, vram, ram);
      return Some(Hint(Some(GpuOffload), Some(load.weights), Some(gpuRequired + ramRequired),
                       Some(gpuRequired), Some(ramRequired), gpuWeights, ramWeights));
    }
    return None;
  }

  /** If any split fits, the largest fitting GPU share is a split that fits. */
  lemma LargestShareSuffices(load: Load, vram: int, ram: int, largest: int)
    requires load.Valid() && load.ResidentNeed() > vram
    requires 0 <= largest <= load.weights
    requires largest > 0 ==> load.GpuNeed(largest) <= vram
    requires forall s :: largest < s <= load.weights ==> load.GpuNeed(s) > vram
    ensures largest < load.weights
    ensures SomeSplitFits(load, vram, ram) <==> load.SplitFits(largest, vram, ram)
    ensures forall s :: load.SplitFits(s, vram, ram) ==> s <= largest
  {
    FullShareIsResident(load);
    forall s | load.SplitFits(s, vram, ram) ensures s <= largest && load.SplitFits(largest, vram, ram) {
      if s < largest {
        NeedsTradeOff(load, s, largest);
      }
    }
  }

  /** Every field of a hint: what one device share moves to the GPU, the rest pays for in RAM, and nothing
      is lost or counted twice. */
  ghost function HintFor(load: Load, vram: Option<int>, blocked: bool, mode: Mode, share: int): Hint {
    var weights, cpu := load.weights, load.CpuNeed();
    match mode
    case GpuResident =>
      Hint(Some(mode), Some(weights), Some(load.ResidentNeed()), Some(load.ResidentNeed()), None, weights, 0)
    case GpuOffload =>
      Hint(Some(mode), Some(weights), Some(load.GpuNeed(share) + load.RamNeed(share)), Some(load.GpuNeed(share)),
           Some(load.RamNeed(share)), share, weights - share)
    case CpuRam => Hint(Some(mode), Some(weights), Some(cpu), None, Some(cpu), 0, weights)
    case TooLarge =>
      if blocked then Hint(Some(mode), Some(weights), Some(cpu), None, None, 0, 0)
      else Hint(Some(mode), Some(weights), Some(cpu), if vram.None? then None else Some(load.ResidentNeed()),
                Some(cpu), 0, weights)
  }

  lemma LoadIsValid(c: Candidate, req: Requirements)
    requires c.billions.Some?
    ensures LoadOf(c, req).Valid()
  {
  }

  method CoarsePlacementHint(c: Candidate, req: Requirements, hw: Hardware) returns (hint: Hint)
    ensures hint.mode == PlacementMode(c, req, hw)
    ensures c.billions.None? ==> hint == Hint(None, None, None, None, None, 0, 0)
    ensures c.billions.Some? ==>
      hint == HintFor(LoadOf(c, req), CandidateVram(c, hw), BackendBlocked(c, hw), hint.mode.value, hint.gpuWeightBytes)
    ensures hint.mode == Some(GpuOffload) ==>
      LargestSplit(LoadOf(c, req), CandidateVram(c, hw).value, hw.ramBytes, hint.gpuWeightBytes)
  {
    if c.billions.None? {
      return Hint(None, None, None, None, None, 0, 0);
    }
    var load := LoadOf(c, req);
    LoadIsValid(c, req);
    var vram := CandidateVram(c, hw);
    var unified := HasUnifiedMemory(hw);
    UnifiedMeansNoDevice(c, hw);
    var cpuTotal := load.CpuNeed();
    if BackendBlocked(c, hw) {
      return Hint(Some(TooLarge), Some(load.weights), Some(cpuTotal), None, None, 0, 0);
    }
    if vram.None? || unified {
      if cpuTotal <= hw.ramBytes {
        return Hint(Some(CpuRam), Some(load.weights), Some(cpuTotal), None, Some(cpuTotal), 0, load.weights);
      }
      return Hint(Some(TooLarge), Some(load.weights), Some(cpuTotal), None, Some(cpuTotal), 0, load.weights);
    }
    var residentRequired := load.ResidentNeed();
    if residentRequired <= vram.value {
      return Hint(Some(GpuResident), Some(load.weights), Some(residentRequired), Some(residentRequired), None,
                  load.weights, 0);
    }
    var offload := CoarseOffloadHint(load, vram.value, hw.ramBytes);
    if offload.Some? {
      return offload.value;
    }
    if cpuTotal <= hw.ramBytes {
      return Hint(Some(CpuRam), Some(load.weights), Some(cpuTotal), None, Some(cpuTotal), 0, load.weights);
    }
    return Hint(Some(TooLarge), Some(load.weights), Some(cpuTotal), Some(residentRequired), Some(cpuTotal),
                0, load.weights);
  }

  // ---------------------------------------------------------------- topology facts

  lemma {:induction false} NoPlanningNoDevice(accelerators: seq<Accelerator>, supported: set<Backend>)
    requires LargestPlanning(accelerators).None?
    ensures LargestDevice(accelerators, supported).None?
  {
    if accelerators != [] {
      NoPlanningNoDevice(accelerators[1..], supported);
    }
  }

  /** A machine judged to be one shared pool offers no device to any candidate. */
  lemma UnifiedMeansNoDevice(c: Candidate, hw: Hardware)
    ensures HasUnifiedMemory(hw) ==> CandidateVram(c, hw).None?
  {
    if HasUnifiedMemory(hw) {
      NoPlanningNoDevice(hw.accelerators, SupportedBackends(c));
    }
  }

  // ---------------------------------------------------------------- one device, never several

  /** A device with memory of its own and a working backend that can run the model's format. */
  predicate CanHold(c: Candidate, a: Accelerator) {
    && a.kind == Dedicated && !a.sharedMemory && a.dedicatedBytes.Some? && a.dedicatedBytes.value > 0
    && exists b :: b in a.backends && b.available && !b.softwareRenderer && CanRun(c, b.backend)
  }

  /** GGUF runs on all three, AWQ and GPTQ on CUDA only, any other format on CUDA and HIP. */
  predicate CanRun(c: Candidate, b: Backend) {
    || b == Cuda
    || (b == Hip && (c.isGguf || (c.quantization != Awq && c.quantization != Gptq)))
    || (b == Vulkan && c.isGguf)
  }

  /** Some single device has this much memory for the candidate. */
  ghost predicate Offers(c: Candidate, hw: Hardware, bytes: int) {
    || (exists a :: a in hw.accelerators && CanHold(c, a) && a.dedicatedBytes == Some(bytes))
    || (hw.accelerators == [] && bytes in hw.gpuBytes)
  }

  /** Some single discrete device has this much memory, whatever it can run. */
  ghost predicate HasDiscrete(hw: Hardware, bytes: int) {
    || bytes in hw.gpuBytes
    || exists a :: a in hw.accelerators && a.kind == Dedicated && !a.sharedMemory && a.dedicatedBytes == Some(bytes)
  }

  lemma {:induction false} LargestOfIsOne(sizes: seq<int>)
    ensures LargestOf(sizes).None? <==> sizes == []
    ensures LargestOf(sizes).Some? ==> LargestOf(sizes).value in sizes
    ensures forall v :: v in sizes ==> Grows(Some(v), LargestOf(sizes))
  {
    if sizes != [] {
      LargestOfIsOne(sizes[1..]);
      assert sizes == [sizes[0]] + sizes[1..];
    }
  }

  lemma {:induction false} LargestPlanningIsOne(accelerators: seq<Accelerator>)
    ensures LargestPlanning(accelerators).Some? ==>
      exists a :: a in accelerators && PlanningBytes(a) == LargestPlanning(accelerators)
    ensures forall a :: a in accelerators ==> Grows(PlanningBytes(a), LargestPlanning(accelerators))
  {
    if accelerators != [] {
      LargestPlanningIsOne(accelerators[1..]);
      assert accelerators == [accelerators[0]] + accelerators[1..];
      assert accelerators[0] in accelerators;
    }
  }

  lemma {:induction false} LargestDeviceIsOne(accelerators: seq<Accelerator>, supported: set<Backend>)
    ensures LargestDevice(accelerators, supported).Some? ==>
      exists a :: a in accelerators && DeviceBytes(a, supported) == LargestDevice(accelerators, supported)
    ensures forall a :: a in accelerators ==> Grows(DeviceBytes(a, supported), LargestDevice(accelerators, supported))
  {
    if accelerators != [] {
      LargestDeviceIsOne(accelerators[1..], supported);
      assert accelerators == [accelerators[0]] + accelerators[1..];
      assert accelerators[0] in accelerators;
    }
  }

  lemma DeviceBytesIff(c: Candidate, a: Accelerator)
    ensures DeviceBytes(a, SupportedBackends(c)) == if CanHold(c, a) then a.dedicatedBytes else None
  {
    forall b: Backend ensures b in SupportedBackends(c) <==> CanRun(c, b) {
    }
    if Usable(a) * SupportedBackends(c) != {} {
      var b :| b in Usable(a) * SupportedBackends(c);
      assert CanRun(c, b);
    }
    if CanHold(c, a) {
      var b :| b in a.backends && b.available && !b.softwareRenderer && CanRun(c, b.backend);
      assert b.backend in Usable(a) * SupportedBackends(c);
    }
  }

  /** Memory of several devices is never added up: the capacity is that of one eligible device, the largest. */
  lemma CandidateVramIsOneDevice(c: Candidate, hw: Hardware, bytes: int)
    ensures CandidateVram(c, hw) == Some(bytes)
       <==> Offers(c, hw, bytes) && forall other :: Offers(c, hw, other) ==> other <= bytes
  {
    var supported, vram := SupportedBackends(c), CandidateVram(c, hw);
    LargestOfIsOne(hw.gpuBytes);
    LargestDeviceIsOne(hw.accelerators, supported);
    forall a | a in hw.accelerators
      ensures DeviceBytes(a, supported) == if CanHold(c, a) then a.dedicatedBytes else None
    {
      DeviceBytesIff(c, a);
    }
    forall other | Offers(c, hw, other) ensures Grows(Some(other), vram) {
    }
    if vram.Some? {
      assert Offers(c, hw, vram.value);
    }
  }

  /** The same for planning, where the two views of the machine are merged. */
  lemma PlanningVramIsOneDevice(hw: Hardware, bytes: int)
    ensures PlanningVram(hw) == Some(bytes)
       <==> HasDiscrete(hw, bytes) && forall other :: HasDiscrete(hw, other) ==> other <= bytes
  {
    LargestOfIsOne(hw.gpuBytes);
    LargestPlanningIsOne(hw.accelerators);
    forall other | HasDiscrete(hw, other) ensures Grows(Some(other), PlanningVram(hw)) {
    }
    if PlanningVram(hw).Some? {
      assert HasDiscrete(hw, PlanningVram(hw).value);
    }
  }

  /** AWQ and GPTQ weights are out of reach exactly when no device that is not software has a working CUDA
      backend, unless the NVML list is all that is known. */
  lemma BlockedIff(c: Candidate, hw: Hardware)
    ensures BackendBlocked(c, hw) <==>
      && (c.quantization == Awq || c.quantization == Gptq) && !c.isGguf
      && (hw.accelerators != [] || hw.gpuBytes == [])
      && forall a, b :: a in hw.accelerators && b in a.backends && b.backend == Cuda && b.available ==>
           a.kind == Software || b.softwareRenderer
  {
    if !CudaAvailable(hw) {
      forall a, b | a in hw.accelerators && b in a.backends && b.backend == Cuda && b.available
        ensures a.kind == Software || b.softwareRenderer
      {
        assert !b.softwareRenderer ==> Cuda in Usable(a);
      }
    }
  }

  /** The share is the proportional one, rounded down. */
  lemma SplitIsFloor(total: int, part: int, whole: int)
    requires total >= 0 && 0 <= part <= whole && whole > 0
    ensures
      var share := SplitProportionally(total, part, whole);
      whole * share <= total * part < whole * (share + 1)
  {
    SplitMonotone(total, part, part, whole);
    var scaled := total * part;
    ProductMonotone(total, part, whole);
    ProductMonotone(total, 0, part);
    DivisionMonotone(scaled, total * whole, whole);
    DivisionMonotone(0, scaled, whole);
    MultipleDivides(total, whole);
    assert SplitProportionally(total, part, whole) == scaled / whole;
    assert scaled == whole * (scaled / whole) + scaled % whole;
  }

  /** Splitting a model between GPU and RAM needs as many bytes as keeping it whole on the device, up to the
      one byte that rounding the two parts up can cost. */
  lemma SplitNeedsTheWhole(load: Load, share: int)
    ensures load.ResidentNeed() <= load.GpuNeed(share) + load.RamNeed(share) <= load.ResidentNeed() + 1
  {
    var part := SplitProportionally(load.overhead, share, load.weights);
    var gpu, ram := load.kvCache + DEVICE_RESERVE_BYTES + share + part, load.weights - share + (load.overhead - part);
    assert gpu + ram == load.weights + load.kvCache + load.overhead + DEVICE_RESERVE_BYTES;
  }

  /** What a 7B model in 4 bits is assumed to need, at 4096 tokens for one user and at twice the context for
      two. */
  lemma SevenBillion(c: Candidate, req: Requirements)
    requires c.billions == Some(7.0) && c.quantization == Q4
    ensures req.desiredContext == 4096 && req.concurrentUsers == 1 ==>
      && LoadOf(c, req) == Load(4200000000, 263066746, 956870912)
      && LoadOf(c, req).ResidentNeed() == 6552489427 && LoadOf(c, req).CpuNeed() == 5961931424
    ensures req.desiredContext == 8192 && req.concurrentUsers == 2 ==>
      LoadOf(c, req) == Load(4200000000, 1052266987, 956870912)
  {
  }

  // ---------------------------------------------------------------- monotonicity in memory

  predicate Grows(a: Option<int>, b: Option<int>) {
    a.None? || (b.Some? && a.value <= b.value)
  }

  predicate SameDevice(a: Accelerator, b: Accelerator) {
    && a.kind == b.kind && a.sharedMemory == b.sharedMemory && a.backends == b.backends
    && a.dedicatedBytes.Some? == b.dedicatedBytes.Some?
    && Grows(a.dedicatedBytes, b.dedicatedBytes)
  }

  /** The same devices with the same backends, each pool at least as large. */
  ghost predicate MemoryGrows(small: Hardware, large: Hardware) {
    && small.ramBytes <= large.ramBytes
    && |small.gpuBytes| == |large.gpuBytes|
    && (forall i :: 0 <= i < |small.gpuBytes| ==> small.gpuBytes[i] <= large.gpuBytes[i])
    && |small.accelerators| == |large.accelerators|
    && (forall i :: 0 <= i < |small.accelerators| ==> SameDevice(small.accelerators[i], large.accelerators[i]))
  }

  lemma {:induction false} LargestOfGrows(a: seq<int>, b: seq<int>)
    requires |a| == |b| && forall i :: 0 <= i < |a| ==> a[i] <= b[i]
    ensures Grows(LargestOf(a), LargestOf(b))
  {
    if a != [] {
      LargestOfGrows(a[1..], b[1..]);
    }
  }

  lemma {:induction false} LargestDeviceGrows(a: seq<Accelerator>, b: seq<Accelerator>, supported: set<Backend>)
    requires |a| == |b| && forall i :: 0 <= i < |a| ==> SameDevice(a[i], b[i])
    ensures Grows(LargestDevice(a, supported), LargestDevice(b, supported))
  {
    if a != [] {
      LargestDeviceGrows(a[1..], b[1..], supported);
      assert SameDevice(a[0], b[0]);
      assert Usable(a[0]) == Usable(b[0]);
    }
  }

  lemma CandidateVramGrows(c: Candidate, small: Hardware, large: Hardware)
    requires MemoryGrows(small, large)
    ensures Grows(CandidateVram(c, small), CandidateVram(c, large))
    ensures BackendBlocked(c, small) == BackendBlocked(c, large)
  {
    LargestOfGrows(small.gpuBytes, large.gpuBytes);
    LargestDeviceGrows(small.accelerators, large.accelerators, SupportedBackends(c));
    forall i | 0 <= i < |small.accelerators|
      ensures small.accelerators[i].kind == large.accelerators[i].kind
      ensures Usable(small.accelerators[i]) == Usable(large.accelerators[i])
    {
      assert SameDevice(small.accelerators[i], large.accelerators[i]);
    }
    if CudaAvailable(small) && small.accelerators != [] {
      var i :| 0 <= i < |small.accelerators| && small.accelerators[i].kind != Software
               && Cuda in Usable(small.accelerators[i]);
      assert large.accelerators[i] in large.accelerators;
    }
    if CudaAvailable(large) && large.accelerators != [] {
      var i :| 0 <= i < |large.accelerators| && large.accelerators[i].kind != Software
               && Cuda in Usable(large.accelerators[i]);
      assert small.accelerators[i] in small.accelerators;
    }
  }

  /** RESIDENT, OFFLOAD, CPU_RAM, TOO_LARGE, best first. */
  function Rank(mode: Mode): nat {
    match mode
    case GpuResident => 0
    case GpuOffload => 1
    case CpuRam => 2
    case TooLarge => 3
  }

  lemma DeclaredModeMonotone(load: Load, vram: Option<int>, vram': Option<int>, ram: int, ram': int)
    requires load.Valid() && Grows(vram, vram') && ram <= ram'
    ensures Rank(DeclaredMode(load, vram', ram')) <= Rank(DeclaredMode(load, vram, ram))
  {
    if vram.Some? && SomeSplitFits(load, vram.value, ram) {
      var share :| load.SplitFits(share, vram.value, ram);
      assert load.SplitFits(share, vram'.value, ram');
    }
  }

  /** Growing any memory pool of a machine never moves a candidate to a worse placement, and never
      makes its size known or unknown. */
  lemma PlacementMonotoneInMemory(c: Candidate, req: Requirements, small: Hardware, large: Hardware)
    requires MemoryGrows(small, large)
    ensures
      var before, after := PlacementMode(c, req, small), PlacementMode(c, req, large);
      before.Some? == after.Some? && (before.Some? ==> Rank(after.value) <= Rank(before.value))
  {
    CandidateVramGrows(c, small, large);
    if c.billions.Some? {
      LoadIsValid(c, req);
      DeclaredModeMonotone(LoadOf(c, req), CandidateVram(c, small), CandidateVram(c, large),
                           small.ramBytes, large.ramBytes);
    }
  }

  /** The largest fitting share itself grows with VRAM, and takes all the weights only when the
      model is resident. */
  lemma LargestShareGrowsWithVram(load: Load, vram: int, vram': int, share: int, share': int)
    requires load.Valid() && vram <= vram'
    requires 0 <= share <= load.weights && 0 <= share' <= load.weights
    requires share > 0 ==> load.GpuNeed(share) <= vram
    requires forall s :: share < s <= load.weights ==> load.GpuNeed(s) > vram
    requires share' > 0 ==> load.GpuNeed(share') <= vram'
    requires forall s :: share' < s <= load.weights ==> load.GpuNeed(s) > vram'
    ensures share <= share'
    ensures share == load.weights <==> load.ResidentNeed() <= vram
  {
    FullShareIsResident(load);
  }
}
