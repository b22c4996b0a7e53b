/** Load-aware worker authority (`jeryu-ci-governor/src/lib.rs`). The CPU cap and the overload flag come
    from floating-point arithmetic in the source; here they are arbitrary inputs. */
module Governor {
  import opened Text
  import opened Numbers

  const SWAP_THRASH_CAP: u32 := 2

  datatype Bound = Memory | Cpu | Load | Ceiling | Floor | Swap | UserRequest

  /** Live pressure; `cpuCap` is the CPU-fraction budget (at least 1) and `overloaded` the load test. */
  datatype SystemLoad = SystemLoad(availableMem: nat, swapUsed: nat, cpuCap: u32, overloaded: bool)

  datatype GovernorConfig = GovernorConfig(perJobMem: nat, hardCeiling: u32, floor: u32, swapHigh: nat)

  datatype JobsDecision = JobsDecision(jobs: u32, binding: Bound)

  function Min(a: nat, b: nat): nat { if a <= b then a else b }

  function Max(a: nat, b: nat): nat { if a >= b then a else b }

  function PerJob(cfg: GovernorConfig): nat { Max(cfg.perJobMem, 1) }

  /** Memory budget in workers, held in 32 bits and never zero. */
  function MemCap(load: SystemLoad, cfg: GovernorConfig): u32 {
    Max(1, Min(load.availableMem / PerJob(cfg), U32_MAX))
  }

  /** Resource budget before throttling. */
  function Budget(load: SystemLoad, cfg: GovernorConfig): u32 {
    Min(Min(MemCap(load, cfg), load.cpuCap), cfg.hardCeiling)
  }

  function Halved(load: SystemLoad, base: u32): u32 { if load.overloaded then Max(base / 2, 1) else base }

  function Squeezed(load: SystemLoad, cfg: GovernorConfig, base: u32): u32 {
    if load.swapUsed > cfg.swapHigh then Min(base, SWAP_THRASH_CAP) else base
  }

  /** The cap: budget, halved under load, squeezed under swap, lifted to the floor. */
  function Cap(load: SystemLoad, cfg: GovernorConfig): u32 {
    Max(Squeezed(load, cfg, Halved(load, Budget(load, cfg))), cfg.floor)
  }

  /** A request is served up to the cap and never below the floor. */
  function Jobs(load: SystemLoad, request: Option<u32>, cfg: GovernorConfig): u32 {
    match request
    case None => Cap(load, cfg)
    case Some(req) => Max(cfg.floor, Min(req, Cap(load, cfg)))
  }

  /** The cap before the floor is applied. */
  function Throttled(load: SystemLoad, cfg: GovernorConfig): u32 {
    Squeezed(load, cfg, Halved(load, Budget(load, cfg)))
  }

  /** No throttle and no floor had a say. */
  predicate Undisturbed(load: SystemLoad, cfg: GovernorConfig) {
    !load.overloaded && load.swapUsed <= cfg.swapHigh && Throttled(load, cfg) >= cfg.floor
  }

  /** When a constraint is the one reported, and the cap it then explains. For every load and
      configuration exactly one constraint qualifies: the last one in the order budget, load, swap,
      floor that had a say, and among the budgets the smallest, with memory before CPU before ceiling. */
  ghost predicate BindingHolds(load: SystemLoad, cfg: GovernorConfig, cap: u32, binding: Bound) {
    var mem := MemCap(load, cfg);
    match binding
    case Memory => Undisturbed(load, cfg) && mem <= load.cpuCap && mem <= cfg.hardCeiling && cap == mem
    case Cpu => Undisturbed(load, cfg) && load.cpuCap < mem && load.cpuCap <= cfg.hardCeiling && cap == load.cpuCap
    case Ceiling => Undisturbed(load, cfg) && cfg.hardCeiling < Min(mem, load.cpuCap) && cap == cfg.hardCeiling
    case Load =>
      && load.overloaded && load.swapUsed <= cfg.swapHigh && Throttled(load, cfg) >= cfg.floor
      && cap == Max(Budget(load, cfg) / 2, 1)
    case Swap =>
      && load.swapUsed > cfg.swapHigh && Throttled(load, cfg) >= cfg.floor
      && cap == Min(Halved(load, Budget(load, cfg)), SWAP_THRASH_CAP)
    case Floor => Throttled(load, cfg) < cfg.floor && cap == cfg.floor
    case UserRequest => false
  }

  /** The reported constraint is determined by load and configuration. */
  lemma BindingIsUnique(load: SystemLoad, cfg: GovernorConfig, cap: u32, a: Bound, b: Bound)
    requires BindingHolds(load, cfg, cap, a) && BindingHolds(load, cfg, cap, b)
    ensures a == b
  {
  }

  method MemoryBudget(load: SystemLoad, cfg: GovernorConfig) returns (memCap: u32)
    ensures memCap == MemCap(load, cfg)
  {
    var perJob := if cfg.perJobMem >= 1 then cfg.perJobMem else 1;
    var workers := load.availableMem / perJob;
    memCap := if workers > U32_MAX then U32_MAX else workers;
    if memCap < 1 { memCap := 1; }
  }

  /** The safe cap and the constraint that set it. */
  method SafeCap(load: SystemLoad, cfg: GovernorConfig) returns (cap: u32, binding: Bound)
    ensures cap == Cap(load, cfg) && BindingHolds(load, cfg, cap, binding)
  {
    var memCap := MemoryBudget(load, cfg);
    cap, binding := load.cpuCap, Cpu;
    if memCap <= load.cpuCap { cap, binding := memCap, Memory; }
    if cap > cfg.hardCeiling { cap, binding := cfg.hardCeiling, Ceiling; }
    assert cap == Budget(load, cfg);
    if load.overloaded {
      cap := cap / 2;
      if cap < 1 { cap := 1; }
      binding := Load;
    }
    if load.swapUsed > cfg.swapHigh {
      if cap > SWAP_THRASH_CAP { cap := SWAP_THRASH_CAP; }
      binding := Swap;
    }
    if cap < cfg.floor { cap, binding := cfg.floor, Floor; }
  }

  /** `decide_jobs`: a request above the cap is clamped and keeps the cap's binding, one at or below
      the cap is served, lifted to the floor. */
  method DecideJobs(load: SystemLoad, request: Option<u32>, cfg: GovernorConfig) returns (d: JobsDecision)
    ensures d.jobs == Jobs(load, request, cfg)
    ensures d.binding == UserRequest <==> request.Some? && request.value <= Cap(load, cfg)
    ensures d.binding != UserRequest ==> BindingHolds(load, cfg, d.jobs, d.binding)
  {
    var cap, binding := SafeCap(load, cfg);
    if request.None? || request.value > cap { return JobsDecision(cap, binding); }
    var honored := if request.value >= cfg.floor then request.value else cfg.floor;
    return JobsDecision(honored, UserRequest);
  }

  // ----------------------------------------------------------------- main results

  lemma QuotientIsLargestFit(n: nat, available: nat, perJob: nat)
    requires perJob >= 1
    ensures n <= available / perJob <==> n * perJob <= available
  {
    var q := available / perJob;
    assert available == q * perJob + available % perJob;
    assert n <= q ==> n * perJob <= q * perJob;
    assert n >= q + 1 ==> n * perJob >= (q + 1) * perJob;
    assert (q + 1) * perJob == q * perJob + perJob;
  }

  /** `n` workers stay within memory, CPU budget and ceiling; one worker is always taken to fit. */
  ghost predicate WithinBudget(load: SystemLoad, cfg: GovernorConfig, n: nat) {
    && (n <= 1 || n * Max(cfg.perJobMem, 1) <= load.availableMem)
    && n <= load.cpuCap && n <= cfg.hardCeiling
  }

  /** The throttles: an overloaded box must have room for twice as many, but one is always granted;
      a thrashing box gets two at most. */
  ghost predicate Admissible(load: SystemLoad, cfg: GovernorConfig, n: nat) {
    && (if load.overloaded then n <= 1 || WithinBudget(load, cfg, 2 * n) else WithinBudget(load, cfg, n))
    && (load.swapUsed > cfg.swapHigh ==> n <= 2)
  }

  lemma BudgetIsLargestFit(load: SystemLoad, cfg: GovernorConfig, n: nat)
    ensures n <= Budget(load, cfg) <==> WithinBudget(load, cfg, n)
  {
    QuotientIsLargestFit(n, load.availableMem, PerJob(cfg));
  }

  /** What the governor grants, as the largest number of workers that passes: `n` workers are granted
      exactly when `n` is within the floor, or is admissible and not more than was asked for. */
  lemma GrantsExactly(load: SystemLoad, request: Option<u32>, cfg: GovernorConfig, n: nat)
    ensures n <= Jobs(load, request, cfg) <==>
            n <= cfg.floor || (Admissible(load, cfg, n) && (request.Some? ==> n <= request.value))
  {
    BudgetIsLargestFit(load, cfg, n);
    BudgetIsLargestFit(load, cfg, 2 * n);
  }

  /** When memory is reported as the constraint, one more worker would not fit. */
  lemma MemoryBindsTightly(load: SystemLoad, cfg: GovernorConfig, cap: u32)
    requires BindingHolds(load, cfg, cap, Memory) && cap < U32_MAX
    ensures (cap + 1) * Max(cfg.perJobMem, 1) > load.availableMem
  {
    QuotientIsLargestFit(cap + 1, load.availableMem, PerJob(cfg));
  }

  /** The request with which the ceiling can be overrun: none, or one that asks for work. */
  predicate AsksForWork(request: Option<u32>) { request.None? || request.value > 0 }

  /** The worker count lies between the floor and the larger of ceiling and floor, except exactly in
      one corner: a zero ceiling and a zero floor on an overloaded box, where halving returns one. */
  lemma CeilingHoldsExactly(load: SystemLoad, request: Option<u32>, cfg: GovernorConfig)
    requires load.cpuCap >= 1
    ensures Jobs(load, request, cfg) >= cfg.floor
    ensures Jobs(load, request, cfg) <= Max(cfg.hardCeiling, cfg.floor) <==>
            !(cfg.hardCeiling == 0 && cfg.floor == 0 && load.overloaded && AsksForWork(request))
  {
    var base := Budget(load, cfg);
    var halved := Halved(load, base);
    assert base >= 1 ==> halved <= base;
    assert load.overloaded ==> halved >= 1;
    assert Squeezed(load, cfg, halved) >= Min(halved, 1);
  }

  /** The ceiling itself, which the source calls the central safety invariant, holds exactly when the
      floor does not lie above it and it is not the zero ceiling of an overloaded box. */
  lemma HardCeilingHoldsExactly(load: SystemLoad, request: Option<u32>, cfg: GovernorConfig)
    requires load.cpuCap >= 1
    ensures Jobs(load, request, cfg) <= cfg.hardCeiling <==>
            cfg.floor <= cfg.hardCeiling && !(cfg.hardCeiling == 0 && load.overloaded && AsksForWork(request))
  {
    CeilingHoldsExactly(load, request, cfg);
  }

  /** A floor above the ceiling wins, whatever the load and the request. */
  lemma FloorOverrunsCeiling(load: SystemLoad, request: Option<u32>, cfg: GovernorConfig)
    requires load.cpuCap >= 1 && cfg.floor > cfg.hardCeiling
    ensures Jobs(load, request, cfg) > cfg.hardCeiling
    ensures Jobs(SystemLoad(0x4_0000_0000, 0, 8, false), None, GovernorConfig(1, 2, 5, 0)) == 5
  {
    CeilingHoldsExactly(load, request, cfg);
  }

  /** Workers are refused altogether exactly when the floor is zero and either nothing was asked for
      or the ceiling is zero on a box that is not overloaded. */
  lemma NoWorkersExactly(load: SystemLoad, request: Option<u32>, cfg: GovernorConfig)
    requires load.cpuCap >= 1
    ensures Jobs(load, request, cfg) == 0 <==>
            cfg.floor == 0 && (request == Some(0) || (cfg.hardCeiling == 0 && !load.overloaded))
  {
    var base := Budget(load, cfg);
    assert base == 0 <==> cfg.hardCeiling == 0;
    assert load.overloaded ==> Halved(load, base) >= 1;
    assert Squeezed(load, cfg, Halved(load, base)) == 0 <==> Halved(load, base) == 0;
  }

  lemma MoreMemoryMoreBudget(less: nat, more: nat, n: nat)
    requires less <= more && n >= 1
    ensures less / n <= more / n
  {
    QuotientIsLargestFit(less / n, less, n);
    QuotientIsLargestFit(less / n, more, n);
  }

  /** More available memory alone never lowers the worker count. */
  lemma MemoryIsMonotone(load: SystemLoad, more: nat, request: Option<u32>, cfg: GovernorConfig)
    requires load.availableMem <= more
    ensures Jobs(load, request, cfg) <= Jobs(load.(availableMem := more), request, cfg)
  {
    MoreMemoryMoreBudget(load.availableMem, more, PerJob(cfg));
    assert MemCap(load, cfg) <= MemCap(load.(availableMem := more), cfg);
    assert Budget(load, cfg) <= Budget(load.(availableMem := more), cfg);
  }

  /** The workers' memory budgets fit into available memory, unless there are no more workers than
      the floor or one. */
  lemma MemoryFits(load: SystemLoad, request: Option<u32>, cfg: GovernorConfig)
    ensures Jobs(load, request, cfg) * PerJob(cfg) <= load.availableMem || Jobs(load, request, cfg) <= Max(1, cfg.floor)
  {
    var jobs := Jobs(load, request, cfg);
    if jobs > Max(1, cfg.floor) {
      assert jobs <= Squeezed(load, cfg, Halved(load, Budget(load, cfg)));
      assert jobs <= Budget(load, cfg) <= MemCap(load, cfg);
      QuotientIsLargestFit(jobs, load.availableMem, PerJob(cfg));
    }
  }

  /** Asking for more never yields less, and never more than asked beyond the floor. */
  lemma RequestIsMonotone(load: SystemLoad, a: u32, b: u32, cfg: GovernorConfig)
    requires a <= b
    ensures Jobs(load, Some(a), cfg) <= Jobs(load, Some(b), cfg) <= Jobs(load, None, cfg)
    ensures Jobs(load, Some(a), cfg) <= Max(a, cfg.floor)
  {
  }
}
