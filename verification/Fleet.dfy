/** In-process runner fleet over the registry (`jeryu-runnerd/src/fleet.rs`). Runner policy is an
    input: a job carries the class policy selected for it, or the reason it was denied. Executing a
    job is modelled by appending its reservation to the `dispatched` log. */
module Fleet {
  import opened Order
  import opened Text
  import opened PipelineIr
  import opened Numbers
  import opened Registry

  datatype JobRequest = JobRequest(jobId: string, decision: Result<RunnerClass, string>)

  datatype Daemon = Daemon(runnerId: string, capacity: u32, supportedClasses: seq<RunnerClass>, labels: seq<string>,
                           epoch: u64)

  datatype ReservedJob = ReservedJob(job: JobRequest, runnerId: string, runnerEpoch: u64)

  /** A claim to a node at an epoch; seen from the slot accounting, a reservation is such a claim. */
  datatype Ticket = Ticket(id: string, epoch: u64)

  datatype FleetError =
    | PolicyDenied(reason: string) | NoCapacity(class_: string) | MissingDaemon(node: string)
    | FencedOut(runnerId: string, runnerEpoch: u64, activeEpoch: u64)

  datatype FleetState = FleetState(nodes: Nodes, ttl: u64, daemons: map<string, Daemon>, dispatched: seq<ReservedJob>)

  function Hello(d: Daemon): RunnerHello { RunnerHello(d.runnerId, d.capacity, d.supportedClasses, d.labels) }

  // ------------------------------------------------------------------- steps

  function Enrol(f: FleetState, d: Daemon, now: u64): FleetState {
    f.(nodes := Registered(f.nodes, Hello(d), now),
       daemons := f.daemons[d.runnerId := d.(epoch := NextEpoch(f.nodes, d.runnerId))])
  }

  function SpecFor(job: JobRequest, c: RunnerClass): AssignSpec { AssignSpec(job.jobId, c, []) }

  function Reserve(f: FleetState, job: JobRequest): (FleetState, Result<ReservedJob, FleetError>) {
    if job.decision.Err? then (f, Err(PolicyDenied(job.decision.error))) else
      var spec := SpecFor(job, job.decision.value);
      match Chosen(f.nodes, spec)
      case None => (f, Err(NoCapacity(RunnerClassText(job.decision.value))))
      case Some(id) =>
        var nodes := Assigned(f.nodes, spec);
        if id !in f.daemons then (f.(nodes := Released(nodes, id)), Err(MissingDaemon(id)))
        else (f.(nodes := nodes), Ok(ReservedJob(job, id, f.nodes[id].epoch)))
  }

  function CurrentEpoch(nodes: Nodes, id: string): u64 { if id in nodes then nodes[id].epoch else 0 }

  /** `run_reserved`, including the daemon's own epoch check in `dispatch`. */
  function RunOne(f: FleetState, r: ReservedJob): (FleetState, Result<ReservedJob, FleetError>) {
    if !IsOwner(f.nodes, r.runnerId, r.runnerEpoch) then
      (f, Err(FencedOut(r.runnerId, r.runnerEpoch, CurrentEpoch(f.nodes, r.runnerId))))
    else if r.runnerId !in f.daemons then (f, Err(MissingDaemon(r.runnerId)))
    else if f.daemons[r.runnerId].epoch != r.runnerEpoch then
      (f, Err(FencedOut(f.daemons[r.runnerId].runnerId, r.runnerEpoch, f.daemons[r.runnerId].epoch)))
    else (f.(nodes := Released(f.nodes, r.runnerId), dispatched := f.dispatched + [r]), Ok(r))
  }

  /** Reserves jobs in order, stopping at the first failure; `acc` holds what is already reserved. */
  function ReserveAll(f: FleetState, jobs: seq<JobRequest>, acc: seq<ReservedJob>)
    : (FleetState, Result<seq<ReservedJob>, FleetError>)
    decreases |jobs|
  {
    if jobs == [] then (f, Ok(acc)) else
      var (g, r) := Reserve(f, jobs[0]);
      if r.Err? then (g, Err(r.error)) else ReserveAll(g, jobs[1..], acc + [r.value])
  }

  /** Runs reservations in order, stopping at the first failure. */
  function RunAll(f: FleetState, rs: seq<ReservedJob>, acc: seq<ReservedJob>)
    : (FleetState, Result<seq<ReservedJob>, FleetError>)
    decreases |rs|
  {
    if rs == [] then (f, Ok(acc)) else
      var (g, r) := RunOne(f, rs[0]);
      if r.Err? then (g, Err(r.error)) else RunAll(g, rs[1..], acc + [r.value])
  }

  function Batch(f: FleetState, jobs: seq<JobRequest>): (FleetState, Result<seq<ReservedJob>, FleetError>) {
    var (g, rs) := ReserveAll(f, jobs, []);
    if rs.Err? then (g, Err(rs.error)) else RunAll(g, rs.value, [])
  }

  /** The node and the epoch a heartbeat is sent with: the daemon's own, or epoch 0 for an unknown node. */
  function BeatAs(f: FleetState, id: string): Ticket {
    if id in f.daemons then Ticket(f.daemons[id].runnerId, f.daemons[id].epoch) else Ticket(id, 0)
  }

  function BeatNodes(f: FleetState, id: string, now: u64): Nodes {
    Beaten(f.nodes, BeatAs(f, id).id, BeatAs(f, id).epoch, now)
  }

  // ------------------------------------------------------------ imperative form

  class RunnerFleet {
    const registry: NodeRegistry
    var daemons: map<string, Daemon>
    var dispatched: seq<ReservedJob>

    ghost predicate Valid()
      reads this, registry
    {
      registry.Valid()
    }

    ghost function State(): FleetState
      reads this, registry
    {
      FleetState(registry.nodes, registry.heartbeatTtl, daemons, dispatched)
    }

    constructor (ttl: u64)
      ensures Valid() && fresh(registry) && State() == FleetState(map[], ttl, map[], [])
    {
      registry := new NodeRegistry(ttl);
      daemons := map[];
      dispatched := [];
    }

    method Register(d: Daemon, now: u64) returns (epoch: u64)
      requires Valid()
      modifies this, registry
      ensures Valid() && State() == Enrol(old(State()), d, now)
      ensures epoch == State().nodes[d.runnerId].epoch
    {
      var ack := registry.Register(Hello(d), now);
      daemons := daemons[ack.nodeId := d.(epoch := ack.epoch)];
      return ack.epoch;
    }

    method ReserveJob(job: JobRequest) returns (r: Result<ReservedJob, FleetError>)
      requires Valid()
      modifies this, registry
      ensures Valid() && (State(), r) == Reserve(old(State()), job)
    {
      if job.decision.Err? { return Err(PolicyDenied(job.decision.error)); }
      var assignment := registry.Assign(SpecFor(job, job.decision.value));
      if assignment.None? { return Err(NoCapacity(RunnerClassText(job.decision.value))); }
      var id := assignment.value.nodeId;
      if id !in daemons {
        registry.Release(id);
        return Err(MissingDaemon(id));
      }
      return Ok(ReservedJob(job, id, assignment.value.epoch));
    }

    method RunReserved(r: ReservedJob) returns (out: Result<ReservedJob, FleetError>)
      requires Valid()
      modifies this, registry
      ensures Valid() && (State(), out) == RunOne(old(State()), r)
    {
      var owner := registry.IsCurrentOwner(r.runnerId, r.runnerEpoch);
      if !owner {
        return Err(FencedOut(r.runnerId, r.runnerEpoch, CurrentEpoch(registry.nodes, r.runnerId)));
      }
      if r.runnerId !in daemons { return Err(MissingDaemon(r.runnerId)); }
      var daemon := daemons[r.runnerId];
      if daemon.epoch != r.runnerEpoch {
        return Err(FencedOut(daemon.runnerId, r.runnerEpoch, daemon.epoch));
      }
      dispatched := dispatched + [r];
      registry.Release(r.runnerId);
      return Ok(r);
    }

    method SubmitBatch(jobs: seq<JobRequest>) returns (out: Result<seq<ReservedJob>, FleetError>)
      requires Valid()
      modifies this, registry
      ensures Valid() && (State(), out) == Batch(old(State()), jobs)
    {
      var reserved := [];
      for i := 0 to |jobs|
        invariant Valid()
        invariant ReserveAll(old(State()), jobs, []) == ReserveAll(State(), jobs[i..], reserved)
      {
        assert jobs[i..][1..] == jobs[i + 1..];
        var r := ReserveJob(jobs[i]);
        if r.Err? { return Err(r.error); }
        reserved := reserved + [r.value];
      }
      ghost var mid := State();
      var done := [];
      for i := 0 to |reserved|
        invariant Valid()
        invariant RunAll(mid, reserved, []) == RunAll(State(), reserved[i..], done)
      {
        assert reserved[i..][1..] == reserved[i + 1..];
        var r := RunReserved(reserved[i]);
        if r.Err? { return Err(r.error); }
        done := done + [r.value];
      }
      return Ok(done);
    }

    method Heartbeat(id: string, now: u64) returns (ack: HeartbeatAck)
      requires Valid()
      modifies this, registry
      ensures Valid() && State() == old(State()).(nodes := BeatNodes(old(State()), id, now))
      ensures var beat := BeatAs(old(State()), id);
              && (ack.stillOwner <==> IsOwner(old(State()).nodes, beat.id, beat.epoch))
              && (ack.drain <==> beat.id in old(State()).nodes && old(State()).nodes[beat.id].state == Draining)
      ensures InSync(old(State())) ==>
        (ack.stillOwner <==> id in old(State()).nodes && old(State()).nodes[id].state != Dead)
    {
      if id !in daemons {
        ack := registry.Heartbeat(id, 0, now);
      } else {
        ack := registry.Heartbeat(daemons[id].runnerId, daemons[id].epoch, now);
      }
    }

    method Reap(now: u64) returns (reaped: seq<ReapedNode>)
      requires Valid()
      modifies this, registry
      ensures Valid() && State() == old(State()).(nodes := Reaped(old(State()).nodes, old(State()).ttl, now))
      ensures reaped == ReapList(Iter(old(State()).nodes.Keys), old(State()).nodes, old(State()).ttl, now)
    {
      reaped := registry.Reap(now);
    }

    method Drain(id: string) returns (ok: bool)
      requires Valid()
      modifies this, registry
      ensures Valid() && State() == old(State()).(nodes := Drained(old(State()).nodes, id))
      ensures ok <==> TakesWork(old(State()).nodes, id)
    {
      ok := registry.Drain(id);
    }
  }

  // -------------------------------------------------------- registry and daemons

  /** Daemon map and registry know the same nodes, and agree on the epoch of every node not dead. */
  ghost predicate InSync(f: FleetState) {
    && f.daemons.Keys == f.nodes.Keys
    && forall id :: id in f.nodes ==>
         && f.daemons[id].runnerId == id
         && (f.nodes[id].state != Dead ==> f.daemons[id].epoch == f.nodes[id].epoch)
  }

  datatype FleetOp =
    | OpRegister(daemon: Daemon, now: u64)
    | OpReserve(job: JobRequest)
    | OpRun(reservation: ReservedJob)
    | OpHeartbeat(id: string, now: u64)
    | OpReap(now: u64)
    | OpDrain(id: string)

  function FleetStep(f: FleetState, op: FleetOp): FleetState {
    match op
    case OpRegister(d, now) => Enrol(f, d, now)
    case OpReserve(job) => Reserve(f, job).0
    case OpRun(r) => RunOne(f, r).0
    case OpHeartbeat(id, now) => f.(nodes := BeatNodes(f, id, now))
    case OpReap(now) => f.(nodes := Reaped(f.nodes, f.ttl, now))
    case OpDrain(id) => f.(nodes := Drained(f.nodes, id))
  }

  function FleetRun(f: FleetState, ops: seq<FleetOp>): FleetState
    decreases |ops|
  {
    if ops == [] then f else FleetRun(FleetStep(f, ops[0]), ops[1..])
  }

  /** What a successful assignment changes: one more job in flight on the chosen node, nothing else. */
  lemma AssignedChanges(nodes: Nodes, spec: AssignSpec, id: string)
    requires Chosen(nodes, spec) == Some(id)
    ensures id in nodes && Eligible(nodes[id], spec)
    ensures Assigned(nodes, spec) == nodes[id := nodes[id].(inFlight := nodes[id].inFlight + 1)]
  {
    assert id in Candidates(nodes, spec);
  }

  lemma StepKeepsSync(f: FleetState, op: FleetOp)
    requires InSync(f)
    ensures InSync(FleetStep(f, op))
  {
    if op.OpReserve? && op.job.decision.Ok? {
      var spec := SpecFor(op.job, op.job.decision.value);
      var c := Chosen(f.nodes, spec);
      if c.Some? { AssignedChanges(f.nodes, spec, c.value); }
    }
  }

  /** In every reachable fleet state registry and daemons are in step, however reservations are run. */
  lemma {:induction false} RunKeepsSync(f: FleetState, ops: seq<FleetOp>)
    requires InSync(f)
    ensures InSync(FleetRun(f, ops))
    decreases |ops|
  {
    if ops != [] {
      StepKeepsSync(f, ops[0]);
      RunKeepsSync(FleetStep(f, ops[0]), ops[1..]);
    }
  }

  /** Hence `MissingDaemon` never occurs and the second epoch check never fires: running a
      reservation succeeds exactly for a current owner, and otherwise changes nothing. */
  lemma RunOutcome(f: FleetState, r: ReservedJob)
    requires InSync(f)
    ensures RunOne(f, r).1.Ok? <==> IsOwner(f.nodes, r.runnerId, r.runnerEpoch)
    ensures RunOne(f, r).1.Err? ==>
      var active := if r.runnerId in f.nodes then f.nodes[r.runnerId].epoch else 0;
      RunOne(f, r) == (f, Err(FencedOut(r.runnerId, r.runnerEpoch, active)))
  {
  }

  lemma ReserveOutcome(f: FleetState, job: JobRequest)
    requires InSync(f) && job.decision.Ok?
    ensures Reserve(f, job).1.Err? ==> Reserve(f, job) == (f, Err(NoCapacity(RunnerClassText(job.decision.value))))
    ensures Reserve(f, job).1.Ok? ==>
      IsOwner(Reserve(f, job).0.nodes, Reserve(f, job).1.value.runnerId, Reserve(f, job).1.value.runnerEpoch)
  {
    var spec := SpecFor(job, job.decision.value);
    var c := Chosen(f.nodes, spec);
    if c.Some? { AssignedChanges(f.nodes, spec, c.value); }
  }

  // ------------------------------------------------- the fleet as a user of the registry

  /** What a fleet operation amounts to at the registry: a heartbeat carries the node's own epoch, a
      reservation is an assignment without tags, a run of a fenced reservation is nothing. */
  function AtRegistry(f: FleetState, op: FleetOp): seq<Op> {
    match op
    case OpRegister(d, now) => [Op.Register(RunnerHello(d.runnerId, d.capacity, d.supportedClasses, d.labels), now)]
    case OpReserve(job) => if job.decision.Err? then [] else [Op.Assign(AssignSpec(job.jobId, job.decision.value, []))]
    case OpRun(r) => if IsOwner(f.nodes, r.runnerId, r.runnerEpoch) then [Op.Release(r.runnerId)] else []
    case OpHeartbeat(id, now) => if id in f.nodes then [Op.Heartbeat(id, f.nodes[id].epoch, now)] else []
    case OpReap(now) => [Op.Reap(now)]
    case OpDrain(id) => [Op.Drain(id)]
  }

  lemma StepIsARegistryRun(f: FleetState, op: FleetOp)
    requires InSync(f)
    ensures FleetStep(f, op).nodes == Run(f.nodes, f.ttl, AtRegistry(f, op)) && FleetStep(f, op).ttl == f.ttl
  {
    if AtRegistry(f, op) != [] { RunOfOne(f.nodes, f.ttl, AtRegistry(f, op)[0]); }
    if op.OpReserve? && op.job.decision.Ok? {
      var spec := SpecFor(op.job, op.job.decision.value);
      var c := Chosen(f.nodes, spec);
      if c.Some? { AssignedChanges(f.nodes, spec, c.value); }
    }
  }

  function AllAtRegistry(f: FleetState, ops: seq<FleetOp>): seq<Op>
    decreases |ops|
  {
    if ops == [] then [] else AtRegistry(f, ops[0]) + AllAtRegistry(FleetStep(f, ops[0]), ops[1..])
  }

  /** Every run of the fleet is a run of the registry, so all that holds of registry runs holds here. */
  lemma {:induction false} FleetRunIsARegistryRun(f: FleetState, ops: seq<FleetOp>)
    requires InSync(f)
    ensures FleetRun(f, ops).nodes == Run(f.nodes, f.ttl, AllAtRegistry(f, ops)) && FleetRun(f, ops).ttl == f.ttl
    decreases |ops|
  {
    if ops != [] {
      var g := FleetStep(f, ops[0]);
      StepIsARegistryRun(f, ops[0]);
      StepKeepsSync(f, ops[0]);
      FleetRunIsARegistryRun(g, ops[1..]);
      RunAppend(f.nodes, f.ttl, AtRegistry(f, ops[0]), AllAtRegistry(g, ops[1..]));
    }
  }

  /** A reservation that has lost its node is refused for ever after and changes nothing, whatever the
      fleet does in between, as long as its epoch is below saturation. */
  lemma LostReservationNeverRuns(f: FleetState, ops: seq<FleetOp>, more: seq<FleetOp>, r: ReservedJob)
    requires InSync(f) && IsOwner(f.nodes, r.runnerId, r.runnerEpoch) && r.runnerEpoch < U64_MAX
    requires !IsOwner(FleetRun(f, ops).nodes, r.runnerId, r.runnerEpoch)
    ensures var g := FleetRun(FleetRun(f, ops), more); RunOne(g, r).0 == g && RunOne(g, r).1.Err?
  {
    var g := FleetRun(f, ops);
    FleetRunIsARegistryRun(f, ops);
    OwnerUntilPast(f.nodes, f.ttl, AllAtRegistry(f, ops), r.runnerId, r.runnerEpoch);
    RunKeepsSync(f, ops);
    FleetRunIsARegistryRun(g, more);
    PastIsStable(g.nodes, g.ttl, AllAtRegistry(g, more), r.runnerId, r.runnerEpoch);
  }

  // --------------------------------------------------------- slot conservation

  function TicketOf(r: ReservedJob): Ticket { Ticket(r.runnerId, r.runnerEpoch) }

  /** The fleet together with the reservations that have been handed out and not yet run. */
  datatype Ledger = Ledger(fleet: FleetState, outstanding: multiset<Ticket>)

  ghost predicate Balanced(l: Ledger) {
    && InSync(l.fleet)
    && (forall t :: t in l.outstanding ==> t.id in l.fleet.nodes && t.epoch <= l.fleet.nodes[t.id].epoch)
    && (forall id :: id in l.fleet.nodes ==> l.fleet.nodes[id].inFlight <= l.fleet.nodes[id].capacity)
    && (forall id :: id in l.fleet.nodes && l.fleet.nodes[id].state != Dead ==>
          l.fleet.nodes[id].inFlight == l.outstanding[Ticket(id, l.fleet.nodes[id].epoch)])
  }

  function LedgerStep(l: Ledger, op: FleetOp): Ledger {
    var fleet := FleetStep(l.fleet, op);
    match op
    case OpReserve(job) =>
      var r := Reserve(l.fleet, job).1;
      Ledger(fleet, if r.Ok? then l.outstanding + multiset{TicketOf(r.value)} else l.outstanding)
    case OpRun(r) => Ledger(fleet, l.outstanding - multiset{TicketOf(r)})
    case _ => Ledger(fleet, l.outstanding)
  }

  /** Each reservation is run at most once, and no node registers into an epoch that still has
      outstanding reservations, which can happen at the saturated epoch only. */
  predicate Disciplined(l: Ledger, op: FleetOp) {
    match op
    case OpRun(r) => TicketOf(r) in l.outstanding
    case OpRegister(d, _) => Ticket(d.runnerId, NextEpoch(l.fleet.nodes, d.runnerId)) !in l.outstanding
    case _ => true
  }

  lemma ReserveBalanced(l: Ledger, job: JobRequest)
    requires Balanced(l)
    ensures Balanced(LedgerStep(l, OpReserve(job)))
  {
    StepKeepsSync(l.fleet, OpReserve(job));
    if job.decision.Ok? {
      var spec := SpecFor(job, job.decision.value);
      var c := Chosen(l.fleet.nodes, spec);
      if c.Some? { AssignedChanges(l.fleet.nodes, spec, c.value); }
    }
  }

  lemma ReleaseBalanced(l: Ledger, r: ReservedJob, fleet: FleetState)
    requires Balanced(l) && TicketOf(r) in l.outstanding && IsOwner(l.fleet.nodes, r.runnerId, r.runnerEpoch)
    requires InSync(fleet) && fleet.nodes == Released(l.fleet.nodes, r.runnerId)
    ensures Balanced(Ledger(fleet, l.outstanding - multiset{TicketOf(r)}))
  {
  }

  lemma StaleBalanced(l: Ledger, t: Ticket)
    requires Balanced(l) && !IsOwner(l.fleet.nodes, t.id, t.epoch)
    ensures Balanced(Ledger(l.fleet, l.outstanding - multiset{t}))
  {
  }

  lemma RunBalanced(l: Ledger, r: ReservedJob)
    requires Balanced(l) && TicketOf(r) in l.outstanding
    ensures Balanced(LedgerStep(l, OpRun(r)))
  {
    StepKeepsSync(l.fleet, OpRun(r));
    RunOutcome(l.fleet, r);
    if IsOwner(l.fleet.nodes, r.runnerId, r.runnerEpoch) {
      ReleaseBalanced(l, r, RunOne(l.fleet, r).0);
    } else {
      StaleBalanced(l, TicketOf(r));
    }
  }

  /** A registration keeps the count exactly when no reservation is outstanding at the new epoch. */
  lemma RegisterBalanced(l: Ledger, d: Daemon, now: u64)
    requires Balanced(l)
    ensures Balanced(LedgerStep(l, OpRegister(d, now))) <==> Disciplined(l, OpRegister(d, now))
  {
    StepKeepsSync(l.fleet, OpRegister(d, now));
    var after := LedgerStep(l, OpRegister(d, now)).fleet.nodes;
    assert after[d.runnerId].inFlight == 0 && after[d.runnerId].epoch == NextEpoch(l.fleet.nodes, d.runnerId);
  }

  /** Below saturation every registration is of that kind: the new epoch is newer than any reservation. */
  lemma RegistrationBelowSaturation(l: Ledger, d: Daemon, now: u64)
    requires Balanced(l) && (d.runnerId in l.fleet.nodes ==> l.fleet.nodes[d.runnerId].epoch < U64_MAX)
    ensures Disciplined(l, OpRegister(d, now))
  {
  }

  lemma ReapBalanced(l: Ledger, now: u64)
    requires Balanced(l)
    ensures Balanced(LedgerStep(l, OpReap(now)))
  {
    StepKeepsSync(l.fleet, OpReap(now));
  }

  lemma DrainBalanced(l: Ledger, id: string)
    requires Balanced(l)
    ensures Balanced(LedgerStep(l, OpDrain(id)))
  {
    StepKeepsSync(l.fleet, OpDrain(id));
  }

  lemma HeartbeatBalanced(l: Ledger, id: string, now: u64)
    requires Balanced(l)
    ensures Balanced(LedgerStep(l, OpHeartbeat(id, now)))
  {
    StepKeepsSync(l.fleet, OpHeartbeat(id, now));
  }

  lemma StepBalanced(l: Ledger, op: FleetOp)
    requires Balanced(l) && Disciplined(l, op)
    ensures Balanced(LedgerStep(l, op))
  {
    match op
    case OpReserve(job) => ReserveBalanced(l, job);
    case OpRun(r) => RunBalanced(l, r);
    case OpRegister(d, now) => RegisterBalanced(l, d, now);
    case OpReap(now) => ReapBalanced(l, now);
    case OpDrain(id) => DrainBalanced(l, id);
    case OpHeartbeat(id, now) => HeartbeatBalanced(l, id, now);
  }

  function LedgerRun(l: Ledger, ops: seq<FleetOp>): Ledger
    decreases |ops|
  {
    if ops == [] then l else LedgerRun(LedgerStep(l, ops[0]), ops[1..])
  }

  predicate DisciplinedRun(l: Ledger, ops: seq<FleetOp>)
    decreases |ops|
  {
    ops == [] || (Disciplined(l, ops[0]) && DisciplinedRun(LedgerStep(l, ops[0]), ops[1..]))
  }

  /** Slot conservation over whole runs: on every node not dead the in-flight count is the number of
      outstanding reservations of its current incarnation, and never exceeds capacity. */
  lemma {:induction false} SlotsAreConserved(l: Ledger, ops: seq<FleetOp>)
    requires Balanced(l) && DisciplinedRun(l, ops)
    ensures Balanced(LedgerRun(l, ops))
    ensures LedgerRun(l, ops).fleet == FleetRun(l.fleet, ops)
    decreases |ops|
  {
    if ops != [] {
      StepBalanced(l, ops[0]);
      SlotsAreConserved(LedgerStep(l, ops[0]), ops[1..]);
    }
  }

  function NewFleet(ttl: u64): Ledger { Ledger(FleetState(map[], ttl, map[], []), multiset{}) }

  lemma EmptyFleetIsBalanced(ttl: u64)
    ensures Balanced(NewFleet(ttl))
  {
  }

  /** Runs in which only outstanding reservations are run. */
  predicate RunsOutstanding(l: Ledger, ops: seq<FleetOp>)
    decreases |ops|
  {
    ops != [] ==>
      && (ops[0].OpRun? ==> TicketOf(ops[0].reservation) in l.outstanding)
      && RunsOutstanding(LedgerStep(l, ops[0]), ops[1..])
  }

  /** No epoch has got beyond `n`. */
  ghost predicate EpochsWithin(nodes: Nodes, n: nat) { forall id :: id in nodes ==> nodes[id].epoch <= n }

  lemma ReserveKeepsEpochs(f: FleetState, job: JobRequest, n: nat)
    requires EpochsWithin(f.nodes, n)
    ensures EpochsWithin(Reserve(f, job).0.nodes, n)
  {
    if job.decision.Ok? {
      var spec := SpecFor(job, job.decision.value);
      var c := Chosen(f.nodes, spec);
      if c.Some? { AssignedChanges(f.nodes, spec, c.value); }
    }
  }

  lemma ReapRaisesEpochsByOne(nodes: Nodes, ttl: u64, now: u64, n: nat)
    requires EpochsWithin(nodes, n)
    ensures EpochsWithin(Reaped(nodes, ttl, now), n + 1)
  {
  }

  lemma StepRaisesEpochsByOne(l: Ledger, op: FleetOp, n: nat)
    requires EpochsWithin(l.fleet.nodes, n)
    ensures EpochsWithin(LedgerStep(l, op).fleet.nodes, n + 1)
  {
    match op
    case OpReserve(job) => ReserveKeepsEpochs(l.fleet, job, n);
    case OpReap(now) => ReapRaisesEpochsByOne(l.fleet.nodes, l.fleet.ttl, now, n);
    case _ =>
  }

  lemma {:induction false} ShortRunsAreDisciplined(l: Ledger, ops: seq<FleetOp>, n: nat)
    requires Balanced(l) && RunsOutstanding(l, ops) && EpochsWithin(l.fleet.nodes, n) && n + |ops| <= U64_MAX
    ensures DisciplinedRun(l, ops)
    decreases |ops|
  {
    if ops != [] {
      if ops[0].OpRegister? { RegistrationBelowSaturation(l, ops[0].daemon, ops[0].now); }
      StepBalanced(l, ops[0]);
      StepRaisesEpochsByOne(l, ops[0], n);
      ShortRunsAreDisciplined(LedgerStep(l, ops[0]), ops[1..], n + 1);
    }
  }

  /** From a new fleet, every history of fewer than 2^64 operations that runs each reservation at most
      once keeps the slots balanced: no condition on epochs or registrations is left. */
  lemma EveryHistoryConservesSlots(ttl: u64, ops: seq<FleetOp>)
    requires |ops| <= U64_MAX && RunsOutstanding(NewFleet(ttl), ops)
    ensures Balanced(LedgerRun(NewFleet(ttl), ops))
    ensures LedgerRun(NewFleet(ttl), ops).fleet == FleetRun(NewFleet(ttl).fleet, ops)
  {
    EmptyFleetIsBalanced(ttl);
    ShortRunsAreDisciplined(NewFleet(ttl), ops, 0);
    SlotsAreConserved(NewFleet(ttl), ops);
  }

  /** Running a reservation once more than it was handed out breaks the count exactly when it still
      names a current owner with something in flight. */
  lemma ExtraRunUnbalances(l: Ledger, r: ReservedJob)
    requires Balanced(l)
    ensures Balanced(Ledger(RunOne(l.fleet, r).0, l.outstanding)) <==>
            !(IsOwner(l.fleet.nodes, r.runnerId, r.runnerEpoch) && l.fleet.nodes[r.runnerId].inFlight > 0)
  {
    RunOutcome(l.fleet, r);
    StepKeepsSync(l.fleet, OpRun(r));
    if IsOwner(l.fleet.nodes, r.runnerId, r.runnerEpoch) && l.fleet.nodes[r.runnerId].inFlight > 0 {
      var after := RunOne(l.fleet, r).0.nodes;
      assert after[r.runnerId].inFlight != l.outstanding[Ticket(r.runnerId, after[r.runnerId].epoch)];
    }
  }
}
