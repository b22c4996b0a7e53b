/** When a batch of jobs of one runner class succeeds, and what it leaves behind
    (`RunnerFleet::submit_batch`, `jeryu-runnerd/src/fleet.rs`). */
module FleetBatch {
  import opened Order
  import opened Text
  import opened PipelineIr
  import opened Numbers
  import opened Registry
  import opened Fleet

  // ---------------------------------------------------------------- free slots

  /** Slots a node can still give to a job of class `c`. */
  function Free(n: NodeRecord, c: RunnerClass): nat {
    if n.state == Active && SupportsClass(n, c) && n.inFlight < n.capacity then n.capacity - n.inFlight else 0
  }

  function FreeOver(keys: seq<string>, nodes: Nodes, c: RunnerClass): nat
    requires forall i :: 0 <= i < |keys| ==> keys[i] in nodes
  {
    if keys == [] then 0
    else FreeOver(keys[..|keys| - 1], nodes, c) + Free(nodes[keys[|keys| - 1]], c)
  }

  /** Free slots for class `c` over the whole registry. */
  function FreeSlots(nodes: Nodes, c: RunnerClass): nat { FreeOver(Iter(nodes.Keys), nodes, c) }

  lemma {:induction false} FreeOverUpdate(keys: seq<string>, nodes: Nodes, c: RunnerClass, id: string, n: NodeRecord)
    requires Ascending(keys) && (forall i :: 0 <= i < |keys| ==> keys[i] in nodes) && id in nodes
    ensures FreeOver(keys, nodes[id := n], c) ==
            FreeOver(keys, nodes, c) + if id in keys then Free(n, c) - Free(nodes[id], c) else 0
    decreases |keys|
  {
    if keys != [] {
      var k := |keys| - 1;
      AscendingPrefix(keys, k);
      NotEarlier(keys, k);
      FreeOverUpdate(keys[..k], nodes, c, id, n);
      assert keys == keys[..k] + [keys[k]];
    }
  }

  lemma {:induction false} FreeOverPositive(keys: seq<string>, nodes: Nodes, c: RunnerClass)
    requires forall i :: 0 <= i < |keys| ==> keys[i] in nodes
    ensures FreeOver(keys, nodes, c) > 0 <==> exists i :: 0 <= i < |keys| && Free(nodes[keys[i]], c) > 0
    decreases |keys|
  {
    if keys != [] {
      var k := |keys| - 1;
      FreeOverPositive(keys[..k], nodes, c);
      if exists i :: 0 <= i < |keys| && Free(nodes[keys[i]], c) > 0 {
        var i :| 0 <= i < |keys| && Free(nodes[keys[i]], c) > 0;
        if i < k { assert keys[..k][i] == keys[i]; }
      }
      if FreeOver(keys[..k], nodes, c) > 0 {
        var i :| 0 <= i < k && Free(nodes[keys[..k][i]], c) > 0;
        assert keys[..k][i] == keys[i];
      }
    }
  }

  lemma EligibleMeansFree(n: NodeRecord, job: JobRequest, c: RunnerClass)
    ensures Eligible(n, SpecFor(job, c)) <==> Free(n, c) > 0
  {
  }

  /** An assignment is possible exactly when a slot is free. */
  lemma ChosenMeansFree(nodes: Nodes, job: JobRequest, c: RunnerClass)
    ensures Chosen(nodes, SpecFor(job, c)).Some? <==> FreeSlots(nodes, c) > 0
  {
    var keys := Iter(nodes.Keys);
    FreeOverPositive(keys, nodes, c);
    var spec := SpecFor(job, c);
    if Candidates(nodes, spec) != {} {
      var id :| id in Candidates(nodes, spec);
      var i :| 0 <= i < |keys| && keys[i] == id;
      EligibleMeansFree(nodes[keys[i]], job, c);
    }
    if FreeSlots(nodes, c) > 0 {
      var i :| 0 <= i < |keys| && Free(nodes[keys[i]], c) > 0;
      EligibleMeansFree(nodes[keys[i]], job, c);
      assert keys[i] in Candidates(nodes, spec);
    }
  }

  // ---------------------------------------------------------------- reservations

  ghost predicate Accepted(jobs: seq<JobRequest>, c: RunnerClass) {
    forall i :: 0 <= i < |jobs| ==> jobs[i].decision == Ok(c)
  }

  /** How many of the reservations are on a node. */
  function On(rs: seq<ReservedJob>, id: string): nat {
    if rs == [] then 0 else On(rs[1..], id) + if rs[0].runnerId == id then 1 else 0
  }

  lemma {:induction false} OnAppend(rs: seq<ReservedJob>, r: ReservedJob, id: string)
    ensures On(rs + [r], id) == On(rs, id) + if r.runnerId == id then 1 else 0
    decreases |rs|
  {
    if rs == [] {
      assert rs + [r] == [r];
    } else {
      assert (rs + [r])[1..] == rs[1..] + [r];
      OnAppend(rs[1..], r, id);
    }
  }

  /** `cur` is `base` with the reservations `rs` added to the in-flight counts. */
  ghost predicate Loaded(base: Nodes, cur: Nodes, rs: seq<ReservedJob>) {
    && cur.Keys == base.Keys
    && forall id :: id in base ==>
         cur[id].inFlight == base[id].inFlight + On(rs, id) && cur[id] == base[id].(inFlight := cur[id].inFlight)
  }

  /** Every reservation names a node of `base` that is alive, at its epoch. */
  ghost predicate Owners(base: Nodes, rs: seq<ReservedJob>) {
    forall i :: 0 <= i < |rs| ==> IsOwner(base, rs[i].runnerId, rs[i].runnerEpoch)
  }

  /** The nodes after one more job is in flight on `id`. */
  function OneMore(nodes: Nodes, id: string): Nodes
    requires id in nodes && nodes[id].inFlight < U32_MAX
  {
    nodes[id := nodes[id].(inFlight := nodes[id].inFlight + 1)]
  }

  lemma OneMoreTakesASlot(nodes: Nodes, c: RunnerClass, id: string)
    requires id in nodes && Free(nodes[id], c) > 0
    ensures FreeSlots(OneMore(nodes, id), c) == FreeSlots(nodes, c) - 1
  {
    var n := nodes[id].(inFlight := nodes[id].inFlight + 1);
    assert OneMore(nodes, id).Keys == nodes.Keys;
    FreeOverUpdate(Iter(nodes.Keys), nodes, c, id, n);
  }

  lemma OneMoreLoads(base: Nodes, nodes: Nodes, acc: seq<ReservedJob>, r: ReservedJob)
    requires Loaded(base, nodes, acc) && r.runnerId in nodes && nodes[r.runnerId].inFlight < U32_MAX
    ensures Loaded(base, OneMore(nodes, r.runnerId), acc + [r])
  {
    forall x | x in base ensures On(acc + [r], x) == On(acc, x) + if r.runnerId == x then 1 else 0 {
      OnAppend(acc, r, x);
    }
  }

  lemma OneMoreSync(f: FleetState, id: string)
    requires InSync(f) && id in f.nodes && f.nodes[id].inFlight < U32_MAX
    ensures InSync(f.(nodes := OneMore(f.nodes, id)))
  {
  }

  /** Without a free slot of the class a reservation is refused and changes nothing. */
  lemma ReserveWhenFull(f: FleetState, job: JobRequest, c: RunnerClass)
    requires job.decision == Ok(c) && FreeSlots(f.nodes, c) == 0
    ensures Reserve(f, job) == (f, Err(NoCapacity(RunnerClassText(c))))
  {
    ChosenMeansFree(f.nodes, job, c);
  }

  lemma ReserveWhenFree(f: FleetState, job: JobRequest, c: RunnerClass) returns (id: string)
    requires InSync(f) && job.decision == Ok(c) && FreeSlots(f.nodes, c) > 0
    ensures id in f.nodes && Free(f.nodes[id], c) > 0
    ensures Reserve(f, job) == (f.(nodes := OneMore(f.nodes, id)), Ok(ReservedJob(job, id, f.nodes[id].epoch)))
  {
    ChosenMeansFree(f.nodes, job, c);
    var spec := SpecFor(job, c);
    id := Chosen(f.nodes, spec).value;
    AssignedChanges(f.nodes, spec, id);
    EligibleMeansFree(f.nodes[id], job, c);
  }

  /** The state and the reservation after a reservation on `id`. */
  ghost predicate TookSlot(f: FleetState, job: JobRequest, c: RunnerClass, base: Nodes, acc: seq<ReservedJob>,
                           g: FleetState, r: ReservedJob) {
    && r.job == job && g == f.(nodes := g.nodes) && InSync(g)
    && Loaded(base, g.nodes, acc + [r]) && Owners(base, acc + [r])
    && FreeSlots(g.nodes, c) == FreeSlots(f.nodes, c) - 1
  }

  lemma OneMoreTookSlot(f: FleetState, job: JobRequest, c: RunnerClass, base: Nodes, acc: seq<ReservedJob>, id: string)
    requires InSync(f) && Loaded(base, f.nodes, acc) && Owners(base, acc) && id in f.nodes && Free(f.nodes[id], c) > 0
    ensures TookSlot(f, job, c, base, acc, f.(nodes := OneMore(f.nodes, id)), ReservedJob(job, id, f.nodes[id].epoch))
  {
    OneMoreSync(f, id);
    OneMoreTakesASlot(f.nodes, c, id);
    OneMoreLoads(base, f.nodes, acc, ReservedJob(job, id, f.nodes[id].epoch));
  }

  /** A reservation takes one free slot of its class. */
  lemma ReserveTakesOne(f: FleetState, job: JobRequest, c: RunnerClass, base: Nodes, acc: seq<ReservedJob>)
    returns (g: FleetState, r: ReservedJob)
    requires InSync(f) && job.decision == Ok(c) && Loaded(base, f.nodes, acc) && Owners(base, acc)
    requires FreeSlots(f.nodes, c) > 0
    ensures Reserve(f, job) == (g, Ok(r)) && TookSlot(f, job, c, base, acc, g, r)
  {
    var id := ReserveWhenFree(f, job, c);
    OneMoreTookSlot(f, job, c, base, acc, id);
    g, r := f.(nodes := OneMore(f.nodes, id)), ReservedJob(job, id, f.nodes[id].epoch);
  }

  /** What reserving `jobs` on top of `acc` comes to: `rs` are the new reservations. */
  ghost predicate Reserved(f: FleetState, jobs: seq<JobRequest>, c: RunnerClass, base: Nodes, acc: seq<ReservedJob>,
                           g: FleetState, r: Result<seq<ReservedJob>, FleetError>, rs: seq<ReservedJob>) {
    && InSync(g) && g == f.(nodes := g.nodes) && Loaded(base, g.nodes, acc + rs) && Owners(base, acc + rs)
    && if |jobs| <= FreeSlots(f.nodes, c)
       then r == Ok(acc + rs) && |rs| == |jobs| && (forall i :: 0 <= i < |rs| ==> rs[i].job == jobs[i])
       else r == Err(NoCapacity(RunnerClassText(c))) && |rs| == FreeSlots(f.nodes, c) && FreeSlots(g.nodes, c) == 0
  }

  lemma ConsJobs(jobs: seq<JobRequest>, first: ReservedJob, rest: seq<ReservedJob>)
    requires jobs != [] && first.job == jobs[0]
    ensures (forall i :: 0 <= i < |rest| && i < |jobs[1..]| ==> rest[i].job == jobs[1..][i]) ==>
            (forall i :: 0 <= i < |[first] + rest| && i < |jobs| ==> ([first] + rest)[i].job == jobs[i])
  {
    if forall i :: 0 <= i < |rest| && i < |jobs[1..]| ==> rest[i].job == jobs[1..][i] {
      forall i | 0 <= i < |[first] + rest| && i < |jobs| ensures ([first] + rest)[i].job == jobs[i] {
        if i > 0 { assert rest[i - 1].job == jobs[1..][i - 1]; }
      }
    }
  }

  lemma ReservedCons(f: FleetState, jobs: seq<JobRequest>, c: RunnerClass, base: Nodes, acc: seq<ReservedJob>,
                     g: FleetState, first: ReservedJob, h: FleetState, r: Result<seq<ReservedJob>, FleetError>,
                     rest: seq<ReservedJob>)
    requires jobs != [] && first.job == jobs[0] && g == f.(nodes := g.nodes)
    requires FreeSlots(g.nodes, c) == FreeSlots(f.nodes, c) - 1
    requires Reserved(g, jobs[1..], c, base, acc + [first], h, r, rest)
    ensures Reserved(f, jobs, c, base, acc, h, r, [first] + rest)
  {
    assert acc + ([first] + rest) == acc + [first] + rest;
    ConsJobs(jobs, first, rest);
  }

  lemma ReservedFirst(f: FleetState, jobs: seq<JobRequest>, c: RunnerClass, base: Nodes, acc: seq<ReservedJob>,
                      g: FleetState, first: ReservedJob, rest: seq<ReservedJob>)
    requires jobs != [] && Reserve(f, jobs[0]) == (g, Ok(first)) && TookSlot(f, jobs[0], c, base, acc, g, first)
    requires Reserved(g, jobs[1..], c, base, acc + [first], ReserveAll(g, jobs[1..], acc + [first]).0,
                      ReserveAll(g, jobs[1..], acc + [first]).1, rest)
    ensures Reserved(f, jobs, c, base, acc, ReserveAll(f, jobs, acc).0, ReserveAll(f, jobs, acc).1, [first] + rest)
  {
    var out := ReserveAll(g, jobs[1..], acc + [first]);
    ReservedCons(f, jobs, c, base, acc, g, first, out.0, out.1, rest);
  }

  lemma ReservedNil(f: FleetState, jobs: seq<JobRequest>, c: RunnerClass, base: Nodes, acc: seq<ReservedJob>)
    requires InSync(f) && Accepted(jobs, c) && Loaded(base, f.nodes, acc) && Owners(base, acc)
    requires jobs == [] || FreeSlots(f.nodes, c) == 0
    ensures Reserved(f, jobs, c, base, acc, ReserveAll(f, jobs, acc).0, ReserveAll(f, jobs, acc).1, [])
  {
    assert acc + [] == acc;
    if jobs != [] { ReserveWhenFull(f, jobs[0], c); }
  }

  lemma {:induction false} ReserveAllOutcome(f: FleetState, jobs: seq<JobRequest>, c: RunnerClass, base: Nodes,
                                             acc: seq<ReservedJob>)
    returns (rs: seq<ReservedJob>)
    requires InSync(f) && Accepted(jobs, c) && Loaded(base, f.nodes, acc) && Owners(base, acc)
    ensures Reserved(f, jobs, c, base, acc, ReserveAll(f, jobs, acc).0, ReserveAll(f, jobs, acc).1, rs)
    decreases |jobs|
  {
    if jobs == [] || FreeSlots(f.nodes, c) == 0 {
      rs := [];
      ReservedNil(f, jobs, c, base, acc);
    } else {
      var g, first := ReserveTakesOne(f, jobs[0], c, base, acc);
      var rest := ReserveAllOutcome(g, jobs[1..], c, base, acc + [first]);
      ReservedFirst(f, jobs, c, base, acc, g, first, rest);
      rs := [first] + rest;
    }
  }

  lemma ReleaseUnloads(base: Nodes, nodes: Nodes, rs: seq<ReservedJob>)
    requires Loaded(base, nodes, rs) && rs != [] && rs[0].runnerId in base
    ensures Loaded(base, Released(nodes, rs[0].runnerId), rs[1..])
  {
  }

  lemma MoveFirst<T>(a: seq<T>, b: seq<T>)
    requires b != []
    ensures a + [b[0]] + b[1..] == a + b
  {
  }

  lemma RunFirst(f: FleetState, base: Nodes, rs: seq<ReservedJob>) returns (g: FleetState)
    requires InSync(f) && Loaded(base, f.nodes, rs) && Owners(base, rs) && rs != []
    ensures RunOne(f, rs[0]) == (g, Ok(rs[0])) && InSync(g) && Loaded(base, g.nodes, rs[1..]) && Owners(base, rs[1..])
    ensures g == f.(nodes := g.nodes, dispatched := f.dispatched + [rs[0]])
  {
    var r := rs[0];
    assert IsOwner(base, r.runnerId, r.runnerEpoch);
    assert IsOwner(f.nodes, r.runnerId, r.runnerEpoch);
    RunOutcome(f, r);
    StepKeepsSync(f, OpRun(r));
    g := RunOne(f, r).0;
    ReleaseUnloads(base, f.nodes, rs);
  }

  /** Running the reservations that make up the load puts the base counts back and dispatches them all. */
  lemma {:induction false} RunAllRestores(f: FleetState, base: Nodes, rs: seq<ReservedJob>, acc: seq<ReservedJob>)
    requires InSync(f) && Loaded(base, f.nodes, rs) && Owners(base, rs)
    ensures RunAll(f, rs, acc) == (f.(nodes := base, dispatched := f.dispatched + rs), Ok(acc + rs))
    decreases |rs|
  {
    if rs == [] {
      assert f.nodes == base;
      assert acc + rs == acc && f.dispatched + rs == f.dispatched;
    } else {
      var r := rs[0];
      var g := RunFirst(f, base, rs);
      RunAllRestores(g, base, rs[1..], acc + [r]);
      MoveFirst(acc, rs);
      MoveFirst(f.dispatched, rs);
    }
  }

  // ------------------------------------------------------------------ main results

  /** A batch of accepted jobs of one class succeeds exactly when there are enough free slots. On
      success every job is dispatched, in order, and every count is restored. On failure nothing is
      dispatched, but the reservations already made stay: no slot of the class is left. */
  lemma BatchSucceedsIffSlotsSuffice(f: FleetState, jobs: seq<JobRequest>, c: RunnerClass)
    requires InSync(f) && Accepted(jobs, c)
    ensures var (g, r) := Batch(f, jobs);
      && (r.Ok? <==> |jobs| <= FreeSlots(f.nodes, c))
      && (r.Ok? ==> |r.value| == |jobs| && (forall i :: 0 <= i < |jobs| ==> r.value[i].job == jobs[i])
                    && g == f.(dispatched := f.dispatched + r.value))
      && (r.Err? ==> r.error == NoCapacity(RunnerClassText(c)))
      && (r.Err? ==> g == f.(nodes := g.nodes) && FreeSlots(g.nodes, c) == 0)
      && (r.Err? ==> exists leaked ::
            |leaked| == FreeSlots(f.nodes, c) && Owners(f.nodes, leaked) && Loaded(f.nodes, g.nodes, leaked))
  {
    var rs := ReserveAllOutcome(f, jobs, c, f.nodes, []);
    assert [] + rs == rs;
    if |jobs| <= FreeSlots(f.nodes, c) {
      RunAllRestores(ReserveAll(f, jobs, []).0, f.nodes, rs, []);
    }
  }

  /** The leak of a failed batch is not undone by trying again: the next non-empty batch of the
      class fails too, although all its jobs would have fitted before. */
  lemma FailedBatchBlocksTheClass(f: FleetState, jobs: seq<JobRequest>, c: RunnerClass, next: seq<JobRequest>)
    requires InSync(f) && Accepted(jobs, c) && Accepted(next, c)
    requires |jobs| > FreeSlots(f.nodes, c) && next != []
    ensures Batch(Batch(f, jobs).0, next).1 == Err(NoCapacity(RunnerClassText(c)))
  {
    BatchSucceedsIffSlotsSuffice(f, jobs, c);
    var rs := ReserveAllOutcome(f, jobs, c, f.nodes, []);
    assert InSync(Batch(f, jobs).0);
    BatchSucceedsIffSlotsSuffice(Batch(f, jobs).0, next, c);
  }

  // ---------------------------------------------------- batches and conservation

  ghost function Tickets(rs: seq<ReservedJob>): multiset<Ticket> {
    if rs == [] then multiset{} else multiset{TicketOf(rs[0])} + Tickets(rs[1..])
  }

  /** The reservations made before the first failure, or for all the jobs. */
  function Taken(f: FleetState, jobs: seq<JobRequest>): seq<ReservedJob>
    decreases |jobs|
  {
    if jobs == [] then [] else
      var (g, r) := Reserve(f, jobs[0]);
      if r.Err? then [] else [r.value] + Taken(g, jobs[1..])
  }

  /** What reserving leaves, for jobs of any classes and whatever the outcome: the load is exactly the
      reservations taken, which belong to the first jobs, in order. */
  ghost predicate TookAll(f: FleetState, jobs: seq<JobRequest>, base: Nodes, acc: seq<ReservedJob>,
                          g: FleetState, r: Result<seq<ReservedJob>, FleetError>, rs: seq<ReservedJob>) {
    && InSync(g) && g == f.(nodes := g.nodes) && Loaded(base, g.nodes, acc + rs) && Owners(base, acc + rs)
    && |rs| <= |jobs| && (forall i :: 0 <= i < |rs| ==> rs[i].job == jobs[i])
    && (r.Ok? <==> |rs| == |jobs|) && (r.Ok? ==> r.value == acc + rs)
  }

  lemma ReserveFails(f: FleetState, job: JobRequest)
    requires InSync(f) && Reserve(f, job).1.Err?
    ensures Reserve(f, job).0 == f
  {
    if job.decision.Ok? { ReserveOutcome(f, job); }
  }

  lemma ReserveSucceeds(f: FleetState, job: JobRequest, base: Nodes, acc: seq<ReservedJob>)
    requires InSync(f) && Reserve(f, job).1.Ok? && Loaded(base, f.nodes, acc) && Owners(base, acc)
    ensures TookSlot(f, job, job.decision.value, base, acc, Reserve(f, job).0, Reserve(f, job).1.value)
  {
    ChosenMeansFree(f.nodes, job, job.decision.value);
    var g, r := ReserveTakesOne(f, job, job.decision.value, base, acc);
  }

  lemma TookAllCons(f: FleetState, jobs: seq<JobRequest>, base: Nodes, acc: seq<ReservedJob>, g: FleetState,
                    first: ReservedJob, h: FleetState, r: Result<seq<ReservedJob>, FleetError>, rest: seq<ReservedJob>)
    requires jobs != [] && first.job == jobs[0] && g == f.(nodes := g.nodes)
    requires TookAll(g, jobs[1..], base, acc + [first], h, r, rest)
    ensures TookAll(f, jobs, base, acc, h, r, [first] + rest)
  {
    assert acc + ([first] + rest) == acc + [first] + rest;
  }

  lemma {:induction false} ReserveAllTakes(f: FleetState, jobs: seq<JobRequest>, base: Nodes, acc: seq<ReservedJob>)
    requires InSync(f) && Loaded(base, f.nodes, acc) && Owners(base, acc)
    ensures TookAll(f, jobs, base, acc, ReserveAll(f, jobs, acc).0, ReserveAll(f, jobs, acc).1, Taken(f, jobs))
    decreases |jobs|
  {
    if jobs == [] {
      assert acc + [] == acc;
    } else {
      var (g, r) := Reserve(f, jobs[0]);
      if r.Err? {
        ReserveFails(f, jobs[0]);
        assert acc + [] == acc;
      } else {
        ReserveSucceeds(f, jobs[0], base, acc);
        ReserveAllTakes(g, jobs[1..], base, acc + [r.value]);
        var out := ReserveAll(g, jobs[1..], acc + [r.value]);
        TookAllCons(f, jobs, base, acc, g, r.value, out.0, out.1, Taken(g, jobs[1..]));
      }
    }
  }

  /** A batch of any jobs either dispatches them all and restores every count, or dispatches none and
      keeps exactly the reservations of the jobs before the one that failed. */
  lemma BatchIsAllOrNothing(f: FleetState, jobs: seq<JobRequest>)
    requires InSync(f)
    ensures var (g, r) := Batch(f, jobs);
      && (r.Ok? <==> |Taken(f, jobs)| == |jobs|)
      && (r.Ok? ==> r.value == Taken(f, jobs) && g == f.(dispatched := f.dispatched + r.value))
      && (r.Err? ==> g == f.(nodes := g.nodes) && Owners(f.nodes, Taken(f, jobs)))
      && (r.Err? ==> Loaded(f.nodes, g.nodes, Taken(f, jobs)))
  {
    ReserveAllTakes(f, jobs, f.nodes, []);
    assert [] + Taken(f, jobs) == Taken(f, jobs);
    var (g, r) := ReserveAll(f, jobs, []);
    if r.Ok? { RunAllRestores(g, f.nodes, r.value, []); }
  }

  /** The reserving half of a batch is a disciplined run, after which its reservations are outstanding. */
  lemma {:induction false} ReservingIsDisciplined(l: Ledger, jobs: seq<JobRequest>, acc: seq<ReservedJob>)
    returns (ops: seq<FleetOp>)
    ensures DisciplinedRun(l, ops) && LedgerRun(l, ops).fleet == ReserveAll(l.fleet, jobs, acc).0
    ensures LedgerRun(l, ops).outstanding == l.outstanding + Tickets(Taken(l.fleet, jobs))
    decreases |jobs|
  {
    if jobs == [] {
      ops := [];
    } else {
      var op := OpReserve(jobs[0]);
      var (g, r) := Reserve(l.fleet, jobs[0]);
      var rest := [];
      if r.Ok? {
        rest := ReservingIsDisciplined(LedgerStep(l, op), jobs[1..], acc + [r.value]);
        assert ([r.value] + Taken(g, jobs[1..]))[1..] == Taken(g, jobs[1..]);
      }
      ops := [op] + rest;
      assert ops[1..] == rest;
    }
  }

  lemma TakeOneOff<T>(all: multiset<T>, t: T, rest: multiset<T>)
    requires multiset{t} + rest <= all
    ensures t in all && rest <= all - multiset{t}
    ensures all - multiset{t} - rest == all - (multiset{t} + rest)
  {
  }

  lemma ConsRun(l: Ledger, op: FleetOp, rest: seq<FleetOp>)
    requires Disciplined(l, op) && DisciplinedRun(LedgerStep(l, op), rest)
    ensures DisciplinedRun(l, [op] + rest) && LedgerRun(l, [op] + rest) == LedgerRun(LedgerStep(l, op), rest)
  {
    assert ([op] + rest)[1..] == rest;
  }

  /** So is the running half, for reservations that are outstanding; it uses them up. */
  lemma {:induction false} RunningIsDisciplined(l: Ledger, rs: seq<ReservedJob>, acc: seq<ReservedJob>)
    returns (ops: seq<FleetOp>)
    requires Tickets(rs) <= l.outstanding
    ensures DisciplinedRun(l, ops) && LedgerRun(l, ops).fleet == RunAll(l.fleet, rs, acc).0
    ensures RunAll(l.fleet, rs, acc).1.Ok? ==> LedgerRun(l, ops).outstanding == l.outstanding - Tickets(rs)
    decreases |rs|
  {
    if rs == [] {
      ops := [];
    } else {
      TakeOneOff(l.outstanding, TicketOf(rs[0]), Tickets(rs[1..]));
      var op := OpRun(rs[0]);
      var r := RunOne(l.fleet, rs[0]).1;
      var rest := [];
      if r.Ok? {
        rest := RunningIsDisciplined(LedgerStep(l, op), rs[1..], acc + [r.value]);
      }
      ConsRun(l, op, rest);
      ops := [op] + rest;
    }
  }

  lemma {:induction false} DisciplinedAppend(l: Ledger, a: seq<FleetOp>, b: seq<FleetOp>)
    requires DisciplinedRun(l, a) && DisciplinedRun(LedgerRun(l, a), b)
    ensures DisciplinedRun(l, a + b) && LedgerRun(l, a + b) == LedgerRun(LedgerRun(l, a), b)
    decreases |a|
  {
    if a == [] {
      assert a + b == b;
    } else {
      assert (a + b)[1..] == a[1..] + b && (a + b)[0] == a[0];
      DisciplinedAppend(LedgerStep(l, a[0]), a[1..], b);
    }
  }

  /** Any batch, of any classes and whatever its outcome, is a disciplined run: slot conservation
      covers it. A batch that succeeds leaves the outstanding reservations as they were, one that fails
      adds exactly those it had taken. */
  lemma BatchIsDisciplined(l: Ledger, jobs: seq<JobRequest>) returns (ops: seq<FleetOp>)
    requires Balanced(l)
    ensures DisciplinedRun(l, ops) && LedgerRun(l, ops).fleet == Batch(l.fleet, jobs).0 && Balanced(LedgerRun(l, ops))
    ensures LedgerRun(l, ops).outstanding ==
            l.outstanding + if Batch(l.fleet, jobs).1.Ok? then multiset{} else Tickets(Taken(l.fleet, jobs))
  {
    ops := ReservingIsDisciplined(l, jobs, []);
    BatchIsAllOrNothing(l.fleet, jobs);
    ReserveAllTakes(l.fleet, jobs, l.fleet.nodes, []);
    assert [] + Taken(l.fleet, jobs) == Taken(l.fleet, jobs);
    var r := ReserveAll(l.fleet, jobs, []).1;
    if r.Ok? {
      var more := RunningIsDisciplined(LedgerRun(l, ops), r.value, []);
      DisciplinedAppend(l, ops, more);
      ops := ops + more;
    }
    SlotsAreConserved(l, ops);
  }
}
