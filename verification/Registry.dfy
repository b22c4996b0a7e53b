/** Multi-node runner registry with epoch fencing
    (`jeryu-runner-registry/src/lib.rs`, `node_registry.rs`). */
module Registry {
  import opened Order
  import opened Text
  import opened PipelineIr
  import opened Numbers

  datatype NodeState = Registering | Active | Draining | Dead

  datatype NodeRecord = NodeRecord(nodeId: string, state: NodeState, epoch: u64, capacity: u32, inFlight: u32,
                                   supportedClasses: seq<RunnerClass>, tags: seq<string>, lastHeartbeat: u64)

  type Nodes = map<string, NodeRecord>

  datatype RunnerHello = RunnerHello(runnerId: string, capacity: u32, supportedClasses: seq<RunnerClass>,
                                     labels: seq<string>)
  datatype RegistrationAck = RegistrationAck(nodeId: string, epoch: u64, leaseTtl: u64)
  datatype HeartbeatAck = HeartbeatAck(stillOwner: bool, drain: bool)
  datatype ReapedNode = ReapedNode(nodeId: string, fencedEpoch: u64, orphanedInFlight: u32)
  datatype AssignSpec = AssignSpec(leaseId: string, runnerClass: RunnerClass, requiredTags: seq<string>)
  datatype Assignment = Assignment(nodeId: string, epoch: u64)

  predicate IsAssignable(n: NodeRecord) { n.state == Active && n.inFlight < n.capacity }

  predicate SupportsClass(n: NodeRecord, c: RunnerClass) { c in n.supportedClasses }

  predicate MatchesTags(n: NodeRecord, required: seq<string>) {
    forall i :: 0 <= i < |required| ==> required[i] in n.tags
  }

  predicate Eligible(n: NodeRecord, spec: AssignSpec) {
    IsAssignable(n) && SupportsClass(n, spec.runnerClass) && MatchesTags(n, spec.requiredTags)
  }

  // ------------------------------------------------------------------- steps

  function NextEpoch(nodes: Nodes, id: string): u64 {
    if id in nodes then SatAdd64(nodes[id].epoch, 1) else 1
  }

  function Registered(nodes: Nodes, h: RunnerHello, now: u64): Nodes {
    nodes[h.runnerId := NodeRecord(h.runnerId, Active, NextEpoch(nodes, h.runnerId), h.capacity, 0,
                                   h.supportedClasses, h.labels, now)]
  }

  /** A (node, epoch) pair that currently owns the node's work. */
  predicate IsOwner(nodes: Nodes, id: string, epoch: u64) {
    id in nodes && nodes[id].state != Dead && nodes[id].epoch == epoch
  }

  function Beaten(nodes: Nodes, id: string, epoch: u64, now: u64): Nodes {
    if IsOwner(nodes, id, epoch) then nodes[id := nodes[id].(lastHeartbeat := now)] else nodes
  }

  predicate Expired(n: NodeRecord, ttl: u64, now: u64) {
    n.state != Dead && now > SatAdd64(n.lastHeartbeat, ttl)
  }

  function ReapNode(n: NodeRecord, ttl: u64, now: u64): NodeRecord {
    if Expired(n, ttl, now) then n.(state := Dead, epoch := SatAdd64(n.epoch, 1)) else n
  }

  function Reaped(nodes: Nodes, ttl: u64, now: u64): Nodes {
    map id | id in nodes :: ReapNode(nodes[id], ttl, now)
  }

  function Drained(nodes: Nodes, id: string): Nodes {
    if id in nodes && nodes[id].state == Active then nodes[id := nodes[id].(state := Draining)] else nodes
  }

  function Candidates(nodes: Nodes, spec: AssignSpec): set<string> {
    set id | id in nodes && Eligible(nodes[id], spec)
  }

  /** The node an assignment goes to: the first eligible one in id order. */
  function Chosen(nodes: Nodes, spec: AssignSpec): Option<string> {
    if Candidates(nodes, spec) == {} then None else Some(Least(Candidates(nodes, spec)))
  }

  function Assigned(nodes: Nodes, spec: AssignSpec): Nodes {
    match Chosen(nodes, spec)
    case None => nodes
    case Some(id) => nodes[id := nodes[id].(inFlight := SatAdd32(nodes[id].inFlight, 1))]
  }

  function Released(nodes: Nodes, id: string): Nodes {
    if id in nodes
    then nodes[id := nodes[id].(inFlight := if nodes[id].inFlight == 0 then 0 else nodes[id].inFlight - 1)]
    else nodes
  }

  /** Every record carries its own key. */
  ghost predicate Keyed(nodes: Nodes) { forall id :: id in nodes ==> nodes[id].nodeId == id }

  function ReapList(keys: seq<string>, nodes: Nodes, ttl: u64, now: u64): seq<ReapedNode>
    requires forall i :: 0 <= i < |keys| ==> keys[i] in nodes
  {
    if keys == [] then [] else
      var k := |keys| - 1;
      var n := nodes[keys[k]];
      ReapList(keys[..k], nodes, ttl, now) + ReapedRecord(n, ttl, now)
  }

  function ReapedRecord(n: NodeRecord, ttl: u64, now: u64): seq<ReapedNode> {
    if Expired(n, ttl, now) then [ReapedNode(n.nodeId, SatAdd64(n.epoch, 1), n.inFlight)] else []
  }

  /** The registry after the sweep has visited `keys`, one record at a time. */
  function Sweep(nodes: Nodes, keys: seq<string>, ttl: u64, now: u64): (r: Nodes)
    requires forall i :: 0 <= i < |keys| ==> keys[i] in nodes
    ensures r.Keys == nodes.Keys
  {
    if keys == [] then nodes else
      var k := |keys| - 1;
      var before := Sweep(nodes, keys[..k], ttl, now);
      before[keys[k] := ReapNode(before[keys[k]], ttl, now)]
  }

  lemma {:induction false} SweepAt(nodes: Nodes, keys: seq<string>, ttl: u64, now: u64, id: string)
    requires Ascending(keys) && (forall i :: 0 <= i < |keys| ==> keys[i] in nodes) && id in nodes
    ensures Sweep(nodes, keys, ttl, now)[id] == if id in keys then ReapNode(nodes[id], ttl, now) else nodes[id]
    decreases |keys|
  {
    if keys != [] {
      var k := |keys| - 1;
      AscendingPrefix(keys, k);
      SweepAt(nodes, keys[..k], ttl, now, id);
      NotEarlier(keys, k);
      assert keys == keys[..k] + [keys[k]];
    }
  }

  lemma SweepVisitsOnce(nodes: Nodes, keys: seq<string>, i: nat, ttl: u64, now: u64)
    requires Ascending(keys) && (forall k :: 0 <= k < |keys| ==> keys[k] in nodes) && i < |keys|
    ensures Sweep(nodes, keys[..i], ttl, now)[keys[i]] == nodes[keys[i]]
  {
    AscendingPrefix(keys, i);
    NotEarlier(keys, i);
    SweepAt(nodes, keys[..i], ttl, now, keys[i]);
  }

  lemma SweepGrows(nodes: Nodes, keys: seq<string>, i: nat, ttl: u64, now: u64)
    requires Ascending(keys) && (forall k :: 0 <= k < |keys| ==> keys[k] in nodes) && i < |keys|
    ensures Sweep(nodes, keys[..i + 1], ttl, now)
         == Sweep(nodes, keys[..i], ttl, now)[keys[i] := ReapNode(nodes[keys[i]], ttl, now)]
    ensures ReapList(keys[..i + 1], nodes, ttl, now)
         == ReapList(keys[..i], nodes, ttl, now) + ReapedRecord(nodes[keys[i]], ttl, now)
  {
    assert keys[..i + 1][..i] == keys[..i] && keys[..i + 1][i] == keys[i];
    SweepVisitsOnce(nodes, keys, i, ttl, now);
  }

  lemma SweepReaps(nodes: Nodes, ttl: u64, now: u64, id: string)
    requires id in nodes
    ensures Sweep(nodes, Iter(nodes.Keys), ttl, now)[id] == ReapNode(nodes[id], ttl, now)
  {
    SweepAt(nodes, Iter(nodes.Keys), ttl, now, id);
  }

  lemma SweepIsReaped(nodes: Nodes, ttl: u64, now: u64)
    ensures Sweep(nodes, Iter(nodes.Keys), ttl, now) == Reaped(nodes, ttl, now)
  {
    var swept, reaped := Sweep(nodes, Iter(nodes.Keys), ttl, now), Reaped(nodes, ttl, now);
    assert swept.Keys == nodes.Keys == reaped.Keys;
    forall id | id in nodes ensures swept[id] == reaped[id] { SweepReaps(nodes, ttl, now, id); }
  }

  /** The body of the sweep: a node past its deadline is fenced and reported. */
  method ReapOne(n: NodeRecord, ttl: u64, now: u64) returns (node: NodeRecord, report: seq<ReapedNode>)
    ensures node == ReapNode(n, ttl, now) && report == ReapedRecord(n, ttl, now)
  {
    node, report := n, [];
    if node.state == Dead { return; }
    var deadline := SatAdd64(node.lastHeartbeat, ttl);
    if now > deadline {
      node := node.(state := Dead, epoch := SatAdd64(node.epoch, 1));
      report := [ReapedNode(node.nodeId, node.epoch, node.inFlight)];
    }
  }

  class NodeRegistry {
    var nodes: Nodes
    const heartbeatTtl: u64

    ghost predicate Valid()
      reads this
    {
      Keyed(nodes)
    }

    constructor (ttl: u64)
      ensures Valid() && nodes == map[] && heartbeatTtl == ttl
    {
      nodes := map[];
      heartbeatTtl := ttl;
    }

    method Register(h: RunnerHello, now: u64) returns (ack: RegistrationAck)
      requires Valid()
      modifies this
      ensures Valid() && nodes == Registered(old(nodes), h, now)
      ensures ack == RegistrationAck(h.runnerId, nodes[h.runnerId].epoch, heartbeatTtl)
    {
      var next := if h.runnerId in nodes then SatAdd64(nodes[h.runnerId].epoch, 1) else 1;
      var record := NodeRecord(h.runnerId, Active, next, h.capacity, 0, h.supportedClasses, h.labels, now);
      nodes := nodes[h.runnerId := record];
      ack := RegistrationAck(h.runnerId, next, heartbeatTtl);
    }

    method Heartbeat(id: string, epoch: u64, now: u64) returns (ack: HeartbeatAck)
      requires Valid()
      modifies this
      ensures Valid() && nodes == Beaten(old(nodes), id, epoch, now)
      ensures ack.stillOwner <==> IsOwner(old(nodes), id, epoch)
      ensures ack.drain <==> id in nodes && nodes[id].state == Draining
    {
      if id !in nodes { return HeartbeatAck(false, false); }
      var node := nodes[id];
      if node.state == Dead || epoch != node.epoch {
        return HeartbeatAck(false, node.state == Draining);
      }
      nodes := nodes[id := node.(lastHeartbeat := now)];
      return HeartbeatAck(true, node.state == Draining);
    }

    method IsCurrentOwner(id: string, epoch: u64) returns (owner: bool)
      ensures owner <==> IsOwner(nodes, id, epoch)
    {
      owner := id in nodes && nodes[id].state != Dead && nodes[id].epoch == epoch;
    }

    method Reap(now: u64) returns (reaped: seq<ReapedNode>)
      requires Valid()
      modifies this
      ensures Valid() && nodes == Reaped(old(nodes), heartbeatTtl, now)
      ensures reaped == ReapList(Iter(old(nodes).Keys), old(nodes), heartbeatTtl, now)
    {
      reaped := [];
      var keys := Iter(nodes.Keys);
      for i := 0 to |keys|
        invariant nodes == Sweep(old(nodes), keys[..i], heartbeatTtl, now)
        invariant reaped == ReapList(keys[..i], old(nodes), heartbeatTtl, now)
      {
        SweepVisitsOnce(old(nodes), keys, i, heartbeatTtl, now);
        SweepGrows(old(nodes), keys, i, heartbeatTtl, now);
        var node, report := ReapOne(nodes[keys[i]], heartbeatTtl, now);
        nodes := nodes[keys[i] := node];
        reaped := reaped + report;
      }
      assert keys[..|keys|] == keys;
      SweepIsReaped(old(nodes), heartbeatTtl, now);
    }

    method Drain(id: string) returns (drained: bool)
      requires Valid()
      modifies this
      ensures Valid() && nodes == Drained(old(nodes), id)
      ensures drained <==> id in old(nodes) && old(nodes)[id].state == Active
    {
      if id in nodes && nodes[id].state == Active {
        nodes := nodes[id := nodes[id].(state := Draining)];
        return true;
      }
      return false;
    }

    method Assign(spec: AssignSpec) returns (a: Option<Assignment>)
      requires Valid()
      modifies this
      ensures Valid() && nodes == Assigned(old(nodes), spec)
      ensures a.None? <==> Chosen(old(nodes), spec).None?
      ensures a.Some? ==>
        Chosen(old(nodes), spec) == Some(a.value.nodeId) && a.value.epoch == old(nodes)[a.value.nodeId].epoch
    {
      var keys := Iter(nodes.Keys);
      for i := 0 to |keys|
        invariant nodes == old(nodes)
        invariant forall k :: 0 <= k < i ==> !Eligible(nodes[keys[k]], spec)
      {
        var node := nodes[keys[i]];
        if Eligible(node, spec) {
          FirstEligibleIsChosen(nodes, spec, keys, i);
          nodes := nodes[keys[i] := node.(inFlight := SatAdd32(node.inFlight, 1))];
          return Some(Assignment(node.nodeId, node.epoch));
        }
      }
      NoneEligible(nodes, spec, keys);
      return None;
    }

    method Release(id: string)
      requires Valid()
      modifies this
      ensures Valid() && nodes == Released(old(nodes), id)
    {
      if id in nodes {
        var node := nodes[id];
        nodes := nodes[id := node.(inFlight := if node.inFlight == 0 then 0 else node.inFlight - 1)];
      }
    }
  }

  lemma NoneEligible(nodes: Nodes, spec: AssignSpec, keys: seq<string>)
    requires keys == Iter(nodes.Keys) && forall k :: 0 <= k < |keys| ==> !Eligible(nodes[keys[k]], spec)
    ensures Chosen(nodes, spec) == None
  {
    forall id | id in nodes ensures !Eligible(nodes[id], spec) {
      var k :| 0 <= k < |keys| && keys[k] == id;
    }
    assert Candidates(nodes, spec) == {};
  }

  lemma FirstEligibleIsChosen(nodes: Nodes, spec: AssignSpec, keys: seq<string>, i: nat)
    requires keys == Iter(nodes.Keys) && i < |keys|
    requires Eligible(nodes[keys[i]], spec) && forall k :: 0 <= k < i ==> !Eligible(nodes[keys[k]], spec)
    ensures Chosen(nodes, spec) == Some(keys[i])
  {
    var c := Candidates(nodes, spec);
    assert keys[i] in c;
    var m := Least(c);
    var k :| 0 <= k < |keys| && keys[k] == m;
    assert k >= i;
    if k > i {
      assert StrLt(keys[i], keys[k]);
      StrLeAntisymmetric(keys[i], m);
    }
  }

  // -------------------------------------------------------------------- runs

  datatype Op =
    | Register(hello: RunnerHello, now: u64)
    | Heartbeat(id: string, epoch: u64, now: u64)
    | Reap(now: u64)
    | Drain(id: string)
    | Assign(spec: AssignSpec)
    | Release(id: string)

  function Step(nodes: Nodes, ttl: u64, op: Op): Nodes {
    match op
    case Register(hello, now) => Registered(nodes, hello, now)
    case Heartbeat(id, epoch, now) => Beaten(nodes, id, epoch, now)
    case Reap(now) => Reaped(nodes, ttl, now)
    case Drain(id) => Drained(nodes, id)
    case Assign(spec) => Assigned(nodes, spec)
    case Release(id) => Released(nodes, id)
  }

  /** The registry after a sequence of operations. */
  function Run(nodes: Nodes, ttl: u64, ops: seq<Op>): Nodes {
    if ops == [] then nodes else Step(Run(nodes, ttl, ops[..|ops| - 1]), ttl, ops[|ops| - 1])
  }

  lemma {:induction false} RunAppend(nodes: Nodes, ttl: u64, a: seq<Op>, b: seq<Op>)
    ensures Run(nodes, ttl, a + b) == Run(Run(nodes, ttl, a), ttl, b)
    decreases |b|
  {
    if b == [] {
      assert a + b == a;
    } else {
      assert (a + b)[..|a + b| - 1] == a + b[..|b| - 1];
      RunAppend(nodes, ttl, a, b[..|b| - 1]);
    }
  }

  /** The node has moved past an epoch, so the epoch can never be its current one again. */
  predicate Past(nodes: Nodes, id: string, epoch: u64) { id in nodes && nodes[id].epoch > epoch }

  lemma StepKeepsOrPasses(nodes: Nodes, ttl: u64, op: Op, id: string, epoch: u64)
    ensures Past(nodes, id, epoch) ==> Past(Step(nodes, ttl, op), id, epoch)
    ensures IsOwner(nodes, id, epoch) && epoch < U64_MAX ==>
      IsOwner(Step(nodes, ttl, op), id, epoch) || Past(Step(nodes, ttl, op), id, epoch)
    ensures id in nodes ==> id in Step(nodes, ttl, op) && Step(nodes, ttl, op)[id].epoch >= nodes[id].epoch
  {
  }

  lemma {:induction false} PastIsStable(nodes: Nodes, ttl: u64, ops: seq<Op>, id: string, epoch: u64)
    requires Past(nodes, id, epoch)
    ensures Past(Run(nodes, ttl, ops), id, epoch)
    decreases |ops|
  {
    if ops != [] {
      PastIsStable(nodes, ttl, ops[..|ops| - 1], id, epoch);
      StepKeepsOrPasses(Run(nodes, ttl, ops[..|ops| - 1]), ttl, ops[|ops| - 1], id, epoch);
    }
  }

  lemma {:induction false} OwnerUntilPast(nodes: Nodes, ttl: u64, ops: seq<Op>, id: string, epoch: u64)
    requires IsOwner(nodes, id, epoch) && epoch < U64_MAX
    ensures IsOwner(Run(nodes, ttl, ops), id, epoch) || Past(Run(nodes, ttl, ops), id, epoch)
    decreases |ops|
  {
    if ops != [] {
      OwnerUntilPast(nodes, ttl, ops[..|ops| - 1], id, epoch);
      StepKeepsOrPasses(Run(nodes, ttl, ops[..|ops| - 1]), ttl, ops[|ops| - 1], id, epoch);
    }
  }

  /** A run in which an owner is fenced after `i` operations and owns again after `j`. */
  ghost predicate Relapses(nodes: Nodes, ttl: u64, ops: seq<Op>, id: string, epoch: u64, i: nat, j: nat) {
    && i <= j <= |ops| && IsOwner(nodes, id, epoch)
    && !IsOwner(Run(nodes, ttl, ops[..i]), id, epoch) && IsOwner(Run(nodes, ttl, ops[..j]), id, epoch)
  }

  /** Below saturation a fenced owner stays fenced, in every run from every state. */
  lemma FencedForever(nodes: Nodes, ttl: u64, ops: seq<Op>, id: string, epoch: u64, i: nat, j: nat)
    requires epoch < U64_MAX
    ensures !Relapses(nodes, ttl, ops, id, epoch, i, j)
  {
    if Relapses(nodes, ttl, ops, id, epoch, i, j) {
      OwnerUntilPast(nodes, ttl, ops[..i], id, epoch);
      assert ops[..j] == ops[..i] + ops[i..j];
      RunAppend(nodes, ttl, ops[..i], ops[i..j]);
      PastIsStable(Run(nodes, ttl, ops[..i]), ttl, ops[i..j], id, epoch);
    }
  }

  /** `n` registrations of one node, one after the other. */
  function Registrations(hello: RunnerHello, n: nat): (ops: seq<Op>)
    ensures |ops| == n
  {
    if n == 0 then [] else Registrations(hello, n - 1) + [Register(hello, 0)]
  }

  /** The registry that holds one freshly registered node, at epoch `n`. */
  function Alone(hello: RunnerHello, n: u64): Nodes {
    map[hello.runnerId :=
          NodeRecord(hello.runnerId, Active, n, hello.capacity, 0, hello.supportedClasses, hello.labels, 0)]
  }

  lemma RegisteredAlone(hello: RunnerHello, n: u64)
    requires n < U64_MAX
    ensures Registered(map[], hello, 0) == Alone(hello, 1)
    ensures Registered(Alone(hello, n), hello, 0) == Alone(hello, n + 1)
  {
  }

  lemma RunLast(nodes: Nodes, ttl: u64, ops: seq<Op>, op: Op)
    ensures Run(nodes, ttl, ops + [op]) == Step(Run(nodes, ttl, ops), ttl, op)
  {
    assert (ops + [op])[..|ops|] == ops;
  }

  /** From the empty registry, `n` registrations reach epoch `n`. */
  lemma {:induction false} RegistrationsCountEpochs(hello: RunnerHello, ttl: u64, n: nat)
    requires 1 <= n <= U64_MAX
    ensures Run(map[], ttl, Registrations(hello, n)) == Alone(hello, n)
  {
    RunLast(map[], ttl, Registrations(hello, n - 1), Register(hello, 0));
    RegisteredAlone(hello, n - 1);
    if n > 1 { RegistrationsCountEpochs(hello, ttl, n - 1); }
  }

  /** A reap and a registration, seen from a single saturated node. */
  lemma ReapAndReturn(id: string, node: NodeRecord, hello: RunnerHello)
    requires node.nodeId == id == hello.runnerId && node.state == Active && node.epoch == U64_MAX
    requires node.lastHeartbeat == 0
    ensures Relapses(map[id := node], 0, [Reap(1), Register(hello, 1)], id, U64_MAX, 1, 2)
  {
    var nodes: Nodes := map[id := node];
    var ops := [Reap(1), Register(hello, 1)];
    assert ops[..0] == [] && ops[..1][..0] == [] && ops[..2][..1] == ops[..1];
    var dead := Run(nodes, 0, ops[..1]);
    assert dead == Step(Run(nodes, 0, []), 0, Reap(1)) by { assert ops[..1][0] == Reap(1); }
    assert dead[id] == node.(state := Dead);
    assert Run(nodes, 0, ops[..2]) == Registered(dead, ops[1].hello, 1);
  }

  /** A run from the empty registry: a history, after which an owner is fenced and owns again. */
  ghost predicate ReachableRelapse(ttl: u64, history: seq<Op>, ops: seq<Op>, id: string, epoch: u64, i: nat, j: nat) {
    Relapses(Run(map[], ttl, history), ttl, ops, id, epoch, i, j)
  }

  /** Registrations alone reach the saturated epoch, and there reaping and registering again hands the
      old token back. */
  lemma SaturatedTokenComesBack(id: string)
    ensures exists ttl, history, ops, i, j :: ReachableRelapse(ttl, history, ops, id, U64_MAX, i, j)
  {
    var hello := RunnerHello(id, 1, [], []);
    RegistrationsCountEpochs(hello, 0, U64_MAX);
    ReapAndReturn(id, Alone(hello, U64_MAX)[id], hello);
    assert ReachableRelapse(0, Registrations(hello, U64_MAX), [Reap(1), Register(hello, 1)], id, U64_MAX, 1, 2);
  }

  /** Over the runs that start from an empty registry, fencing holds exactly for the epochs below saturation. */
  lemma FencingHoldsExactlyBelowSaturation(id: string, epoch: u64)
    ensures epoch < U64_MAX <==> forall ttl, history, ops, i, j :: !ReachableRelapse(ttl, history, ops, id, epoch, i, j)
  {
    if epoch < U64_MAX {
      forall ttl, history, ops, i, j ensures !ReachableRelapse(ttl, history, ops, id, epoch, i, j) {
        FencedForever(Run(map[], ttl, history), ttl, ops, id, epoch, i, j);
      }
    } else {
      SaturatedTokenComesBack(id);
    }
  }

  /** A fresh registration outranks every epoch the node ever held before, below saturation. */
  lemma RegistrationOutranksHistory(nodes: Nodes, ttl: u64, ops: seq<Op>, id: string, hello: RunnerHello, now: u64)
    requires id in nodes && hello.runnerId == id
    requires id in Run(nodes, ttl, ops) && Run(nodes, ttl, ops)[id].epoch < U64_MAX
    ensures Registered(Run(nodes, ttl, ops), hello, now)[id].epoch > nodes[id].epoch
  {
    EpochsNeverDecrease(nodes, ttl, ops, id);
  }

  lemma {:induction false} EpochsNeverDecrease(nodes: Nodes, ttl: u64, ops: seq<Op>, id: string)
    requires id in nodes
    ensures id in Run(nodes, ttl, ops) && Run(nodes, ttl, ops)[id].epoch >= nodes[id].epoch
    decreases |ops|
  {
    if ops != [] {
      EpochsNeverDecrease(nodes, ttl, ops[..|ops| - 1], id);
      StepKeepsOrPasses(Run(nodes, ttl, ops[..|ops| - 1]), ttl, ops[|ops| - 1], id, nodes[id].epoch);
    }
  }

  predicate Reregisters(op: Op, id: string) { op.Register? && op.hello.runnerId == id }

  predicate TakesWork(nodes: Nodes, id: string) { id in nodes && nodes[id].state == Active }

  lemma {:induction false} StaysIdle(nodes: Nodes, ttl: u64, ops: seq<Op>, id: string)
    requires !TakesWork(nodes, id)
    requires forall k :: 0 <= k < |ops| ==> !Reregisters(ops[k], id)
    ensures !TakesWork(Run(nodes, ttl, ops), id)
    decreases |ops|
  {
    if ops != [] {
      StaysIdle(nodes, ttl, ops[..|ops| - 1], id);
      assert !Reregisters(ops[|ops| - 1], id);
    }
  }

  /** A drained or reaped (or unknown) node gets no assignment until it registers again. */
  lemma NoAssignmentWithoutRegistration(nodes: Nodes, ttl: u64, ops: seq<Op>, id: string, k: nat, spec: AssignSpec)
    requires !TakesWork(nodes, id)
    requires forall i :: 0 <= i < |ops| ==> !Reregisters(ops[i], id)
    requires k < |ops| && ops[k] == Assign(spec)
    ensures Chosen(Run(nodes, ttl, ops[..k]), spec) != Some(id)
  {
    StaysIdle(nodes, ttl, ops[..k], id);
  }

  /** Draining and expiring are the two ways an active node stops taking work. */
  lemma DrainAndReapStopWork(nodes: Nodes, ttl: u64, now: u64, id: string)
    ensures !TakesWork(Drained(nodes, id), id)
    ensures TakesWork(Reaped(nodes, ttl, now), id) <==> TakesWork(nodes, id) && !Expired(nodes[id], ttl, now)
  {
  }

  // ------------------------------------------------------------ liveness over runs

  /** A sign of life of an incarnation: its registration, or a heartbeat with its epoch. */
  predicate Signs(op: Op, id: string, epoch: u64) {
    (op.Heartbeat? && op.id == id && op.epoch == epoch) || Reregisters(op, id)
  }

  /** The time of the last heartbeat of the incarnation in `ops`, or `t` when there is none. */
  function LastSign(ops: seq<Op>, id: string, epoch: u64, t: u64): u64 {
    if ops == [] then t else
      var last := ops[|ops| - 1];
      if last.Heartbeat? && last.id == id && last.epoch == epoch then last.now
      else LastSign(ops[..|ops| - 1], id, epoch, t)
  }

  /** No sweep comes later than the allowed time after the last sign of life before it. */
  ghost predicate Timely(ops: seq<Op>, id: string, epoch: u64, t: u64, ttl: u64) {
    forall j :: 0 <= j < |ops| && ops[j].Reap? ==> ops[j].now <= SatAdd64(LastSign(ops[..j], id, epoch, t), ttl)
  }

  /** Alive with its last sign of life at `t`, or dead. */
  ghost predicate AliveSince(nodes: Nodes, id: string, epoch: u64, t: u64) {
    IsOwner(nodes, id, epoch) && nodes[id].lastHeartbeat == t
  }

  ghost predicate IsDead(nodes: Nodes, id: string) { id in nodes && nodes[id].state == Dead }

  lemma StepAlive(nodes: Nodes, ttl: u64, op: Op, id: string, epoch: u64, t: u64)
    requires AliveSince(nodes, id, epoch, t) && !Reregisters(op, id)
    ensures var n := Step(nodes, ttl, op);
      if op.Reap? && op.now > SatAdd64(t, ttl) then IsDead(n, id)
      else AliveSince(n, id, epoch, if op.Heartbeat? && op.id == id && op.epoch == epoch then op.now else t)
  {
  }

  lemma StepDead(nodes: Nodes, ttl: u64, op: Op, id: string)
    requires IsDead(nodes, id) && !Reregisters(op, id)
    ensures IsDead(Step(nodes, ttl, op), id)
  {
  }

  lemma TimelyLast(ops: seq<Op>, op: Op, id: string, epoch: u64, t: u64, ttl: u64)
    ensures Timely(ops + [op], id, epoch, t, ttl) <==>
            Timely(ops, id, epoch, t, ttl) && (op.Reap? ==> op.now <= SatAdd64(LastSign(ops, id, epoch, t), ttl))
  {
    var all := ops + [op];
    assert all[..|ops|] == ops;
    forall j | 0 <= j < |ops| ensures all[..j] == ops[..j] && all[j] == ops[j] {}
    if Timely(all, id, epoch, t, ttl) {
      assert all[|ops|] == op;
    }
  }

  lemma {:induction false} RunAliveOrDead(nodes: Nodes, ttl: u64, ops: seq<Op>, id: string, epoch: u64, t: u64)
    requires AliveSince(nodes, id, epoch, t) && forall k :: 0 <= k < |ops| ==> !Reregisters(ops[k], id)
    ensures if Timely(ops, id, epoch, t, ttl)
            then AliveSince(Run(nodes, ttl, ops), id, epoch, LastSign(ops, id, epoch, t))
            else IsDead(Run(nodes, ttl, ops), id)
    decreases |ops|
  {
    if ops != [] {
      var rest, last := ops[..|ops| - 1], ops[|ops| - 1];
      RunAliveOrDead(nodes, ttl, rest, id, epoch, t);
      assert ops == rest + [last];
      TimelyLast(rest, last, id, epoch, t, ttl);
      if Timely(rest, id, epoch, t, ttl) {
        StepAlive(Run(nodes, ttl, rest), ttl, last, id, epoch, LastSign(rest, id, epoch, t));
      } else {
        StepDead(Run(nodes, ttl, rest), ttl, last, id);
      }
    }
  }

  lemma SignStarts(nodes: Nodes, ttl: u64, sign: Op, id: string, epoch: u64)
    requires Signs(sign, id, epoch) && IsOwner(Step(nodes, ttl, sign), id, epoch)
    ensures AliveSince(Step(nodes, ttl, sign), id, epoch, sign.now)
  {
  }

  /** Liveness, from the operations alone: an incarnation that shows a sign of life at some time and is
      not registered anew owns its node after any further run if and only if no sweep of that run came
      later than the heartbeat allowance after the last sign of life before the sweep. */
  lemma OwnsExactlyWhileTimely(nodes: Nodes, ttl: u64, sign: Op, ops: seq<Op>, id: string, epoch: u64)
    requires Signs(sign, id, epoch) && IsOwner(Run(nodes, ttl, [sign]), id, epoch)
    requires forall k :: 0 <= k < |ops| ==> !Reregisters(ops[k], id)
    ensures IsOwner(Run(nodes, ttl, [sign] + ops), id, epoch) <==> Timely(ops, id, epoch, sign.now, ttl)
  {
    RunOfOne(nodes, ttl, sign);
    SignStarts(nodes, ttl, sign, id, epoch);
    RunAppend(nodes, ttl, [sign], ops);
    RunAliveOrDead(Run(nodes, ttl, [sign]), ttl, ops, id, epoch, sign.now);
  }

  lemma RunOfOne(nodes: Nodes, ttl: u64, op: Op)
    ensures Run(nodes, ttl, [op]) == Step(nodes, ttl, op)
  {
    assert [op][..0] == [];
  }

  /** A registration always starts an incarnation, and a heartbeat of the current owner is accepted. */
  lemma SignsAreAccepted(nodes: Nodes, ttl: u64, id: string, epoch: u64, hello: RunnerHello, now: u64)
    requires hello.runnerId == id
    ensures IsOwner(nodes, id, epoch) ==> IsOwner(Run(nodes, ttl, [Heartbeat(id, epoch, now)]), id, epoch)
    ensures exists e :: IsOwner(Run(nodes, ttl, [Register(hello, now)]), id, e)
  {
    RunOfOne(nodes, ttl, Heartbeat(id, epoch, now));
    RunOfOne(nodes, ttl, Register(hello, now));
    assert IsOwner(Step(nodes, ttl, Register(hello, now)), id, NextEpoch(nodes, id));
  }

  // -------------------------------------------------------- what a registration offers

  /** A freshly registered node takes a job exactly when it offers a slot, the class and all the tags. */
  lemma FreshNodeServes(nodes: Nodes, hello: RunnerHello, now: u64, spec: AssignSpec)
    ensures var n := Registered(nodes, hello, now)[hello.runnerId];
      Eligible(n, spec) <==>
        && hello.capacity > 0 && spec.runnerClass in hello.supportedClasses
        && forall tag :: tag in spec.requiredTags ==> tag in hello.labels
  {
    var n := Registered(nodes, hello, now)[hello.runnerId];
    if MatchesTags(n, spec.requiredTags) {
      forall tag | tag in spec.requiredTags ensures tag in hello.labels {
        var i :| 0 <= i < |spec.requiredTags| && spec.requiredTags[i] == tag;
      }
    }
  }

  // ------------------------------------------------------------------ sweep reports

  lemma {:induction false} ReapListMember(keys: seq<string>, nodes: Nodes, ttl: u64, now: u64, r: ReapedNode)
    requires Keyed(nodes) && forall i :: 0 <= i < |keys| ==> keys[i] in nodes
    ensures r in ReapList(keys, nodes, ttl, now) <==>
            r.nodeId in keys && Expired(nodes[r.nodeId], ttl, now)
            && r == ReapedNode(r.nodeId, SatAdd64(nodes[r.nodeId].epoch, 1), nodes[r.nodeId].inFlight)
    decreases |keys|
  {
    if keys != [] {
      var k := |keys| - 1;
      ReapListMember(keys[..k], nodes, ttl, now, r);
      assert keys == keys[..k] + [keys[k]];
    }
  }

  /** A sweep reports exactly the nodes it ended, each with its new epoch and the jobs it had in flight. */
  lemma ReportMeaning(nodes: Nodes, ttl: u64, now: u64, r: ReapedNode)
    requires Keyed(nodes)
    ensures r in ReapList(Iter(nodes.Keys), nodes, ttl, now) <==>
            && r.nodeId in nodes && nodes[r.nodeId].state != Dead
            && IsDead(Reaped(nodes, ttl, now), r.nodeId)
            && r.fencedEpoch == Reaped(nodes, ttl, now)[r.nodeId].epoch
            && r.orphanedInFlight == nodes[r.nodeId].inFlight
  {
    ReapListMember(Iter(nodes.Keys), nodes, ttl, now, r);
  }
}
