/** Warm container pool (`jeryu-runnerd/src/warm_pool.rs`) over the recording container runtime
    (`jeryu-runner-oci/src/runtime.rs`) and the workcell id source (`jeryu-runnerd/src/workcell/manager.rs`).
    A start may fail, as the lifecycle seam allows: `startFails` says which serial numbers do. */
module WarmPool {
  import opened Order
  import opened Text
  import opened Numbers

  datatype WarmContainer = WarmContainer(containerId: string, workcellId: string)

  datatype WarmEntry = WarmEntry(workcellId: string, containerId: string)

  datatype PoolError = StartFailed | ListFailed | RemoveFailed | StartupRebaseFailed | SessionPlanRejected | UnknownCell

  /** What of a session claim decides its outcome. */
  datatype SessionClaim = SessionClaim(startupRebased: bool, planAccepted: bool)

  // ------------------------------------------------------------------- id texts

  function ContainerId(serial: nat): string { "fake-ctr-" + Padded(Dec(serial), 4) }

  function CellId(serial: nat): string { "wc-" + Padded(Dec(serial), 4) }

  /** Different serial numbers give different ids. */
  lemma IdsAreInjective(a: nat, b: nat)
    ensures ContainerId(a) == ContainerId(b) ==> a == b
    ensures CellId(a) == CellId(b) ==> a == b
  {
    PaddingKeepsValue(Dec(a), 4);
    PaddingKeepsValue(Dec(b), 4);
    DecRoundTrip(a);
    DecRoundTrip(b);
    assert ContainerId(a)[9..] == Padded(Dec(a), 4) && ContainerId(b)[9..] == Padded(Dec(b), 4);
    assert CellId(a)[3..] == Padded(Dec(a), 4) && CellId(b)[3..] == Padded(Dec(b), 4);
  }

  /** `id` was handed out by one of the first `n` starts. */
  ghost predicate Started(id: string, n: nat) { exists k: nat :: k <= n && id == ContainerId(k) }

  ghost predicate Spawned(id: string, n: nat) { exists k: nat :: k <= n && id == CellId(k) }

  lemma NextIdsAreNew(n: nat)
    ensures Started(ContainerId(n + 1), n + 1) && !Started(ContainerId(n + 1), n)
    ensures Spawned(CellId(n + 1), n + 1) && !Spawned(CellId(n + 1), n)
  {
    forall k: nat | k <= n ensures ContainerId(k) != ContainerId(n + 1) && CellId(k) != CellId(n + 1) {
      IdsAreInjective(k, n + 1);
    }
  }

  // ------------------------------------------------------------------- the runtime

  ghost predicate DistinctContainers(live: seq<WarmContainer>) {
    forall i, j :: 0 <= i < j < |live| ==> live[i].containerId != live[j].containerId
  }

  /** `retain(|c| c.container_id != id)`. */
  function Without(live: seq<WarmContainer>, id: string): (r: seq<WarmContainer>)
    ensures forall c :: c in r <==> c in live && c.containerId != id
  {
    if live == [] then []
    else (if live[0].containerId == id then [] else [live[0]]) + Without(live[1..], id)
  }

  /** The lifecycle seam: every call may fail. Which starts fail depends on their serial number, which
      removals fail on the container. */
  class ContainerRuntime {
    var live: seq<WarmContainer>
    var nextCid: nat
    const startFails: nat -> bool
    const listFails: bool
    const removeFails: string -> bool

    ghost predicate Valid()
      reads this
    {
      DistinctContainers(live) && forall c :: c in live ==> Started(c.containerId, nextCid)
    }

    constructor (starts: nat -> bool, list: bool, removals: string -> bool)
      ensures Valid() && live == [] && nextCid == 0 && startFails == starts && listFails == list
      ensures removeFails == removals
    {
      live, nextCid, startFails, listFails, removeFails := [], 0, starts, list, removals;
    }

    method StartWarm(workcellId: string) returns (r: Result<string, PoolError>)
      requires Valid()
      modifies this
      ensures Valid() && nextCid == old(nextCid) + 1
      ensures r == if startFails(nextCid) then Err(StartFailed) else Ok(ContainerId(nextCid))
      ensures live == if r.Ok? then old(live) + [WarmContainer(r.value, workcellId)] else old(live)
      ensures !Started(ContainerId(nextCid), old(nextCid))
    {
      nextCid := nextCid + 1;
      NextIdsAreNew(old(nextCid));
      assert forall c :: c in live ==> Started(c.containerId, nextCid);
      if startFails(nextCid) { return Err(StartFailed); }
      live := live + [WarmContainer(ContainerId(nextCid), workcellId)];
      return Ok(ContainerId(nextCid));
    }

    method Remove(id: string) returns (r: Result<(), PoolError>)
      requires Valid()
      modifies this`live
      ensures Valid() && r == if removeFails(id) then Err(RemoveFailed) else Ok(())
      ensures live == if r.Ok? then Without(old(live), id) else old(live)
    {
      if removeFails(id) { return Err(RemoveFailed); }
      WithoutKeepsDistinct(live, id);
      live := Without(live, id);
      return Ok(());
    }
  }

  lemma {:induction false} WithoutKeepsDistinct(live: seq<WarmContainer>, id: string)
    requires DistinctContainers(live)
    ensures DistinctContainers(Without(live, id))
    decreases |live|
  {
    if live != [] {
      WithoutKeepsDistinct(live[1..], id);
      var rest := Without(live[1..], id);
      forall j | 0 <= j < |rest| ensures rest[j].containerId != live[0].containerId { assert rest[j] in live[1..]; }
    }
  }

  /** None of the starts numbered after `from` up to `to` failed. */
  ghost predicate CleanStarts(fails: nat -> bool, from: nat, to: nat) {
    forall n: nat :: from < n <= to ==> !fails(n)
  }

  lemma CleanStartsJoin(fails: nat -> bool, a: nat, b: nat, c: nat)
    requires CleanStarts(fails, a, b) && CleanStarts(fails, b, c)
    ensures CleanStarts(fails, a, c)
  {
  }

  // ---------------------------------------------------------------- workcell ids

  datatype CellState = Ready | Claimed | Blocked

  /** The cells of `before` are still there, and in the same state unless serial numbers have saturated. */
  ghost predicate CellsKept(before: map<string, CellState>, after: map<string, CellState>, nextId: u64) {
    forall id :: id in before ==> id in after && (nextId < U64_MAX ==> after[id] == before[id])
  }

  lemma CellsKeptOn(a: map<string, CellState>, b: map<string, CellState>, c: map<string, CellState>, m: u64, n: u64)
    requires CellsKept(a, b, m) && CellsKept(b, c, n) && m <= n
    ensures CellsKept(a, c, n)
  {
  }

  /** The ids of the serial numbers from 1 to `n`, all of them and no others (0 is never used). */
  ghost predicate CellsUpTo(ids: set<string>, n: nat) {
    (forall id :: id in ids ==> Spawned(id, n)) && (forall k: nat :: 1 <= k <= n ==> CellId(k) in ids)
  }

  lemma OneMoreCell(ids: set<string>, n: nat)
    requires CellsUpTo(ids, n)
    ensures CellId(n + 1) !in ids && CellsUpTo(ids + {CellId(n + 1)}, n + 1)
  {
    NextIdsAreNew(n);
    forall id | id in ids ensures Spawned(id, n + 1) { assert Spawned(id, n); }
  }

  class WorkcellManager {
    var nextId: u64
    var cells: map<string, CellState>

    /** The cells are those of the serial numbers used so far. */
    ghost predicate Valid()
      reads this
    {
      CellsUpTo(cells.Keys, nextId)
    }

    constructor ()
      ensures Valid() && nextId == 0 && cells == map[]
    {
      nextId, cells := 0, map[];
    }

    /** `warm_one`: the id is new exactly until the serial number saturates. */
    method WarmOne() returns (id: string)
      requires Valid()
      modifies this
      ensures Valid() && nextId == SatAdd64(old(nextId), 1) && id == CellId(nextId) && cells == old(cells)[id := Ready]
      ensures id in old(cells) <==> old(nextId) == U64_MAX
    {
      nextId := SatAdd64(nextId, 1);
      id := CellId(nextId);
      if old(nextId) < U64_MAX { OneMoreCell(cells.Keys, old(nextId)); }
      cells := cells[id := Ready];
    }

    method ClaimReady(id: string, rebased: bool) returns (r: Result<(), PoolError>)
      requires Valid()
      modifies this
      ensures Valid() && nextId == old(nextId) && cells.Keys == old(cells).Keys
      ensures cells == if id in old(cells) then old(cells)[id := if rebased then Claimed else Blocked] else old(cells)
      ensures r == if id !in old(cells) then Err(UnknownCell) else if rebased then Ok(()) else Err(StartupRebaseFailed)
    {
      if id !in cells { return Err(UnknownCell); }
      cells := cells[id := if rebased then Claimed else Blocked];
      return if rebased then Ok(()) else Err(StartupRebaseFailed);
    }
  }

  // --------------------------------------------------------------------- the pool

  ghost predicate IsLive(e: WarmEntry, live: seq<WarmContainer>) { WarmContainer(e.containerId, e.workcellId) in live }

  ghost predicate DistinctEntries(warm: seq<WarmEntry>) {
    forall i, j :: 0 <= i < j < |warm| ==> warm[i].containerId != warm[j].containerId
  }

  /** Distinct entries, known to the manager, started and not handed out. */
  ghost predicate SoundEntries(warm: seq<WarmEntry>, cells: set<string>, handedOut: set<string>, n: nat) {
    && DistinctEntries(warm)
    && forall e :: e in warm ==> e.workcellId in cells && e.containerId !in handedOut && Started(e.containerId, n)
  }

  lemma OneMoreEntry(warm: seq<WarmEntry>, entry: WarmEntry, cells: set<string>, handedOut: set<string>, n: nat)
    requires SoundEntries(warm, cells, handedOut, n)
    requires entry.workcellId in cells && entry.containerId !in handedOut && Started(entry.containerId, n)
    requires forall e :: e in warm ==> e.containerId != entry.containerId
    ensures SoundEntries(warm + [entry], cells, handedOut, n)
  {
    assert forall e :: e in warm + [entry] ==> e in warm || e == entry;
  }

  /** A start leaves the entries sound, and its id is none of theirs and none of those handed out. */
  lemma EntriesKept(warm: seq<WarmEntry>, before: set<string>, after: set<string>, handedOut: set<string>, n: nat)
    requires SoundEntries(warm, before, handedOut, n) && before <= after
    requires forall id :: id in handedOut ==> Started(id, n)
    ensures SoundEntries(warm, after, handedOut, n + 1)
    ensures ContainerId(n + 1) !in handedOut && forall e :: e in warm ==> e.containerId != ContainerId(n + 1)
  {
    NextIdsAreNew(n);
    StartedGrows(n);
  }

  lemma FirstEntryOut(warm: seq<WarmEntry>, cells: set<string>, handedOut: set<string>, n: nat)
    requires warm != [] && SoundEntries(warm, cells, handedOut, n)
    ensures warm[0] in warm && SoundEntries(warm[1..], cells, handedOut + {warm[0].containerId}, n)
  {
    forall e | e in warm[1..] ensures e in warm && e.containerId != warm[0].containerId {
      var i :| 1 <= i < |warm| && warm[i] == e;
    }
  }

  /** Until serial numbers saturate, the warm entries have different cells, all ready, none handed out. */
  ghost predicate SoundCells(warm: seq<WarmEntry>, cells: map<string, CellState>, handed: set<string>, n: u64) {
    && handed <= cells.Keys
    && (n < U64_MAX ==>
          && (forall i, j :: 0 <= i < j < |warm| ==> warm[i].workcellId != warm[j].workcellId)
          && (forall e :: e in warm ==>
                e.workcellId in cells && cells[e.workcellId] == Ready && e.workcellId !in handed))
  }

  lemma KeptCellsSound(warm: seq<WarmEntry>, a: map<string, CellState>, b: map<string, CellState>, handed: set<string>,
                       m: u64, n: u64)
    requires SoundCells(warm, a, handed, m) && CellsKept(a, b, n) && m <= n
    ensures SoundCells(warm, b, handed, n)
  {
  }

  lemma OneMoreWarm(warm: seq<WarmEntry>, entry: WarmEntry, a: map<string, CellState>, b: map<string, CellState>,
                    handed: set<string>, m: u64, n: u64)
    requires SoundCells(warm, a, handed, m) && CellsKept(a, b, n) && m <= n
    requires n < U64_MAX ==> entry.workcellId !in a && entry.workcellId in b && b[entry.workcellId] == Ready
    ensures SoundCells(warm + [entry], b, handed, n)
  {
    KeptCellsSound(warm, a, b, handed, m, n);
    assert forall e :: e in warm + [entry] ==> e in warm || e == entry;
    if n < U64_MAX {
      forall e | e in warm ensures e.workcellId != entry.workcellId { assert e.workcellId in a; }
    }
  }

  lemma FirstCellOut(warm: seq<WarmEntry>, cells: map<string, CellState>, handed: set<string>, n: u64)
    requires warm != [] && SoundCells(warm, cells, handed, n) && warm[0].workcellId in cells
    ensures SoundCells(warm[1..], cells, handed + {warm[0].workcellId}, n)
  {
    forall e | e in warm[1..] ensures e in warm && (n < U64_MAX ==> e.workcellId != warm[0].workcellId) {
      var i :| 1 <= i < |warm| && warm[i] == e;
    }
  }

  lemma LeasedCellSound(warm: seq<WarmEntry>, cells: map<string, CellState>, handed: set<string>, n: u64, id: string,
                        state: CellState)
    requires SoundCells(warm, cells, handed, n) && id in handed
    ensures SoundCells(warm, cells[id := state], handed, n)
  {
  }

  /** The entries from position `k` on are running. */
  ghost predicate LiveFrom(warm: seq<WarmEntry>, k: nat, live: seq<WarmContainer>) {
    forall i :: k <= i < |warm| ==> IsLive(warm[i], live)
  }

  lemma OneMoreLive(warm: seq<WarmEntry>, k: nat, live: seq<WarmContainer>, entry: WarmEntry)
    requires LiveFrom(warm, k, live)
    ensures LiveFrom(warm + [entry], k, live + [WarmContainer(entry.containerId, entry.workcellId)])
  {
  }

  lemma OneMoreNewer(before: seq<WarmContainer>, after: seq<WarmContainer>, n: nat, c: WarmContainer)
    requires OnlyNewer(before, after, n) && !Started(c.containerId, n)
    ensures OnlyNewer(before, after + [c], n)
  {
  }

  class WarmPool {
    const runtime: ContainerRuntime
    const manager: WorkcellManager
    const target: nat
    var warm: seq<WarmEntry>
    /** Container ids of the entries taken out of the pool by claims, whatever their outcome. */
    ghost var handedOut: set<string>
    /** The workcells of those entries. */
    ghost var handedCells: set<string>

    /** Holds after every operation: the warm entries are distinct, known to the manager and separate
        from everything handed out. */
    ghost predicate Sound()
      reads this, runtime, manager
    {
      && runtime.Valid() && manager.Valid()
      && |warm| <= target && SoundEntries(warm, manager.cells.Keys, handedOut, runtime.nextCid)
      && (forall id :: id in handedOut ==> Started(id, runtime.nextCid))
      && SoundCells(warm, manager.cells, handedCells, manager.nextId)
    }

    /** Every warm entry is backed by a running container that carries its label. */
    ghost predicate AllLive()
      reads this, runtime
    {
      LiveFrom(warm, 0, runtime.live)
    }

    constructor (r: ContainerRuntime, depth: nat)
      requires r.Valid()
      ensures Sound() && AllLive() && fresh(manager) && runtime == r && target == depth && warm == [] && handedOut == {}
      ensures handedCells == {}
    {
      runtime := r;
      manager := new WorkcellManager();
      target := depth;
      warm := [];
      handedOut, handedCells := {}, {};
    }

    method WarmCell() returns (r: Result<WarmEntry, PoolError>)
      requires Sound()
      modifies runtime, manager
      ensures Sound() && runtime.nextCid == old(runtime.nextCid) + 1
      ensures r.Err? <==> runtime.startFails(runtime.nextCid)
      ensures r.Err? ==> r.error == StartFailed
      ensures r.Ok? ==> r.value.workcellId in manager.cells && r.value.containerId == ContainerId(runtime.nextCid)
                        && r.value.containerId !in handedOut
                        && (forall e :: e in warm ==> e.containerId != r.value.containerId)
      ensures runtime.live
           == old(runtime.live) + if r.Ok? then [WarmContainer(r.value.containerId, r.value.workcellId)] else []
      ensures old(manager.nextId) <= manager.nextId && CellsKept(old(manager.cells), manager.cells, manager.nextId)
      ensures r.Ok? ==> manager.cells[r.value.workcellId] == Ready
      ensures r.Ok? ==> (r.value.workcellId in old(manager.cells) <==> old(manager.nextId) == U64_MAX)
    {
      var cell := manager.WarmOne();
      KeptCellsSound(warm, old(manager.cells), manager.cells, handedCells, old(manager.nextId), manager.nextId);
      var container := runtime.StartWarm(cell);
      EntriesKept(warm, old(manager.cells).Keys, manager.cells.Keys, handedOut, old(runtime.nextCid));
      StartedGrows(old(runtime.nextCid));
      if container.Err? { return Err(container.error); }
      return Ok(WarmEntry(cell, container.value));
    }

    /** `refill`. Entries that were in the pool keep their places, whatever has become of their
        containers; the entries added are live, and so is everything that was running. */
    method Refill() returns (r: Result<(), PoolError>)
      requires Sound()
      modifies this`warm, runtime, manager
      ensures Sound() && handedOut == old(handedOut) && handedCells == old(handedCells)
      ensures r.Ok? ==> |warm| == target && runtime.nextCid == old(runtime.nextCid) + target - old(|warm|)
      ensures r.Err? ==> r.error == StartFailed && runtime.startFails(runtime.nextCid)
      ensures old(warm) <= warm && old(runtime.nextCid) <= runtime.nextCid
      ensures r.Ok? ==> CleanStarts(runtime.startFails, old(runtime.nextCid), runtime.nextCid)
      ensures OnlyNewer(old(runtime.live), runtime.live, old(runtime.nextCid))
      ensures LiveFrom(warm, old(|warm|), runtime.live)
      ensures r.Err? ==> |warm| < target
      ensures old(manager.nextId) <= manager.nextId && CellsKept(old(manager.cells), manager.cells, manager.nextId)
    {
      StartedWithin(runtime.live, runtime.nextCid);
      while |warm| < target
        invariant Sound() && handedOut == old(handedOut) && handedCells == old(handedCells)
        invariant old(warm) <= warm
        invariant runtime.nextCid == old(runtime.nextCid) + |warm| - old(|warm|)
        invariant CleanStarts(runtime.startFails, old(runtime.nextCid), runtime.nextCid)
        invariant OnlyNewer(old(runtime.live), runtime.live, old(runtime.nextCid))
        invariant LiveFrom(warm, old(|warm|), runtime.live)
        invariant old(manager.nextId) <= manager.nextId
        invariant CellsKept(old(manager.cells), manager.cells, manager.nextId)
        decreases target - |warm|
      {
        NewerThan(old(runtime.nextCid), runtime.nextCid + 1);
        ghost var running, known, serial := runtime.live, manager.cells, manager.nextId;
        var entry := WarmCell();
        CellsKeptOn(old(manager.cells), known, manager.cells, serial, manager.nextId);
        if entry.Err? {
          assert runtime.live == running;
          return Err(entry.error);
        }
        OneMoreNewer(old(runtime.live), running, old(runtime.nextCid),
                     WarmContainer(entry.value.containerId, entry.value.workcellId));
        OneMoreLive(warm, old(|warm|), running, entry.value);
        NextIdsAreNew(runtime.nextCid - 1);
        OneMoreEntry(warm, entry.value, manager.cells.Keys, handedOut, runtime.nextCid);
        OneMoreWarm(warm, entry.value, known, manager.cells, handedCells, serial, manager.nextId);
        warm := warm + [entry.value];
      }
      return Ok(());
    }

    /** The front of the pool, or a cold start when the pool is drained. */
    method Take() returns (r: Result<WarmEntry, PoolError>)
      requires Sound()
      modifies this, runtime, manager
      ensures Sound()
      ensures r.Err? <==> old(warm) == [] && runtime.startFails(old(runtime.nextCid) + 1)
      ensures r.Err? ==> r.error == StartFailed && runtime.nextCid == old(runtime.nextCid) + 1
                         && warm == [] && handedOut == old(handedOut) && runtime.live == old(runtime.live)
      ensures OnlyNewer(old(runtime.live), runtime.live, old(runtime.nextCid)) && (old(AllLive()) ==> AllLive())
      ensures r.Ok? ==>
        && warm == (if old(warm) == [] then [] else old(warm)[1..])
        && (old(warm) != [] ==> r.value == old(warm)[0] && runtime.live == old(runtime.live))
        && (old(warm) == [] ==> IsLive(r.value, runtime.live) && r.value.containerId == ContainerId(runtime.nextCid))
        && runtime.nextCid == old(runtime.nextCid) + (if old(warm) == [] then 1 else 0)
        && CleanStarts(runtime.startFails, old(runtime.nextCid), runtime.nextCid)
        && r.value.workcellId in manager.cells && Started(r.value.containerId, runtime.nextCid)
        && r.value.containerId !in old(handedOut) && handedOut == old(handedOut) + {r.value.containerId}
        && handedCells == old(handedCells) + {r.value.workcellId}
        && (manager.nextId < U64_MAX ==> r.value.workcellId !in old(handedCells))
      ensures r.Err? ==> handedCells == old(handedCells)
    {
      StartedWithin(runtime.live, runtime.nextCid);
      NewerThan(runtime.nextCid, runtime.nextCid + 1);
      var entry;
      if warm != [] {
        FirstEntryOut(warm, manager.cells.Keys, handedOut, runtime.nextCid);
        FirstCellOut(warm, manager.cells, handedCells, manager.nextId);
        entry := warm[0];
        if AllLive() { TailLive(warm, runtime.live); }
        warm := warm[1..];
      } else {
        var cold := WarmCell();
        if cold.Err? { return Err(cold.error); }
        entry := cold.value;
        NextIdsAreNew(old(runtime.nextCid));
      }
      handedOut, handedCells := handedOut + {entry.containerId}, handedCells + {entry.workcellId};
      assert Started(entry.containerId, runtime.nextCid);
      return Ok(entry);
    }

    /** `claim`. Every outcome that is not a failed start leaves the pool at its target depth. The
        claimed container is running exactly when the pool was drained or the container at its front was
        still running: the pool hands out what it has without asking the runtime.

        A failed start leaves the pool short. If it was the cold start of a drained pool, nothing was
        handed out. Otherwise the entry is gone from the pool and its cell stays claimed (or blocked),
        although the caller gets no handle to it. */
    method Claim(request: SessionClaim) returns (r: Result<WarmEntry, PoolError>)
      requires Sound()
      modifies this, runtime, manager
      ensures Sound() && (old(AllLive()) ==> AllLive())
      ensures r.Err? && r.error == StartFailed ==>
        runtime.startFails(runtime.nextCid) && (|warm| < target || target == 0)
      ensures !(r.Err? && r.error == StartFailed) ==>
        && |warm| == target
        && r.Ok? == (request.startupRebased && request.planAccepted)
        && (r.Err? ==> r.error == if request.startupRebased then SessionPlanRejected else StartupRebaseFailed)
        && (old(|warm|) == target ==> runtime.nextCid == old(runtime.nextCid) + 1)
        && |handedOut| == |old(handedOut)| + 1 && old(handedOut) < handedOut
        && CleanStarts(runtime.startFails, old(runtime.nextCid), runtime.nextCid)
      ensures old(warm) == [] && runtime.startFails(old(runtime.nextCid) + 1) ==>
        r == Err(StartFailed) && warm == [] && handedOut == old(handedOut) && runtime.live == old(runtime.live)
      ensures old(warm) == [] && !runtime.startFails(old(runtime.nextCid) + 1) ==>
        handedOut == old(handedOut) + {ContainerId(old(runtime.nextCid) + 1)}
      ensures old(warm) != [] ==>
        && handedOut == old(handedOut) + {old(warm)[0].containerId} && old(warm)[1..] <= warm
        && Leased(old(warm)[0].workcellId, request.startupRebased)
        && (IsLive(old(warm)[0], runtime.live) <==> IsLive(old(warm)[0], old(runtime.live)))
      ensures r.Ok? ==> r.value.containerId in handedOut && r.value.containerId !in old(handedOut)
      ensures r.Ok? ==> Leased(r.value.workcellId, true)
      ensures r.Ok? ==> handedCells == old(handedCells) + {r.value.workcellId}
      ensures r.Ok? && manager.nextId < U64_MAX ==>
        r.value.workcellId !in old(handedCells) && forall e :: e in warm ==> e.workcellId != r.value.workcellId
      ensures r.Ok? ==> (IsLive(r.value, runtime.live) <==> old(warm) == [] || IsLive(old(warm)[0], old(runtime.live)))
      ensures r.Ok? && old(warm) != [] ==> r.value == old(warm)[0]
      ensures r.Ok? ==> forall e :: e in warm ==> e.containerId != r.value.containerId
    {
      var entry, leased := LeaseAndRefill(request.startupRebased);
      if leased.Err? { return Err(leased.error); }
      return if request.planAccepted then Ok(entry) else Err(SessionPlanRejected);
    }

    /** The cell is claimed, or blocked when its startup rebase failed; once serial numbers have
        saturated, a later refill may have made it ready again. */
    ghost predicate Leased(id: string, rebased: bool)
      reads this, manager
    {
      id in manager.cells && (manager.nextId < U64_MAX ==> manager.cells[id] == if rebased then Claimed else Blocked)
    }

    /** `claim` up to the session plan: an entry leaves the pool, its cell is claimed, and the pool is
        filled again before the outcome of the lease counts. */
    method LeaseAndRefill(rebased: bool) returns (entry: WarmEntry, leased: Result<(), PoolError>)
      requires Sound()
      modifies this, runtime, manager
      ensures Sound() && (old(AllLive()) ==> AllLive())
      ensures leased.Err? && leased.error == StartFailed ==>
        runtime.startFails(runtime.nextCid) && (|warm| < target || target == 0)
      ensures old(warm) == [] && runtime.startFails(old(runtime.nextCid) + 1) ==>
        && leased == Err(StartFailed) && warm == [] && handedOut == old(handedOut) && runtime.live == old(runtime.live)
      ensures !(old(warm) == [] && runtime.startFails(old(runtime.nextCid) + 1)) ==>
        && entry.containerId !in old(handedOut) && handedOut == old(handedOut) + {entry.containerId}
        && (IsLive(entry, runtime.live) <==> old(warm) == [] || IsLive(old(warm)[0], old(runtime.live)))
        && (old(warm) != [] ==> entry == old(warm)[0] && old(warm)[1..] <= warm)
        && (old(warm) == [] ==> entry.containerId == ContainerId(old(runtime.nextCid) + 1))
        && Leased(entry.workcellId, rebased) && handedCells == old(handedCells) + {entry.workcellId}
        && (manager.nextId < U64_MAX ==> entry.workcellId !in old(handedCells))
      ensures !(leased.Err? && leased.error == StartFailed) ==>
        && leased == (if rebased then Ok(()) else Err(StartupRebaseFailed))
        && |warm| == target && (old(|warm|) == target ==> runtime.nextCid == old(runtime.nextCid) + 1)
        && CleanStarts(runtime.startFails, old(runtime.nextCid), runtime.nextCid)
    {
      var taken := TakeAndLease(rebased);
      if taken.Err? { return WarmEntry("", ""), Err(taken.error); }
      entry := taken.value.0;
      ghost var mid, running, rest := runtime.nextCid, runtime.live, warm;
      var refilled := Refill();
      NoNewLife(entry, running, runtime.live, mid);
      if old(AllLive()) {
        LiveGrows(rest, 0, running, runtime.live, mid);
        FrontLive(rest, warm, runtime.live);
      }
      if refilled.Err? { return entry, Err(refilled.error); }
      CleanStartsJoin(runtime.startFails, old(runtime.nextCid), mid, runtime.nextCid);
      return entry, taken.value.1;
    }

    /** The entry for a claim, with its cell claimed or blocked. */
    method TakeAndLease(rebased: bool) returns (r: Result<(WarmEntry, Result<(), PoolError>), PoolError>)
      requires Sound()
      modifies this, runtime, manager
      ensures Sound() && (old(AllLive()) ==> AllLive())
      ensures r.Err? <==> old(warm) == [] && runtime.startFails(old(runtime.nextCid) + 1)
      ensures r.Err? ==> r.error == StartFailed && runtime.nextCid == old(runtime.nextCid) + 1
                         && warm == [] && handedOut == old(handedOut) && runtime.live == old(runtime.live)
      ensures r.Ok? ==>
        var (entry, lease) := r.value;
        && lease == (if rebased then Ok(()) else Err(StartupRebaseFailed))
        && warm == (if old(warm) == [] then [] else old(warm)[1..])
        && (old(warm) != [] ==> entry == old(warm)[0] && runtime.live == old(runtime.live))
        && (old(warm) == [] ==> IsLive(entry, runtime.live) && entry.containerId == ContainerId(runtime.nextCid))
        && runtime.nextCid == old(runtime.nextCid) + (if old(warm) == [] then 1 else 0)
        && CleanStarts(runtime.startFails, old(runtime.nextCid), runtime.nextCid)
        && Started(entry.containerId, runtime.nextCid) && Leased(entry.workcellId, rebased)
        && entry.containerId !in old(handedOut) && handedOut == old(handedOut) + {entry.containerId}
        && handedCells == old(handedCells) + {entry.workcellId}
        && (manager.nextId < U64_MAX ==> entry.workcellId !in old(handedCells))
    {
      var taken := Take();
      if taken.Err? { return Err(taken.error); }
      var id := taken.value.workcellId;
      LeasedCellSound(warm, manager.cells, handedCells, manager.nextId, id, if rebased then Claimed else Blocked);
      var lease := manager.ClaimReady(id, rebased);
      return Ok((taken.value, lease));
    }

    /** The loop of `reap_orphans` over a listing of everything that runs. */
    method RemoveOrphans(listed: seq<WarmContainer>, ledger: set<string>) returns (r: Result<seq<string>, PoolError>)
      requires runtime.Valid() && listed == runtime.live
      modifies runtime`live
      ensures runtime.Valid()
      ensures r.Ok? ==> r.value == Orphans(listed, ledger) && NoneStuck(listed, ledger, runtime.removeFails)
      ensures r.Ok? ==> Kept(listed, |listed|, ledger, runtime.live)
      ensures r.Err? ==> r.error == RemoveFailed && exists k ::
        FirstStuck(listed, ledger, runtime.removeFails, k) && Kept(listed, k, ledger, runtime.live)
    {
      var ids := [];
      for i := 0 to |listed|
        invariant runtime.Valid()
        invariant ids == Orphans(listed[..i], ledger) && NoneStuck(listed[..i], ledger, runtime.removeFails)
        invariant Kept(listed, i, ledger, runtime.live)
      {
        OneMoreListed(listed, i, ledger, runtime.removeFails);
        if listed[i].workcellId !in ledger {
          ghost var running := runtime.live;
          var gone := runtime.Remove(listed[i].containerId);
          if gone.Err? {
            assert FirstStuck(listed, ledger, runtime.removeFails, i);
            return Err(gone.error);
          }
          KeptAfterRemoval(listed, i, ledger, running);
          ids := ids + [listed[i].containerId];
        } else {
          KeptAfterSkip(listed, i, ledger, runtime.live);
        }
      }
      assert listed[..|listed|] == listed;
      return Ok(ids);
    }

    /** `reap_orphans`: on success exactly the containers whose label is outside the ledger are gone. A
        removal that fails stops the sweep: the orphans listed before it are gone, and unreported. */
    method ReapOrphans(ledger: set<string>) returns (r: Result<seq<string>, PoolError>)
      requires Sound()
      modifies runtime`live
      ensures Sound()
      ensures r.Ok? <==> !runtime.listFails && NoneStuck(old(runtime.live), ledger, runtime.removeFails)
      ensures r.Ok? ==>
        && (forall c :: c in runtime.live <==> c in old(runtime.live) && c.workcellId in ledger)
        && Sorted(r.value, StrLe) && multiset(r.value) == multiset(Orphans(old(runtime.live), ledger))
        && (forall id :: id in r.value <==>
              exists c :: c in old(runtime.live) && c.workcellId !in ledger && c.containerId == id)
        && (forall e :: e in warm ==>
              (IsLive(e, runtime.live) <==> IsLive(e, old(runtime.live)) && e.workcellId in ledger))
      ensures r.Err? && runtime.listFails ==> r.error == ListFailed && runtime.live == old(runtime.live)
      ensures r.Err? && !runtime.listFails ==> r.error == RemoveFailed && exists k ::
        && FirstStuck(old(runtime.live), ledger, runtime.removeFails, k)
        && Kept(old(runtime.live), k, ledger, runtime.live)
    {
      if runtime.listFails { return Err(ListFailed); }
      var listed := runtime.live;
      var removed := RemoveOrphans(listed, ledger);
      if removed.Err? {
        ghost var k :| FirstStuck(listed, ledger, runtime.removeFails, k) && Kept(listed, k, ledger, runtime.live);
        assert listed[k] in listed;
        return Err(removed.error);
      }
      assert listed[..|listed|] == listed;
      StrLeIsTotalOrder();
      StableSortSorts(removed.value, StrLe);
      r := Ok(StableSort(removed.value, StrLe));
      OrphansMeaning(listed, ledger);
      SameMembers(r.value, removed.value);
    }
  }

  /** Reaping with a ledger that does not name the cell at the front of the pool, and claiming then: the
      claim is granted as usual, and its container is running exactly if the ledger named the cell. */
  method ReapThenClaim(pool: WarmPool, ledger: set<string>, request: SessionClaim)
    returns (r: Result<WarmEntry, PoolError>)
    requires pool.Sound() && pool.AllLive() && pool.warm != []
    requires !pool.runtime.listFails && NoneStuck(pool.runtime.live, ledger, pool.runtime.removeFails)
    modifies pool, pool.runtime, pool.manager
    ensures pool.Sound()
    ensures !(r.Err? && r.error == StartFailed) ==> (r.Ok? <==> request.startupRebased && request.planAccepted)
    ensures r.Ok? ==> r.value == old(pool.warm)[0]
                      && (IsLive(r.value, pool.runtime.live) <==> old(pool.warm)[0].workcellId in ledger)
  {
    ghost var front := pool.warm[0];
    assert front in pool.warm;
    var reaped := pool.ReapOrphans(ledger);
    r := pool.Claim(request);
  }

  /** `WarmPool::new`: a pool filled to its depth, or the failure of the start that stopped it. */
  method NewPool(runtime: ContainerRuntime, depth: nat) returns (r: Result<WarmPool, PoolError>)
    requires runtime.Valid()
    modifies runtime
    ensures r.Ok? ==> fresh(r.value) && r.value.runtime == runtime && r.value.Sound() && r.value.AllLive()
                      && r.value.target == depth == |r.value.warm| && r.value.handedOut == r.value.handedCells == {}
    ensures r.Ok? ==> runtime.nextCid == old(runtime.nextCid) + depth
    ensures r.Err? ==> r.error == StartFailed && runtime.startFails(runtime.nextCid)
  {
    var pool := new WarmPool(runtime, depth);
    var filled := pool.Refill();
    if filled.Err? { return Err(filled.error); }
    return Ok(pool);
  }

  /** Nothing running has stopped, and what has been added was started after serial number `n`. */
  ghost predicate OnlyNewer(before: seq<WarmContainer>, after: seq<WarmContainer>, n: nat) {
    && (forall c :: c in before ==> c in after)
    && (forall c :: c in after ==> c in before || !Started(c.containerId, n))
  }

  lemma StartedWithin(live: seq<WarmContainer>, n: nat)
    ensures OnlyNewer(live, live, n)
  {
  }

  lemma NewerThan(n: nat, later: nat)
    requires n < later
    ensures !Started(ContainerId(later), n)
  {
    forall k: nat | k <= n ensures ContainerId(k) != ContainerId(later) { IdsAreInjective(k, later); }
  }

  /** A container that was started and is not running does not come back. */
  lemma NoNewLife(e: WarmEntry, before: seq<WarmContainer>, after: seq<WarmContainer>, n: nat)
    requires OnlyNewer(before, after, n) && Started(e.containerId, n)
    ensures IsLive(e, after) <==> IsLive(e, before)
  {
  }

  lemma LiveGrows(warm: seq<WarmEntry>, k: nat, before: seq<WarmContainer>, after: seq<WarmContainer>, n: nat)
    requires LiveFrom(warm, k, before) && OnlyNewer(before, after, n)
    ensures LiveFrom(warm, k, after)
  {
  }

  lemma FrontLive(rest: seq<WarmEntry>, warm: seq<WarmEntry>, live: seq<WarmContainer>)
    requires rest <= warm && LiveFrom(rest, 0, live) && LiveFrom(warm, |rest|, live)
    ensures LiveFrom(warm, 0, live)
  {
    forall i | 0 <= i < |warm| ensures IsLive(warm[i], live) {
      if i < |rest| { assert warm[i] == rest[i]; }
    }
  }

  lemma TailLive(warm: seq<WarmEntry>, live: seq<WarmContainer>)
    requires LiveFrom(warm, 0, live) && warm != []
    ensures LiveFrom(warm[1..], 0, live)
  {
  }

  /** No removal of an orphan fails. */
  ghost predicate NoneStuck(listed: seq<WarmContainer>, ledger: set<string>, fails: string -> bool) {
    forall c :: c in listed && c.workcellId !in ledger ==> !fails(c.containerId)
  }

  /** The container at `k` is the first orphan in the listing whose removal fails. */
  ghost predicate FirstStuck(listed: seq<WarmContainer>, ledger: set<string>, fails: string -> bool, k: int) {
    && 0 <= k < |listed| && NoneStuck(listed[..k], ledger, fails)
    && listed[k].workcellId !in ledger && fails(listed[k].containerId)
  }

  /** Of the listed containers, those in the ledger and those from position `k` on are running. */
  ghost predicate Kept(listed: seq<WarmContainer>, k: int, ledger: set<string>, live: seq<WarmContainer>)
    requires 0 <= k <= |listed|
  {
    forall c :: c in live <==> c in listed && (c.workcellId in ledger || c !in listed[..k])
  }

  lemma OneMoreListed(listed: seq<WarmContainer>, k: nat, ledger: set<string>, fails: string -> bool)
    requires k < |listed|
    ensures Orphans(listed[..k + 1], ledger) ==
            Orphans(listed[..k], ledger) + if listed[k].workcellId in ledger then [] else [listed[k].containerId]
    ensures NoneStuck(listed[..k + 1], ledger, fails) <==>
            NoneStuck(listed[..k], ledger, fails) && (listed[k].workcellId in ledger || !fails(listed[k].containerId))
  {
    assert listed[..k + 1][..k] == listed[..k] && listed[..k + 1] == listed[..k] + [listed[k]];
    assert listed[k] in listed[..k + 1];
  }

  lemma KeptAfterSkip(listed: seq<WarmContainer>, k: nat, ledger: set<string>, live: seq<WarmContainer>)
    requires k < |listed| && Kept(listed, k, ledger, live) && listed[k].workcellId in ledger
    ensures Kept(listed, k + 1, ledger, live)
  {
    assert listed[..k + 1] == listed[..k] + [listed[k]];
  }

  lemma KeptAfterRemoval(listed: seq<WarmContainer>, k: nat, ledger: set<string>, live: seq<WarmContainer>)
    requires k < |listed| && DistinctContainers(listed) && Kept(listed, k, ledger, live)
    requires listed[k].workcellId !in ledger
    ensures Kept(listed, k + 1, ledger, Without(live, listed[k].containerId))
  {
    assert listed[..k + 1] == listed[..k] + [listed[k]];
    forall c | c in listed ensures c.containerId == listed[k].containerId <==> c == listed[k] {
      var i :| 0 <= i < |listed| && listed[i] == c;
    }
  }

  lemma SameMembers(a: seq<string>, b: seq<string>)
    requires multiset(a) == multiset(b)
    ensures forall x :: x in a <==> x in b
  {
    assert forall x :: x in a <==> x in multiset(a);
    assert forall x :: x in b <==> x in multiset(b);
  }

  lemma StartedGrows(n: nat)
    ensures forall id :: Started(id, n) ==> Started(id, n + 1)
  {
  }

  /** Container ids of the listed containers outside the ledger, in listing order. */
  function Orphans(listed: seq<WarmContainer>, ledger: set<string>): seq<string> {
    if listed == [] then [] else
      var last := listed[|listed| - 1];
      Orphans(listed[..|listed| - 1], ledger) + if last.workcellId in ledger then [] else [last.containerId]
  }

  lemma {:induction false} OrphansMember(listed: seq<WarmContainer>, ledger: set<string>, id: string)
    ensures id in Orphans(listed, ledger) <==> exists c :: c in listed && c.workcellId !in ledger && c.containerId == id
    decreases |listed|
  {
    if listed != [] {
      var k := |listed| - 1;
      OrphansMember(listed[..k], ledger, id);
      assert listed == listed[..k] + [listed[k]];
    }
  }

  /** With distinct container ids, removing the orphan ids removes the orphans and nothing else. */
  lemma OrphansMeaning(listed: seq<WarmContainer>, ledger: set<string>)
    requires DistinctContainers(listed)
    ensures forall id ::
      id in Orphans(listed, ledger) <==> exists c :: c in listed && c.workcellId !in ledger && c.containerId == id
    ensures forall c :: c in listed ==> (c.containerId in Orphans(listed, ledger) <==> c.workcellId !in ledger)
  {
    forall id
      ensures id in Orphans(listed, ledger) <==>
              exists c :: c in listed && c.workcellId !in ledger && c.containerId == id {
      OrphansMember(listed, ledger, id);
    }
    forall c | c in listed ensures c.containerId in Orphans(listed, ledger) <==> c.workcellId !in ledger {
      if c.containerId in Orphans(listed, ledger) {
        var d :| d in listed && d.workcellId !in ledger && d.containerId == c.containerId;
        assert d == c;
      }
    }
  }

  lemma StrLeIsTotalOrder()
    ensures TotalOrder(StrLe)
  {
    forall x: string, y: string ensures StrLe(x, y) || StrLe(y, x) { StrLeTotal(x, y); }
    forall x: string, y: string, z: string | StrLe(x, y) && StrLe(y, z)
      ensures StrLe(x, z) {
      StrLeTransitive(x, y, z);
    }
  }
}
