/** Deterministic DAG scheduling (`jeryu-ci-scheduler/src/schedule.rs`). */
module Scheduler {
  import opened Order
  import opened Text
  import opened PipelineIr
  import opened Dag

  datatype ScheduleRound = ScheduleRound(index: nat, jobs: seq<string>)

  datatype Schedule = Schedule(scheduleHash: string, rounds: seq<ScheduleRound>)

  datatype ScheduleError = DuplicateJob(job: string) | UnknownJob(job: string) | Cycle

  // ------------------------------------------------------------ specification

  /** The rounds list every job of `ids` once, in round `k` exactly the jobs of depth `k`. */
  ghost predicate DepthLayout(rounds: seq<ScheduleRound>, ids: set<string>, edges: set<Dependency>) {
    && (forall k :: 0 <= k < |rounds| ==> rounds[k].index == k && rounds[k].jobs != [] && Ascending(rounds[k].jobs))
    && (forall k, j :: 0 <= k < |rounds| && j in rounds[k].jobs ==> j in ids && Depth(j, k, edges))
    && (forall j :: j in ids ==> exists k :: 0 <= k < |rounds| && j in rounds[k].jobs)
  }

  /** Some round before round `k` contains `job`. */
  ghost predicate Before(rounds: seq<ScheduleRound>, job: string, k: nat) {
    exists l :: 0 <= l < k && l < |rounds| && job in rounds[l].jobs
  }

  function RoundText(r: ScheduleRound): string { Dec(r.index) + "=" + Join(r.jobs, ",") + "\n" }

  /** The id at `i` is the first one in list order that repeats an earlier id. */
  ghost predicate FirstDuplicate(jobs: seq<Job>, i: int) {
    && 0 <= i < |jobs| && jobs[i].id in JobIds(jobs[..i]) && DistinctIds(jobs[..i])
  }

  /** The edge at `i` is the first one with an unknown endpoint, and `id` is that endpoint. */
  ghost predicate FirstUnknown(edges: seq<Dependency>, known: set<string>, i: int, id: string) {
    && 0 <= i < |edges| && (forall k :: 0 <= k < i ==> edges[k].from in known && edges[k].to in known)
    && id !in known && id == if edges[i].from !in known then edges[i].from else edges[i].to
  }

  /** The verdict of the scheduler on a pipeline, in terms of chains only. */
  ghost predicate Verdict(p: Pipeline, hash: string -> string, r: Result<Schedule, ScheduleError>) {
    var ids, edges := JobIds(p.jobs), EdgeSet(p.edges);
    match r
    case Err(DuplicateJob(id)) => exists i :: FirstDuplicate(p.jobs, i) && p.jobs[i].id == id
    case Err(UnknownJob(id)) =>
      DistinctIds(p.jobs) && exists i :: FirstUnknown(p.edges, ids, i, id)
    case Err(Cycle) => DistinctIds(p.jobs) && KnownEndpoints(p) && Cyclic(edges)
    case Ok(s) =>
      && DistinctIds(p.jobs) && KnownEndpoints(p) && !Cyclic(edges)
      && DepthLayout(s.rounds, ids, edges)
      && s.scheduleHash == hash(IrHash(p, hash) + "\n" + Cat(s.rounds, RoundText))
  }

  // --------------------------------------------------------------- algorithm

  method CollectIds(jobs: seq<Job>) returns (r: Result<set<string>, ScheduleError>)
    ensures r.Ok? ==> DistinctIds(jobs) && r.value == JobIds(jobs)
    ensures r.Err? ==> r.error.DuplicateJob? && exists i :: FirstDuplicate(jobs, i) && jobs[i].id == r.error.job
  {
    var remaining: set<string> := {};
    for i := 0 to |jobs|
      invariant remaining == JobIds(jobs[..i]) && DistinctIds(jobs[..i])
    {
      assert jobs[..i + 1] == jobs[..i] + [jobs[i]];
      if jobs[i].id in remaining {
        assert FirstDuplicate(jobs, i);
        return Err(ScheduleError.DuplicateJob(jobs[i].id));
      }
      remaining := remaining + {jobs[i].id};
    }
    assert jobs[..|jobs|] == jobs;
    return Ok(remaining);
  }

  /** The recorded dependencies of a job; none when it has no entry. */
  function DepsOf(m: map<string, set<string>>, job: string): set<string> {
    if job in m then m[job] else {}
  }

  ghost predicate Records(m: map<string, set<string>>, edges: set<Dependency>) {
    forall e: Dependency :: e in edges <==> e.from in DepsOf(m, e.to)
  }

  method CollectDependencies(edges: seq<Dependency>, known: set<string>)
    returns (r: Result<map<string, set<string>>, ScheduleError>)
    ensures r.Ok? ==> Records(r.value, EdgeSet(edges)) && forall e :: e in edges ==> e.from in known && e.to in known
    ensures r.Err? ==> r.error.UnknownJob? && exists i :: FirstUnknown(edges, known, i, r.error.job)
  {
    var deps: map<string, set<string>> := map[];
    for i := 0 to |edges|
      invariant Records(deps, EdgeSet(edges[..i]))
      invariant forall k :: 0 <= k < i ==> edges[k].from in known && edges[k].to in known
    {
      var edge := edges[i];
      if edge.from !in known {
        assert FirstUnknown(edges, known, i, edge.from);
        return Err(UnknownJob(edge.from));
      }
      if edge.to !in known {
        assert FirstUnknown(edges, known, i, edge.to);
        return Err(UnknownJob(edge.to));
      }
      assert edges[..i + 1] == edges[..i] + [edge];
      ghost var before := deps;
      deps := deps[edge.to := DepsOf(deps, edge.to) + {edge.from}];
      forall e: Dependency ensures e in EdgeSet(edges[..i + 1]) <==> e.from in DepsOf(deps, e.to) {
        assert e in EdgeSet(edges[..i]) <==> e.from in DepsOf(before, e.to);
        assert e == edge <==> e.from == edge.from && e.to == edge.to;
      }
    }
    assert edges[..|edges|] == edges;
    return Ok(deps);
  }

  /** `remaining.iter().filter(..).collect()`: the remaining jobs whose dependencies are all completed. */
  method Ready(remaining: set<string>, deps: map<string, set<string>>, completed: set<string>)
    returns (ready: seq<string>)
    ensures Ascending(ready)
    ensures forall j :: j in ready <==> j in remaining && DepsOf(deps, j) <= completed
  {
    var order := Iter(remaining);
    ready := [];
    for i := 0 to |order|
      invariant Ascending(ready)
      invariant forall j :: j in ready <==> j in order[..i] && DepsOf(deps, j) <= completed
    {
      assert order[..i + 1] == order[..i] + [order[i]];
      assert forall k :: 0 <= k < |ready| ==> ready[k] in order[..i];
      if DepsOf(deps, order[i]) <= completed {
        ready := ready + [order[i]];
      }
    }
    assert order[..|order|] == order;
  }

  /** Every dependency of `job` is completed. */
  ghost predicate Unblocked(job: string, completed: set<string>, edges: set<Dependency>) {
    forall e :: e in edges && e.to == job ==> e.from in completed
  }

  lemma DepsOfMeansEdges(deps: map<string, set<string>>, edges: set<Dependency>, job: string, completed: set<string>)
    requires Records(deps, edges)
    ensures DepsOf(deps, job) <= completed <==> Unblocked(job, completed, edges)
  {
    forall d | d in DepsOf(deps, job) ensures Dependency(d, job) in edges {
      assert Dependency(d, job).from in DepsOf(deps, Dependency(d, job).to);
    }
    if Unblocked(job, completed, edges) {
      forall d | d in DepsOf(deps, job) ensures d in completed {
        assert Dependency(d, job).to == job;
      }
    }
  }

  /** What holds between two iterations of the scheduling loop. */
  ghost predicate Progress(rounds: seq<ScheduleRound>, remaining: set<string>, completed: set<string>,
                           ids: set<string>, edges: set<Dependency>) {
    && remaining + completed == ids && remaining !! completed
    && DepthLayout(rounds, completed, edges)
    && (forall k, e :: 0 <= k < |rounds| && e in edges && e.to in rounds[k].jobs ==> Before(rounds, e.from, k))
    && (|rounds| > 0 ==> forall j :: j in remaining ==>
          exists e :: e in edges && e.to == j && !Before(rounds, e.from, |rounds| - 1))
  }

  /** The depth at which each completed job was placed. */
  ghost function Depths(rounds: seq<ScheduleRound>, completed: set<string>): (m: map<string, nat>)
    requires forall j :: j in completed ==> exists k :: 0 <= k < |rounds| && j in rounds[k].jobs
    ensures m.Keys == completed
    ensures forall j :: j in completed ==> m[j] < |rounds| && j in rounds[m[j]].jobs
  {
    map j | j in completed :: var k :| 0 <= k < |rounds| && j in rounds[k].jobs; k
  }

  /** A job that becomes ready in round `|rounds|` has exactly that depth. */
  lemma ReadyDepth(rounds: seq<ScheduleRound>, remaining: set<string>, completed: set<string>,
                   ids: set<string>, edges: set<Dependency>, job: string)
    requires Progress(rounds, remaining, completed, ids, edges)
    requires job in remaining
    requires Unblocked(job, completed, edges)
    ensures Depth(job, |rounds|, edges)
  {
    var depth := Depths(rounds, completed);
    if |rounds| > 0 {
      var e :| e in edges && e.to == job && !Before(rounds, e.from, |rounds| - 1);
      assert depth[e.from] == |rounds| - 1;
    }
    DepthFromDependencies(job, |rounds|, edges, depth);
  }

  lemma ProgressStep(rounds: seq<ScheduleRound>, remaining: set<string>, completed: set<string>,
                     ids: set<string>, edges: set<Dependency>, ready: seq<string>)
    requires Progress(rounds, remaining, completed, ids, edges)
    requires Ascending(ready) && ready != []
    requires forall j :: j in ready <==> j in remaining && Unblocked(j, completed, edges)
    ensures var now := set j | j in ready;
            Progress(rounds + [ScheduleRound(|rounds|, ready)], remaining - now, completed + now, ids, edges)
  {
    var now := set j | j in ready;
    var next := rounds + [ScheduleRound(|rounds|, ready)];
    forall j | j in ready ensures Depth(j, |rounds|, edges) {
      ReadyDepth(rounds, remaining, completed, ids, edges, j);
    }
    forall j | j in completed + now ensures exists k :: 0 <= k < |next| && j in next[k].jobs {
      if j in ready {
        assert j in next[|rounds|].jobs;
      } else {
        var k :| 0 <= k < |rounds| && j in rounds[k].jobs;
        assert j in next[k].jobs;
      }
    }
    forall k, j | 0 <= k < |next| && j in next[k].jobs ensures j in completed + now && Depth(j, k, edges) {
      if k < |rounds| { assert j in rounds[k].jobs; }
    }
    forall k, e | 0 <= k < |next| && e in edges && e.to in next[k].jobs ensures Before(next, e.from, k) {
      if k < |rounds| {
        assert Before(rounds, e.from, k);
        var l :| 0 <= l < k && l < |rounds| && e.from in rounds[l].jobs;
        assert e.from in next[l].jobs;
      } else {
        var l :| 0 <= l < |rounds| && e.from in rounds[l].jobs;
        assert e.from in next[l].jobs;
      }
    }
    forall j | j in remaining - now
      ensures exists e :: e in edges && e.to == j && !Before(next, e.from, |next| - 1) {
      var e :| e in edges && e.to == j && e.from !in completed;
      if Before(next, e.from, |rounds|) {
        assert false;
      }
    }
  }

  lemma NothingReadyImpliesCyclic(remaining: set<string>, completed: set<string>, ids: set<string>,
                                  edges: set<Dependency>)
    requires (forall j :: j in ids ==> j in remaining || j in completed) && remaining != {}
    requires forall e :: e in edges ==> e.from in ids && e.to in ids
    requires forall j {:trigger Unblocked(j, completed, edges)} :: j in remaining ==> !Unblocked(j, completed, edges)
    ensures Cyclic(edges)
  {
    forall j | j in remaining ensures DependsInside(j, remaining, edges) {
      assert !Unblocked(j, completed, edges);
      var e :| e in edges && e.to == j && e.from !in completed;
      assert e.from in ids;
    }
    StuckImpliesCyclic(remaining, edges);
  }

  /** A finished layout leaves no room for a cycle. */
  lemma FinishedIsAcyclic(rounds: seq<ScheduleRound>, ids: set<string>, edges: set<Dependency>)
    requires Progress(rounds, {}, ids, ids, edges)
    requires forall e :: e in edges ==> e.from in ids && e.to in ids
    ensures !Cyclic(edges)
  {
    if Cyclic(edges) {
      var p :| IsCycle(p, edges);
      forall i | 0 <= i < |p| ensures p[i] in ids { OnCycleHasDependency(p, edges, i); }
      var depth := Depths(rounds, ids);
      forall e | e in edges ensures depth[e.from] < depth[e.to] {
        assert Before(rounds, e.from, depth[e.to]);
        var l :| 0 <= l < depth[e.to] && l < |rounds| && e.from in rounds[l].jobs;
        DepthUnique(e.from, l, depth[e.from], edges);
      }
      LabelsGrowAlongChains(p, edges, depth);
    }
  }

  /** The round-building loop. */
  method BuildRounds(ids: set<string>, deps: map<string, set<string>>, ghost edges: set<Dependency>)
    returns (r: Result<seq<ScheduleRound>, ScheduleError>)
    requires Records(deps, edges)
    requires forall e :: e in edges ==> e.from in ids && e.to in ids
    ensures r.Err? <==> Cyclic(edges)
    ensures r.Err? ==> r.error == Cycle
    ensures r.Ok? ==> DepthLayout(r.value, ids, edges)
  {
    var remaining, completed: set<string>, rounds := ids, {}, [];
    while remaining != {}
      invariant Progress(rounds, remaining, completed, ids, edges)
      decreases remaining
    {
      var ready := Ready(remaining, deps, completed);
      forall j ensures DepsOf(deps, j) <= completed <==> Unblocked(j, completed, edges) {
        DepsOfMeansEdges(deps, edges, j, completed);
      }
      if ready == [] {
        NothingReadyImpliesCyclic(remaining, completed, ids, edges);
        return Err(Cycle);
      }
      ProgressStep(rounds, remaining, completed, ids, edges, ready);
      assert ready[0] in remaining;
      var now := set j | j in ready;
      remaining, completed := remaining - now, completed + now;
      rounds := rounds + [ScheduleRound(|rounds|, ready)];
    }
    assert completed == ids;
    FinishedIsAcyclic(rounds, ids, edges);
    return Ok(rounds);
  }

  /** `deterministic_schedule`. */
  method DeterministicSchedule(p: Pipeline, hash: string -> string) returns (r: Result<Schedule, ScheduleError>)
    ensures Verdict(p, hash, r)
  {
    var ids := CollectIds(p.jobs);
    if ids.Err? { return Err(ids.error); }
    var deps := CollectDependencies(p.edges, ids.value);
    if deps.Err? { return Err(deps.error); }
    var built := BuildRounds(ids.value, deps.value, EdgeSet(p.edges));
    if built.Err? { return Err(built.error); }
    var canonical := IrHash(p, hash) + "\n";
    canonical := AppendAll(canonical, built.value, RoundText);
    return Ok(Schedule(hash(canonical), built.value));
  }

  // ------------------------------------------------------------ the hashed text

  /** A round whose jobs can be told apart in a comma-separated line. */
  ghost predicate PlainRound(r: ScheduleRound) {
    r.jobs != [] && forall j :: j in r.jobs ==> ',' !in j && '\n' !in j
  }

  /** A reader of the hashed rounds: a number, an equals sign, ids between commas, a line break. */
  ghost function ReadRounds(text: string): seq<ScheduleRound>
    decreases |text|
  {
    if text == "" then [] else
      var (index, rest) := Cut(text, '=');
      var (jobs, more) := Cut(rest, '\n');
      [ScheduleRound(if AllDigits(index) then DecValue(index) else 0, Split(jobs, ','))] + ReadRounds(more)
  }

  lemma {:induction false} JoinHolds(parts: seq<string>, sep: string, c: char)
    requires c !in sep && forall x :: x in parts ==> c !in x
    ensures c !in Join(parts, sep)
    decreases |parts|
  {
    if |parts| > 1 {
      assert parts[0] in parts;
      JoinHolds(parts[1..], sep, c);
    }
  }

  lemma ReadFirstRound(r: ScheduleRound, more: string)
    requires PlainRound(r)
    ensures ReadRounds(RoundText(r) + more) == [r] + ReadRounds(more)
  {
    var index, jobs := Dec(r.index), Join(r.jobs, ",");
    var text := RoundText(r) + more;
    assert text == index + (['='] + (jobs + (['\n'] + more)));
    CutAtFirst(index, '=', jobs + (['\n'] + more));
    JoinHolds(r.jobs, ",", '\n');
    CutAtFirst(jobs, '\n', more);
    assert "," == [','];
    SplitJoin(r.jobs, ',');
    DecRoundTrip(r.index);
  }

  lemma {:induction false} ReadsBack(rounds: seq<ScheduleRound>)
    requires forall r :: r in rounds ==> PlainRound(r)
    ensures ReadRounds(Cat(rounds, RoundText)) == rounds
    decreases |rounds|
  {
    if rounds != [] {
      var first, rest := rounds[0], rounds[1..];
      assert rounds == [first] + rest && first in rounds;
      CatAppend([first], rest, RoundText);
      assert [first][..0] == [];
      assert Cat([first], RoundText) == RoundText(first);
      ReadFirstRound(first, Cat(rest, RoundText));
      ReadsBack(rest);
    }
  }

  /** The text a schedule is hashed from: one that reads back to the hash of the pipeline on its first
      line and to the rounds after it. Every schedule of jobs without commas and line breaks in their
      ids carries the hash of such a text. */
  lemma HashedTextReadsBack(p: Pipeline, hash: string -> string, s: Schedule)
    requires Verdict(p, hash, Ok(s)) && '\n' !in IrHash(p, hash)
    requires forall j :: j in p.jobs ==> ',' !in j.id && '\n' !in j.id
    ensures exists text :: s.scheduleHash == hash(text) && Cut(text, '\n').0 == IrHash(p, hash)
                        && ReadRounds(Cut(text, '\n').1) == s.rounds
  {
    var ir, rounds := IrHash(p, hash), Cat(s.rounds, RoundText);
    var text := ir + "\n" + rounds;
    assert text == ir + (['\n'] + rounds);
    CutAtFirst(ir, '\n', rounds);
    forall r | r in s.rounds ensures PlainRound(r) {
      forall j | j in r.jobs ensures ',' !in j && '\n' !in j { assert j in JobIds(p.jobs); }
    }
    ReadsBack(s.rounds);
    assert s.scheduleHash == hash(text) && Cut(text, '\n').0 == ir;
  }

  // ------------------------------------------------------------- main results

  /** In a depth layout every job has one round and runs strictly after all its dependencies. */
  lemma DependenciesFirst(rounds: seq<ScheduleRound>, ids: set<string>, edges: set<Dependency>, e: Dependency, k: nat,
                          l: nat)
    requires DepthLayout(rounds, ids, edges)
    requires e in edges && k < |rounds| && l < |rounds| && e.from in rounds[k].jobs && e.to in rounds[l].jobs
    ensures k < l
    ensures forall m :: 0 <= m < |rounds| && e.to in rounds[m].jobs ==> m == l
  {
    assert Depth(e.from, k, edges) && Depth(e.to, l, edges);
    var p :| ChainTo(p, e.from, edges) && |p| == k + 1;
    ExtendChain(p, e.from, e.to, edges);
    forall m | 0 <= m < |rounds| && e.to in rounds[m].jobs ensures m == l {
      DepthUnique(e.to, m, l, edges);
    }
  }

  lemma {:induction false} ChainStaysInside(p: seq<string>, ids: set<string>, edges: set<Dependency>, job: string)
    requires ChainTo(p, job, edges) && job in ids
    requires forall e :: e in edges ==> e.from in ids && e.to in ids
    ensures forall i :: 0 <= i < |p| ==> p[i] in ids
    decreases |p|
  {
    if |p| >= 2 {
      DropLast(p, job, edges);
      ChainStaysInside(p[..|p| - 1], ids, edges, p[|p| - 2]);
    }
  }

  /** No layering that respects the edges places a job earlier, and none uses fewer rounds. */
  lemma ScheduleIsOptimal(rounds: seq<ScheduleRound>, ids: set<string>, edges: set<Dependency>, layer: map<string, nat>,
                          height: nat)
    requires DepthLayout(rounds, ids, edges)
    requires forall e :: e in edges ==> e.from in ids && e.to in ids
    requires ids <= layer.Keys && forall j :: j in ids ==> layer[j] < height
    requires forall e :: e in edges ==> layer[e.from] < layer[e.to]
    ensures forall k, j :: 0 <= k < |rounds| && j in rounds[k].jobs ==> k <= layer[j]
    ensures |rounds| <= height
  {
    forall k, j | 0 <= k < |rounds| && j in rounds[k].jobs ensures k <= layer[j] {
      assert j in ids && Depth(j, k, edges);
      var p :| ChainTo(p, j, edges) && |p| == k + 1;
      ChainStaysInside(p, ids, edges, j);
      LabelsGrowAlongChains(p, edges, layer);
    }
    if |rounds| > 0 {
      var j := rounds[|rounds| - 1].jobs[0];
      assert j in rounds[|rounds| - 1].jobs && j in ids;
    }
  }

  lemma LayoutLengthAtMost(a: seq<ScheduleRound>, b: seq<ScheduleRound>, ids: set<string>, edges: set<Dependency>)
    requires DepthLayout(a, ids, edges) && DepthLayout(b, ids, edges)
    ensures |a| <= |b|
  {
    if |a| > 0 {
      var j := a[|a| - 1].jobs[0];
      assert j in a[|a| - 1].jobs && j in ids;
      assert Depth(j, |a| - 1, edges);
      var k :| 0 <= k < |b| && j in b[k].jobs;
      DepthUnique(j, |a| - 1, k, edges);
    }
  }

  /** The layout is a function of the job ids and the edges alone. */
  lemma LayoutUnique(a: seq<ScheduleRound>, b: seq<ScheduleRound>, ids: set<string>, edges: set<Dependency>)
    requires DepthLayout(a, ids, edges) && DepthLayout(b, ids, edges)
    ensures a == b
  {
    LayoutLengthAtMost(a, b, ids, edges);
    LayoutLengthAtMost(b, a, ids, edges);
    forall k | 0 <= k < |a| ensures a[k] == b[k] {
      forall j ensures j in a[k].jobs <==> j in b[k].jobs {
        if j in a[k].jobs {
          assert j in ids && Depth(j, k, edges);
          var l :| 0 <= l < |b| && j in b[l].jobs;
          DepthUnique(j, k, l, edges);
        }
        if j in b[k].jobs {
          assert j in ids && Depth(j, k, edges);
          var l :| 0 <= l < |a| && j in a[l].jobs;
          DepthUnique(j, k, l, edges);
        }
      }
      AscendingUnique(a[k].jobs, b[k].jobs);
    }
  }

  lemma RearrangedSets(p: Pipeline, q: Pipeline)
    requires Rearranged(p, q)
    ensures JobIds(p.jobs) == JobIds(q.jobs) && EdgeSet(p.edges) == EdgeSet(q.edges)
    ensures KnownEndpoints(p) <==> KnownEndpoints(q)
  {
    assert forall j :: j in p.jobs <==> j in multiset(p.jobs);
    assert forall j :: j in q.jobs <==> j in multiset(q.jobs);
    assert forall e :: e in p.edges <==> e in multiset(p.edges);
    assert forall e :: e in q.edges <==> e in multiset(q.edges);
    assert forall id :: id in JobIds(p.jobs) ==> id in JobIds(q.jobs);
    assert forall id :: id in JobIds(q.jobs) ==> id in JobIds(p.jobs);
  }

  lemma {:induction false} DistinctIdsCount(jobs: seq<Job>)
    ensures DistinctIds(jobs) <==> |JobIds(jobs)| == |jobs|
    ensures |JobIds(jobs)| <= |jobs|
    decreases |jobs|
  {
    if jobs != [] {
      var rest, last := jobs[..|jobs| - 1], jobs[|jobs| - 1];
      DistinctIdsCount(rest);
      assert jobs == rest + [last];
      assert JobIds(jobs) == JobIds(rest) + {last.id};
      if last.id in JobIds(rest) {
        var j :| j in rest && j.id == last.id;
        var k :| 0 <= k < |rest| && rest[k] == j;
        assert jobs[k].id == jobs[|jobs| - 1].id;
      } else if DistinctIds(rest) {
        forall i, j | 0 <= i < j < |jobs| ensures jobs[i].id != jobs[j].id {
          if j == |jobs| - 1 { assert rest[i] in rest; } else { assert rest[i].id != rest[j].id; }
        }
      }
    }
  }

  lemma DuplicateMeansNotDistinct(jobs: seq<Job>, i: int)
    requires FirstDuplicate(jobs, i)
    ensures !DistinctIds(jobs)
  {
    var k :| 0 <= k < i && jobs[..i][k].id == jobs[i].id;
    assert jobs[k].id == jobs[i].id;
  }

  lemma VerdictKind(p: Pipeline, hash: string -> string, r: Result<Schedule, ScheduleError>)
    requires Verdict(p, hash, r)
    ensures (r.Err? && r.error.DuplicateJob?) <==> !DistinctIds(p.jobs)
    ensures (r.Err? && r.error.UnknownJob?) <==> DistinctIds(p.jobs) && !KnownEndpoints(p)
    ensures (r.Err? && r.error == Cycle) <==> DistinctIds(p.jobs) && KnownEndpoints(p) && Cyclic(EdgeSet(p.edges))
  {
    if r.Err? && r.error.DuplicateJob? {
      var i :| FirstDuplicate(p.jobs, i) && p.jobs[i].id == r.error.job;
      DuplicateMeansNotDistinct(p.jobs, i);
    } else if r.Err? && r.error.UnknownJob? {
      var i :| FirstUnknown(p.edges, JobIds(p.jobs), i, r.error.job);
      assert p.edges[i] in p.edges;
    }
  }

  lemma RearrangedDistinct(p: Pipeline, q: Pipeline)
    requires Rearranged(p, q)
    ensures DistinctIds(p.jobs) <==> DistinctIds(q.jobs)
  {
    RearrangedSets(p, q);
    DistinctIdsCount(p.jobs);
    DistinctIdsCount(q.jobs);
    assert |p.jobs| == |multiset(p.jobs)| == |multiset(q.jobs)| == |q.jobs|;
  }

  lemma SameSchedule(p: Pipeline, q: Pipeline, hash: string -> string, a: Schedule, b: Schedule)
    requires Rearranged(p, q) && Verdict(p, hash, Ok(a)) && Verdict(q, hash, Ok(b))
    ensures a == b
  {
    RearrangedSets(p, q);
    LayoutUnique(a.rounds, b.rounds, JobIds(p.jobs), EdgeSet(p.edges));
    CanonicalIgnoresListOrder(p, q, hash);
  }

  /** Rearranging the job list and the edge list changes neither the rounds nor the schedule
      hash nor the `Cycle` verdict. A rejected list stays rejected for the same kind of reason. */
  lemma ScheduleIgnoresListOrder(p: Pipeline, q: Pipeline, hash: string -> string,
                                 r: Result<Schedule, ScheduleError>, s: Result<Schedule, ScheduleError>)
    requires Rearranged(p, q) && Verdict(p, hash, r) && Verdict(q, hash, s)
    ensures r.Ok? || r.error == Cycle ==> r == s
    ensures r.Err? && r.error.DuplicateJob? ==> s.Err? && s.error.DuplicateJob?
    ensures r.Err? && r.error.UnknownJob? ==> s.Err? && s.error.UnknownJob?
  {
    RearrangedSets(p, q);
    RearrangedDistinct(p, q);
    VerdictKind(p, hash, r);
    VerdictKind(q, hash, s);
    if r.Ok? {
      SameSchedule(p, q, hash, r.value, s.value);
    }
  }

  /** A pipeline accepted by validation is scheduled unless its dependencies are cyclic. */
  lemma ValidatedPipelinesSchedule(p: Pipeline, hash: string -> string, r: Result<Schedule, ScheduleError>)
    requires WellFormed(p) && Verdict(p, hash, r)
    ensures r.Err? <==> Cyclic(EdgeSet(p.edges))
    ensures r.Err? ==> r.error == Cycle
  {
    VerdictKind(p, hash, r);
  }
}
