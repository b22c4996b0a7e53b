/** Lowering of parsed jobs to the pipeline IR: matrix expansion into pending jobs and resolution
    of `needs` into dependency edges (`jeryu-ci-compiler/src/github.rs`, `pipeline.rs`, `lib.rs`). */
module Compiler {
  import opened Order
  import opened Text
  import opened PipelineIr
  import opened Matrix
  import opened Naming
  import opened Steps
  import opened Dag
  import S = Scheduler

  /** One parsed job of a workflow, before matrix expansion. */
  datatype JobDecl = JobDecl(origin: string, needs: seq<string>, matrix: Axes, steps: seq<Step>,
                             runner: RunnerClass, timeoutSeconds: nat, tokenScope: TokenScope,
                             cacheMounts: seq<CacheMount>, artifactPaths: seq<ArtifactPath>)

  datatype PendingJob = PendingJob(origin: string, job: Job, needs: seq<string>)

  datatype CompileError =
    MissingJobs | MissingSteps(job: string) | InvalidDependency(job: string, need: string)
    | Validation(fault: ValidationError)

  type Hash = string -> string

  // ---------------------------------------------------------- matrix expansion

  function MatrixKey(axis: string): string { "matrix." + axis }

  function MatrixInputs(combo: Combo, keys: seq<string>): map<string, string> {
    if keys == [] then map[]
    else MatrixInputs(combo, keys[..|keys| - 1])
         [MatrixKey(keys[|keys| - 1]) := if keys[|keys| - 1] in combo then combo[keys[|keys| - 1]] else ""]
  }

  function DefaultCacheMounts(id: string, hash: Hash): seq<CacheMount> {
    [CacheMount(id + "-cargo-target", "target/", ReadOnly, hash("default-cache|" + id + "|target"))]
  }

  function JobOf(d: JobDecl, combo: Combo, hash: Hash): Job {
    var id := ExpandedId(d.origin, combo);
    Job(id, ExpandedName(d.origin, combo), d.runner, InstantiateSteps(d.steps, combo, id),
        MatrixInputs(combo, Iter(combo.Keys)), map[],
        if d.cacheMounts == [] then DefaultCacheMounts(id, hash) else d.cacheMounts,
        d.artifactPaths, Deny, d.tokenScope, d.timeoutSeconds, 1, 0)
  }

  function PendingOf(d: JobDecl, combo: Combo, hash: Hash): PendingJob {
    PendingJob(d.origin, JobOf(d, combo, hash), d.needs)
  }

  function Lowering(d: JobDecl, hash: Hash): Combo -> PendingJob { combo => PendingOf(d, combo, hash) }

  /** One pending job per combination, in combination order. */
  ghost function Expansion(d: JobDecl, hash: Hash): seq<PendingJob> { MapSeq(Lowering(d, hash), Combos(d.matrix)) }

  ghost function ExpansionWith(hash: Hash): JobDecl -> seq<PendingJob> { d => Expansion(d, hash) }

  /** All pending jobs of a workflow. */
  ghost function Expansions(decls: seq<JobDecl>, hash: Hash): seq<PendingJob> {
    Concat(MapSeq(ExpansionWith(hash), decls))
  }

  predicate HasSteps(d: JobDecl) { |d.steps| > 0 }

  /** The tail of `parse_github_job`: a job without steps is refused, the rest is expanded. */
  method ExpandDecl(d: JobDecl, hash: Hash) returns (r: Result<seq<PendingJob>, CompileError>)
    ensures r.Err? <==> !HasSteps(d)
    ensures r.Err? ==> r.error == MissingSteps(d.origin)
    ensures r.Ok? ==> r.value == Expansion(d, hash)
  {
    if !HasSteps(d) { return Err(MissingSteps(d.origin)); }
    var combos := MatrixCombinations(d.matrix);
    var jobs := PushEach(Lowering(d, hash), combos);
    return Ok(jobs);
  }

  /** The first declaration without steps. */
  function Stepless(decls: seq<JobDecl>): Option<string> {
    if decls == [] then None
    else if !HasSteps(decls[0]) then Some(decls[0].origin)
    else Stepless(decls[1..])
  }

  /** All jobs of a workflow, in order; the first one without steps stops the expansion. */
  method ExpandAll(decls: seq<JobDecl>, hash: Hash) returns (r: Result<seq<PendingJob>, CompileError>)
    ensures r.Ok? <==> Stepless(decls).None?
    ensures r.Ok? ==> r.value == Expansions(decls, hash)
    ensures r.Err? ==> r.error == MissingSteps(Stepless(decls).value)
  {
    ghost var expand := ExpansionWith(hash);
    var pending := [];
    for i := 0 to |decls|
      invariant pending == Concat(MapSeq(expand, decls[..i]))
      invariant Stepless(decls) == Stepless(decls[i..])
    {
      ConcatMapGrows(expand, decls, i);
      assert decls[i..][1..] == decls[i + 1..];
      var part := ExpandDecl(decls[i], hash);
      if part.Err? { return Err(part.error); }
      pending := pending + part.value;
    }
    assert decls[..|decls|] == decls;
    return Ok(pending);
  }

  // ------------------------------------------------------------ edge resolution

  ghost predicate IsOrigin(pending: seq<PendingJob>, origin: string) {
    exists a :: a in pending && a.origin == origin
  }

  /** `e` is the edge from some expansion of `need` to `item`. */
  ghost predicate EdgeFor(pending: seq<PendingJob>, item: PendingJob, need: string, e: Dependency) {
    exists a :: a in pending && a.origin == need && e == Dependency(a.job.id, item.job.id)
  }

  /** `e` leads from an expansion of a needed origin to an expansion that needs it. */
  ghost predicate NeedEdge(pending: seq<PendingJob>, e: Dependency) {
    exists a, b :: a in pending && b in pending && a.origin in b.needs && e == Dependency(a.job.id, b.job.id)
  }

  /** The edge list mirrors the edge set, each edge once. */
  ghost predicate Mirrors(edges: seq<Dependency>, edgeSet: set<Dependency>) {
    NoDuplicates(edges) && forall e :: e in edges <==> e in edgeSet
  }

  /** The recorded expansions of every origin. */
  ghost predicate Groups(m: map<string, seq<string>>, pending: seq<PendingJob>) {
    && (forall o :: o in m <==> IsOrigin(pending, o))
    && (forall o, id :: o in m ==> (id in m[o] <==> exists a :: a in pending && a.origin == o && a.job.id == id))
  }

  method GroupByOrigin(pending: seq<PendingJob>) returns (m: map<string, seq<string>>)
    ensures Groups(m, pending)
  {
    m := map[];
    for i := 0 to |pending|
      invariant Groups(m, pending[..i])
    {
      var item := pending[i];
      assert pending[..i + 1] == pending[..i] + [item];
      ghost var before := m;
      m := m[item.origin := (if item.origin in m then m[item.origin] else []) + [item.job.id]];
      GroupsGrow(before, m, pending[..i], item);
    }
    assert pending[..|pending|] == pending;
  }

  lemma GroupsGrow(before: map<string, seq<string>>, after: map<string, seq<string>>, pending: seq<PendingJob>,
                   item: PendingJob)
    requires Groups(before, pending)
    requires after == before[item.origin := (if item.origin in before then before[item.origin] else []) + [item.job.id]]
    ensures Groups(after, pending + [item])
  {
    var all := pending + [item];
    assert item in all;
    forall o ensures o in after <==> IsOrigin(all, o) {
      if o in before {
        var a :| a in pending && a.origin == o;
        assert a in all;
      }
    }
    forall o, id | o in after ensures id in after[o] <==> exists a :: a in all && a.origin == o && a.job.id == id {
      if o in before && id in before[o] {
        var a :| a in pending && a.origin == o && a.job.id == id;
        assert a in all;
      }
      if exists a :: a in all && a.origin == o && a.job.id == id {
        var a :| a in all && a.origin == o && a.job.id == id;
        if a in pending { assert IsOrigin(pending, o); }
      }
    }
  }

  /** Adds one edge per expansion of a needed origin, skipping edges already present. */
  method AddEdges(froms: seq<string>, to: string, edgeSet: set<Dependency>, edges: seq<Dependency>)
    returns (set': set<Dependency>, list': seq<Dependency>)
    requires Mirrors(edges, edgeSet)
    ensures Mirrors(list', set')
    ensures forall e :: e in set' <==> e in edgeSet || (e.to == to && e.from in froms)
  {
    set', list' := edgeSet, edges;
    for i := 0 to |froms|
      invariant Mirrors(list', set')
      invariant forall e :: e in set' <==> e in edgeSet || (e.to == to && e.from in froms[..i])
    {
      assert froms[..i + 1] == froms[..i] + [froms[i]];
      var edge := Dependency(froms[i], to);
      if edge !in set' {
        set' := set' + {edge};
        list' := list' + [edge];
      }
    }
    assert froms[..|froms|] == froms;
  }

  /** All `needs` of one pending job. */
  method ResolveNeeds(pending: seq<PendingJob>, m: map<string, seq<string>>, item: PendingJob,
                      edgeSet: set<Dependency>, edges: seq<Dependency>)
    returns (set': set<Dependency>, list': seq<Dependency>, bad: Option<string>)
    requires Groups(m, pending) && Mirrors(edges, edgeSet)
    ensures bad.None? ==> Mirrors(list', set')
    ensures bad.None? ==> forall n :: n in item.needs ==> IsOrigin(pending, n)
    ensures bad.None? ==> forall e :: e in set' <==>
            e in edgeSet || exists n :: n in item.needs && EdgeFor(pending, item, n, e)
    ensures bad.Some? ==>
      exists k :: 0 <= k < |item.needs| && item.needs[k] == bad.value && !IsOrigin(pending, bad.value)
                                      && forall j :: 0 <= j < k ==> IsOrigin(pending, item.needs[j])
  {
    set', list', bad := edgeSet, edges, None;
    for i := 0 to |item.needs|
      invariant Mirrors(list', set')
      invariant forall j :: 0 <= j < i ==> IsOrigin(pending, item.needs[j])
      invariant forall e ::
        e in set' <==> e in edgeSet || exists n :: n in item.needs[..i] && EdgeFor(pending, item, n, e)
    {
      var need := item.needs[i];
      assert item.needs[..i + 1] == item.needs[..i] + [need];
      if need !in m {
        bad := Some(need);
        return;
      }
      ghost var before := set';
      set', list' := AddEdges(m[need], item.job.id, set', list');
      forall e
        ensures e in set' <==> e in edgeSet || exists n :: n in item.needs[..i + 1] && EdgeFor(pending, item, n, e) {
        assert e in set' <==> e in before || EdgeFor(pending, item, need, e);
      }
    }
    assert item.needs[..|item.needs|] == item.needs;
  }

  /** The first unresolved need, in list order. */
  ghost predicate FirstUnresolved(pending: seq<PendingJob>, i: int, k: int) {
    && 0 <= i < |pending| && 0 <= k < |pending[i].needs|
    && !IsOrigin(pending, pending[i].needs[k])
    && (forall j :: 0 <= j < k ==> IsOrigin(pending, pending[i].needs[j]))
    && (forall a, j :: 0 <= a < i && 0 <= j < |pending[a].needs| ==> IsOrigin(pending, pending[a].needs[j]))
  }

  ghost predicate Resolved(pending: seq<PendingJob>) {
    forall b, n :: b in pending && n in b.needs ==> IsOrigin(pending, n)
  }

  ghost function JobsOf(pending: seq<PendingJob>): seq<Job> {
    seq(|pending|, i requires 0 <= i < |pending| => pending[i].job)
  }

  /** What the assembled pipeline is, given the pending jobs. */
  ghost predicate Assembled(pending: seq<PendingJob>, header: Header, p: Pipeline) {
    && p.header == header
    && multiset(p.jobs) == multiset(JobsOf(pending)) && Sorted(p.jobs, JobIdLe)
    && Sorted(p.edges, EdgeLe) && NoDuplicates(p.edges)
    && (forall e :: e in p.edges <==> NeedEdge(pending, e))
  }

  method ResolveAll(pending: seq<PendingJob>) returns (r: Result<seq<Dependency>, CompileError>)
    ensures r.Ok? ==> Resolved(pending) && NoDuplicates(r.value) && forall e :: e in r.value <==> NeedEdge(pending, e)
    ensures r.Err? ==>
      exists i, k ::
        FirstUnresolved(pending, i, k) && r.error == InvalidDependency(pending[i].origin, pending[i].needs[k])
  {
    var m := GroupByOrigin(pending);
    var edgeSet: set<Dependency>, edges := {}, [];
    for i := 0 to |pending|
      invariant Mirrors(edges, edgeSet)
      invariant forall a, j :: 0 <= a < i && 0 <= j < |pending[a].needs| ==> IsOrigin(pending, pending[a].needs[j])
      invariant forall e ::
        e in edgeSet <==> exists b, n :: b in pending[..i] && n in b.needs && EdgeFor(pending, b, n, e)
    {
      var item := pending[i];
      assert pending[..i + 1] == pending[..i] + [item];
      var set', list', bad := ResolveNeeds(pending, m, item, edgeSet, edges);
      if bad.Some? {
        ghost var k :| 0 <= k < |item.needs| && item.needs[k] == bad.value && !IsOrigin(pending, bad.value)
                       && forall j :: 0 <= j < k ==> IsOrigin(pending, item.needs[j]);
        assert FirstUnresolved(pending, i, k);
        return Err(InvalidDependency(item.origin, bad.value));
      }
      edgeSet, edges := set', list';
    }
    assert pending[..|pending|] == pending;
    forall e ensures e in edges <==> NeedEdge(pending, e) { EdgeForAll(pending, e); }
    return Ok(edges);
  }

  lemma EdgeForAll(pending: seq<PendingJob>, e: Dependency)
    ensures (exists b, n :: b in pending && n in b.needs && EdgeFor(pending, b, n, e)) <==> NeedEdge(pending, e)
  {
    if NeedEdge(pending, e) {
      var a, b :| a in pending && b in pending && a.origin in b.needs && e == Dependency(a.job.id, b.job.id);
      assert EdgeFor(pending, b, a.origin, e);
    }
  }

  /** `finish_pipeline`. */
  method FinishPipeline(header: Header, pending: seq<PendingJob>) returns (r: Result<Pipeline, CompileError>)
    ensures pending == [] ==> r == Err(MissingJobs)
    ensures r.Ok? <==> pending != [] && Resolved(pending)
    ensures r.Err? && pending != [] ==>
      exists i, k ::
        FirstUnresolved(pending, i, k) && r.error == InvalidDependency(pending[i].origin, pending[i].needs[k])
    ensures r.Ok? ==> Assembled(pending, header, r.value)
  {
    if pending == [] { return Err(MissingJobs); }
    var jobs := [];
    for i := 0 to |pending|
      invariant |jobs| == i && forall k :: 0 <= k < i ==> jobs[k] == pending[k].job
    {
      jobs := jobs + [pending[i].job];
    }
    assert jobs == JobsOf(pending);
    var edges := ResolveAll(pending);
    if edges.Err? {
      ghost var i, k :|
        FirstUnresolved(pending, i, k) && edges.error == InvalidDependency(pending[i].origin, pending[i].needs[k]);
      assert pending[i] in pending && pending[i].needs[k] in pending[i].needs;
      return Err(edges.error);
    }
    JobIdLeIsTotalOrder();
    EdgeLeIsTotalOrder();
    StableSortSorts(jobs, JobIdLe);
    StableSortSorts(edges.value, EdgeLe);
    SortKeepsSet(edges.value, StableSort(edges.value, EdgeLe));
    return Ok(Pipeline(header, StableSort(jobs, JobIdLe), StableSort(edges.value, EdgeLe)));
  }

  lemma SortKeepsSet<T(!new)>(a: seq<T>, b: seq<T>)
    requires multiset(a) == multiset(b) && NoDuplicates(a)
    ensures NoDuplicates(b) && forall e :: e in a <==> e in b
  {
    assert forall e :: e in a <==> e in multiset(a);
    assert forall e :: e in b <==> e in multiset(b);
    NoDuplicatesCount(a);
    NoDuplicatesCount(b);
  }

  lemma {:induction false} NoDuplicatesCount<T(!new)>(s: seq<T>)
    ensures NoDuplicates(s) <==> forall e :: multiset(s)[e] <= 1
    decreases |s|
  {
    if s != [] {
      var rest, last := s[..|s| - 1], s[|s| - 1];
      NoDuplicatesCount(rest);
      assert s == rest + [last];
      assert multiset(s) == multiset(rest) + multiset{last};
      if NoDuplicates(s) {
        assert NoDuplicates(rest);
        assert last !in rest;
        assert last !in multiset(rest);
      }
      if forall e :: multiset(s)[e] <= 1 {
        assert multiset(s)[last] <= 1;
        assert last !in multiset(rest);
        assert forall e :: multiset(rest)[e] <= multiset(s)[e];
        forall i, j | 0 <= i < j < |s| ensures s[i] != s[j] {
          if j == |s| - 1 { assert rest[i] in multiset(rest); } else { assert rest[i] != rest[j]; }
        }
      }
    }
  }

  // ------------------------------------------------------------------ compile

  function IdText(source: string, repo: string, commit: string, irHash: string): string {
    "pipeline|" + source + "|" + repo + "|" + commit + "|" + irHash
  }

  function PipelineId(p: Pipeline, hash: Hash): string {
    hash(IdText(SourceText(p.header.source), p.header.repo, p.header.commit, IrHash(p, hash)))
  }

  /** The pipeline handed to validation: assembled, with the rehashed id. */
  ghost predicate Finished(pending: seq<PendingJob>, header: Header, hash: Hash, p: Pipeline) {
    Assembled(pending, p.header, p) && p.header == header.(id := PipelineId(p.(header := header), hash))
  }

  lemma FiveParts(a: string, b: string, c: string, d: string, e: string)
    requires '|' !in a && '|' !in b && '|' !in c && '|' !in d && '|' !in e
    ensures Split(a + "|" + (b + "|" + (c + "|" + (d + "|" + e))), '|') == [a, b, c, d, e]
  {
    assert "|" == ['|'];
    SplitFirst(a, '|', b + "|" + (c + "|" + (d + "|" + e)));
    SplitFirst(b, '|', c + "|" + (d + "|" + e));
    SplitFirst(c, '|', d + "|" + e);
    SplitFirst(d, '|', e);
  }

  lemma IdTextSplits(source: string, repo: string, commit: string, irHash: string)
    requires '|' !in source && '|' !in repo && '|' !in commit && '|' !in irHash
    ensures Split(IdText(source, repo, commit, irHash), '|') == ["pipeline", source, repo, commit, irHash]
  {
    var rest := source + "|" + (repo + "|" + (commit + "|" + irHash));
    FiveParts("pipeline", source, repo, commit, irHash);
    assert IdText(source, repo, commit, irHash) == "pipeline" + "|" + rest;
  }

  /** `text` names the source, the repository, the commit and a hash, between bars. */
  ghost predicate IdParts(text: string, header: Header, irHash: string) {
    Split(text, '|') == ["pipeline", SourceText(header.source), header.repo, header.commit, irHash]
  }

  /** The id of a finished pipeline is the hash of a text that reads back to its source, repository,
      commit and the hash of its canonical text before the id was set. */
  lemma IdTextReadsBack(pending: seq<PendingJob>, header: Header, hash: Hash, p: Pipeline)
    requires Finished(pending, header, hash, p)
    requires '|' !in SourceText(header.source) && '|' !in header.repo && '|' !in header.commit
    requires '|' !in IrHash(p.(header := header), hash)
    ensures exists text :: p.header.id == hash(text) && IdParts(text, header, IrHash(p.(header := header), hash))
  {
    var irHash := IrHash(p.(header := header), hash);
    IdTextSplits(SourceText(header.source), header.repo, header.commit, irHash);
    var text := IdText(SourceText(header.source), header.repo, header.commit, irHash);
    assert p.header.id == hash(text) && IdParts(text, header, irHash);
  }

  ghost predicate UsableJobs(pending: seq<PendingJob>) {
    forall a :: a in pending ==> !Blank(a.job.id) && a.job.steps != []
  }

  ghost predicate NoSelfNeeds(pending: seq<PendingJob>) { forall a :: a in pending ==> a.origin !in a.needs }

  /** What validation asks for, said of the pending jobs: usable repo, commit and ids, steps in every
      job, no id twice and no job that needs its own origin. */
  ghost predicate Acceptable(header: Header, pending: seq<PendingJob>) {
    && !Blank(header.repo) && !Blank(header.commit)
    && UsableJobs(pending) && NoSelfNeeds(pending) && DistinctIds(JobsOf(pending))
  }

  lemma AssembledJobs(pending: seq<PendingJob>, header: Header, p: Pipeline, j: Job)
    requires Assembled(pending, header, p)
    ensures j in p.jobs <==> exists a :: a in pending && a.job == j
  {
    if j in p.jobs {
      assert j in multiset(p.jobs) && j in multiset(JobsOf(pending));
      var i :| 0 <= i < |JobsOf(pending)| && JobsOf(pending)[i] == j;
      assert pending[i] in pending;
    }
    if exists a :: a in pending && a.job == j {
      var a :| a in pending && a.job == j;
      AssembledIds(pending, header, p, a);
    }
  }

  lemma AssembledDistinct(pending: seq<PendingJob>, header: Header, p: Pipeline)
    requires Assembled(pending, header, p)
    ensures DistinctIds(p.jobs) <==> DistinctIds(JobsOf(pending))
  {
    S.RearrangedDistinct(p, p.(jobs := JobsOf(pending)));
  }

  lemma AssembledEdgesKnown(pending: seq<PendingJob>, header: Header, p: Pipeline)
    requires Assembled(pending, header, p)
    ensures forall e :: e in p.edges ==> e.from in JobIds(p.jobs) && e.to in JobIds(p.jobs)
  {
    forall e | e in p.edges ensures e.from in JobIds(p.jobs) && e.to in JobIds(p.jobs) {
      var a, b :| a in pending && b in pending && a.origin in b.needs && e == Dependency(a.job.id, b.job.id);
      AssembledIds(pending, header, p, a);
      AssembledIds(pending, header, p, b);
    }
  }

  /** With distinct ids, an edge from a job to itself is a job that needs its own origin. */
  lemma SelfEdges(pending: seq<PendingJob>, header: Header, p: Pipeline)
    requires Assembled(pending, header, p) && DistinctIds(p.jobs)
    ensures (forall e :: e in p.edges ==> e.from != e.to) <==> NoSelfNeeds(pending)
  {
    if a :| a in pending && a.origin in a.needs {
      assert NeedEdge(pending, Dependency(a.job.id, a.job.id));
      assert Dependency(a.job.id, a.job.id) in p.edges;
    }
    if e :| e in p.edges && e.from == e.to {
      var a, b :| a in pending && b in pending && a.origin in b.needs && e == Dependency(a.job.id, b.job.id);
      PendingIdsDiffer(pending, header, p, a, b);
    }
  }

  lemma AssembledCleanJobs(pending: seq<PendingJob>, header: Header, p: Pipeline)
    requires Assembled(pending, header, p)
    ensures (forall j :: j in p.jobs ==> !Blank(j.id) && j.steps != []) <==>
            UsableJobs(pending)
  {
    forall j ensures j in p.jobs <==> exists a :: a in pending && a.job == j { AssembledJobs(pending, header, p, j); }
    forall a | a in pending ensures a.job in p.jobs { AssembledIds(pending, header, p, a); }
  }

  /** An assembled pipeline passes validation exactly when its pending jobs are acceptable. */
  lemma AcceptableIsWellFormed(pending: seq<PendingJob>, p: Pipeline)
    requires Assembled(pending, p.header, p)
    ensures WellFormed(p) <==> Acceptable(p.header, pending)
  {
    AssembledDistinct(pending, p.header, p);
    AssembledCleanJobs(pending, p.header, p);
    AssembledEdgesKnown(pending, p.header, p);
    if DistinctIds(p.jobs) { SelfEdges(pending, p.header, p); }
  }

  /** Assembly, id and validation of the pending jobs. */
  method AssembleAndValidate(header: Header, pending: seq<PendingJob>, hash: Hash)
    returns (r: Result<Pipeline, CompileError>)
    ensures r.Ok? <==> pending != [] && Resolved(pending) && Acceptable(header, pending)
    ensures r.Ok? ==> WellFormed(r.value) && Finished(pending, header, hash, r.value)
    ensures (r.Err? && r.error.MissingJobs?) <==> pending == []
    ensures (r.Err? && r.error.InvalidDependency?) <==> pending != [] && !Resolved(pending)
    ensures r.Err? && r.error.InvalidDependency? ==>
      exists i, k ::
        FirstUnresolved(pending, i, k) && r.error == InvalidDependency(pending[i].origin, pending[i].needs[k])
    ensures r.Err? && r.error.Validation? ==>
      exists p :: Finished(pending, header, hash, p) && FirstFault(p, r.error.fault)
    ensures r.Err? ==> !r.error.MissingSteps?
  {
    var done := FinishPipeline(header, pending);
    if done.Err? { return Err(done.error); }
    var p := done.value.(header := header.(id := PipelineId(done.value, hash)));
    assert p.(header := header) == done.value;
    assert Finished(pending, header, hash, p);
    AcceptableIsWellFormed(pending, p);
    var valid := Validate(p);
    if valid.Err? { return Err(Validation(valid.error)); }
    return Ok(p);
  }

  // ------------------------------------------------------- workflows that compile

  /** The job has at least one expansion: no axis of its matrix is without values. */
  ghost predicate Expands(d: JobDecl) { forall x :: x in d.matrix ==> d.matrix[x] != [] }

  /** Some job of this name has an expansion. */
  ghost predicate Offers(decls: seq<JobDecl>, origin: string) {
    exists d :: d in decls && d.origin == origin && Expands(d)
  }

  ghost predicate DistinctIdsIn(d: JobDecl) {
    forall x, y :: InProduct(x, d.matrix) && InProduct(y, d.matrix) && x != y ==>
      ExpandedId(d.origin, x) != ExpandedId(d.origin, y)
  }

  /** The expansions of one job get different ids: no axis repeats a value, and different combinations
      differ after sanitising. */
  ghost predicate DistinctWithin(d: JobDecl) {
    DistinctValues(d) && DistinctIdsIn(d)
  }

  ghost predicate DistinctValues(d: JobDecl) { Expands(d) ==> forall x :: x in d.matrix ==> NoDuplicates(d.matrix[x]) }

  ghost predicate DistinctAcross(d: JobDecl, e: JobDecl) {
    forall x, y :: InProduct(x, d.matrix) && InProduct(y, e.matrix) ==>
      ExpandedId(d.origin, x) != ExpandedId(e.origin, y)
  }

  /** Every need of a job that expands names a job that does. */
  ghost predicate NeedsOffered(decls: seq<JobDecl>) {
    forall d, n :: d in decls && Expands(d) && n in d.needs ==> Offers(decls, n)
  }

  /** No job that expands needs itself. */
  ghost predicate NeedsOthers(decls: seq<JobDecl>) {
    forall d :: d in decls && Expands(d) ==> d.origin !in d.needs
  }

  ghost predicate DistinctNames(decls: seq<JobDecl>) {
    && (forall i :: 0 <= i < |decls| ==> DistinctWithin(decls[i]))
    && (forall i, j :: 0 <= i < j < |decls| ==> DistinctAcross(decls[i], decls[j]))
  }

  /** Exactly the workflows that compile, in terms of their declarations. */
  ghost predicate Compiles(context: Context, decls: seq<JobDecl>) {
    && !Blank(context.repo) && !Blank(context.commit)
    && (forall d :: d in decls ==> HasSteps(d)) && (exists d :: d in decls && Expands(d))
    && NeedsOffered(decls) && NeedsOthers(decls) && DistinctNames(decls)
  }

  lemma {:induction false} SteplessNone(decls: seq<JobDecl>)
    ensures Stepless(decls).None? <==> forall d :: d in decls ==> HasSteps(d)
    decreases |decls|
  {
    if decls != [] {
      SteplessNone(decls[1..]);
      assert decls == [decls[0]] + decls[1..];
    }
  }

  lemma PendingNeeds(d: JobDecl, x: Combo, hash: Hash)
    ensures PendingOf(d, x, hash).needs == d.needs && PendingOf(d, x, hash).origin == d.origin
    ensures PendingOf(d, x, hash).job.id == ExpandedId(d.origin, x)
    ensures |PendingOf(d, x, hash).job.steps| == |d.steps|
  {
  }

  /** The expansions of a job are its lowered combinations. */
  lemma ExpansionOf(d: JobDecl, hash: Hash, a: PendingJob)
    ensures a in Expansion(d, hash) <==> exists x :: InProduct(x, d.matrix) && a == PendingOf(d, x, hash)
  {
    var lower, combos := Lowering(d, hash), Combos(d.matrix);
    if a in Expansion(d, hash) {
      var i :| 0 <= i < |Expansion(d, hash)| && Expansion(d, hash)[i] == a;
      assert a == lower(combos[i]);
      ExpansionIsTheProduct(d.matrix, combos[i]);
    }
    if exists x :: InProduct(x, d.matrix) && a == PendingOf(d, x, hash) {
      var x :| InProduct(x, d.matrix) && a == PendingOf(d, x, hash);
      ExpansionIsTheProduct(d.matrix, x);
      MapMember(lower, combos, x);
      assert lower(x) == a;
    }
  }

  lemma ExpandsHasProduct(d: JobDecl) returns (x: Combo)
    requires Expands(d)
    ensures InProduct(x, d.matrix)
  {
    x := map k | k in d.matrix :: d.matrix[k][0];
  }

  lemma ProductMeansExpands(d: JobDecl, x: Combo)
    requires InProduct(x, d.matrix)
    ensures Expands(d)
  {
  }

  /** The pending job comes from a declaration. */
  ghost predicate Declared(decls: seq<JobDecl>, a: PendingJob) {
    exists d :: d in decls && Expands(d) && a.origin == d.origin && a.needs == d.needs
                && |a.job.steps| == |d.steps| && IsCleanId(a.job.id)
  }

  /** Some pending job comes from the declaration. */
  ghost predicate Shown(pending: seq<PendingJob>, d: JobDecl) {
    exists a :: a in pending && a.origin == d.origin && a.needs == d.needs
  }

  /** The pending jobs stand for the declarations that expand, and for nothing else. */
  ghost predicate Represents(pending: seq<PendingJob>, decls: seq<JobDecl>) {
    && (forall a :: a in pending ==> Declared(decls, a))
    && (forall d :: d in decls && Expands(d) ==> Shown(pending, d))
  }

  lemma ExpansionIsDeclared(decls: seq<JobDecl>, d: JobDecl, hash: Hash, a: PendingJob)
    requires d in decls && a in Expansion(d, hash)
    ensures Declared(decls, a)
  {
    ExpansionOf(d, hash, a);
    var x :| InProduct(x, d.matrix) && a == PendingOf(d, x, hash);
    ProductMeansExpands(d, x);
    PendingNeeds(d, x, hash);
  }

  lemma DeclarationIsShown(decls: seq<JobDecl>, d: JobDecl, hash: Hash)
    requires d in decls && Expands(d)
    ensures Shown(Expansions(decls, hash), d)
  {
    var x := ExpandsHasProduct(d);
    ExpansionMember(decls, hash, d, x);
    PendingNeeds(d, x, hash);
  }

  lemma ExpansionsRepresent(decls: seq<JobDecl>, hash: Hash)
    ensures Represents(Expansions(decls, hash), decls)
  {
    var expand := ExpansionWith(hash);
    forall a | a in Expansions(decls, hash) ensures Declared(decls, a) {
      ConcatMapMember(expand, decls, a);
      var d :| d in decls && a in expand(d);
      ExpansionIsDeclared(decls, d, hash, a);
    }
    forall d | d in decls && Expands(d)
      ensures Shown(Expansions(decls, hash), d) {
      DeclarationIsShown(decls, d, hash);
    }
  }

  lemma OriginsAreOffered(pending: seq<PendingJob>, decls: seq<JobDecl>, n: string)
    requires Represents(pending, decls)
    ensures IsOrigin(pending, n) <==> Offers(decls, n)
  {
    if IsOrigin(pending, n) {
      var a :| a in pending && a.origin == n;
      assert Declared(decls, a);
    }
    if Offers(decls, n) {
      var d :| d in decls && d.origin == n && Expands(d);
      assert Shown(pending, d);
    }
  }

  lemma SomethingExpands(pending: seq<PendingJob>, decls: seq<JobDecl>)
    requires Represents(pending, decls)
    ensures pending != [] <==> exists d :: d in decls && Expands(d)
  {
    if pending != [] {
      assert pending[0] in pending;
      assert Declared(decls, pending[0]);
    }
    if d :| d in decls && Expands(d) { assert Shown(pending, d); }
  }

  lemma NeedsResolve(pending: seq<PendingJob>, decls: seq<JobDecl>)
    requires Represents(pending, decls)
    ensures Resolved(pending) <==> NeedsOffered(decls)
  {
    forall n ensures IsOrigin(pending, n) <==> Offers(decls, n) { OriginsAreOffered(pending, decls, n); }
    if NeedsOffered(decls) {
      forall a, n | a in pending && n in a.needs ensures IsOrigin(pending, n) { assert Declared(decls, a); }
    }
    if Resolved(pending) {
      forall d, n | d in decls && Expands(d) && n in d.needs ensures Offers(decls, n) { assert Shown(pending, d); }
    }
  }

  lemma SelfNeeds(pending: seq<PendingJob>, decls: seq<JobDecl>)
    requires Represents(pending, decls)
    ensures NoSelfNeeds(pending) <==> NeedsOthers(decls)
  {
    if NeedsOthers(decls) {
      forall a | a in pending ensures a.origin !in a.needs { assert Declared(decls, a); }
    }
    if NoSelfNeeds(pending) {
      forall d | d in decls && Expands(d) ensures d.origin !in d.needs { assert Shown(pending, d); }
    }
  }

  lemma CleanIdsAreUsable(id: string)
    requires IsCleanId(id)
    ensures !Blank(id)
  {
    assert !IsSpace(id[0]);
  }

  lemma StepsOfExpansions(pending: seq<PendingJob>, decls: seq<JobDecl>)
    requires Represents(pending, decls) && forall d :: d in decls ==> HasSteps(d)
    ensures UsableJobs(pending)
  {
    forall a | a in pending ensures !Blank(a.job.id) && a.job.steps != [] {
      assert Declared(decls, a);
      CleanIdsAreUsable(a.job.id);
    }
  }

  // ------------------------------------------------------------ distinct expanded ids

  ghost predicate DifferentIds(a: seq<PendingJob>, b: seq<PendingJob>) {
    forall x, y :: x in a && y in b ==> x.job.id != y.job.id
  }

  lemma DistinctAppend(a: seq<PendingJob>, b: seq<PendingJob>)
    ensures DistinctIds(JobsOf(a + b)) <==> DistinctIds(JobsOf(a)) && DistinctIds(JobsOf(b)) && DifferentIds(a, b)
  {
    var s, p, q := JobsOf(a + b), JobsOf(a), JobsOf(b);
    assert s == p + q;
    if DistinctIds(s) {
      forall i, j | 0 <= i < j < |q| ensures q[i].id != q[j].id { assert s[|p| + i].id != s[|p| + j].id; }
      forall i, j | 0 <= i < j < |p| ensures p[i].id != p[j].id { assert s[i].id != s[j].id; }
      forall x, y | x in a && y in b ensures x.job.id != y.job.id {
        var i :| 0 <= i < |a| && a[i] == x;
        var j :| 0 <= j < |b| && b[j] == y;
        assert s[i].id != s[|p| + j].id;
      }
    }
    if DistinctIds(p) && DistinctIds(q) && DifferentIds(a, b) {
      forall i, j | 0 <= i < j < |s| ensures s[i].id != s[j].id {
        if j < |p| {
          assert p[i].id != p[j].id;
        } else if i >= |p| {
          assert q[i - |p|].id != q[j - |p|].id;
        } else {
          assert a[i] in a && b[j - |p|] in b;
        }
      }
    }
  }

  lemma DifferentFromConcat(parts: seq<seq<PendingJob>>, b: seq<PendingJob>)
    ensures DifferentIds(Concat(parts), b) <==> forall i :: 0 <= i < |parts| ==> DifferentIds(parts[i], b)
  {
    forall x ensures x in Concat(parts) <==> exists part :: part in parts && x in part { ConcatMember(parts, x); }
    if forall i :: 0 <= i < |parts| ==> DifferentIds(parts[i], b) {
      forall x, y | x in Concat(parts) && y in b ensures x.job.id != y.job.id {
        var part :| part in parts && x in part;
        var i :| 0 <= i < |parts| && parts[i] == part;
        assert DifferentIds(parts[i], b);
      }
    }
    if DifferentIds(Concat(parts), b) {
      forall i | 0 <= i < |parts| ensures DifferentIds(parts[i], b) {
        assert parts[i] in parts;
      }
    }
  }

  lemma {:induction false} DistinctConcat(parts: seq<seq<PendingJob>>)
    ensures DistinctIds(JobsOf(Concat(parts))) <==>
            && (forall i :: 0 <= i < |parts| ==> DistinctIds(JobsOf(parts[i])))
            && (forall i, j :: 0 <= i < j < |parts| ==> DifferentIds(parts[i], parts[j]))
    decreases |parts|
  {
    if parts != [] {
      var k := |parts| - 1;
      DistinctConcat(parts[..k]);
      DistinctAppend(Concat(parts[..k]), parts[k]);
      DifferentFromConcat(parts[..k], parts[k]);
      assert forall i :: 0 <= i < k ==> parts[..k][i] == parts[i];
    }
  }

  ghost function IdFor(origin: string): Combo -> string { x => ExpandedId(origin, x) }

  ghost predicate DistinctUnder<T(!new)>(s: seq<T>, f: T -> string) {
    forall i, j :: 0 <= i < j < |s| ==> f(s[i]) != f(s[j])
  }

  ghost predicate InjectiveOn<T(!new)>(s: seq<T>, f: T -> string) {
    forall x, y :: x in s && y in s && x != y ==> f(x) != f(y)
  }

  lemma DistinctUnderExactly<T(!new)>(s: seq<T>, f: T -> string)
    ensures DistinctUnder(s, f) <==> NoDuplicates(s) && InjectiveOn(s, f)
  {
    if DistinctUnder(s, f) {
      forall x, y | x in s && y in s && x != y ensures f(x) != f(y) {
        var i :| 0 <= i < |s| && s[i] == x;
        var j :| 0 <= j < |s| && s[j] == y;
        assert i < j || j < i;
      }
    }
    if NoDuplicates(s) && InjectiveOn(s, f) {
      forall i, j | 0 <= i < j < |s| ensures f(s[i]) != f(s[j]) { assert s[i] in s && s[j] in s && s[i] != s[j]; }
    }
  }

  lemma ExpansionIds(d: JobDecl, hash: Hash)
    ensures DistinctIds(JobsOf(Expansion(d, hash))) <==> DistinctUnder(Combos(d.matrix), IdFor(d.origin))
  {
    var f, combos, jobs := IdFor(d.origin), Combos(d.matrix), JobsOf(Expansion(d, hash));
    assert |jobs| == |combos|;
    forall i | 0 <= i < |combos| ensures jobs[i].id == f(combos[i]) {
      assert Expansion(d, hash)[i] == Lowering(d, hash)(combos[i]);
      PendingNeeds(d, combos[i], hash);
    }
    SameDistinctness(jobs, combos, f);
  }

  lemma SameDistinctness<T(!new)>(jobs: seq<Job>, s: seq<T>, f: T -> string)
    requires |jobs| == |s| && forall i :: 0 <= i < |s| ==> jobs[i].id == f(s[i])
    ensures DistinctIds(jobs) <==> DistinctUnder(s, f)
  {
    if DistinctIds(jobs) {
      forall i, j | 0 <= i < j < |s| ensures f(s[i]) != f(s[j]) { assert jobs[i].id != jobs[j].id; }
    }
    if DistinctUnder(s, f) {
      forall i, j | 0 <= i < j < |s| ensures jobs[i].id != jobs[j].id { assert f(s[i]) != f(s[j]); }
    }
  }

  lemma DistinctExpansion(d: JobDecl, hash: Hash)
    ensures DistinctIds(JobsOf(Expansion(d, hash))) <==> DistinctWithin(d)
  {
    ExpansionIds(d, hash);
    DistinctUnderExactly(Combos(d.matrix), IdFor(d.origin));
    ListedValues(d);
    ListedIds(d);
  }

  lemma ListedValues(d: JobDecl)
    ensures NoDuplicates(Combos(d.matrix)) <==> DistinctValues(d)
  {
    CombosAreDistinctExactly(d.matrix);
  }

  lemma ListedIds(d: JobDecl)
    ensures InjectiveOn(Combos(d.matrix), IdFor(d.origin)) <==> DistinctIdsIn(d)
  {
    var f, combos := IdFor(d.origin), Combos(d.matrix);
    forall x ensures x in combos <==> InProduct(x, d.matrix) { ExpansionIsTheProduct(d.matrix, x); }
    if DistinctIdsIn(d) {
      forall x, y | x in combos && y in combos && x != y ensures f(x) != f(y) {
        assert InProduct(x, d.matrix) && InProduct(y, d.matrix);
      }
    }
    if InjectiveOn(combos, f) {
      forall x, y | InProduct(x, d.matrix) && InProduct(y, d.matrix) && x != y
        ensures ExpandedId(d.origin, x) != ExpandedId(d.origin, y) {
        assert x in combos && y in combos && f(x) != f(y);
      }
    }
  }

  lemma DifferentExpansions(d: JobDecl, e: JobDecl, hash: Hash)
    ensures DifferentIds(Expansion(d, hash), Expansion(e, hash)) <==> DistinctAcross(d, e)
  {
    if DifferentIds(Expansion(d, hash), Expansion(e, hash)) {
      forall x, y | InProduct(x, d.matrix) && InProduct(y, e.matrix)
        ensures ExpandedId(d.origin, x) != ExpandedId(e.origin, y) {
        ExpansionOf(d, hash, PendingOf(d, x, hash));
        ExpansionOf(e, hash, PendingOf(e, y, hash));
        PendingNeeds(d, x, hash);
        PendingNeeds(e, y, hash);
      }
    }
    if DistinctAcross(d, e) {
      forall a, b | a in Expansion(d, hash) && b in Expansion(e, hash) ensures a.job.id != b.job.id {
        ExpansionOf(d, hash, a);
        ExpansionOf(e, hash, b);
        var x :| InProduct(x, d.matrix) && a == PendingOf(d, x, hash);
        var y :| InProduct(y, e.matrix) && b == PendingOf(e, y, hash);
        PendingNeeds(d, x, hash);
        PendingNeeds(e, y, hash);
      }
    }
  }

  lemma DistinctParts(decls: seq<JobDecl>, parts: seq<seq<PendingJob>>)
    requires |parts| == |decls|
    requires forall i :: 0 <= i < |decls| ==> (DistinctIds(JobsOf(parts[i])) <==> DistinctWithin(decls[i]))
    requires forall i, j :: 0 <= i < j < |decls| ==>
      (DifferentIds(parts[i], parts[j]) <==> DistinctAcross(decls[i], decls[j]))
    ensures DistinctIds(JobsOf(Concat(parts))) <==> DistinctNames(decls)
  {
    DistinctConcat(parts);
  }

  /** The expanded ids of a workflow are distinct exactly when they are within each job and between jobs. */
  lemma DistinctWorkflow(decls: seq<JobDecl>, hash: Hash)
    ensures DistinctIds(JobsOf(Expansions(decls, hash))) <==> DistinctNames(decls)
  {
    var expand := ExpansionWith(hash);
    var parts := MapSeq(expand, decls);
    forall i | 0 <= i < |decls| ensures DistinctIds(JobsOf(parts[i])) <==> DistinctWithin(decls[i]) {
      assert parts[i] == expand(decls[i]);
      DistinctExpansion(decls[i], hash);
    }
    forall i, j | 0 <= i < j < |decls|
      ensures DifferentIds(parts[i], parts[j]) <==> DistinctAcross(decls[i], decls[j]) {
      assert parts[i] == expand(decls[i]) && parts[j] == expand(decls[j]);
      DifferentExpansions(decls[i], decls[j], hash);
    }
    DistinctParts(decls, parts);
  }

  /** Compilation succeeds on the expansions exactly when it should on the declarations. */
  lemma CompilesExactly(context: Context, decls: seq<JobDecl>, hash: Hash)
    ensures var all, header := Expansions(decls, hash), NewHeader(context, hash);
      Compiles(context, decls) <==> Stepless(decls).None? && all != [] && Resolved(all) && Acceptable(header, all)
  {
    ExpansionsRepresent(decls, hash);
    DistinctWorkflow(decls, hash);
    PendingDecide(context, NewHeader(context, hash), decls, Expansions(decls, hash));
  }

  lemma PendingDecide(context: Context, header: Header, decls: seq<JobDecl>, pending: seq<PendingJob>)
    requires header.repo == context.repo && header.commit == context.commit
    requires Represents(pending, decls) && (DistinctIds(JobsOf(pending)) <==> DistinctNames(decls))
    ensures Compiles(context, decls) <==>
            Stepless(decls).None? && pending != [] && Resolved(pending) && Acceptable(header, pending)
  {
    SteplessNone(decls);
    SomethingExpands(pending, decls);
    NeedsResolve(pending, decls);
    SelfNeeds(pending, decls);
    if Stepless(decls).None? { StepsOfExpansions(pending, decls); }
  }

  /** `Compiler::compile` after parsing: expand, assemble, rehash the id, validate. */
  method Compile(context: Context, decls: seq<JobDecl>, hash: Hash) returns (r: Result<Pipeline, CompileError>)
    ensures r.Ok? <==> Compiles(context, decls)
    ensures r.Ok? ==> WellFormed(r.value) && Finished(Expansions(decls, hash), NewHeader(context, hash), hash, r.value)
    ensures (r.Err? && r.error.MissingSteps?) <==> Stepless(decls).Some?
    ensures r.Err? && r.error.MissingSteps? ==> r.error.job == Stepless(decls).value
    ensures (r.Err? && r.error.MissingJobs?) <==> Stepless(decls).None? && Expansions(decls, hash) == []
    ensures (r.Err? && r.error.InvalidDependency?) <==>
            Stepless(decls).None? && Expansions(decls, hash) != [] && !Resolved(Expansions(decls, hash))
    ensures r.Err? && r.error.InvalidDependency? ==> exists i, k ::
      FirstUnresolved(Expansions(decls, hash), i, k)
      && r.error == InvalidDependency(Expansions(decls, hash)[i].origin, Expansions(decls, hash)[i].needs[k])
    ensures r.Err? && r.error.Validation? ==>
      exists p :: Finished(Expansions(decls, hash), NewHeader(context, hash), hash, p) && FirstFault(p, r.error.fault)
  {
    CompilesExactly(context, decls, hash);
    var expanded := ExpandAll(decls, hash);
    if expanded.Err? { return Err(expanded.error); }
    r := AssembleAndValidate(NewHeader(context, hash), expanded.value, hash);
  }

  // ------------------------------------------------------------- main results

  /** Compile then schedule preserves `needs`: every expansion of B is placed in a strictly earlier
      round than every expansion of A whenever A needs B. */
  lemma NeedsRunFirst(pending: seq<PendingJob>, p: Pipeline, hash: Hash, s: S.Schedule,
                      b: PendingJob, a: PendingJob, k: nat, l: nat)
    requires Assembled(pending, p.header, p) && S.Verdict(p, hash, Ok(s))
    requires a in pending && b in pending && b.origin in a.needs
    requires k < |s.rounds| && l < |s.rounds| && b.job.id in s.rounds[k].jobs && a.job.id in s.rounds[l].jobs
    ensures k < l
  {
    var e := Dependency(b.job.id, a.job.id);
    assert NeedEdge(pending, e);
    S.DependenciesFirst(s.rounds, JobIds(p.jobs), EdgeSet(p.edges), e, k, l);
  }

  lemma AssembledIds(pending: seq<PendingJob>, header: Header, p: Pipeline, a: PendingJob)
    requires Assembled(pending, header, p) && a in pending
    ensures a.job in p.jobs && a.job.id in JobIds(p.jobs)
  {
    var i :| 0 <= i < |pending| && pending[i] == a;
    assert JobsOf(pending)[i] == a.job;
    assert a.job in multiset(JobsOf(pending));
    assert a.job in multiset(p.jobs);
  }

  /** The same for a whole workflow: expansions named by their declarations and combinations. */
  lemma WorkflowNeedsRunFirst(decls: seq<JobDecl>, hash: Hash, p: Pipeline, s: S.Schedule,
                              needed: JobDecl, needing: JobDecl, x: Combo, y: Combo)
    requires Assembled(Expansions(decls, hash), p.header, p) && S.Verdict(p, hash, Ok(s))
    requires needed in decls && needing in decls && needed.origin in needing.needs
    requires InProduct(x, needed.matrix) && InProduct(y, needing.matrix)
    ensures exists k, l :: 0 <= k < l < |s.rounds|
              && ExpandedId(needed.origin, x) in s.rounds[k].jobs && ExpandedId(needing.origin, y) in s.rounds[l].jobs
  {
    var pending := Expansions(decls, hash);
    var b, a := PendingOf(needed, x, hash), PendingOf(needing, y, hash);
    ExpansionMember(decls, hash, needed, x);
    ExpansionMember(decls, hash, needing, y);
    AssembledIds(pending, p.header, p, a);
    AssembledIds(pending, p.header, p, b);
    var k :| 0 <= k < |s.rounds| && b.job.id in s.rounds[k].jobs;
    var l :| 0 <= l < |s.rounds| && a.job.id in s.rounds[l].jobs;
    NeedsRunFirst(pending, p, hash, s, b, a, k, l);
  }

  lemma ExpansionMember(decls: seq<JobDecl>, hash: Hash, d: JobDecl, combo: Combo)
    requires d in decls && InProduct(combo, d.matrix)
    ensures PendingOf(d, combo, hash) in Expansions(decls, hash)
  {
    ExpansionIsTheProduct(d.matrix, combo);
    var lower, expand := Lowering(d, hash), ExpansionWith(hash);
    MapMember(lower, Combos(d.matrix), combo);
    assert lower(combo) in expand(d);
    ConcatMapMember(expand, decls, lower(combo));
    assert lower(combo) == PendingOf(d, combo, hash);
  }

  /** The `needs` relation between origins, as a graph. */
  ghost function NeedsGraph(pending: seq<PendingJob>): set<Dependency> {
    set a, b | a in pending && b in pending && a.origin in b.needs :: Dependency(a.origin, b.origin)
  }

  /** Jobs expanded from one origin carry the same needs, as they do in a workflow with distinct job names. */
  ghost predicate UniformNeeds(pending: seq<PendingJob>) {
    forall a, b :: a in pending && b in pending && a.origin == b.origin ==> a.needs == b.needs
  }

  ghost predicate UniqueIds(pending: seq<PendingJob>) {
    forall a, b :: a in pending && b in pending && a.job.id == b.job.id ==> a.origin == b.origin
  }

  /** The origin a job id was expanded from. */
  ghost function OriginOf(pending: seq<PendingJob>, id: string): string {
    if exists a :: a in pending && a.job.id == id
    then var a :| a in pending && a.job.id == id; a.origin
    else ""
  }

  /** One job id expanded from an origin. */
  ghost function IdOf(pending: seq<PendingJob>, origin: string): string {
    if IsOrigin(pending, origin)
    then var a :| a in pending && a.origin == origin; a.job.id
    else ""
  }

  lemma IdEdgeToOriginEdge(pending: seq<PendingJob>, e: Dependency)
    requires UniqueIds(pending) && NeedEdge(pending, e)
    ensures Dependency(OriginOf(pending, e.from), OriginOf(pending, e.to)) in NeedsGraph(pending)
  {
    var a, b :| a in pending && b in pending && a.origin in b.needs && e == Dependency(a.job.id, b.job.id);
    assert OriginOf(pending, e.from) == a.origin && OriginOf(pending, e.to) == b.origin;
  }

  lemma OriginEdgeToIdEdge(pending: seq<PendingJob>, e: Dependency)
    requires UniformNeeds(pending) && e in NeedsGraph(pending)
    ensures NeedEdge(pending, Dependency(IdOf(pending, e.from), IdOf(pending, e.to)))
  {
    var a, b :| a in pending && b in pending && a.origin in b.needs && e == Dependency(a.origin, b.origin);
    assert IsOrigin(pending, e.from) && IsOrigin(pending, e.to);
    var x :| x in pending && x.origin == e.from && x.job.id == IdOf(pending, e.from);
    var y :| y in pending && y.origin == e.to && y.job.id == IdOf(pending, e.to);
    assert x.origin in y.needs;
  }

  /** Relabelling the members of a cycle edge by edge gives a cycle. */
  lemma MapCycle(p: seq<string>, from: set<Dependency>, to: set<Dependency>, f: string -> string)
    requires IsCycle(p, from)
    requires forall e :: e in from ==> Dependency(f(e.from), f(e.to)) in to
    ensures Cyclic(to)
  {
    var q := seq(|p|, i requires 0 <= i < |p| => f(p[i]));
    forall i | 0 <= i < |q| - 1 ensures Dependency(q[i], q[i + 1]) in to {
      var e := Dependency(p[i], p[i + 1]);
      assert e in from;
    }
    assert IsCycle(q, to);
  }

  /** The expanded graph is cyclic exactly when the `needs` of the workflow are. */
  lemma CycleVerdictIsAboutNeeds(pending: seq<PendingJob>, header: Header, p: Pipeline)
    requires Assembled(pending, header, p) && UniqueIds(pending) && UniformNeeds(pending)
    ensures Cyclic(EdgeSet(p.edges)) <==> Cyclic(NeedsGraph(pending))
  {
    if Cyclic(EdgeSet(p.edges)) {
      var c :| IsCycle(c, EdgeSet(p.edges));
      forall e | e in EdgeSet(p.edges)
        ensures Dependency(OriginOf(pending, e.from), OriginOf(pending, e.to)) in NeedsGraph(pending) {
        IdEdgeToOriginEdge(pending, e);
      }
      MapCycle(c, EdgeSet(p.edges), NeedsGraph(pending), id => OriginOf(pending, id));
    }
    if Cyclic(NeedsGraph(pending)) {
      var c :| IsCycle(c, NeedsGraph(pending));
      forall e | e in NeedsGraph(pending)
        ensures Dependency(IdOf(pending, e.from), IdOf(pending, e.to)) in EdgeSet(p.edges) {
        OriginEdgeToIdEdge(pending, e);
      }
      MapCycle(c, NeedsGraph(pending), EdgeSet(p.edges), o => IdOf(pending, o));
    }
  }

  /** Distinct job ids in the pipeline mean that no two pending jobs share an id. */
  lemma PendingIdsDiffer(pending: seq<PendingJob>, header: Header, p: Pipeline, a: PendingJob, b: PendingJob)
    requires Assembled(pending, header, p) && DistinctIds(p.jobs)
    requires a in pending && b in pending && a.job.id == b.job.id
    ensures a == b
  {
    var jobs := JobsOf(pending);
    S.RearrangedDistinct(p, p.(jobs := jobs));
    var i :| 0 <= i < |pending| && pending[i] == a;
    var j :| 0 <= j < |pending| && pending[j] == b;
    assert jobs[i].id == jobs[j].id;
  }

  /** Distinct job ids in the pipeline mean that an id names one origin only. */
  lemma DistinctIdsNameOrigins(pending: seq<PendingJob>, header: Header, p: Pipeline)
    requires Assembled(pending, header, p) && DistinctIds(p.jobs)
    ensures UniqueIds(pending)
  {
    forall a, b | a in pending && b in pending && a.job.id == b.job.id ensures a.origin == b.origin {
      PendingIdsDiffer(pending, header, p, a, b);
    }
  }

  lemma MatrixKeyIsInjective(a: string, b: string)
    ensures MatrixKey(a) == MatrixKey(b) <==> a == b
  {
    assert MatrixKey(a)[7..] == a && MatrixKey(b)[7..] == b;
  }

  lemma {:induction false} MatrixInputsAt(combo: Combo, keys: seq<string>, k: string)
    requires forall i :: 0 <= i < |keys| ==> keys[i] in combo
    ensures MatrixKey(k) in MatrixInputs(combo, keys) <==> k in keys
    ensures k in keys ==> k in combo && MatrixInputs(combo, keys)[MatrixKey(k)] == combo[k]
    decreases |keys|
  {
    if keys != [] {
      var rest, last := keys[..|keys| - 1], keys[|keys| - 1];
      MatrixInputsAt(combo, rest, k);
      assert keys == rest + [last];
      MatrixKeyIsInjective(k, last);
    }
  }

  /** `inputs` holds every axis value of the combination, under the axis name. */
  ghost predicate Describes(inputs: map<string, string>, combo: Combo) {
    forall k :: (k in combo <==> MatrixKey(k) in inputs) && (k in combo ==> inputs[MatrixKey(k)] == combo[k])
  }

  lemma InputsDescribe(combo: Combo, keys: seq<string>, inputs: map<string, string>)
    requires (forall k :: k in keys <==> k in combo) && inputs == MatrixInputs(combo, keys)
    ensures Describes(inputs, combo)
  {
    forall k ensures (k in combo <==> MatrixKey(k) in inputs) && (k in combo ==> inputs[MatrixKey(k)] == combo[k]) {
      MatrixInputsAt(combo, keys, k);
    }
  }

  lemma DescriptionIsUnique(inputs: map<string, string>, x: Combo, y: Combo)
    requires Describes(inputs, x) && Describes(inputs, y)
    ensures x == y
  {
    assert forall k :: k in x ==> MatrixKey(k) in inputs && k in y;
    assert forall k :: k in y ==> MatrixKey(k) in inputs && k in x;
    SameCombo(x, y);
  }

  /** The inputs of an expanded job tell which combination it was expanded from. */
  lemma InputsNameTheCombination(x: Combo, y: Combo)
    requires MatrixInputs(x, Iter(x.Keys)) == MatrixInputs(y, Iter(y.Keys))
    ensures x == y
  {
    var inputs := MatrixInputs(x, Iter(x.Keys));
    InputsDescribe(x, Iter(x.Keys), inputs);
    InputsDescribe(y, Iter(y.Keys), inputs);
    DescriptionIsUnique(inputs, x, y);
  }

  /** The job carries all of the declaration, the axis values as inputs, and secure defaults for the rest. */
  ghost predicate Carries(j: Job, d: JobDecl, x: Combo) {
    && j.id == ExpandedId(d.origin, x) && j.name == ExpandedName(d.origin, x)
    && j.runnerClass == d.runner && j.timeoutSeconds == d.timeoutSeconds && j.tokenScope == d.tokenScope
    && j.artifactPaths == d.artifactPaths && (d.cacheMounts != [] ==> j.cacheMounts == d.cacheMounts)
    && (d.cacheMounts == [] ==>
          |j.cacheMounts| == 1 && j.id <= j.cacheMounts[0].name && j.cacheMounts[0].mode == ReadOnly)
    && Describes(j.inputs, x) && j.outputs == map[] && j.networkPolicy == Deny
    && j.maxAttempts == 1 && j.backoffSeconds == 0
    && j.steps == InstantiateSteps(d.steps, x, j.id)
  }

  lemma LoweredCarries(d: JobDecl, x: Combo, hash: Hash)
    ensures Carries(JobOf(d, x, hash), d, x)
  {
    InputsDescribe(x, Iter(x.Keys), JobOf(d, x, hash).inputs);
  }

  /** What a declaration and a combination of its matrix become. */
  lemma CompiledJob(decls: seq<JobDecl>, hash: Hash, p: Pipeline, d: JobDecl, x: Combo) returns (j: Job)
    requires Assembled(Expansions(decls, hash), p.header, p) && d in decls && InProduct(x, d.matrix)
    ensures j in p.jobs && Carries(j, d, x)
  {
    j := JobOf(d, x, hash);
    LoweredCarries(d, x, hash);
    ExpansionMember(decls, hash, d, x);
    AssembledIds(Expansions(decls, hash), p.header, p, PendingOf(d, x, hash));
  }

  /** The texts of a compiled step say what their templates mean for the combination. */
  lemma CompiledStep(decls: seq<JobDecl>, hash: Hash, p: Pipeline, d: JobDecl, x: Combo, i: nat, ps: seq<Piece>)
    returns (j: Job)
    requires Assembled(Expansions(decls, hash), p.header, p) && d in decls && InProduct(x, d.matrix)
    requires i < |d.steps| && Unambiguous(ps, x)
    ensures j in p.jobs && j.id == ExpandedId(d.origin, x) && |j.steps| == |d.steps|
    ensures d.steps[i].command == Some(Written(ps)) ==> j.steps[i].command == Some(Instantiated(ps, x))
    ensures d.steps[i].uses == Some(Written(ps)) ==> j.steps[i].uses == Some(Instantiated(ps, x))
    ensures d.steps[i].name == Written(ps) ==> j.steps[i].name == Instantiated(ps, x)
  {
    j := CompiledJob(decls, hash, p, d, x);
    StepMeaning(d.steps, x, j.id, i, ps);
  }

  /** Every job of a compiled pipeline comes from a declaration and a combination. */
  lemma JobsAreDeclared(decls: seq<JobDecl>, hash: Hash, p: Pipeline, j: Job) returns (d: JobDecl, x: Combo)
    requires Assembled(Expansions(decls, hash), p.header, p) && j in p.jobs
    ensures d in decls && InProduct(x, d.matrix) && j.id == ExpandedId(d.origin, x)
  {
    var expand := ExpansionWith(hash);
    AssembledJobs(Expansions(decls, hash), p.header, p, j);
    var a :| a in Expansions(decls, hash) && a.job == j;
    ConcatMapMember(expand, decls, a);
    d :| d in decls && a in expand(d);
    ExpansionOf(d, hash, a);
    x :| InProduct(x, d.matrix) && a == PendingOf(d, x, hash);
    PendingNeeds(d, x, hash);
  }

  /** The order in which an assembled pipeline lists its jobs and edges. */
  lemma AssembledOrder(pending: seq<PendingJob>, header: Header, p: Pipeline, i: nat, j: nat)
    requires Assembled(pending, header, p) && i < j
    ensures j < |p.jobs| ==> StrLe(p.jobs[i].id, p.jobs[j].id)
    ensures j < |p.edges| ==> StrLt(p.edges[i].from, p.edges[j].from)
                              || (p.edges[i].from == p.edges[j].from && StrLt(p.edges[i].to, p.edges[j].to))
  {
    if j < |p.jobs| { assert JobIdLe(p.jobs[i], p.jobs[j]); }
    if j < |p.edges| { assert EdgeLe(p.edges[i], p.edges[j]) && p.edges[i] != p.edges[j]; }
  }

  /** Sanitised ids may collide, but never in a compiled pipeline: there a job id names one origin
      and one combination. */
  lemma JobIdNamesOneCombination(decls: seq<JobDecl>, hash: Hash, p: Pipeline, d: JobDecl, e: JobDecl, x: Combo,
                                 y: Combo)
    requires WellFormed(p) && Assembled(Expansions(decls, hash), p.header, p)
    requires d in decls && e in decls && InProduct(x, d.matrix) && InProduct(y, e.matrix)
    requires ExpandedId(d.origin, x) == ExpandedId(e.origin, y)
    ensures d.origin == e.origin && x == y
  {
    ExpansionMember(decls, hash, d, x);
    ExpansionMember(decls, hash, e, y);
    PendingIdsDiffer(Expansions(decls, hash), p.header, p, PendingOf(d, x, hash), PendingOf(e, y, hash));
    InputsNameTheCombination(x, y);
  }

  lemma AlikeSpoil(d: JobDecl, x: Combo, y: Combo)
    requires InProduct(x, d.matrix) && InProduct(y, d.matrix) && x != y && Alike(x, y)
    ensures !DistinctWithin(d)
  {
    AlikeCollide(d.origin, x, y);
  }

  /** A matrix with two combinations whose values have the same normal forms (the same but for case, say,
      or but for a space instead of an underscore) is refused: their expansions would share an id. */
  lemma AlikeCombinationsAreRefused(context: Context, decls: seq<JobDecl>, d: JobDecl, x: Combo, y: Combo)
    requires d in decls && InProduct(x, d.matrix) && InProduct(y, d.matrix)
    requires x != y && Alike(x, y)
    ensures !Compiles(context, decls)
  {
    AlikeSpoil(d, x, y);
    var i :| 0 <= i < |decls| && decls[i] == d;
    assert !DistinctWithin(decls[i]);
  }

  /** A matrix of plain values, none twice on an axis, never collides with itself. */
  lemma PlainMatrixIsDistinct(d: JobDecl)
    requires forall x :: x in d.matrix ==> NoDuplicates(d.matrix[x]) && forall v :: v in d.matrix[x] ==> IsPlainValue(v)
    ensures DistinctWithin(d)
  {
    forall x, y | InProduct(x, d.matrix) && InProduct(y, d.matrix) && x != y
      ensures ExpandedId(d.origin, x) != ExpandedId(d.origin, y) {
      PlainValuesGiveDistinctIds(d.origin, x, y);
    }
  }

  lemma DistinctOriginsAreUniform(decls: seq<JobDecl>, hash: Hash)
    requires forall d, e :: d in decls && e in decls && d.origin == e.origin ==> d == e
    ensures UniformNeeds(Expansions(decls, hash))
  {
    var expand := ExpansionWith(hash);
    forall a, b | a in Expansions(decls, hash) && b in Expansions(decls, hash) && a.origin == b.origin
      ensures a.needs == b.needs {
      ConcatMapMember(expand, decls, a);
      ConcatMapMember(expand, decls, b);
      var d :| d in decls && a in expand(d);
      var e :| e in decls && b in expand(e);
      ExpansionOrigin(d, hash, a);
      ExpansionOrigin(e, hash, b);
    }
  }

  /** End to end: a workflow with distinct job names that compiles is scheduled, unless its `needs`
      are circular, and then the scheduler answers `Cycle`. */
  lemma CompiledWorkflowSchedules(decls: seq<JobDecl>, hash: Hash, p: Pipeline, r: Result<S.Schedule, S.ScheduleError>)
    requires forall d, e :: d in decls && e in decls && d.origin == e.origin ==> d == e
    requires WellFormed(p) && Assembled(Expansions(decls, hash), p.header, p) && S.Verdict(p, hash, r)
    ensures r.Err? <==> Cyclic(NeedsGraph(Expansions(decls, hash)))
    ensures r.Err? ==> r.error == S.Cycle
  {
    var pending := Expansions(decls, hash);
    S.ValidatedPipelinesSchedule(p, hash, r);
    DistinctIdsNameOrigins(pending, p.header, p);
    DistinctOriginsAreUniform(decls, hash);
    CycleVerdictIsAboutNeeds(pending, p.header, p);
  }

  /** Needing a job whose matrix has an axis without values is refused: it has no expansion to wait for. */
  lemma NeedingAnEmptyMatrixIsRefused(decls: seq<JobDecl>, hash: Hash, needed: JobDecl, needing: JobDecl, y: Combo)
    requires needed in decls && needing in decls && needed.origin in needing.needs
    requires forall d :: d in decls && d.origin == needed.origin ==> d == needed
    requires exists x :: x in needed.matrix && needed.matrix[x] == []
    requires InProduct(y, needing.matrix)
    ensures !Resolved(Expansions(decls, hash))
  {
    EmptyMatrixHasNoOrigin(decls, hash, needed);
    ExpansionMember(decls, hash, needing, y);
    var b := PendingOf(needing, y, hash);
    assert b.needs == needing.needs;
  }

  lemma EmptyMatrixHasNoOrigin(decls: seq<JobDecl>, hash: Hash, needed: JobDecl)
    requires forall d :: d in decls && d.origin == needed.origin ==> d == needed
    requires exists x :: x in needed.matrix && needed.matrix[x] == []
    ensures !IsOrigin(Expansions(decls, hash), needed.origin)
  {
    var expand := ExpansionWith(hash);
    forall a | a in Expansions(decls, hash) ensures a.origin != needed.origin {
      ConcatMapMember(expand, decls, a);
      var d :| d in decls && a in expand(d);
      EmptyMatrixHasNoExpansion(needed, hash);
      ExpansionOrigin(d, hash, a);
    }
  }

  lemma ExpansionOrigin(d: JobDecl, hash: Hash, a: PendingJob)
    requires a in Expansion(d, hash)
    ensures a.origin == d.origin && a.needs == d.needs
  {
    var i :| 0 <= i < |Expansion(d, hash)| && Expansion(d, hash)[i] == a;
    assert a == Lowering(d, hash)(Combos(d.matrix)[i]);
  }

  lemma EmptyMatrixHasNoExpansion(d: JobDecl, hash: Hash)
    requires exists x :: x in d.matrix && d.matrix[x] == []
    ensures Expansion(d, hash) == []
  {
    var keys := Iter(d.matrix.Keys);
    var x :| x in d.matrix && d.matrix[x] == [];
    var i :| 0 <= i < |keys| && keys[i] == x;
    CountZero(keys, d.matrix);
    CombosCount(keys, d.matrix);
  }
}
