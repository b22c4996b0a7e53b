/** Pipeline IR: jobs, dependency edges, canonical text, IR hash and structural validation
    (`jeryu-ci-ir`). The FNV hash is a parameter: nothing here depends on which function it is. */
module PipelineIr {
  import opened Order
  import opened Text

  datatype RunnerClass =
    | NativeRustHot | NativeRustClean | CrategraphDelta | NextestCapsule | AgentGuard
    | MergeSpec | ReleaseHermetic | MicrovmRust | OciDocker | K8sOci | Custom(name: string)

  function RunnerClassText(c: RunnerClass): string {
    match c
    case NativeRustHot => "native-rust-hot"
    case NativeRustClean => "native-rust-clean"
    case CrategraphDelta => "crategraph-delta"
    case NextestCapsule => "nextest-capsule"
    case AgentGuard => "agent-guard"
    case MergeSpec => "merge-spec"
    case ReleaseHermetic => "release-hermetic"
    case MicrovmRust => "microvm-rust"
    case OciDocker => "oci-docker"
    case K8sOci => "k8s-oci"
    case Custom(name) => name
  }

  datatype PipelineSource =
    | GitHubActions | NativeToml | Api | Agent | MergeQueue | Hotfix | Release | Scheduled | Unknown(value: string)

  function SourceText(s: PipelineSource): string {
    match s
    case GitHubActions => "github-actions"
    case NativeToml => "jit-native"
    case Api => "api"
    case Agent => "agent"
    case MergeQueue => "merge-queue"
    case Hotfix => "hotfix"
    case Release => "release"
    case Scheduled => "scheduled"
    case Unknown(value) => value
  }

  datatype TrustTier = ReleaseHermetic | ProtectedInternal | InternalBranch | AgentAuthored | ForkPr | PublicUntrusted

  function TrustText(t: TrustTier): string {
    match t
    case ReleaseHermetic => "T0-release-hermetic"
    case ProtectedInternal => "T1-protected-internal"
    case InternalBranch => "T2-internal-branch"
    case AgentAuthored => "T3-agent-authored"
    case ForkPr => "T4-fork-pr"
    case PublicUntrusted => "T5-public-untrusted"
  }

  datatype NetworkPolicy = Deny | Allowlist(hosts: seq<string>) | Open

  function NetworkText(p: NetworkPolicy): string {
    match p
    case Deny => "deny"
    case Allowlist(hosts) => "allowlist:" + Join(hosts, ",")
    case Open => "open"
  }

  datatype TokenScope = NoToken | ReadRepo | WriteChecks | WritePullRequest | CustomScope(values: seq<string>)

  function TokenText(t: TokenScope): string {
    match t
    case NoToken => "none"
    case ReadRepo => "read-repo"
    case WriteChecks => "write-checks"
    case WritePullRequest => "write-pull-request"
    case CustomScope(values) => "custom:" + Join(values, ",")
  }

  datatype CacheMode = ReadOnly | ReadWriteQuarantine | ReadWriteTrusted

  function ModeText(m: CacheMode): string {
    match m
    case ReadOnly => "read-only"
    case ReadWriteQuarantine => "read-write-quarantine"
    case ReadWriteTrusted => "read-write-trusted"
  }

  datatype ArtifactWhen = Always | OnSuccess | OnFailure

  function WhenText(w: ArtifactWhen): string {
    match w
    case Always => "always"
    case OnSuccess => "on-success"
    case OnFailure => "on-failure"
  }

  datatype CacheMount = CacheMount(name: string, path: string, mode: CacheMode, fingerprint: string)
  datatype ArtifactPath = ArtifactPath(name: string, paths: seq<string>, when: ArtifactWhen, retentionDays: nat)
  datatype Step = Step(id: string, name: string, command: Option<string>, uses: Option<string>,
                       env: map<string, string>, workingDirectory: Option<string>)

  datatype Job = Job(id: string, name: string, runnerClass: RunnerClass, steps: seq<Step>,
                     inputs: map<string, string>, outputs: map<string, string>,
                     cacheMounts: seq<CacheMount>, artifactPaths: seq<ArtifactPath>,
                     networkPolicy: NetworkPolicy, tokenScope: TokenScope, timeoutSeconds: nat,
                     maxAttempts: nat, backoffSeconds: nat)

  datatype Dependency = Dependency(from: string, to: string)

  /** The fields of a pipeline besides its jobs and edges. `canonical` prints all of them but the last. */
  datatype Header = Header(id: string, source: PipelineSource, repo: string, commit: string, trustTier: TrustTier,
                           projectScoped: bool, allowCrossProjectCompiled: bool, promoteAfterGreen: bool,
                           quarantineUntrustedWrites: bool, allowAbsolutePaths: bool, requireMetadata: bool,
                           defaultRetentionDays: nat, failClosed: bool, secretsAvailable: bool,
                           denyOnFork: bool, proofRequired: bool, proofLane: string,
                           provenanceRequired: bool, releaseOnly: bool, defaultTokenScope: TokenScope)

  datatype Pipeline = Pipeline(header: Header, jobs: seq<Job>, edges: seq<Dependency>)

  /** What the caller of the compiler says about a pipeline. */
  datatype Context = Context(source: PipelineSource, repo: string, commit: string, trustTier: TrustTier)

  function NewIdText(source: string, repo: string, commit: string): string {
    "pipeline|" + source + "|" + repo + "|" + commit
  }

  /** The text of a first id reads back to the context. */
  lemma NewIdReadsBack(source: string, repo: string, commit: string)
    requires '|' !in source && '|' !in repo && '|' !in commit
    ensures Split(NewIdText(source, repo, commit), '|') == ["pipeline", source, repo, commit]
  {
    assert "|" == ['|'];
    var rest := source + "|" + (repo + "|" + commit);
    assert NewIdText(source, repo, commit) == "pipeline" + "|" + rest;
    SplitFirst("pipeline", '|', rest);
    SplitFirst(source, '|', repo + "|" + commit);
    SplitFirst(repo, '|', commit);
  }

  /** `Pipeline::new`: everything but the context starts at its secure default. */
  function NewHeader(c: Context, hash: string -> string): Header {
    Header(hash(NewIdText(SourceText(c.source), c.repo, c.commit)), c.source, c.repo, c.commit, c.trustTier,
           true, false, true, true, false, true, 14, true, false, true, true, "phase3-fast", false, true, ReadRepo)
  }

  /** A new pipeline starts from secure defaults: nothing absolute, nothing across projects, no secrets,
      closed on failure, read access only. */
  lemma NewHeaderIsSecure(c: Context, hash: string -> string)
    ensures var h := NewHeader(c, hash);
      && h.source == c.source && h.repo == c.repo && h.commit == c.commit && h.trustTier == c.trustTier
      && h.projectScoped && !h.allowCrossProjectCompiled && h.promoteAfterGreen && h.quarantineUntrustedWrites
      && !h.allowAbsolutePaths && h.requireMetadata && h.defaultRetentionDays == 14
      && h.failClosed && h.defaultTokenScope == ReadRepo && !h.secretsAvailable && h.denyOnFork
      && h.proofRequired && h.proofLane == "phase3-fast" && !h.provenanceRequired && h.releaseOnly
  {
  }

  // ---------------------------------------------------------- orders in use

  predicate JobIdLe(a: Job, b: Job) { StrLe(a.id, b.id) }

  /** Tuple order on (x1, x2): the second component decides only when the first ones are equal. */
  predicate PairLe(x1: string, x2: string, y1: string, y2: string) {
    if x1 == y1 then StrLe(x2, y2) else StrLe(x1, y1)
  }

  predicate EdgeLe(a: Dependency, b: Dependency) { PairLe(a.from, a.to, b.from, b.to) }

  predicate MountLe(a: CacheMount, b: CacheMount) { PairLe(a.name, a.path, b.name, b.path) }

  predicate ArtifactLe(a: ArtifactPath, b: ArtifactPath) { StrLe(a.name, b.name) }

  lemma JobIdLeIsTotalOrder()
    ensures TotalOrder(JobIdLe)
  {
    forall x: Job, y: Job ensures JobIdLe(x, y) || JobIdLe(y, x) { StrLeTotal(x.id, y.id); }
    forall x: Job, y: Job, z: Job | JobIdLe(x, y) && JobIdLe(y, z) ensures JobIdLe(x, z) {
      StrLeTransitive(x.id, y.id, z.id);
    }
  }

  lemma EdgeLeTransitive(x: Dependency, y: Dependency, z: Dependency)
    requires EdgeLe(x, y) && EdgeLe(y, z)
    ensures EdgeLe(x, z)
  {
    if x.from == y.from {
      if y.from == z.from { StrLeTransitive(x.to, y.to, z.to); }
    } else if y.from != z.from {
      StrLeTransitive(x.from, y.from, z.from);
      if x.from == z.from { StrLeAntisymmetric(x.from, y.from); }
    }
  }

  lemma EdgeLeIsTotalOrder()
    ensures TotalOrder(EdgeLe)
    ensures forall s: seq<Dependency> :: Antisymmetric(s, EdgeLe)
  {
    forall x: Dependency, y: Dependency ensures EdgeLe(x, y) || EdgeLe(y, x) {
      StrLeTotal(x.from, y.from);
      StrLeTotal(x.to, y.to);
    }
    forall x: Dependency, y: Dependency, z: Dependency | EdgeLe(x, y) && EdgeLe(y, z) ensures EdgeLe(x, z) {
      EdgeLeTransitive(x, y, z);
    }
    forall x: Dependency, y: Dependency | EdgeLe(x, y) && EdgeLe(y, x) ensures x == y {
      if x.from != y.from { StrLeAntisymmetric(x.from, y.from); }
      StrLeAntisymmetric(x.to, y.to);
    }
  }

  // -------------------------------------------------------- canonical lines

  /** `value.replace('\\', "\\\\").replace('\n', "\\n")`: two passes, in this order. */
  function EscapeCanonical(value: string): string {
    ReplaceChar(ReplaceChar(value, '\\', "\\\\"), '\n', "\\n")
  }

  /** Reads one escaped value back: `\\` is a backslash, `\n` a line break. */
  function UnescapeCanonical(text: string): string
    decreases |text|
  {
    if text == [] then ""
    else if text[0] == '\\' && |text| >= 2 then
      [if text[1] == 'n' then '\n' else text[1]] + UnescapeCanonical(text[2..])
    else [text[0]] + UnescapeCanonical(text[1..])
  }

  lemma EscapeCanonicalStep(value: string)
    requires value != []
    ensures EscapeCanonical(value) ==
            (if value[0] == '\\' then "\\\\" else if value[0] == '\n' then "\\n" else [value[0]])
            + EscapeCanonical(value[1..])
  {
    var rest := ReplaceChar(value[1..], '\\', "\\\\");
    if value[0] == '\\' {
      ReplaceCharAppend("\\\\", rest, '\n', "\\n");
      assert "\\\\"[1..] == "\\";
      assert ReplaceChar("\\\\", '\n', "\\n") == "\\\\";
    } else {
      ReplaceCharAppend([value[0]], rest, '\n', "\\n");
    }
  }

  /** The canonical escaping loses nothing and never leaves a line break inside a value, so a
      line of the canonical text ends exactly where `line` ended it. */
  lemma {:induction false} EscapeCanonicalRoundTrip(value: string)
    ensures UnescapeCanonical(EscapeCanonical(value)) == value
    ensures '\n' !in EscapeCanonical(value)
  {
    if value != [] {
      EscapeCanonicalStep(value);
      EscapeCanonicalRoundTrip(value[1..]);
      var rest := EscapeCanonical(value[1..]);
      if value[0] == '\\' {
        assert EscapeCanonical(value)[2..] == rest;
      } else if value[0] == '\n' {
        assert EscapeCanonical(value)[2..] == rest;
      } else {
        assert EscapeCanonical(value)[1..] == rest;
      }
    }
  }

  /** One line of the canonical text, before rendering. */
  datatype Entry = Entry(key: string, value: string)

  /** `line`: only the value is escaped. */
  function Line(e: Entry): string { e.key + "=" + EscapeCanonical(e.value) + "\n" }

  function Render(lines: seq<Entry>): string { Cat(lines, Line) }

  lemma RenderAppend(a: seq<Entry>, b: seq<Entry>)
    ensures Render(a + b) == Render(a) + Render(b)
  {
    CatAppend(a, b, Line);
  }

  /** The lines of a list of items, item by item. */
  function Blocks<T>(items: seq<T>, f: T -> seq<Entry>): seq<Entry> { Concat(MapSeq(f, items)) }

  function BoolText(b: bool): string { if b then "true" else "false" }

  function HeaderLines(h: Header): seq<Entry> {
    [Entry("pipeline.id", h.id), Entry("pipeline.source", SourceText(h.source)), Entry("pipeline.repo", h.repo),
     Entry("pipeline.commit", h.commit), Entry("pipeline.trust_tier", TrustText(h.trustTier)),
     Entry("cache.project_scoped", BoolText(h.projectScoped)),
     Entry("cache.allow_cross_project_compiled", BoolText(h.allowCrossProjectCompiled)),
     Entry("cache.promote_after_green", BoolText(h.promoteAfterGreen)),
     Entry("cache.quarantine_untrusted_writes", BoolText(h.quarantineUntrustedWrites)),
     Entry("artifact.allow_absolute_paths", BoolText(h.allowAbsolutePaths)),
     Entry("artifact.require_metadata", BoolText(h.requireMetadata)),
     Entry("artifact.default_retention_days", Dec(h.defaultRetentionDays)),
     Entry("permission.fail_closed", BoolText(h.failClosed)),
     Entry("secret.secrets_available", BoolText(h.secretsAvailable)), Entry("secret.deny_on_fork",
           BoolText(h.denyOnFork)),
     Entry("proof.required", BoolText(h.proofRequired)), Entry("proof.lane", h.proofLane),
     Entry("signing.provenance_required", BoolText(h.provenanceRequired)),
     Entry("signing.release_only", BoolText(h.releaseOnly))]
  }

  function MapLine(prefix: string, m: map<string, string>): string -> seq<Entry> {
    key => [Entry(prefix + key, if key in m then m[key] else "")]
  }

  /** The entries of a map, in key order. */
  function MapLines(prefix: string, m: map<string, string>): seq<Entry> { Blocks(Iter(m.Keys), MapLine(prefix, m)) }

  function MountLine(m: CacheMount): seq<Entry> {
    [Entry("job.cache", m.name + "|" + m.path + "|" + ModeText(m.mode) + "|" + m.fingerprint)]
  }

  function ArtifactLine(a: ArtifactPath): seq<Entry> {
    [Entry("job.artifact", a.name + "|" + WhenText(a.when) + "|" + Dec(a.retentionDays) + "|" + Join(a.paths, ","))]
  }

  function OptionLine(key: string, value: Option<string>): seq<Entry> {
    if value.Some? then [Entry(key, value.value)] else []
  }

  function StepLines(s: Step): seq<Entry> {
    [Entry("job.step.id", s.id), Entry("job.step.name", s.name)]
    + (OptionLine("job.step.run", s.command) + (OptionLine("job.step.uses", s.uses)
    + (OptionLine("job.step.cwd", s.workingDirectory) + MapLines("job.step.env.", s.env))))
  }

  function JobHeadLines(job: Job): seq<Entry> {
    [Entry("job.id", job.id), Entry("job.name", job.name), Entry("job.runner", RunnerClassText(job.runnerClass)),
     Entry("job.timeout_seconds", Dec(job.timeoutSeconds)), Entry("job.retry.max_attempts", Dec(job.maxAttempts)),
     Entry("job.retry.backoff_seconds", Dec(job.backoffSeconds)), Entry("job.network", NetworkText(job.networkPolicy)),
     Entry("job.token", TokenText(job.tokenScope))]
  }

  /** Everything after the fixed lines of a job, its mounts and artifacts taken in the order given. */
  function JobBodyLines(job: Job): seq<Entry> {
    MapLines("job.input.", job.inputs) + (MapLines("job.output.", job.outputs)
    + (Blocks(job.cacheMounts, MountLine) + (Blocks(job.artifactPaths, ArtifactLine) + Blocks(job.steps, StepLines))))
  }

  function JobLines(job: Job): seq<Entry> { JobHeadLines(job) + JobBodyLines(job) }

  /** A job with its mounts and artifacts sorted. */
  function SortedJob(job: Job): Job {
    job.(cacheMounts := StableSort(job.cacheMounts, MountLe),
         artifactPaths := StableSort(job.artifactPaths, ArtifactLe))
  }

  function EdgeLine(e: Dependency): seq<Entry> { [Entry("edge", e.from + "->" + e.to)] }

  /** The pipeline the canonical text shows: jobs, edges, mounts and artifacts in sorted order. */
  function Form(p: Pipeline): Pipeline {
    Pipeline(p.header, MapSeq(SortedJob, StableSort(p.jobs, JobIdLe)), StableSort(p.edges, EdgeLe))
  }

  function FormLines(f: Pipeline): seq<Entry> {
    HeaderLines(f.header) + (Blocks(f.jobs, JobLines) + Blocks(f.edges, EdgeLine))
  }

  /** The canonical text of a pipeline. */
  function CanonicalText(p: Pipeline): string { Render(FormLines(Form(p))) }

  function IrHash(p: Pipeline, hash: string -> string): string { hash(CanonicalText(p)) }

  method AppendAll<T>(out: string, items: seq<T>, f: T -> string) returns (r: string)
    ensures r == out + Cat(items, f)
  {
    r := out;
    for i := 0 to |items|
      invariant r == out + Cat(items[..i], f)
    {
      assert items[..i + 1][..i] == items[..i];
      r := r + f(items[i]);
    }
    assert items[..|items|] == items;
  }

  lemma RenderGrows<T>(out: string, items: seq<T>, i: nat, f: T -> seq<Entry>)
    requires i < |items|
    ensures out + Render(Blocks(items[..i], f)) + Render(f(items[i])) == out + Render(Blocks(items[..i + 1], f))
  {
    ConcatMapGrows(f, items, i);
    RenderAppend(Blocks(items[..i], f), f(items[i]));
    Assoc(out, Render(Blocks(items[..i], f)), Render(f(items[i])));
  }

  method AppendBlocks<T>(out: string, items: seq<T>, f: T -> seq<Entry>) returns (r: string)
    ensures r == out + Render(Blocks(items, f))
  {
    r := out;
    for i := 0 to |items|
      invariant r == out + Render(Blocks(items[..i], f))
    {
      RenderGrows(out, items, i, f);
      r := r + Render(f(items[i]));
    }
    assert items[..|items|] == items;
  }

  lemma RenderBody(o: string, h: seq<Entry>, a: seq<Entry>, b: seq<Entry>, c: seq<Entry>, d: seq<Entry>, e: seq<Entry>)
    ensures o + Render(h) + Render(a) + Render(b) + Render(c) + Render(d) + Render(e)
            == o + Render(h + (a + (b + (c + (d + e)))))
  {
    RenderThen(o, h, a + (b + (c + (d + e))));
    RenderThen(o + Render(h), a, b + (c + (d + e)));
    RenderThen(o + Render(h) + Render(a), b, c + (d + e));
    RenderThen(o + Render(h) + Render(a) + Render(b), c, d + e);
    RenderThen(o + Render(h) + Render(a) + Render(b) + Render(c), d, e);
  }

  lemma RenderThen(o: string, a: seq<Entry>, b: seq<Entry>)
    ensures o + Render(a + b) == o + Render(a) + Render(b)
  {
    RenderAppend(a, b);
    Assoc(o, Render(a), Render(b));
  }

  /** `Job::canonical_into`. */
  method JobCanonicalInto(job: Job, out: string) returns (r: string)
    ensures r == out + Render(JobLines(SortedJob(job)))
  {
    var mounts, artifacts := StableSort(job.cacheMounts, MountLe), StableSort(job.artifactPaths, ArtifactLe);
    r := out + Render(JobHeadLines(job));
    r := AppendBlocks(r, Iter(job.inputs.Keys), MapLine("job.input.", job.inputs));
    r := AppendBlocks(r, Iter(job.outputs.Keys), MapLine("job.output.", job.outputs));
    r := AppendBlocks(r, mounts, MountLine);
    r := AppendBlocks(r, artifacts, ArtifactLine);
    r := AppendBlocks(r, job.steps, StepLines);
    JobPieces(job, mounts, artifacts, out);
  }

  lemma JobPieces(job: Job, mounts: seq<CacheMount>, artifacts: seq<ArtifactPath>, out: string)
    requires mounts == SortedJob(job).cacheMounts && artifacts == SortedJob(job).artifactPaths
    ensures out + Render(JobHeadLines(job)) + Render(MapLines("job.input.", job.inputs))
            + Render(MapLines("job.output.", job.outputs)) + Render(Blocks(mounts, MountLine))
            + Render(Blocks(artifacts, ArtifactLine)) + Render(Blocks(job.steps, StepLines))
            == out + Render(JobLines(SortedJob(job)))
  {
    RenderBody(out, JobHeadLines(job), MapLines("job.input.", job.inputs), MapLines("job.output.", job.outputs),
               Blocks(mounts, MountLine), Blocks(artifacts, ArtifactLine), Blocks(job.steps, StepLines));
  }

  function JobsText(jobs: seq<Job>): string { Render(Blocks(MapSeq(SortedJob, jobs), JobLines)) }

  lemma JobsTextGrows(out: string, jobs: seq<Job>, i: nat)
    requires i < |jobs|
    ensures out + JobsText(jobs[..i + 1]) == out + JobsText(jobs[..i]) + Render(JobLines(SortedJob(jobs[i])))
  {
    var sorted, show := MapSeq(SortedJob, jobs), JobLines;
    RenderGrows(out, sorted, i, show);
    assert show(sorted[i]) == JobLines(SortedJob(jobs[i]));
    MapPrefix(SortedJob, jobs, i);
    MapPrefix(SortedJob, jobs, i + 1);
  }

  method AppendJobs(out: string, jobs: seq<Job>) returns (r: string)
    ensures r == out + JobsText(jobs)
  {
    r := out;
    for i := 0 to |jobs|
      invariant r == out + JobsText(jobs[..i])
    {
      JobsTextGrows(out, jobs, i);
      r := JobCanonicalInto(jobs[i], r);
    }
    assert jobs[..|jobs|] == jobs;
  }

  /** `Pipeline::canonical`: the header, then the jobs by id, then the edges. */
  method Canonical(p: Pipeline) returns (out: string)
    ensures out == CanonicalText(p)
  {
    var head := Render(HeaderLines(p.header));
    var body := AppendJobs(head, StableSort(p.jobs, JobIdLe));
    out := AppendBlocks(body, StableSort(p.edges, EdgeLe), EdgeLine);
    FormPieces(Form(p));
  }

  lemma FormPieces(f: Pipeline)
    ensures Render(FormLines(f))
         == Render(HeaderLines(f.header)) + Render(Blocks(f.jobs, JobLines)) + Render(Blocks(f.edges, EdgeLine))
  {
    RenderAppend(HeaderLines(f.header), Blocks(f.jobs, JobLines) + Blocks(f.edges, EdgeLine));
    RenderThen(Render(HeaderLines(f.header)), Blocks(f.jobs, JobLines), Blocks(f.edges, EdgeLine));
  }

  // ------------------------------------------------------------- validation

  ghost predicate DistinctIds(jobs: seq<Job>) {
    forall i, j :: 0 <= i < j < |jobs| ==> jobs[i].id != jobs[j].id
  }

  function JobIds(jobs: seq<Job>): set<string> { set j | j in jobs :: j.id }

  function EdgeSet(edges: seq<Dependency>): set<Dependency> { set e | e in edges }

  ghost predicate KnownEndpoints(p: Pipeline) {
    forall e :: e in p.edges ==> e.from in JobIds(p.jobs) && e.to in JobIds(p.jobs)
  }

  /** Two pipelines that differ only in the order in which jobs and edges are listed. */
  ghost predicate Rearranged(p: Pipeline, q: Pipeline) {
    p.header == q.header && multiset(p.jobs) == multiset(q.jobs) && multiset(p.edges) == multiset(q.edges)
  }

  /** Canonical text and IR hash do not see the order in which jobs and edges are listed. */
  lemma CanonicalIgnoresListOrder(p: Pipeline, q: Pipeline, hash: string -> string)
    requires Rearranged(p, q) && DistinctIds(p.jobs)
    ensures CanonicalText(p) == CanonicalText(q)
    ensures IrHash(p, hash) == IrHash(q, hash)
  {
    JobIdLeIsTotalOrder();
    EdgeLeIsTotalOrder();
    assert Antisymmetric(p.jobs, JobIdLe) by {
      forall x, y | x in p.jobs && y in p.jobs && JobIdLe(x, y) && JobIdLe(y, x) ensures x == y {
        StrLeAntisymmetric(x.id, y.id);
      }
    }
    StableSortPermutation(p.jobs, q.jobs, JobIdLe);
    StableSortPermutation(p.edges, q.edges, EdgeLe);
  }

  datatype ValidationError =
    | EmptyRepo | EmptyCommit | EmptyJobId | DuplicateJob(job: string) | JobHasNoSteps(job: string)
    | UnknownEdgeEndpoint(job: string) | SelfDependency(job: string)

  /** Jobs with usable, pairwise distinct ids and at least one step each. */
  ghost predicate CleanJobs(jobs: seq<Job>) {
    (forall j :: j in jobs ==> !Blank(j.id) && j.steps != []) && DistinctIds(jobs)
  }

  /** Edges between two different known jobs. */
  ghost predicate CleanEdges(edges: seq<Dependency>, known: set<string>) {
    forall e :: e in edges ==> e.from in known && e.to in known && e.from != e.to
  }

  /** What a structurally valid pipeline is. */
  ghost predicate WellFormed(p: Pipeline) {
    && !Blank(p.header.repo) && !Blank(p.header.commit)
    && CleanJobs(p.jobs) && CleanEdges(p.edges, JobIds(p.jobs))
  }

  /** The job at `i` is the first faulty one and `e` names its first fault. */
  ghost predicate FirstBadJob(jobs: seq<Job>, i: int, e: ValidationError) {
    && 0 <= i < |jobs| && CleanJobs(jobs[..i])
    && var job := jobs[i];
    if Blank(job.id) then e == EmptyJobId
    else if job.id in JobIds(jobs[..i]) then e == DuplicateJob(job.id)
    else job.steps == [] && e == JobHasNoSteps(job.id)
  }

  /** The edge at `i` is the first faulty one and `e` names its first fault. */
  ghost predicate FirstBadEdge(edges: seq<Dependency>, known: set<string>, i: int, e: ValidationError) {
    && 0 <= i < |edges| && CleanEdges(edges[..i], known)
    && var edge := edges[i];
    if edge.from !in known then e == UnknownEdgeEndpoint(edge.from)
    else if edge.to !in known then e == UnknownEdgeEndpoint(edge.to)
    else edge.from == edge.to && e == SelfDependency(edge.from)
  }

  /** The first fault in the order repo, commit, jobs, edges. */
  ghost predicate FirstFault(p: Pipeline, e: ValidationError) {
    if Blank(p.header.repo) then e == EmptyRepo
    else if Blank(p.header.commit) then e == EmptyCommit
    else if !CleanJobs(p.jobs) then exists i :: FirstBadJob(p.jobs, i, e)
    else exists i :: FirstBadEdge(p.edges, JobIds(p.jobs), i, e)
  }

  /** Adding a faulty job to a clean prefix leaves a list that is not clean. */
  lemma BadJobSpoils(jobs: seq<Job>, i: int, e: ValidationError)
    requires FirstBadJob(jobs, i, e)
    ensures !CleanJobs(jobs)
  {
    assert jobs[i] in jobs;
    if jobs[i].id in JobIds(jobs[..i]) {
      var k :| 0 <= k < i && jobs[..i][k].id == jobs[i].id;
      assert jobs[k].id == jobs[i].id;
    }
  }

  method Validate(p: Pipeline) returns (r: Result<(), ValidationError>)
    ensures r.Ok? <==> WellFormed(p)
    ensures r.Err? ==> FirstFault(p, r.error)
  {
    if Blank(p.header.repo) { return Err(EmptyRepo); }
    if Blank(p.header.commit) { return Err(EmptyCommit); }
    var seen: set<string> := {};
    for i := 0 to |p.jobs|
      invariant seen == JobIds(p.jobs[..i]) && CleanJobs(p.jobs[..i])
    {
      var job := p.jobs[i];
      assert p.jobs[..i + 1] == p.jobs[..i] + [job];
      if Blank(job.id) {
        assert FirstBadJob(p.jobs, i, EmptyJobId);
        BadJobSpoils(p.jobs, i, EmptyJobId);
        return Err(EmptyJobId);
      }
      if job.id in seen {
        assert FirstBadJob(p.jobs, i, DuplicateJob(job.id));
        BadJobSpoils(p.jobs, i, DuplicateJob(job.id));
        return Err(DuplicateJob(job.id));
      }
      seen := seen + {job.id};
      if job.steps == [] {
        assert FirstBadJob(p.jobs, i, JobHasNoSteps(job.id));
        BadJobSpoils(p.jobs, i, JobHasNoSteps(job.id));
        return Err(JobHasNoSteps(job.id));
      }
    }
    assert p.jobs[..|p.jobs|] == p.jobs;
    for i := 0 to |p.edges|
      invariant CleanEdges(p.edges[..i], seen)
    {
      var edge := p.edges[i];
      assert edge in p.edges && p.edges[..i + 1] == p.edges[..i] + [edge];
      if edge.from !in seen {
        assert FirstBadEdge(p.edges, seen, i, UnknownEdgeEndpoint(edge.from));
        return Err(UnknownEdgeEndpoint(edge.from));
      }
      if edge.to !in seen {
        assert FirstBadEdge(p.edges, seen, i, UnknownEdgeEndpoint(edge.to));
        return Err(UnknownEdgeEndpoint(edge.to));
      }
      if edge.from == edge.to {
        assert FirstBadEdge(p.edges, seen, i, SelfDependency(edge.from));
        return Err(SelfDependency(edge.from));
      }
    }
    assert p.edges[..|p.edges|] == p.edges;
    return Ok(());
  }
}
