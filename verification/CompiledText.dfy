/** Compiled pipelines and their canonical text: what the compiler emits can be read back as soon as the
    declared parts can (`jeryu-ci-compiler/src/github.rs`, `jeryu-ci-ir/src/pipeline.rs`). */
module CompiledText {
  import opened Order
  import opened Text
  import opened PipelineIr
  import opened Matrix
  import opened Naming
  import opened Steps
  import opened Compiler
  import opened CanonicalReading

  /** The parts of a declaration that reach the canonical text unescaped. Its name, its needs and the
      values of its matrix are not among them. */
  ghost predicate ReadableDecl(d: JobDecl) {
    && ReadableClass(d.runner) && ReadableToken(d.tokenScope)
    && (forall axis :: axis in d.matrix ==> CleanKey(axis))
    && (forall m :: m in d.cacheMounts ==> ReadableMount(m))
    && (forall a :: a in d.artifactPaths ==> ReadableArtifact(a))
    && (forall s :: s in d.steps ==> ReadableKeys(s.env))
  }

  lemma CleanIdHasNo(id: string, c: char)
    requires IsCleanId(id) && !IdChar(c)
    ensures c !in id
  {
  }

  lemma CleanIdEdge(e: Dependency)
    requires IsCleanId(e.from)
    ensures ReadableEdge(e)
  {
    CleanIdHasNo(e.from, '>');
    if Contains(e.from, "->") { ArrowHasHead(e.from); }
  }

  lemma ArrowHasHead(s: string)
    requires Contains(s, "->")
    ensures '>' in s
  {
    var i :| 0 <= i <= |s| && "->" <= s[i..];
    assert s[i..][1] == '>' && s[i + 1] in s;
  }

  lemma {:induction false} InputKeys(combo: Combo, keys: seq<string>, k: string)
    requires k in MatrixInputs(combo, keys)
    ensures exists axis :: axis in keys && k == MatrixKey(axis)
    decreases |keys|
  {
    var rest, last := keys[..|keys| - 1], keys[|keys| - 1];
    if k == MatrixKey(last) {
      assert last in keys;
    } else {
      InputKeys(combo, rest, k);
      var axis :| axis in rest && k == MatrixKey(axis);
      assert axis in keys;
    }
  }

  lemma MatrixKeyClean(axis: string)
    requires CleanKey(axis)
    ensures CleanKey(MatrixKey(axis))
  {
    assert '=' !in "matrix." && '\n' !in "matrix.";
  }

  lemma InputsReadable(d: JobDecl, x: Combo)
    requires ReadableDecl(d) && InProduct(x, d.matrix)
    ensures ReadableKeys(MatrixInputs(x, Iter(x.Keys)))
  {
    forall k | k in MatrixInputs(x, Iter(x.Keys)) ensures CleanKey(k) {
      InputKeys(x, Iter(x.Keys), k);
      var axis :| axis in Iter(x.Keys) && k == MatrixKey(axis);
      assert axis in d.matrix;
      MatrixKeyClean(axis);
    }
  }

  lemma DefaultMountReadable(id: string, hash: Hash)
    requires IsCleanId(id)
    ensures forall m :: m in DefaultCacheMounts(id, hash) ==> ReadableMount(m)
  {
    CleanIdHasNo(id, '|');
    assert '|' !in "-cargo-target" && '|' !in "target/";
  }

  lemma StepsReadable(steps: seq<Step>, combo: Combo, id: string)
    requires forall s :: s in steps ==> ReadableKeys(s.env)
    ensures forall s :: s in InstantiateSteps(steps, combo, id) ==> ReadableKeys(s.env)
  {
    var r := InstantiateSteps(steps, combo, id);
    forall s | s in r ensures ReadableKeys(s.env) {
      var i :| 0 <= i < |r| && r[i] == s;
      assert s.env == steps[i].env && steps[i] in steps;
    }
  }

  lemma LoweredReadable(d: JobDecl, x: Combo, hash: Hash)
    requires ReadableDecl(d) && InProduct(x, d.matrix)
    ensures ReadableJob(JobOf(d, x, hash))
  {
    var id := ExpandedId(d.origin, x);
    InputsReadable(d, x);
    DefaultMountReadable(id, hash);
    StepsReadable(d.steps, x, id);
  }

  lemma PendingReadable(decls: seq<JobDecl>, hash: Hash, a: PendingJob)
    requires (forall d :: d in decls ==> ReadableDecl(d)) && a in Expansions(decls, hash)
    ensures ReadableJob(a.job) && IsCleanId(a.job.id)
  {
    var expand := ExpansionWith(hash);
    ConcatMapMember(expand, decls, a);
    var d :| d in decls && a in expand(d);
    ExpansionOf(d, hash, a);
    var x :| InProduct(x, d.matrix) && a == PendingOf(d, x, hash);
    PendingNeeds(d, x, hash);
    LoweredReadable(d, x, hash);
  }

  /** What the compiler emits for readable declarations is readable: job ids hold no separator, whatever
      names and matrix values the workflow uses. */
  lemma CompiledIsReadable(decls: seq<JobDecl>, hash: Hash, p: Pipeline)
    requires (forall d :: d in decls ==> ReadableDecl(d)) && Assembled(Expansions(decls, hash), p.header, p)
    requires ReadableSource(p.header.source)
    ensures Readable(p)
  {
    var all := Expansions(decls, hash);
    forall j | j in p.jobs ensures ReadableJob(j) {
      AssembledJobs(all, p.header, p, j);
      var a :| a in all && a.job == j;
      PendingReadable(decls, hash, a);
    }
    forall e | e in p.edges ensures ReadableEdge(e) {
      assert NeedEdge(all, e);
      var a, b :| a in all && b in all && a.origin in b.needs && e == Dependency(a.job.id, b.job.id);
      PendingReadable(decls, hash, a);
      CleanIdEdge(e);
    }
  }

  /** Two compiled workflows have the same canonical text exactly when they are the same pipeline, up to
      the order in which jobs, edges, mounts and artifacts are listed: the compiler knows two sources, both
      named, and leaves the default token scope at its default. */
  lemma CompiledTextDetermines(c: Context, ds: seq<JobDecl>, p: Pipeline, d: Context, es: seq<JobDecl>, q: Pipeline,
                               hash: Hash)
    requires (forall x :: x in ds ==> ReadableDecl(x)) && (forall x :: x in es ==> ReadableDecl(x))
    requires !c.source.Unknown? && !d.source.Unknown?
    requires Finished(Expansions(ds, hash), NewHeader(c, hash), hash, p)
    requires Finished(Expansions(es, hash), NewHeader(d, hash), hash, q)
    ensures CanonicalText(p) == CanonicalText(q) <==> Form(p) == Form(q)
  {
    CompiledIsReadable(ds, hash, p);
    CompiledIsReadable(es, hash, q);
    CanonicalTextDetermines(p, q);
    assert p.header.defaultTokenScope == ReadRepo == q.header.defaultTokenScope;
    SamePrinted(Form(p), Form(q));
  }

  lemma HeaderFromPrinted(h: Header)
    ensures h == PrintedHeader(h).(defaultTokenScope := h.defaultTokenScope)
  {
  }

  lemma SamePrinted(f: Pipeline, g: Pipeline)
    requires f.header.defaultTokenScope == g.header.defaultTokenScope
    ensures Printed(f) == Printed(g) <==> f == g
  {
    HeaderFromPrinted(f.header);
    HeaderFromPrinted(g.header);
    if Printed(f) == Printed(g) {
      assert Printed(f).header == Printed(g).header;
      assert f.header == g.header && f.jobs == g.jobs && f.edges == g.edges;
    }
  }

  /** The pipeline id hashes the same text, so it does not tell default token scopes apart either. */
  lemma ScopeIsNotInTheId(p: Pipeline, scope: TokenScope, hash: Hash)
    ensures PipelineId(WithScope(p, scope), hash) == PipelineId(p, hash)
  {
    ScopeIsNotPrinted(p, scope, hash);
  }
}
