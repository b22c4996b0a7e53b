/** When the canonical text of a pipeline, and with it the input of the IR hash, determines the pipeline
    (`jeryu-ci-ir/src/pipeline.rs`, `job.rs`, `hashing.rs`). Keys and joined lists are not escaped. */
module CanonicalReading {
  import opened Order
  import opened Text
  import opened PipelineIr

  // ------------------------------------------------------------------ reading lines

  /** A key that a reader can tell from the value behind it. */
  ghost predicate CleanKey(key: string) { '=' !in key && '\n' !in key }

  ghost predicate CleanKeys(lines: seq<Entry>) { forall e :: e in lines ==> CleanKey(e.key) }

  lemma EscapeDetermines(a: string, b: string)
    requires EscapeCanonical(a) == EscapeCanonical(b)
    ensures a == b
  {
    EscapeCanonicalRoundTrip(a);
    EscapeCanonicalRoundTrip(b);
  }

  lemma LineThen(e: Entry, rest: string)
    ensures Line(e) + rest == e.key + ("=" + (EscapeCanonical(e.value) + ("\n" + rest)))
  {
  }

  lemma LineDetermines(d: Entry, e: Entry, s: string, t: string)
    requires CleanKey(d.key) && CleanKey(e.key) && Line(d) + s == Line(e) + t
    ensures d == e && s == t
  {
    LineThen(d, s);
    LineThen(e, t);
    var x, y := EscapeCanonical(d.value), EscapeCanonical(e.value);
    SplitAt('=', d.key, x + ("\n" + s), e.key, y + ("\n" + t));
    EscapeCanonicalRoundTrip(d.value);
    EscapeCanonicalRoundTrip(e.value);
    SplitAt('\n', x, s, y, t);
    EscapeDetermines(d.value, e.value);
  }

  lemma RenderOne(e: Entry)
    ensures Render([e]) == Line(e)
  {
    var f, one := Line, [e];
    assert one[..0] == [] && Cat(one[..0], f) == "";
    assert Cat(one, f) == Cat(one[..0], f) + f(e);
  }

  lemma RenderFirst(lines: seq<Entry>)
    requires lines != []
    ensures Render(lines) == Line(lines[0]) + Render(lines[1..]) && Render(lines) != ""
  {
    assert lines == [lines[0]] + lines[1..];
    RenderAppend([lines[0]], lines[1..]);
    RenderOne(lines[0]);
  }

  /** A text with clean keys reads back line by line. */
  lemma {:induction false} RenderDetermines(a: seq<Entry>, b: seq<Entry>)
    requires CleanKeys(a) && CleanKeys(b) && Render(a) == Render(b)
    ensures a == b
    decreases |a|
  {
    if a != [] { RenderFirst(a); }
    if b != [] { RenderFirst(b); }
    if a != [] && b != [] {
      assert a[0] in a && b[0] in b;
      LineDetermines(a[0], b[0], Render(a[1..]), Render(b[1..]));
      assert CleanKeys(a[1..]) && CleanKeys(b[1..]);
      RenderDetermines(a[1..], b[1..]);
      assert a == [a[0]] + a[1..] && b == [b[0]] + b[1..];
    }
  }

  // ------------------------------------------------------------- sections and blocks

  ghost predicate All<T(!new)>(s: seq<T>, p: T -> bool) { forall x :: x in s ==> p(x) }

  ghost predicate NoneOf<T(!new)>(s: seq<T>, p: T -> bool) { forall x :: x in s ==> !p(x) }

  /** A section ends where the lines stop being of its kind. */
  lemma {:induction false} SectionEnds<T(!new)>(p: T -> bool, s: seq<T>, t: seq<T>, u: seq<T>, v: seq<T>)
    requires All(s, p) && All(u, p) && NoneOf(t, p) && NoneOf(v, p) && s + t == u + v
    ensures s == u && t == v
    decreases |s|
  {
    assert s == [] ==> s + t == t;
    assert u == [] ==> u + v == v;
    assert s != [] ==> (s + t)[0] == s[0] && s[0] in s;
    assert u != [] ==> (u + v)[0] == u[0] && u[0] in u;
    assert t != [] ==> t[0] in t;
    assert v != [] ==> v[0] in v;
    if s != [] {
      assert u != [];
      assert (s + t)[1..] == s[1..] + t && (u + v)[1..] == u[1..] + v;
      assert All(s[1..], p) && All(u[1..], p);
      SectionEnds(p, s[1..], t, u[1..], v);
      assert s == [s[0]] + s[1..] && u == [u[0]] + u[1..];
    }
  }

  /** A block starts with a marked line and holds no other. */
  ghost predicate IsBlock<T(!new)>(s: seq<T>, mark: T -> bool) {
    s != [] && mark(s[0]) && forall i :: 1 <= i < |s| ==> !mark(s[i])
  }

  ghost predicate AreBlocks<T(!new)>(parts: seq<seq<T>>, mark: T -> bool) {
    forall i :: 0 <= i < |parts| ==> IsBlock(parts[i], mark)
  }

  lemma FirstInside<T>(s: seq<T>, a: seq<T>, t: seq<T>, b: seq<T>)
    requires s + a == t + b && 0 < |a| <= |b|
    ensures a[0] == b[|b| - |a|]
  {
    assert (s + a)[|s|] == a[0] && (t + b)[|s|] == b[|s| - |t|];
  }

  lemma LastBlock<T(!new)>(mark: T -> bool, s: seq<T>, a: seq<T>, t: seq<T>, b: seq<T>)
    requires IsBlock(a, mark) && IsBlock(b, mark) && s + a == t + b
    ensures s == t && a == b
  {
    if |a| <= |b| { FirstInside(s, a, t, b); } else { FirstInside(t, b, s, a); }
    var all := s + a;
    assert all[..|s|] == s && all[..|t|] == t;
    assert all[|s|..] == a && all[|t|..] == b;
  }

  lemma {:induction false} BlocksDetermine<T(!new)>(mark: T -> bool, xs: seq<seq<T>>, ys: seq<seq<T>>)
    requires AreBlocks(xs, mark) && AreBlocks(ys, mark) && Concat(xs) == Concat(ys)
    ensures xs == ys
    decreases |xs|
  {
    BlocksAreNotEmpty(mark, xs);
    BlocksAreNotEmpty(mark, ys);
    if xs != [] && ys != [] {
      var k, l := |xs| - 1, |ys| - 1;
      assert IsBlock(xs[k], mark) && IsBlock(ys[l], mark);
      LastBlock(mark, Concat(xs[..k]), xs[k], Concat(ys[..l]), ys[l]);
      BlocksDetermine(mark, xs[..k], ys[..l]);
      assert xs == xs[..k] + [xs[k]] && ys == ys[..l] + [ys[l]];
    }
  }

  lemma BlocksAreNotEmpty<T(!new)>(mark: T -> bool, xs: seq<seq<T>>)
    requires AreBlocks(xs, mark)
    ensures xs == [] <==> Concat(xs) == []
  {
    if xs != [] { assert IsBlock(xs[|xs| - 1], mark); }
  }

  ghost predicate Tells<T(!new)>(f: T -> seq<Entry>, xs: seq<T>, ys: seq<T>) {
    forall x, y :: x in xs && y in ys && f(x) == f(y) ==> x == y
  }

  ghost predicate Shows<T(!new)>(f: T -> seq<Entry>, xs: seq<T>, mark: Entry -> bool) {
    forall x :: x in xs ==> IsBlock(f(x), mark)
  }

  /** Items shown as blocks that tell them apart are determined by their lines. */
  lemma ItemsDetermine<T(!new)>(f: T -> seq<Entry>, mark: Entry -> bool, xs: seq<T>, ys: seq<T>)
    requires Shows(f, xs, mark) && Shows(f, ys, mark) && Tells(f, xs, ys) && Blocks(xs, f) == Blocks(ys, f)
    ensures xs == ys
  {
    var a, b := MapSeq(f, xs), MapSeq(f, ys);
    forall i | 0 <= i < |a| ensures IsBlock(a[i], mark) { assert xs[i] in xs; }
    forall i | 0 <= i < |b| ensures IsBlock(b[i], mark) { assert ys[i] in ys; }
    BlocksDetermine(mark, a, b);
    assert |xs| == |a| == |b| == |ys|;
    forall i | 0 <= i < |xs| ensures xs[i] == ys[i] {
      assert a[i] == b[i];
      assert f(xs[i]) == f(ys[i]) && xs[i] in xs && ys[i] in ys;
    }
  }

  lemma BlocksAll<T(!new)>(f: T -> seq<Entry>, items: seq<T>, p: Entry -> bool)
    requires forall x :: x in items ==> All(f(x), p)
    ensures All(Blocks(items, f), p)
  {
    forall e | e in Blocks(items, f) ensures p(e) {
      ConcatMapMember(f, items, e);
      var x :| x in items && e in f(x);
    }
  }

  lemma AllAppend<T(!new)>(a: seq<T>, b: seq<T>, p: T -> bool)
    ensures All(a + b, p) <==> All(a, p) && All(b, p)
  {
    assert forall x :: x in a + b <==> x in a || x in b;
  }

  // ---------------------------------------------------------------------- values

  lemma DecDetermines(a: nat, b: nat)
    requires Dec(a) == Dec(b)
    ensures a == b
  {
    DecRoundTrip(a);
    DecRoundTrip(b);
  }

  lemma BoolDetermines(a: bool, b: bool)
    requires BoolText(a) == BoolText(b)
    ensures a == b
  {
    assert BoolText(true)[0] == 't' && BoolText(false)[0] == 'f';
  }

  /** A list that can be read back after joining with commas. */
  ghost predicate Listable(s: seq<string>) { s != [""] && forall x :: x in s ==> ',' !in x }

  lemma JoinTwo(s: seq<string>)
    requires |s| >= 2
    ensures Join(s, ",") == s[0] + ([','] + Join(s[1..], ","))
  {
  }

  lemma {:induction false} JoinNoComma(s: seq<string>, t: seq<string>)
    requires s != [] && t != [] && (forall x :: x in s ==> ',' !in x) && (forall x :: x in t ==> ',' !in x)
    requires Join(s, ",") == Join(t, ",")
    ensures s == t
    decreases |s|
  {
    assert s[0] in s && t[0] in t;
    JoinCommas(s);
    JoinCommas(t);
    if |s| == 1 {
      assert s == [s[0]] && t == [t[0]];
    } else {
      JoinTwo(s);
      JoinTwo(t);
      SplitAt(',', s[0], Join(s[1..], ","), t[0], Join(t[1..], ","));
      JoinNoComma(s[1..], t[1..]);
      assert s == [s[0]] + s[1..] && t == [t[0]] + t[1..];
    }
  }

  lemma JoinCommas(s: seq<string>)
    requires s != [] && forall x :: x in s ==> ',' !in x
    ensures ',' in Join(s, ",") <==> |s| >= 2
  {
    if |s| >= 2 {
      JoinTwo(s);
      assert Join(s, ",")[|s[0]|] == ',';
    } else {
      assert s[0] in s;
    }
  }

  lemma JoinEmpty(s: seq<string>)
    requires Join(s, ",") == ""
    ensures s == [] || s == [""]
  {
    if |s| >= 2 { JoinTwo(s); }
  }

  lemma JoinDetermines(s: seq<string>, t: seq<string>)
    requires Listable(s) && Listable(t) && Join(s, ",") == Join(t, ",")
    ensures s == t
  {
    if s == [] {
      JoinEmpty(t);
    } else if t == [] {
      JoinEmpty(s);
    } else {
      JoinNoComma(s, t);
    }
  }

  /** The runner classes that have a name of their own. */
  function NamedClasses(): seq<RunnerClass> {
    [NativeRustHot, NativeRustClean, CrategraphDelta, NextestCapsule, AgentGuard, MergeSpec,
     RunnerClass.ReleaseHermetic, MicrovmRust, OciDocker, K8sOci]
  }

  /** A custom class does not carry the name of another one. */
  ghost predicate ReadableClass(c: RunnerClass) {
    c.Custom? ==> forall d :: d in NamedClasses() ==> RunnerClassText(d) != c.name
  }

  lemma NamedClassesDiffer(c: RunnerClass, d: RunnerClass)
    requires !c.Custom? && !d.Custom? && RunnerClassText(c) == RunnerClassText(d)
    ensures c == d
  {
    var x, y := RunnerClassText(c), RunnerClassText(d);
    assert |x| == |y| && x[0] == y[0] && x[1] == y[1] && x[2] == y[2];
  }

  lemma ClassDetermines(c: RunnerClass, d: RunnerClass)
    requires ReadableClass(c) && ReadableClass(d) && RunnerClassText(c) == RunnerClassText(d)
    ensures c == d
  {
    assert !c.Custom? ==> c in NamedClasses();
    assert !d.Custom? ==> d in NamedClasses();
    if !c.Custom? && !d.Custom? { NamedClassesDiffer(c, d); }
  }

  /** The sources that have a name of their own. */
  function NamedSources(): seq<PipelineSource> {
    [GitHubActions, NativeToml, Api, Agent, MergeQueue, Hotfix, Release, Scheduled]
  }

  /** An unknown source does not carry the name of another one. */
  ghost predicate ReadableSource(s: PipelineSource) {
    s.Unknown? ==> forall t :: t in NamedSources() ==> SourceText(t) != s.value
  }

  lemma NamedSourcesDiffer(s: PipelineSource, t: PipelineSource)
    requires !s.Unknown? && !t.Unknown? && SourceText(s) == SourceText(t)
    ensures s == t
  {
    var x, y := SourceText(s), SourceText(t);
    assert |x| == |y| && x[0] == y[0] && x[1] == y[1];
  }

  lemma SourceDetermines(s: PipelineSource, t: PipelineSource)
    requires ReadableSource(s) && ReadableSource(t) && SourceText(s) == SourceText(t)
    ensures s == t
  {
    assert !s.Unknown? ==> s in NamedSources();
    assert !t.Unknown? ==> t in NamedSources();
    if !s.Unknown? && !t.Unknown? { NamedSourcesDiffer(s, t); }
  }

  lemma TrustDetermines(s: TrustTier, t: TrustTier)
    requires TrustText(s) == TrustText(t)
    ensures s == t
  {
    assert TrustText(s)[1] == TrustText(t)[1];
  }

  lemma ModeDetermines(m: CacheMode, n: CacheMode)
    requires ModeText(m) == ModeText(n)
    ensures m == n
  {
    assert |ModeText(m)| == |ModeText(n)|;
  }

  lemma WhenDetermines(v: ArtifactWhen, w: ArtifactWhen)
    requires WhenText(v) == WhenText(w)
    ensures v == w
  {
    assert |WhenText(v)| == |WhenText(w)| && WhenText(v)[0] == WhenText(w)[0];
    assert |WhenText(v)| == 10 ==> WhenText(v)[3] == WhenText(w)[3];
  }

  ghost predicate ReadableNetwork(p: NetworkPolicy) { p.Allowlist? ==> Listable(p.hosts) }

  lemma NetworkDetermines(p: NetworkPolicy, q: NetworkPolicy)
    requires ReadableNetwork(p) && ReadableNetwork(q) && NetworkText(p) == NetworkText(q)
    ensures p == q
  {
    var x, y := NetworkText(p), NetworkText(q);
    assert x[0] == y[0];
    if p.Allowlist? && q.Allowlist? {
      assert x[10..] == Join(p.hosts, ",") && y[10..] == Join(q.hosts, ",");
      JoinDetermines(p.hosts, q.hosts);
    }
  }

  ghost predicate ReadableToken(t: TokenScope) { t.CustomScope? ==> Listable(t.values) }

  lemma TokenDetermines(t: TokenScope, u: TokenScope)
    requires ReadableToken(t) && ReadableToken(u) && TokenText(t) == TokenText(u)
    ensures t == u
  {
    var x, y := TokenText(t), TokenText(u);
    assert x[0] == y[0] && |x| == |y|;
    if t.CustomScope? && u.CustomScope? {
      assert x[7..] == Join(t.values, ",") && y[7..] == Join(u.values, ",");
      JoinDetermines(t.values, u.values);
    }
  }

  // ------------------------------------------------------------------ items of a job

  ghost predicate ReadableMount(m: CacheMount) { '|' !in m.name && '|' !in m.path }

  lemma LabelsHaveNoBar(m: CacheMode, w: ArtifactWhen)
    ensures '|' !in ModeText(m) && '|' !in WhenText(w)
  {
  }

  lemma MountText(m: CacheMount)
    ensures MountLine(m)[0].value
         == m.name + (['|'] + (m.path + (['|'] + (ModeText(m.mode) + (['|'] + m.fingerprint)))))
  {
  }

  lemma MountDetermines(m: CacheMount, n: CacheMount)
    requires ReadableMount(m) && ReadableMount(n) && MountLine(m) == MountLine(n)
    ensures m == n
  {
    MountText(m);
    MountText(n);
    assert MountLine(m)[0].value == MountLine(n)[0].value;
    var x, y := ModeText(m.mode), ModeText(n.mode);
    var s, t := x + (['|'] + m.fingerprint), y + (['|'] + n.fingerprint);
    SplitAt('|', m.name, m.path + (['|'] + s), n.name, n.path + (['|'] + t));
    SplitAt('|', m.path, s, n.path, t);
    LabelsHaveNoBar(m.mode, Always);
    LabelsHaveNoBar(n.mode, Always);
    SplitAt('|', x, m.fingerprint, y, n.fingerprint);
    ModeDetermines(m.mode, n.mode);
  }

  ghost predicate ReadableArtifact(a: ArtifactPath) { '|' !in a.name && Listable(a.paths) }

  lemma ArtifactText(a: ArtifactPath)
    ensures ArtifactLine(a)[0].value
         == a.name + (['|'] + (WhenText(a.when) + (['|'] + (Dec(a.retentionDays) + (['|'] + Join(a.paths, ","))))))
  {
  }

  lemma DecHasNoBar(n: nat)
    ensures '|' !in Dec(n)
  {
    forall i | 0 <= i < |Dec(n)| ensures Dec(n)[i] != '|' { assert IsDigit(Dec(n)[i]); }
  }

  lemma ArtifactDetermines(a: ArtifactPath, b: ArtifactPath)
    requires ReadableArtifact(a) && ReadableArtifact(b) && ArtifactLine(a) == ArtifactLine(b)
    ensures a == b
  {
    ArtifactText(a);
    ArtifactText(b);
    assert ArtifactLine(a)[0].value == ArtifactLine(b)[0].value;
    var p, q := Join(a.paths, ","), Join(b.paths, ",");
    var x, y := Dec(a.retentionDays), Dec(b.retentionDays);
    var v, w := WhenText(a.when), WhenText(b.when);
    SplitAt('|', a.name, v + (['|'] + (x + (['|'] + p))), b.name, w + (['|'] + (y + (['|'] + q))));
    LabelsHaveNoBar(ReadOnly, a.when);
    LabelsHaveNoBar(ReadOnly, b.when);
    SplitAt('|', v, x + (['|'] + p), w, y + (['|'] + q));
    DecHasNoBar(a.retentionDays);
    DecHasNoBar(b.retentionDays);
    SplitAt('|', x, p, y, q);
    WhenDetermines(a.when, b.when);
    DecDetermines(a.retentionDays, b.retentionDays);
    JoinDetermines(a.paths, b.paths);
  }

  predicate AnyLine(e: Entry) { true }

  /** One line per key, in the order of `ks`. */
  ghost predicate PartsOf(a: seq<seq<Entry>>, prefix: string, ks: seq<string>, m: map<string, string>) {
    |a| == |ks| && forall i :: 0 <= i < |ks| ==> ks[i] in m && a[i] == [Entry(prefix + ks[i], m[ks[i]])]
  }

  lemma MapParts(prefix: string, m: map<string, string>)
    ensures PartsOf(MapSeq(MapLine(prefix, m), Iter(m.Keys)), prefix, Iter(m.Keys), m)
  {
    var f, keys := MapLine(prefix, m), Iter(m.Keys);
    forall i | 0 <= i < |keys| ensures keys[i] in m && MapSeq(f, keys)[i] == [Entry(prefix + keys[i], m[keys[i]])] {
      assert keys[i] in keys;
      assert MapSeq(f, keys)[i] == f(keys[i]);
    }
  }

  lemma PartsAreBlocks(a: seq<seq<Entry>>, prefix: string, ks: seq<string>, m: map<string, string>)
    requires PartsOf(a, prefix, ks, m)
    ensures AreBlocks(a, AnyLine)
  {
  }

  lemma PartsDetermine(a: seq<seq<Entry>>, prefix: string, ks: seq<string>, m: map<string, string>, ls: seq<string>,
                       n: map<string, string>)
    requires PartsOf(a, prefix, ks, m) && PartsOf(a, prefix, ls, n)
    requires (forall k :: k in ks <==> k in m) && (forall k :: k in ls <==> k in n)
    ensures m == n
  {
    forall i | 0 <= i < |ks| ensures ks[i] == ls[i] && m[ks[i]] == n[ls[i]] {
      assert a[i][0] == Entry(prefix + ks[i], m[ks[i]]) == Entry(prefix + ls[i], n[ls[i]]);
      CancelPrefix(prefix, ks[i], ls[i]);
    }
    assert ks == ls;
    SameEntries(m, n, ks);
  }

  /** The lines of a map determine it. */
  lemma MapDetermines(prefix: string, m: map<string, string>, n: map<string, string>)
    requires MapLines(prefix, m) == MapLines(prefix, n)
    ensures m == n
  {
    var a, b := MapSeq(MapLine(prefix, m), Iter(m.Keys)), MapSeq(MapLine(prefix, n), Iter(n.Keys));
    MapParts(prefix, m);
    MapParts(prefix, n);
    PartsAreBlocks(a, prefix, Iter(m.Keys), m);
    PartsAreBlocks(b, prefix, Iter(n.Keys), n);
    BlocksDetermine(AnyLine, a, b);
    PartsDetermine(a, prefix, Iter(m.Keys), m, Iter(n.Keys), n);
  }

  lemma SameEntries(m: map<string, string>, n: map<string, string>, ks: seq<string>)
    requires (forall k :: k in ks <==> k in m) && (forall k :: k in ks <==> k in n)
    requires forall i :: 0 <= i < |ks| ==> m[ks[i]] == n[ks[i]]
    ensures m == n
  {
    forall k | k in m ensures k in n && m[k] == n[k] {
      assert k in ks;
      var i :| 0 <= i < |ks| && ks[i] == k;
    }
  }

  // ------------------------------------------------------------------------- steps

  lemma NoneAppend<T(!new)>(a: seq<T>, b: seq<T>, p: T -> bool)
    requires NoneOf(a, p) && NoneOf(b, p)
    ensures NoneOf(a + b, p)
  {
  }

  lemma MapLinesAll(prefix: string, m: map<string, string>, p: Entry -> bool)
    requires forall k, v :: k in m ==> p(Entry(prefix + k, v))
    ensures All(MapLines(prefix, m), p)
  {
    var f, keys := MapLine(prefix, m), Iter(m.Keys);
    forall k | k in keys ensures All(f(k), p) { assert f(k) == [Entry(prefix + k, m[k])]; }
    BlocksAll(f, keys, p);
  }

  /** What tells the lines of a step apart: the two characters after `job.step.` in the key. */
  function StepTag(e: Entry): string { if |e.key| >= 11 then [e.key[9], e.key[10]] else "" }

  function HasStepTag(tag: string): Entry -> bool { e => StepTag(e) == tag }

  lemma OptionTag(key: string, value: Option<string>, tag: string)
    requires StepTag(Entry(key, "")) == tag
    ensures All(OptionLine(key, value), HasStepTag(tag))
  {
  }

  lemma EnvTag(env: map<string, string>)
    ensures All(MapLines("job.step.env.", env), HasStepTag("en"))
  {
    var p := HasStepTag("en");
    forall k, v | k in env ensures p(Entry("job.step.env." + k, v)) {
      assert ("job.step.env." + k)[9] == 'e' && ("job.step.env." + k)[10] == 'n';
    }
    MapLinesAll("job.step.env.", env, p);
  }

  lemma OtherTag(s: seq<Entry>, tag: string, other: string)
    requires All(s, HasStepTag(tag)) && tag != other
    ensures NoneOf(s, HasStepTag(other))
  {
    var p, q := HasStepTag(tag), HasStepTag(other);
    forall e | e in s ensures !q(e) { assert p(e); }
  }

  lemma StepTags(s: Step)
    ensures All(OptionLine("job.step.run", s.command), HasStepTag("ru"))
    ensures All(OptionLine("job.step.uses", s.uses), HasStepTag("us"))
    ensures All(OptionLine("job.step.cwd", s.workingDirectory), HasStepTag("cw"))
    ensures All(MapLines("job.step.env.", s.env), HasStepTag("en"))
  {
    OptionTag("job.step.run", s.command, "ru");
    OptionTag("job.step.uses", s.uses, "us");
    OptionTag("job.step.cwd", s.workingDirectory, "cw");
    EnvTag(s.env);
  }

  /** The optional lines of a step, in order. */
  function StepRest(s: Step): seq<Entry> {
    OptionLine("job.step.run", s.command) + (OptionLine("job.step.uses", s.uses)
    + (OptionLine("job.step.cwd", s.workingDirectory) + MapLines("job.step.env.", s.env)))
  }

  lemma TailWithout(a: seq<Entry>, ta: string, b: seq<Entry>, tb: string, c: seq<Entry>, tc: string, tag: string)
    requires All(a, HasStepTag(ta)) && All(b, HasStepTag(tb)) && All(c, HasStepTag(tc)) && tag != ta && tag != tb
    requires tag != tc
    ensures NoneOf(a + (b + c), HasStepTag(tag)) && NoneOf(b + c, HasStepTag(tag)) && NoneOf(c, HasStepTag(tag))
  {
    OtherTag(a, ta, tag);
    OtherTag(b, tb, tag);
    OtherTag(c, tc, tag);
    NoneAppend(b, c, HasStepTag(tag));
    NoneAppend(a, b + c, HasStepTag(tag));
  }

  lemma StepRestWithout(s: Step)
    ensures NoneOf(OptionLine("job.step.uses", s.uses)
                   + (OptionLine("job.step.cwd", s.workingDirectory) + MapLines("job.step.env.", s.env)),
                   HasStepTag("ru"))
    ensures NoneOf(OptionLine("job.step.cwd", s.workingDirectory) + MapLines("job.step.env.", s.env), HasStepTag("us"))
    ensures NoneOf(MapLines("job.step.env.", s.env), HasStepTag("cw"))
    ensures NoneOf(StepRest(s), HasStepTag("id"))
  {
    StepTags(s);
    var a, b, c, d := OptionLine("job.step.run", s.command), OptionLine("job.step.uses", s.uses),
                      OptionLine("job.step.cwd", s.workingDirectory), MapLines("job.step.env.", s.env);
    TailWithout(b, "us", c, "cw", d, "en", "ru");
    TailWithout(b, "us", c, "cw", d, "en", "id");
    OtherTag(c, "cw", "us");
    OtherTag(d, "en", "us");
    NoneAppend(c, d, HasStepTag("us"));
    OtherTag(d, "en", "cw");
    OtherTag(a, "ru", "id");
    NoneAppend(a, b + (c + d), HasStepTag("id"));
  }

  lemma OptionDetermines(key: string, a: Option<string>, b: Option<string>)
    requires OptionLine(key, a) == OptionLine(key, b)
    ensures a == b
  {
    assert a.Some? <==> |OptionLine(key, a)| == 1;
    assert b.Some? <==> |OptionLine(key, b)| == 1;
    assert a.Some? ==> OptionLine(key, a)[0] == Entry(key, a.value);
    assert b.Some? ==> OptionLine(key, b)[0] == Entry(key, b.value);
  }

  lemma StepRestDetermines(s: Step, t: Step)
    requires StepRest(s) == StepRest(t)
    ensures s.command == t.command && s.uses == t.uses && s.workingDirectory == t.workingDirectory && s.env == t.env
  {
    StepTags(s);
    StepTags(t);
    StepRestWithout(s);
    StepRestWithout(t);
    var a, b, c, d := OptionLine("job.step.run", s.command), OptionLine("job.step.uses", s.uses),
                      OptionLine("job.step.cwd", s.workingDirectory), MapLines("job.step.env.", s.env);
    var w, x, y, z := OptionLine("job.step.run", t.command), OptionLine("job.step.uses", t.uses),
                      OptionLine("job.step.cwd", t.workingDirectory), MapLines("job.step.env.", t.env);
    SectionEnds(HasStepTag("ru"), a, b + (c + d), w, x + (y + z));
    SectionEnds(HasStepTag("us"), b, c + d, x, y + z);
    SectionEnds(HasStepTag("cw"), c, d, y, z);
    OptionDetermines("job.step.run", s.command, t.command);
    OptionDetermines("job.step.uses", s.uses, t.uses);
    OptionDetermines("job.step.cwd", s.workingDirectory, t.workingDirectory);
    MapDetermines("job.step.env.", s.env, t.env);
  }

  lemma StepDetermines(s: Step, t: Step)
    requires StepLines(s) == StepLines(t)
    ensures s == t
  {
    var a, b := StepLines(s), StepLines(t);
    assert a[0] == Entry("job.step.id", s.id) && b[0] == Entry("job.step.id", t.id);
    assert a[1] == Entry("job.step.name", s.name) && b[1] == Entry("job.step.name", t.name);
    assert a[2..] == StepRest(s) && b[2..] == StepRest(t);
    StepRestDetermines(s, t);
  }

  lemma StepIsBlock(s: Step)
    ensures IsBlock(StepLines(s), HasStepTag("id"))
  {
    var a, p := StepLines(s), HasStepTag("id");
    assert StepTag(a[0]) == "id" && StepTag(a[1]) == "na";
    assert p(a[0]) && !p(a[1]);
    StepRestWithout(s);
    forall i | 1 <= i < |a| ensures !p(a[i]) {
      if i >= 2 { assert a[i] == StepRest(s)[i - 2] && StepRest(s)[i - 2] in StepRest(s); }
    }
  }

  lemma StepsDetermine(xs: seq<Step>, ys: seq<Step>)
    requires Blocks(xs, StepLines) == Blocks(ys, StepLines)
    ensures xs == ys
  {
    var f, mark := StepLines, HasStepTag("id");
    forall x | x in xs ensures IsBlock(f(x), mark) { StepIsBlock(x); }
    forall y | y in ys ensures IsBlock(f(y), mark) { StepIsBlock(y); }
    forall x, y | x in xs && y in ys && f(x) == f(y) ensures x == y { StepDetermines(x, y); }
    ItemsDetermine(f, mark, xs, ys);
  }

  // -------------------------------------------------------------------------- jobs

  /** What tells the lines of a pipeline apart: the two characters after the first four of the key. */
  function Tag(e: Entry): string { if |e.key| >= 6 then [e.key[4], e.key[5]] else "" }

  function HasTag(tag: string): Entry -> bool { e => Tag(e) == tag }

  lemma OtherSection(s: seq<Entry>, tag: string, other: string)
    requires All(s, HasTag(tag)) && tag != other
    ensures NoneOf(s, HasTag(other))
  {
    var p, q := HasTag(tag), HasTag(other);
    forall e | e in s ensures !q(e) { assert p(e); }
  }

  lemma MapSection(prefix: string, m: map<string, string>, tag: string)
    requires |prefix| >= 6 && [prefix[4], prefix[5]] == tag
    ensures All(MapLines(prefix, m), HasTag(tag))
  {
    var p := HasTag(tag);
    forall k, v | k in m ensures p(Entry(prefix + k, v)) {
      assert (prefix + k)[4] == prefix[4] && (prefix + k)[5] == prefix[5];
    }
    MapLinesAll(prefix, m, p);
  }

  lemma MountSection(xs: seq<CacheMount>)
    ensures All(Blocks(xs, MountLine), HasTag("ca"))
  {
    var f, p := MountLine, HasTag("ca");
    BlocksAll(f, xs, p);
  }

  lemma ArtifactSection(xs: seq<ArtifactPath>)
    ensures All(Blocks(xs, ArtifactLine), HasTag("ar"))
  {
    var f, p := ArtifactLine, HasTag("ar");
    BlocksAll(f, xs, p);
  }

  lemma StepLineSection(s: Step)
    ensures All(StepLines(s), HasTag("st"))
  {
    var p := HasTag("st");
    MapSection("job.step.env.", s.env, "st");
    var head := [Entry("job.step.id", s.id), Entry("job.step.name", s.name)];
    var a, b, c, d := OptionLine("job.step.run", s.command), OptionLine("job.step.uses", s.uses),
                      OptionLine("job.step.cwd", s.workingDirectory), MapLines("job.step.env.", s.env);
    AllAppend(c, d, p);
    AllAppend(b, c + d, p);
    AllAppend(a, b + (c + d), p);
    AllAppend(head, a + (b + (c + d)), p);
  }

  lemma StepSection(xs: seq<Step>)
    ensures All(Blocks(xs, StepLines), HasTag("st"))
  {
    var f, p := StepLines, HasTag("st");
    forall x | x in xs ensures All(f(x), p) { StepLineSection(x); }
    BlocksAll(f, xs, p);
  }

  lemma JobSections(j: Job)
    ensures All(MapLines("job.input.", j.inputs), HasTag("in")) && All(MapLines("job.output.", j.outputs), HasTag("ou"))
    ensures All(Blocks(j.cacheMounts, MountLine), HasTag("ca"))
    ensures All(Blocks(j.artifactPaths, ArtifactLine), HasTag("ar"))
    ensures All(Blocks(j.steps, StepLines), HasTag("st"))
  {
    MapSection("job.input.", j.inputs, "in");
    MapSection("job.output.", j.outputs, "ou");
    MountSection(j.cacheMounts);
    ArtifactSection(j.artifactPaths);
    StepSection(j.steps);
  }

  /** Five sections of different kinds are determined by their concatenation. */
  lemma SectionsDetermine(a: seq<Entry>, b: seq<Entry>, c: seq<Entry>, d: seq<Entry>, e: seq<Entry>,
                          v: seq<Entry>, w: seq<Entry>, x: seq<Entry>, y: seq<Entry>, z: seq<Entry>)
    requires All(a, HasTag("in")) && All(b, HasTag("ou")) && All(c, HasTag("ca")) && All(d, HasTag("ar"))
    requires All(e, HasTag("st"))
    requires All(v, HasTag("in")) && All(w, HasTag("ou")) && All(x, HasTag("ca")) && All(y, HasTag("ar"))
    requires All(z, HasTag("st"))
    requires a + (b + (c + (d + e))) == v + (w + (x + (y + z)))
    ensures a == v && b == w && c == x && d == y && e == z
  {
    RestWithout(b, c, d, e);
    RestWithout(w, x, y, z);
    SectionEnds(HasTag("in"), a, b + (c + (d + e)), v, w + (x + (y + z)));
    SectionEnds(HasTag("ou"), b, c + (d + e), w, x + (y + z));
    SectionEnds(HasTag("ca"), c, d + e, x, y + z);
    SectionEnds(HasTag("ar"), d, e, y, z);
  }

  lemma RestWithout(b: seq<Entry>, c: seq<Entry>, d: seq<Entry>, e: seq<Entry>)
    requires All(b, HasTag("ou")) && All(c, HasTag("ca")) && All(d, HasTag("ar")) && All(e, HasTag("st"))
    ensures NoneOf(e, HasTag("ar")) && NoneOf(d + e, HasTag("ca")) && NoneOf(c + (d + e), HasTag("ou"))
    ensures NoneOf(b + (c + (d + e)), HasTag("in")) && NoneOf(b + (c + (d + e)), HasTag("id"))
  {
    OtherSection(e, "st", "ar");
    OtherSection(e, "st", "ca");
    OtherSection(d, "ar", "ca");
    NoneAppend(d, e, HasTag("ca"));
    ThreeWithout(c, d, e, "ou");
    ThreeWithout(c, d, e, "in");
    ThreeWithout(c, d, e, "id");
    OtherSection(b, "ou", "in");
    OtherSection(b, "ou", "id");
    NoneAppend(b, c + (d + e), HasTag("in"));
    NoneAppend(b, c + (d + e), HasTag("id"));
  }

  lemma ThreeWithout(c: seq<Entry>, d: seq<Entry>, e: seq<Entry>, tag: string)
    requires All(c, HasTag("ca")) && All(d, HasTag("ar")) && All(e, HasTag("st")) && tag != "ca" && tag != "ar"
    requires tag != "st"
    ensures NoneOf(c + (d + e), HasTag(tag))
  {
    OtherSection(c, "ca", tag);
    OtherSection(d, "ar", tag);
    OtherSection(e, "st", tag);
    NoneAppend(d, e, HasTag(tag));
    NoneAppend(c, d + e, HasTag(tag));
  }

  ghost predicate ReadableKeys(m: map<string, string>) { forall k :: k in m ==> CleanKey(k) }

  /** A job whose lines can be read back: keys without `=` and line breaks, joined parts without their
      separators, and a custom runner class that is not spelled like another one. */
  ghost predicate ReadableJob(j: Job) {
    && ReadableClass(j.runnerClass) && ReadableNetwork(j.networkPolicy) && ReadableToken(j.tokenScope)
    && ReadableKeys(j.inputs) && ReadableKeys(j.outputs)
    && (forall m :: m in j.cacheMounts ==> ReadableMount(m))
    && (forall a :: a in j.artifactPaths ==> ReadableArtifact(a))
    && (forall s :: s in j.steps ==> ReadableKeys(s.env))
  }

  lemma MountsDetermine(xs: seq<CacheMount>, ys: seq<CacheMount>)
    requires (forall m :: m in xs ==> ReadableMount(m)) && (forall m :: m in ys ==> ReadableMount(m))
    requires Blocks(xs, MountLine) == Blocks(ys, MountLine)
    ensures xs == ys
  {
    var f := MountLine;
    forall x, y | x in xs && y in ys && f(x) == f(y) ensures x == y { MountDetermines(x, y); }
    ItemsDetermine(f, AnyLine, xs, ys);
  }

  lemma ArtifactsDetermine(xs: seq<ArtifactPath>, ys: seq<ArtifactPath>)
    requires (forall a :: a in xs ==> ReadableArtifact(a)) && (forall a :: a in ys ==> ReadableArtifact(a))
    requires Blocks(xs, ArtifactLine) == Blocks(ys, ArtifactLine)
    ensures xs == ys
  {
    var f := ArtifactLine;
    forall x, y | x in xs && y in ys && f(x) == f(y) ensures x == y { ArtifactDetermines(x, y); }
    ItemsDetermine(f, AnyLine, xs, ys);
  }

  lemma BodyDetermines(j: Job, k: Job)
    requires ReadableJob(j) && ReadableJob(k) && JobBodyLines(j) == JobBodyLines(k)
    ensures j.inputs == k.inputs && j.outputs == k.outputs && j.cacheMounts == k.cacheMounts
    ensures j.artifactPaths == k.artifactPaths && j.steps == k.steps
  {
    JobSections(j);
    JobSections(k);
    SectionsDetermine(MapLines("job.input.", j.inputs), MapLines("job.output.", j.outputs),
                      Blocks(j.cacheMounts, MountLine),
                      Blocks(j.artifactPaths, ArtifactLine), Blocks(j.steps, StepLines),
                      MapLines("job.input.", k.inputs), MapLines("job.output.", k.outputs),
                      Blocks(k.cacheMounts, MountLine),
                      Blocks(k.artifactPaths, ArtifactLine), Blocks(k.steps, StepLines));
    MapDetermines("job.input.", j.inputs, k.inputs);
    MapDetermines("job.output.", j.outputs, k.outputs);
    MountsDetermine(j.cacheMounts, k.cacheMounts);
    ArtifactsDetermine(j.artifactPaths, k.artifactPaths);
    StepsDetermine(j.steps, k.steps);
  }

  lemma HeadDetermines(j: Job, k: Job)
    requires ReadableJob(j) && ReadableJob(k) && JobHeadLines(j) == JobHeadLines(k)
    ensures j.id == k.id && j.name == k.name && j.runnerClass == k.runnerClass && j.timeoutSeconds == k.timeoutSeconds
    ensures j.maxAttempts == k.maxAttempts && j.backoffSeconds == k.backoffSeconds
    ensures j.networkPolicy == k.networkPolicy && j.tokenScope == k.tokenScope
  {
    var a, b := JobHeadLines(j), JobHeadLines(k);
    assert a[0] == b[0] && a[1] == b[1] && a[2] == b[2] && a[3] == b[3];
    assert a[4] == b[4] && a[5] == b[5] && a[6] == b[6] && a[7] == b[7];
    ClassDetermines(j.runnerClass, k.runnerClass);
    DecDetermines(j.timeoutSeconds, k.timeoutSeconds);
    DecDetermines(j.maxAttempts, k.maxAttempts);
    DecDetermines(j.backoffSeconds, k.backoffSeconds);
    NetworkDetermines(j.networkPolicy, k.networkPolicy);
    TokenDetermines(j.tokenScope, k.tokenScope);
  }

  lemma EqualFront<T>(a: seq<T>, b: seq<T>, s: seq<T>, t: seq<T>)
    requires |a| == |b| && a + s == b + t
    ensures a == b && s == t
  {
    assert (a + s)[..|a|] == a && (b + t)[..|b|] == b;
    assert (a + s)[|a|..] == s && (b + t)[|b|..] == t;
  }

  /** The lines of a readable job determine it. */
  lemma JobDetermines(j: Job, k: Job)
    requires ReadableJob(j) && ReadableJob(k) && JobLines(j) == JobLines(k)
    ensures j == k
  {
    EqualFront(JobHeadLines(j), JobHeadLines(k), JobBodyLines(j), JobBodyLines(k));
    HeadDetermines(j, k);
    BodyDetermines(j, k);
  }

  lemma HeadTags(j: Job)
    ensures HasTag("id")(JobHeadLines(j)[0]) && forall i :: 1 <= i < 8 ==> !HasTag("id")(JobHeadLines(j)[i])
    ensures NoneOf(JobHeadLines(j), HasTag(""))
  {
    var a := JobHeadLines(j);
    assert Tag(a[0]) == "id" && Tag(a[1]) == "na" && Tag(a[2]) == "ru" && Tag(a[3]) == "ti";
    assert Tag(a[4]) == "re" && Tag(a[5]) == "re" && Tag(a[6]) == "ne" && Tag(a[7]) == "to";
  }

  lemma BodyTags(j: Job)
    ensures NoneOf(JobBodyLines(j), HasTag("id")) && NoneOf(JobBodyLines(j), HasTag(""))
  {
    JobSections(j);
    var a, b := MapLines("job.input.", j.inputs), MapLines("job.output.", j.outputs);
    var c, d, e := Blocks(j.cacheMounts, MountLine), Blocks(j.artifactPaths, ArtifactLine), Blocks(j.steps, StepLines);
    RestWithout(b, c, d, e);
    OtherSection(a, "in", "id");
    NoneAppend(a, b + (c + (d + e)), HasTag("id"));
    ThreeWithout(c, d, e, "");
    OtherSection(b, "ou", "");
    OtherSection(a, "in", "");
    NoneAppend(b, c + (d + e), HasTag(""));
    NoneAppend(a, b + (c + (d + e)), HasTag(""));
  }

  lemma JobIsBlock(j: Job)
    ensures IsBlock(JobLines(j), HasTag("id")) && NoneOf(JobLines(j), HasTag(""))
  {
    HeadTags(j);
    BodyTags(j);
    NoneAppend(JobHeadLines(j), JobBodyLines(j), HasTag(""));
    var a, p := JobLines(j), HasTag("id");
    assert a[0] == JobHeadLines(j)[0];
    forall i | 1 <= i < |a| ensures !p(a[i]) {
      if i < 8 {
        assert a[i] == JobHeadLines(j)[i];
      } else {
        assert a[i] == JobBodyLines(j)[i - 8] && JobBodyLines(j)[i - 8] in JobBodyLines(j);
      }
    }
  }

  lemma JobsDetermine(xs: seq<Job>, ys: seq<Job>)
    requires (forall j :: j in xs ==> ReadableJob(j)) && (forall j :: j in ys ==> ReadableJob(j))
    requires Blocks(xs, JobLines) == Blocks(ys, JobLines)
    ensures xs == ys
  {
    var f, mark := JobLines, HasTag("id");
    forall x | x in xs ensures IsBlock(f(x), mark) { JobIsBlock(x); }
    forall y | y in ys ensures IsBlock(f(y), mark) { JobIsBlock(y); }
    forall x, y | x in xs && y in ys && f(x) == f(y) ensures x == y { JobDetermines(x, y); }
    ItemsDetermine(f, mark, xs, ys);
  }

  // --------------------------------------------------------------------- pipelines

  ghost predicate ReadableEdge(e: Dependency) { !Contains(e.from, "->") }

  lemma ArrowAt(from: string, to: string)
    ensures |from| + 1 < |from + "->" + to| && (from + "->" + to)[|from|] == '-'
    ensures (from + "->" + to)[|from| + 1] == '>'
    ensures (from + "->" + to)[..|from|] == from && (from + "->" + to)[|from| + 2..] == to
  {
  }

  lemma ArrowInside(s: string, i: nat)
    requires i + 1 < |s| && s[i] == '-' && s[i + 1] == '>'
    ensures Contains(s, "->")
  {
    assert s[i..][..2] == "->";
    assert "->" <= s[i..];
  }

  lemma ArrowNotEarlier(e: Dependency, f: Dependency)
    requires ReadableEdge(f) && e.from + "->" + e.to == f.from + "->" + f.to
    ensures |e.from| >= |f.from|
  {
    var text := f.from + "->" + f.to;
    ArrowAt(e.from, e.to);
    ArrowAt(f.from, f.to);
    var n := |e.from|;
    if n + 1 < |f.from| {
      assert text[..|f.from|][n] == '-' && text[..|f.from|][n + 1] == '>';
      ArrowInside(f.from, n);
    }
    assert text[n + 1] == '>';
  }

  lemma EdgeDetermines(e: Dependency, f: Dependency)
    requires ReadableEdge(e) && ReadableEdge(f) && EdgeLine(e) == EdgeLine(f)
    ensures e == f
  {
    assert EdgeLine(e)[0].value == EdgeLine(f)[0].value;
    ArrowNotEarlier(e, f);
    ArrowNotEarlier(f, e);
    ArrowAt(e.from, e.to);
    ArrowAt(f.from, f.to);
  }

  lemma EdgesDetermine(xs: seq<Dependency>, ys: seq<Dependency>)
    requires (forall e :: e in xs ==> ReadableEdge(e)) && (forall e :: e in ys ==> ReadableEdge(e))
    requires Blocks(xs, EdgeLine) == Blocks(ys, EdgeLine)
    ensures xs == ys
  {
    var f := EdgeLine;
    forall x, y | x in xs && y in ys && f(x) == f(y) ensures x == y { EdgeDetermines(x, y); }
    ItemsDetermine(f, AnyLine, xs, ys);
  }

  lemma CachePolicyDetermines(g: Header, h: Header)
    requires HeaderLines(g) == HeaderLines(h)
    ensures g.projectScoped == h.projectScoped && g.allowCrossProjectCompiled == h.allowCrossProjectCompiled
    ensures g.promoteAfterGreen == h.promoteAfterGreen && g.quarantineUntrustedWrites == h.quarantineUntrustedWrites
  {
    var a, b := HeaderLines(g), HeaderLines(h);
    assert a[5] == b[5] && a[6] == b[6] && a[7] == b[7] && a[8] == b[8];
    BoolDetermines(g.projectScoped, h.projectScoped);
    BoolDetermines(g.allowCrossProjectCompiled, h.allowCrossProjectCompiled);
    BoolDetermines(g.promoteAfterGreen, h.promoteAfterGreen);
    BoolDetermines(g.quarantineUntrustedWrites, h.quarantineUntrustedWrites);
  }

  lemma ArtifactPolicyDetermines(g: Header, h: Header)
    requires HeaderLines(g) == HeaderLines(h)
    ensures g.allowAbsolutePaths == h.allowAbsolutePaths && g.requireMetadata == h.requireMetadata
    ensures g.defaultRetentionDays == h.defaultRetentionDays
  {
    var a, b := HeaderLines(g), HeaderLines(h);
    assert a[9] == b[9] && a[10] == b[10] && a[11] == b[11];
    BoolDetermines(g.allowAbsolutePaths, h.allowAbsolutePaths);
    BoolDetermines(g.requireMetadata, h.requireMetadata);
    DecDetermines(g.defaultRetentionDays, h.defaultRetentionDays);
  }

  lemma MorePoliciesDetermine(g: Header, h: Header)
    requires HeaderLines(g) == HeaderLines(h)
    ensures g.failClosed == h.failClosed && g.secretsAvailable == h.secretsAvailable && g.denyOnFork == h.denyOnFork
    ensures g.proofRequired == h.proofRequired && g.proofLane == h.proofLane
    ensures g.provenanceRequired == h.provenanceRequired && g.releaseOnly == h.releaseOnly
  {
    var a, b := HeaderLines(g), HeaderLines(h);
    assert a[12] == b[12] && a[13] == b[13] && a[14] == b[14] && a[15] == b[15] && a[16] == b[16] && a[17] == b[17];
    assert a[18] == b[18];
    BoolDetermines(g.failClosed, h.failClosed);
    BoolDetermines(g.secretsAvailable, h.secretsAvailable);
    BoolDetermines(g.denyOnFork, h.denyOnFork);
    BoolDetermines(g.proofRequired, h.proofRequired);
    BoolDetermines(g.provenanceRequired, h.provenanceRequired);
    BoolDetermines(g.releaseOnly, h.releaseOnly);
  }

  /** A header without the one field the text leaves out. */
  function PrintedHeader(h: Header): Header { h.(defaultTokenScope := NoToken) }

  lemma ContextDetermines(g: Header, h: Header)
    requires ReadableSource(g.source) && ReadableSource(h.source) && HeaderLines(g) == HeaderLines(h)
    ensures g.id == h.id && g.source == h.source && g.repo == h.repo && g.commit == h.commit
    ensures g.trustTier == h.trustTier
  {
    var a, b := HeaderLines(g), HeaderLines(h);
    assert a[0] == b[0] && a[1] == b[1] && a[2] == b[2] && a[3] == b[3] && a[4] == b[4];
    SourceDetermines(g.source, h.source);
    TrustDetermines(g.trustTier, h.trustTier);
  }

  lemma SameFields(g: Header, h: Header)
    requires g.id == h.id && g.source == h.source && g.repo == h.repo && g.commit == h.commit
    requires g.trustTier == h.trustTier
    requires g.projectScoped == h.projectScoped && g.allowCrossProjectCompiled == h.allowCrossProjectCompiled
    requires g.promoteAfterGreen == h.promoteAfterGreen && g.quarantineUntrustedWrites == h.quarantineUntrustedWrites
    requires g.allowAbsolutePaths == h.allowAbsolutePaths && g.requireMetadata == h.requireMetadata
    requires g.defaultRetentionDays == h.defaultRetentionDays && g.failClosed == h.failClosed
    requires g.secretsAvailable == h.secretsAvailable && g.denyOnFork == h.denyOnFork
    requires g.proofRequired == h.proofRequired && g.proofLane == h.proofLane
    requires g.provenanceRequired == h.provenanceRequired && g.releaseOnly == h.releaseOnly
    ensures PrintedHeader(g) == PrintedHeader(h)
  {
  }

  lemma HeaderDetermines(g: Header, h: Header)
    requires ReadableSource(g.source) && ReadableSource(h.source) && HeaderLines(g) == HeaderLines(h)
    ensures PrintedHeader(g) == PrintedHeader(h)
  {
    ContextDetermines(g, h);
    CachePolicyDetermines(g, h);
    ArtifactPolicyDetermines(g, h);
    MorePoliciesDetermine(g, h);
    SameFields(g, h);
  }

  /** A pipeline without the one field the text leaves out: the default token scope. */
  function Printed(p: Pipeline): Pipeline { p.(header := PrintedHeader(p.header)) }

  ghost predicate Readable(p: Pipeline) {
    && ReadableSource(p.header.source)
    && (forall j :: j in p.jobs ==> ReadableJob(j)) && (forall e :: e in p.edges ==> ReadableEdge(e))
  }

  predicate IsJobLine(e: Entry) { Tag(e) != "" }

  lemma JobLinesSection(xs: seq<Job>)
    ensures All(Blocks(xs, JobLines), IsJobLine)
  {
    var f := JobLines;
    forall x | x in xs ensures All(f(x), IsJobLine) {
      JobIsBlock(x);
      var p := HasTag("");
      forall e | e in f(x) ensures IsJobLine(e) { assert !p(e); }
    }
    BlocksAll(f, xs, IsJobLine);
  }

  lemma EdgeLinesSection(xs: seq<Dependency>)
    ensures NoneOf(Blocks(xs, EdgeLine), IsJobLine)
  {
    var f, p := EdgeLine, HasTag("");
    assert |"edge"| == 4;
    BlocksAll(f, xs, p);
    forall e | e in Blocks(xs, EdgeLine) ensures !IsJobLine(e) { assert p(e); }
  }

  lemma LinesDetermine(f: Pipeline, g: Pipeline)
    requires Readable(f) && Readable(g) && FormLines(f) == FormLines(g)
    ensures Printed(f) == Printed(g)
  {
    EqualFront(HeaderLines(f.header), HeaderLines(g.header), Blocks(f.jobs, JobLines) + Blocks(f.edges, EdgeLine),
               Blocks(g.jobs, JobLines) + Blocks(g.edges, EdgeLine));
    HeaderDetermines(f.header, g.header);
    JobLinesSection(f.jobs);
    JobLinesSection(g.jobs);
    EdgeLinesSection(f.edges);
    EdgeLinesSection(g.edges);
    SectionEnds(IsJobLine, Blocks(f.jobs, JobLines), Blocks(f.edges, EdgeLine), Blocks(g.jobs, JobLines),
                Blocks(g.edges, EdgeLine));
    JobsDetermine(f.jobs, g.jobs);
    EdgesDetermine(f.edges, g.edges);
  }

  // --------------------------------------------------------------------- clean keys

  predicate KeyChar(c: char) { c != '=' && c != '\n' }

  predicate HasCleanKey(e: Entry) { forall i :: 0 <= i < |e.key| ==> KeyChar(e.key[i]) }

  lemma CleanKeysAll(lines: seq<Entry>)
    requires All(lines, HasCleanKey)
    ensures CleanKeys(lines)
  {
    forall e | e in lines ensures CleanKey(e.key) { assert HasCleanKey(e); }
  }

  predicate IsWordChar(c: char) { 'a' <= c <= 'z' || c == '.' || c == '_' }

  lemma WordKey(key: string, value: string)
    requires forall i :: 0 <= i < |key| ==> IsWordChar(key[i])
    ensures HasCleanKey(Entry(key, value))
  {
  }

  lemma AllOfFour(a: Entry, b: Entry, c: Entry, d: Entry)
    requires HasCleanKey(a) && HasCleanKey(b) && HasCleanKey(c) && HasCleanKey(d)
    ensures All([a, b, c, d], HasCleanKey)
  {
  }

  lemma FourWordKeys(a: string, b: string, c: string, d: string, u: string, v: string, w: string, x: string)
    requires forall i :: 0 <= i < |a| ==> IsWordChar(a[i])
    requires forall i :: 0 <= i < |b| ==> IsWordChar(b[i])
    requires forall i :: 0 <= i < |c| ==> IsWordChar(c[i])
    requires forall i :: 0 <= i < |d| ==> IsWordChar(d[i])
    ensures All([Entry(a, u), Entry(b, v), Entry(c, w), Entry(d, x)], HasCleanKey)
  {
    WordKey(a, u);
    WordKey(b, v);
    WordKey(c, w);
    WordKey(d, x);
    AllOfFour(Entry(a, u), Entry(b, v), Entry(c, w), Entry(d, x));
  }

  lemma OriginKeys(h: Header)
    ensures All([Entry("pipeline.id", h.id), Entry("pipeline.source", SourceText(h.source)),
                 Entry("pipeline.repo", h.repo), Entry("pipeline.commit", h.commit)], HasCleanKey)
  {
    FourWordKeys("pipeline.id", "pipeline.source", "pipeline.repo", "pipeline.commit",
                 h.id, SourceText(h.source), h.repo, h.commit);
  }

  lemma CacheKeys(t: string, u: string, v: string, w: string)
    ensures All([Entry("pipeline.trust_tier", t), Entry("cache.project_scoped", u),
                 Entry("cache.allow_cross_project_compiled", v), Entry("cache.promote_after_green", w)], HasCleanKey)
  {
    FourWordKeys("pipeline.trust_tier", "cache.project_scoped", "cache.allow_cross_project_compiled",
                 "cache.promote_after_green", t, u, v, w);
  }

  lemma ArtifactKeys(t: string, u: string, v: string, w: string)
    ensures All([Entry("cache.quarantine_untrusted_writes", t), Entry("artifact.allow_absolute_paths", u),
                 Entry("artifact.require_metadata", v), Entry("artifact.default_retention_days", w)], HasCleanKey)
  {
    FourWordKeys("cache.quarantine_untrusted_writes", "artifact.allow_absolute_paths", "artifact.require_metadata",
                 "artifact.default_retention_days", t, u, v, w);
  }

  lemma SecretKeys(t: string, u: string, v: string, w: string)
    ensures All([Entry("permission.fail_closed", t), Entry("secret.secrets_available", u),
                 Entry("secret.deny_on_fork", v), Entry("proof.required", w)], HasCleanKey)
  {
    FourWordKeys("permission.fail_closed", "secret.secrets_available", "secret.deny_on_fork", "proof.required",
                 t, u, v, w);
  }

  lemma SigningKeys(t: string, u: string, v: string)
    ensures All([Entry("proof.lane", t), Entry("signing.provenance_required", u),
                 Entry("signing.release_only", v)], HasCleanKey)
  {
    WordKey("proof.lane", t);
    WordKey("signing.provenance_required", u);
    WordKey("signing.release_only", v);
  }

  lemma HeaderKeys(h: Header)
    ensures All(HeaderLines(h), HasCleanKey)
  {
    OriginKeys(h);
    CacheKeys(TrustText(h.trustTier), BoolText(h.projectScoped), BoolText(h.allowCrossProjectCompiled),
              BoolText(h.promoteAfterGreen));
    ArtifactKeys(BoolText(h.quarantineUntrustedWrites), BoolText(h.allowAbsolutePaths), BoolText(h.requireMetadata),
                 Dec(h.defaultRetentionDays));
    SecretKeys(BoolText(h.failClosed), BoolText(h.secretsAvailable), BoolText(h.denyOnFork), BoolText(h.proofRequired));
    SigningKeys(h.proofLane, BoolText(h.provenanceRequired), BoolText(h.releaseOnly));
    AllNineteen(HeaderLines(h), HasCleanKey);
  }

  /** A list of nineteen, checked four at a time. */
  lemma AllNineteen<T(!new)>(s: seq<T>, p: T -> bool)
    requires |s| == 19
    requires All([s[0], s[1], s[2], s[3]], p) && All([s[4], s[5], s[6], s[7]], p) && All([s[8], s[9], s[10], s[11]], p)
    requires All([s[12], s[13], s[14], s[15]], p) && All([s[16], s[17], s[18]], p)
    ensures All(s, p)
  {
    forall i | 0 <= i < 19 ensures p(s[i]) {
      assert s[i] in [s[0], s[1], s[2], s[3]] || s[i] in [s[4], s[5], s[6], s[7]] || s[i] in [s[8], s[9], s[10], s[11]]
          || s[i] in [s[12], s[13], s[14], s[15]] || s[i] in [s[16], s[17], s[18]];
    }
  }

  lemma HeadKeys(j: Job)
    ensures All(JobHeadLines(j), HasCleanKey)
  {
    var c, t, m, b, n, k := RunnerClassText(j.runnerClass), Dec(j.timeoutSeconds), Dec(j.maxAttempts),
                            Dec(j.backoffSeconds), NetworkText(j.networkPolicy), TokenText(j.tokenScope);
    FourWordKeys("job.id", "job.name", "job.runner", "job.timeout_seconds", j.id, j.name, c, t);
    FourWordKeys("job.retry.max_attempts", "job.retry.backoff_seconds", "job.network", "job.token", m, b, n, k);
    var first := [Entry("job.id", j.id), Entry("job.name", j.name),
                  Entry("job.runner", c), Entry("job.timeout_seconds", t)];
    var second := [Entry("job.retry.max_attempts", m), Entry("job.retry.backoff_seconds", b),
                   Entry("job.network", n), Entry("job.token", k)];
    AllAppend(first, second, HasCleanKey);
    assert JobHeadLines(j) == first + second;
  }

  lemma OptionKey(key: string, value: Option<string>)
    requires forall i :: 0 <= i < |key| ==> IsWordChar(key[i])
    ensures All(OptionLine(key, value), HasCleanKey)
  {
    if value.Some? { WordKey(key, value.value); }
  }

  lemma MapKeys(prefix: string, m: map<string, string>)
    requires HasCleanKey(Entry(prefix, "")) && ReadableKeys(m)
    ensures All(MapLines(prefix, m), HasCleanKey)
  {
    forall k, v | k in m ensures HasCleanKey(Entry(prefix + k, v)) {
      assert CleanKey(k);
      forall i | 0 <= i < |prefix + k| ensures KeyChar((prefix + k)[i]) {
        if i < |prefix| { assert KeyChar(prefix[i]); } else { assert k[i - |prefix|] in k; }
      }
    }
    MapLinesAll(prefix, m, HasCleanKey);
  }

  lemma StepHeadKeys(s: Step)
    ensures All([Entry("job.step.id", s.id), Entry("job.step.name", s.name)], HasCleanKey)
  {
    WordKey("job.step.id", s.id);
    WordKey("job.step.name", s.name);
  }

  lemma OptionKeys(s: Step)
    ensures All(OptionLine("job.step.run", s.command), HasCleanKey)
    ensures All(OptionLine("job.step.uses", s.uses), HasCleanKey)
    ensures All(OptionLine("job.step.cwd", s.workingDirectory), HasCleanKey)
  {
    OptionKey("job.step.run", s.command);
    OptionKey("job.step.uses", s.uses);
    OptionKey("job.step.cwd", s.workingDirectory);
  }

  lemma EnvKeys(env: map<string, string>)
    requires ReadableKeys(env)
    ensures All(MapLines("job.step.env.", env), HasCleanKey)
  {
    WordKey("job.step.env.", "");
    MapKeys("job.step.env.", env);
  }

  lemma AllAppendFour(a: seq<Entry>, b: seq<Entry>, c: seq<Entry>, d: seq<Entry>, p: Entry -> bool)
    requires All(a, p) && All(b, p) && All(c, p) && All(d, p)
    ensures All(a + (b + (c + d)), p)
  {
    AllAppend(c, d, p);
    AllAppend(b, c + d, p);
    AllAppend(a, b + (c + d), p);
  }

  lemma StepRestKeys(s: Step)
    requires ReadableKeys(s.env)
    ensures All(StepRest(s), HasCleanKey)
  {
    OptionKeys(s);
    EnvKeys(s.env);
    AllAppendFour(OptionLine("job.step.run", s.command), OptionLine("job.step.uses", s.uses),
                  OptionLine("job.step.cwd", s.workingDirectory), MapLines("job.step.env.", s.env), HasCleanKey);
  }

  lemma StepKeys(s: Step)
    requires ReadableKeys(s.env)
    ensures All(StepLines(s), HasCleanKey)
  {
    StepHeadKeys(s);
    StepRestKeys(s);
    AllAppend([Entry("job.step.id", s.id), Entry("job.step.name", s.name)], StepRest(s), HasCleanKey);
  }

  lemma BodyKeys(j: Job)
    requires ReadableJob(j)
    ensures All(JobBodyLines(j), HasCleanKey)
  {
    var a, b := MapLines("job.input.", j.inputs), MapLines("job.output.", j.outputs);
    var c, d, e := Blocks(j.cacheMounts, MountLine), Blocks(j.artifactPaths, ArtifactLine), Blocks(j.steps, StepLines);
    WordKey("job.input.", "");
    WordKey("job.output.", "");
    MapKeys("job.input.", j.inputs);
    MapKeys("job.output.", j.outputs);
    ItemKeys(j);
    AllAppend(d, e, HasCleanKey);
    AllAppend(c, d + e, HasCleanKey);
    AllAppend(b, c + (d + e), HasCleanKey);
    AllAppend(a, b + (c + (d + e)), HasCleanKey);
  }

  lemma MountKey(m: CacheMount)
    ensures All(MountLine(m), HasCleanKey)
  {
    WordKey("job.cache", MountLine(m)[0].value);
  }

  lemma ArtifactKey(a: ArtifactPath)
    ensures All(ArtifactLine(a), HasCleanKey)
  {
    WordKey("job.artifact", ArtifactLine(a)[0].value);
  }

  lemma EdgeKey(e: Dependency)
    ensures All(EdgeLine(e), HasCleanKey)
  {
    WordKey("edge", EdgeLine(e)[0].value);
  }

  lemma ItemKeys(j: Job)
    requires ReadableJob(j)
    ensures All(Blocks(j.cacheMounts, MountLine), HasCleanKey)
    ensures All(Blocks(j.artifactPaths, ArtifactLine), HasCleanKey)
    ensures All(Blocks(j.steps, StepLines), HasCleanKey)
  {
    var f, g, h := MountLine, ArtifactLine, StepLines;
    forall m | m in j.cacheMounts ensures All(f(m), HasCleanKey) { MountKey(m); }
    BlocksAll(f, j.cacheMounts, HasCleanKey);
    forall a | a in j.artifactPaths ensures All(g(a), HasCleanKey) { ArtifactKey(a); }
    BlocksAll(g, j.artifactPaths, HasCleanKey);
    forall s | s in j.steps ensures All(h(s), HasCleanKey) { StepKeys(s); }
    BlocksAll(h, j.steps, HasCleanKey);
  }

  lemma JobKeys(j: Job)
    requires ReadableJob(j)
    ensures All(JobLines(j), HasCleanKey)
  {
    HeadKeys(j);
    BodyKeys(j);
    AllAppend(JobHeadLines(j), JobBodyLines(j), HasCleanKey);
  }

  lemma FormKeys(f: Pipeline)
    requires Readable(f)
    ensures CleanKeys(FormLines(f))
  {
    var show, arrow := JobLines, EdgeLine;
    HeaderKeys(f.header);
    forall j | j in f.jobs ensures All(show(j), HasCleanKey) { JobKeys(j); }
    BlocksAll(show, f.jobs, HasCleanKey);
    forall e | e in f.edges ensures All(arrow(e), HasCleanKey) { EdgeKey(e); }
    BlocksAll(arrow, f.edges, HasCleanKey);
    AllAppend(Blocks(f.jobs, show), Blocks(f.edges, arrow), HasCleanKey);
    AllAppend(HeaderLines(f.header), Blocks(f.jobs, show) + Blocks(f.edges, arrow), HasCleanKey);
    CleanKeysAll(FormLines(f));
  }

  // -------------------------------------------------------------------- main results

  lemma {:induction false} InsertMember<T(!new)>(x: T, s: seq<T>, le: (T, T) -> bool, y: T)
    ensures y in Insert(x, s, le) <==> y == x || y in s
    decreases |s|
  {
    if s != [] && !le(x, s[0]) {
      InsertMember(x, s[1..], le, y);
      assert s == [s[0]] + s[1..];
    }
  }

  lemma {:induction false} SortMember<T(!new)>(s: seq<T>, le: (T, T) -> bool, y: T)
    ensures y in StableSort(s, le) <==> y in s
    decreases |s|
  {
    if s != [] {
      SortMember(s[1..], le, y);
      InsertMember(s[0], StableSort(s[1..], le), le, y);
      assert s == [s[0]] + s[1..];
    }
  }

  lemma SortedJobReadable(j: Job)
    ensures ReadableJob(SortedJob(j)) <==> ReadableJob(j)
  {
    forall m ensures m in SortedJob(j).cacheMounts <==> m in j.cacheMounts { SortMember(j.cacheMounts, MountLe, m); }
    forall a
      ensures a in SortedJob(j).artifactPaths <==> a in j.artifactPaths {
      SortMember(j.artifactPaths, ArtifactLe, a);
    }
  }

  lemma FormReadable(p: Pipeline)
    requires Readable(p)
    ensures Readable(Form(p))
  {
    var sorted := StableSort(p.jobs, JobIdLe);
    forall j | j in Form(p).jobs ensures ReadableJob(j) {
      var i :| 0 <= i < |Form(p).jobs| && Form(p).jobs[i] == j;
      assert j == SortedJob(sorted[i]) && sorted[i] in sorted;
      SortMember(p.jobs, JobIdLe, sorted[i]);
      SortedJobReadable(sorted[i]);
    }
    forall e | e in Form(p).edges ensures ReadableEdge(e) { SortMember(p.edges, EdgeLe, e); }
  }

  lemma PrintedLines(f: Pipeline)
    ensures FormLines(Printed(f)) == FormLines(f)
  {
  }

  /** Among readable pipelines the canonical text says exactly what the pipeline is, up to the order of
      jobs, edges, mounts and artifacts and up to the default token scope: two of them have the same text
      if and only if they agree on everything else when sorted. */
  lemma CanonicalTextDetermines(p: Pipeline, q: Pipeline)
    requires Readable(p) && Readable(q)
    ensures CanonicalText(p) == CanonicalText(q) <==> Printed(Form(p)) == Printed(Form(q))
  {
    PrintedLines(Form(p));
    PrintedLines(Form(q));
    if CanonicalText(p) == CanonicalText(q) {
      FormReadable(p);
      FormReadable(q);
      FormKeys(Form(p));
      FormKeys(Form(q));
      RenderDetermines(FormLines(Form(p)), FormLines(Form(q)));
      LinesDetermine(Form(p), Form(q));
    }
  }

  function WithScope(p: Pipeline, scope: TokenScope): Pipeline { p.(header := p.header.(defaultTokenScope := scope)) }

  lemma PrintedScope(h: Header, scope: TokenScope)
    ensures PrintedHeader(h.(defaultTokenScope := scope)) == PrintedHeader(h)
  {
  }

  lemma SameLinesUnderScope(p: Pipeline, scope: TokenScope)
    ensures FormLines(Form(WithScope(p, scope))) == FormLines(Form(p))
  {
    PrintedScope(p.header, scope);
    PrintedLines(Form(p));
    PrintedLines(Form(WithScope(p, scope)));
    assert Printed(Form(WithScope(p, scope))) == Printed(Form(p));
  }

  /** The default token scope of a pipeline is not printed: every pipeline, readable or not, shares its
      text and its IR hash with the same pipeline under any other default scope. */
  lemma ScopeIsNotPrinted(p: Pipeline, scope: TokenScope, hash: string -> string)
    ensures CanonicalText(WithScope(p, scope)) == CanonicalText(p)
    ensures IrHash(WithScope(p, scope), hash) == IrHash(p, hash)
    ensures scope != p.header.defaultTokenScope ==> WithScope(p, scope) != p && Form(WithScope(p, scope)) != Form(p)
  {
    SameLinesUnderScope(p, scope);
    assert Form(WithScope(p, scope)).header.defaultTokenScope == scope;
  }

  /** Hence no pipeline is determined by its text alone. */
  lemma EveryPipelineHasATwin(p: Pipeline, hash: string -> string) returns (q: Pipeline)
    ensures q != p && CanonicalText(q) == CanonicalText(p) && IrHash(q, hash) == IrHash(p, hash)
  {
    var scope := if p.header.defaultTokenScope == ReadRepo then NoToken else ReadRepo;
    q := WithScope(p, scope);
    ScopeIsNotPrinted(p, scope, hash);
  }

  // --------------------------------------------------------------- reading the text

  /** A reader of canonical text: the key up to the equals sign, the value up to the line break. */
  function Parse(text: string): seq<Entry>
    decreases |text|
  {
    if text == "" then [] else
      var (key, rest) := Cut(text, '=');
      var (value, more) := Cut(rest, '\n');
      [Entry(key, UnescapeCanonical(value))] + Parse(more)
  }

  lemma ParseFirst(e: Entry, rest: string)
    requires CleanKey(e.key)
    ensures Parse(Line(e) + rest) == [e] + Parse(rest)
  {
    var value := EscapeCanonical(e.value);
    LineThen(e, rest);
    assert "=" == ['='] && "\n" == ['\n'];
    CutAtFirst(e.key, '=', value + ("\n" + rest));
    EscapeCanonicalRoundTrip(e.value);
    CutAtFirst(value, '\n', rest);
  }

  /** The reader returns the lines that were rendered. */
  lemma {:induction false} ParseRender(lines: seq<Entry>)
    requires CleanKeys(lines)
    ensures Parse(Render(lines)) == lines
    decreases |lines|
  {
    if lines != [] {
      RenderFirst(lines);
      assert lines[0] in lines && CleanKeys(lines[1..]);
      ParseFirst(lines[0], Render(lines[1..]));
      ParseRender(lines[1..]);
      assert lines == [lines[0]] + lines[1..];
    }
  }

  lemma ParseCanonical(p: Pipeline)
    requires Readable(p)
    ensures Parse(CanonicalText(p)) == FormLines(Form(p))
  {
    FormReadable(p);
    FormKeys(Form(p));
    ParseRender(FormLines(Form(p)));
  }

  /** A line of the text says that `key` has `value`. */
  ghost predicate Says(text: string, key: string, value: string) { Entry(key, value) in Parse(text) }

  /** Every line of the header stands in the text. */
  lemma HeaderLineSays(p: Pipeline, e: Entry)
    requires Readable(p) && e in HeaderLines(p.header)
    ensures Says(CanonicalText(p), e.key, e.value)
  {
    ParseCanonical(p);
  }

  function YesNo(b: bool): string { if b then "true" else "false" }

  /** The header lines name the context of the pipeline. */
  lemma HeaderShowsContext(h: Header)
    ensures Entry("pipeline.id", h.id) in HeaderLines(h)
    ensures Entry("pipeline.source", SourceText(h.source)) in HeaderLines(h)
    ensures Entry("pipeline.repo", h.repo) in HeaderLines(h)
    ensures Entry("pipeline.commit", h.commit) in HeaderLines(h)
    ensures Entry("pipeline.trust_tier", TrustText(h.trustTier)) in HeaderLines(h)
  {
    var lines := HeaderLines(h);
    assert lines[0] == Entry("pipeline.id", h.id);
    assert lines[1] == Entry("pipeline.source", SourceText(h.source));
    assert lines[2] == Entry("pipeline.repo", h.repo);
    assert lines[3] == Entry("pipeline.commit", h.commit);
    assert lines[4] == Entry("pipeline.trust_tier", TrustText(h.trustTier));
  }

  /** They say what the cache policy is: who may share, */
  lemma HeaderShowsScope(h: Header)
    ensures Entry("cache.project_scoped", YesNo(h.projectScoped)) in HeaderLines(h)
    ensures Entry("cache.allow_cross_project_compiled", YesNo(h.allowCrossProjectCompiled)) in HeaderLines(h)
  {
    assert HeaderLines(h)[5] == Entry("cache.project_scoped", YesNo(h.projectScoped));
    assert HeaderLines(h)[6] == Entry("cache.allow_cross_project_compiled", YesNo(h.allowCrossProjectCompiled));
  }

  /** and what is promoted or quarantined; */
  lemma HeaderShowsPromotion(h: Header)
    ensures Entry("cache.promote_after_green", YesNo(h.promoteAfterGreen)) in HeaderLines(h)
    ensures Entry("cache.quarantine_untrusted_writes", YesNo(h.quarantineUntrustedWrites)) in HeaderLines(h)
  {
    assert HeaderLines(h)[7] == Entry("cache.promote_after_green", YesNo(h.promoteAfterGreen));
    assert HeaderLines(h)[8] == Entry("cache.quarantine_untrusted_writes", YesNo(h.quarantineUntrustedWrites));
  }

  /** what the artifact policy is, */
  lemma HeaderShowsArtifacts(h: Header)
    ensures Entry("artifact.allow_absolute_paths", YesNo(h.allowAbsolutePaths)) in HeaderLines(h)
    ensures Entry("artifact.require_metadata", YesNo(h.requireMetadata)) in HeaderLines(h)
    ensures Entry("artifact.default_retention_days", Dec(h.defaultRetentionDays)) in HeaderLines(h)
  {
    var lines := HeaderLines(h);
    assert lines[9] == Entry("artifact.allow_absolute_paths", YesNo(h.allowAbsolutePaths));
    assert lines[10] == Entry("artifact.require_metadata", YesNo(h.requireMetadata));
    assert lines[11] == Entry("artifact.default_retention_days", Dec(h.defaultRetentionDays));
  }

  /** and what the permission, secret, proof and signing policies are. */
  lemma HeaderShowsPolicies(h: Header)
    ensures Entry("permission.fail_closed", YesNo(h.failClosed)) in HeaderLines(h)
    ensures Entry("secret.secrets_available", YesNo(h.secretsAvailable)) in HeaderLines(h)
    ensures Entry("secret.deny_on_fork", YesNo(h.denyOnFork)) in HeaderLines(h)
    ensures Entry("proof.required", YesNo(h.proofRequired)) in HeaderLines(h)
    ensures Entry("proof.lane", h.proofLane) in HeaderLines(h)
    ensures Entry("signing.provenance_required", YesNo(h.provenanceRequired)) in HeaderLines(h)
    ensures Entry("signing.release_only", YesNo(h.releaseOnly)) in HeaderLines(h)
  {
    var lines := HeaderLines(h);
    assert lines[12] == Entry("permission.fail_closed", YesNo(h.failClosed));
    assert lines[13] == Entry("secret.secrets_available", YesNo(h.secretsAvailable));
    assert lines[14] == Entry("secret.deny_on_fork", YesNo(h.denyOnFork));
    assert lines[15] == Entry("proof.required", YesNo(h.proofRequired));
    assert lines[16] == Entry("proof.lane", h.proofLane);
    assert lines[17] == Entry("signing.provenance_required", YesNo(h.provenanceRequired));
    assert lines[18] == Entry("signing.release_only", YesNo(h.releaseOnly));
  }

  lemma JobLineSays(p: Pipeline, j: Job, e: Entry)
    requires Readable(p) && j in p.jobs && e in JobLines(SortedJob(j))
    ensures Says(CanonicalText(p), e.key, e.value)
  {
    ParseCanonical(p);
    var f, show := Form(p), JobLines;
    SortMember(p.jobs, JobIdLe, j);
    MapMember(SortedJob, StableSort(p.jobs, JobIdLe), j);
    ConcatMapMember(show, f.jobs, e);
    assert SortedJob(j) in f.jobs && e in show(SortedJob(j));
    assert e in Blocks(f.jobs, JobLines);
  }

  /** The text says of every job what its fixed fields are. */
  lemma TextSaysJob(p: Pipeline, j: Job)
    requires Readable(p) && j in p.jobs
    ensures Says(CanonicalText(p), "job.id", j.id) && Says(CanonicalText(p), "job.name", j.name)
    ensures Says(CanonicalText(p), "job.runner", RunnerClassText(j.runnerClass))
    ensures Says(CanonicalText(p), "job.timeout_seconds", Dec(j.timeoutSeconds))
    ensures Says(CanonicalText(p), "job.retry.max_attempts", Dec(j.maxAttempts))
    ensures Says(CanonicalText(p), "job.retry.backoff_seconds", Dec(j.backoffSeconds))
    ensures Says(CanonicalText(p), "job.network", NetworkText(j.networkPolicy))
    ensures Says(CanonicalText(p), "job.token", TokenText(j.tokenScope))
  {
    HeadLineSays(p, j, 0);
    HeadLineSays(p, j, 1);
    HeadLineSays(p, j, 2);
    HeadLineSays(p, j, 3);
    HeadLineSays(p, j, 4);
    HeadLineSays(p, j, 5);
    HeadLineSays(p, j, 6);
    HeadLineSays(p, j, 7);
  }

  lemma HeadLineSays(p: Pipeline, j: Job, i: nat)
    requires Readable(p) && j in p.jobs && i < |JobHeadLines(j)|
    ensures Says(CanonicalText(p), JobHeadLines(j)[i].key, JobHeadLines(j)[i].value)
  {
    var lines := JobLines(SortedJob(j));
    assert lines[i] == JobHeadLines(j)[i] && lines[i] in lines;
    JobLineSays(p, j, lines[i]);
  }

  lemma MapLinesHold(prefix: string, m: map<string, string>, key: string)
    requires key in m
    ensures Entry(prefix + key, m[key]) in MapLines(prefix, m)
  {
    var f := MapLine(prefix, m);
    assert f(key) == [Entry(prefix + key, m[key])];
    ConcatMapMember(f, Iter(m.Keys), Entry(prefix + key, m[key]));
    assert key in Iter(m.Keys) && Entry(prefix + key, m[key]) in f(key);
  }

  lemma BodyLineSays(p: Pipeline, j: Job, e: Entry)
    requires Readable(p) && j in p.jobs && e in JobBodyLines(SortedJob(j))
    ensures Says(CanonicalText(p), e.key, e.value)
  {
    assert e in JobHeadLines(SortedJob(j)) + JobBodyLines(SortedJob(j));
    JobLineSays(p, j, e);
  }

  /** The text says of every input and output of a job what its value is. */
  lemma TextSaysInputs(p: Pipeline, j: Job, key: string)
    requires Readable(p) && j in p.jobs
    ensures key in j.inputs ==> Says(CanonicalText(p), "job.input." + key, j.inputs[key])
    ensures key in j.outputs ==> Says(CanonicalText(p), "job.output." + key, j.outputs[key])
  {
    if key in j.inputs {
      MapLinesHold("job.input.", j.inputs, key);
      BodyLineSays(p, j, Entry("job.input." + key, j.inputs[key]));
    }
    if key in j.outputs {
      MapLinesHold("job.output.", j.outputs, key);
      BodyLineSays(p, j, Entry("job.output." + key, j.outputs[key]));
    }
  }

  lemma BlockLine<T(!new)>(items: seq<T>, f: T -> seq<Entry>, x: T, e: Entry)
    requires x in items && e in f(x)
    ensures e in Blocks(items, f)
  {
    ConcatMapMember(f, items, e);
  }

  /** It shows every mount and every artifact of a job. */
  lemma TextSaysStorageOfJob(p: Pipeline, j: Job, m: CacheMount, a: ArtifactPath)
    requires Readable(p) && j in p.jobs
    ensures m in j.cacheMounts ==>
      Says(CanonicalText(p), "job.cache", m.name + "|" + m.path + "|" + ModeText(m.mode) + "|" + m.fingerprint)
    ensures a in j.artifactPaths ==>
      Says(CanonicalText(p), "job.artifact",
           a.name + "|" + WhenText(a.when) + "|" + Dec(a.retentionDays) + "|" + Join(a.paths, ","))
  {
    if m in j.cacheMounts {
      SortMember(j.cacheMounts, MountLe, m);
      var e := MountLine(m)[0];
      BlockLine(SortedJob(j).cacheMounts, MountLine, m, e);
      BodyLineSays(p, j, e);
    }
    if a in j.artifactPaths {
      SortMember(j.artifactPaths, ArtifactLe, a);
      var e := ArtifactLine(a)[0];
      BlockLine(SortedJob(j).artifactPaths, ArtifactLine, a, e);
      BodyLineSays(p, j, e);
    }
  }

  lemma StepLineSays(p: Pipeline, j: Job, s: Step, e: Entry)
    requires Readable(p) && j in p.jobs && s in j.steps && e in StepLines(s)
    ensures Says(CanonicalText(p), e.key, e.value)
  {
    BlockLine(j.steps, StepLines, s, e);
    BodyLineSays(p, j, e);
  }

  /** It says of every step what it is called, what it does and where. */
  lemma TextSaysStep(p: Pipeline, j: Job, s: Step)
    requires Readable(p) && j in p.jobs && s in j.steps
    ensures Says(CanonicalText(p), "job.step.id", s.id) && Says(CanonicalText(p), "job.step.name", s.name)
    ensures s.command.Some? ==> Says(CanonicalText(p), "job.step.run", s.command.value)
    ensures s.uses.Some? ==> Says(CanonicalText(p), "job.step.uses", s.uses.value)
    ensures s.workingDirectory.Some? ==> Says(CanonicalText(p), "job.step.cwd", s.workingDirectory.value)
  {
    StepLineSays(p, j, s, Entry("job.step.id", s.id));
    StepLineSays(p, j, s, Entry("job.step.name", s.name));
    if s.command.Some? { StepLineSays(p, j, s, Entry("job.step.run", s.command.value)); }
    if s.uses.Some? { StepLineSays(p, j, s, Entry("job.step.uses", s.uses.value)); }
    if s.workingDirectory.Some? { StepLineSays(p, j, s, Entry("job.step.cwd", s.workingDirectory.value)); }
  }

  lemma TextSaysEnv(p: Pipeline, j: Job, s: Step, key: string)
    requires Readable(p) && j in p.jobs && s in j.steps && key in s.env
    ensures Says(CanonicalText(p), "job.step.env." + key, s.env[key])
  {
    MapLinesHold("job.step.env.", s.env, key);
    StepLineSays(p, j, s, Entry("job.step.env." + key, s.env[key]));
  }

  /** It shows every edge, from the needed job to the one that needs it. */
  lemma TextSaysEdge(p: Pipeline, e: Dependency)
    requires Readable(p) && e in p.edges
    ensures Says(CanonicalText(p), "edge", e.from + "->" + e.to)
  {
    ParseCanonical(p);
    SortMember(p.edges, EdgeLe, e);
    BlockLine(Form(p).edges, EdgeLine, e, EdgeLine(e)[0]);
  }

  /** The order of the text: jobs by id, edges by both ends, mounts by name and path, artifacts by name. */
  lemma TextOrder(p: Pipeline, i: nat, j: nat)
    requires i < j
    ensures j < |Form(p).jobs| ==> StrLe(Form(p).jobs[i].id, Form(p).jobs[j].id)
    ensures j < |Form(p).edges| ==>
      var (d, e) := (Form(p).edges[i], Form(p).edges[j]);
      StrLt(d.from, e.from) || (d.from == e.from && StrLe(d.to, e.to))
  {
    JobIdLeIsTotalOrder();
    EdgeLeIsTotalOrder();
    StableSortSorts(p.jobs, JobIdLe);
    StableSortSorts(p.edges, EdgeLe);
    if j < |Form(p).jobs| { assert JobIdLe(StableSort(p.jobs, JobIdLe)[i], StableSort(p.jobs, JobIdLe)[j]); }
    if j < |Form(p).edges| { assert EdgeLe(Form(p).edges[i], Form(p).edges[j]); }
  }

  lemma MountLeIsTotalOrder()
    ensures TotalOrder(MountLe)
  {
    forall x: CacheMount, y: CacheMount ensures MountLe(x, y) || MountLe(y, x) {
      StrLeTotal(x.name, y.name);
      StrLeTotal(x.path, y.path);
    }
    forall x: CacheMount, y: CacheMount, z: CacheMount | MountLe(x, y) && MountLe(y, z) ensures MountLe(x, z) {
      EdgeLeTransitive(Dependency(x.name, x.path), Dependency(y.name, y.path), Dependency(z.name, z.path));
    }
  }

  lemma ArtifactLeIsTotalOrder()
    ensures TotalOrder(ArtifactLe)
  {
    forall x: ArtifactPath, y: ArtifactPath ensures ArtifactLe(x, y) || ArtifactLe(y, x) { StrLeTotal(x.name, y.name); }
    forall x: ArtifactPath, y: ArtifactPath, z: ArtifactPath | ArtifactLe(x, y) && ArtifactLe(y, z)
      ensures ArtifactLe(x, z) {
      StrLeTransitive(x.name, y.name, z.name);
    }
  }

  lemma JobTextOrder(job: Job, i: nat, j: nat)
    requires i < j
    ensures |SortedJob(job).cacheMounts| == |job.cacheMounts|
    ensures |SortedJob(job).artifactPaths| == |job.artifactPaths|
    ensures j < |job.cacheMounts| ==>
      var (m, n) := (SortedJob(job).cacheMounts[i], SortedJob(job).cacheMounts[j]);
      StrLt(m.name, n.name) || (m.name == n.name && StrLe(m.path, n.path))
    ensures j < |job.artifactPaths| ==>
      StrLe(SortedJob(job).artifactPaths[i].name, SortedJob(job).artifactPaths[j].name)
  {
    MountLeIsTotalOrder();
    ArtifactLeIsTotalOrder();
    StableSortSorts(job.cacheMounts, MountLe);
    StableSortSorts(job.artifactPaths, ArtifactLe);
    var ms, as_ := SortedJob(job).cacheMounts, SortedJob(job).artifactPaths;
    assert |ms| == |multiset(ms)| == |multiset(job.cacheMounts)| == |job.cacheMounts|;
    assert |as_| == |multiset(as_)| == |multiset(job.artifactPaths)| == |job.artifactPaths|;
    if j < |ms| { assert MountLe(ms[i], ms[j]); }
    if j < |as_| { assert ArtifactLe(as_[i], as_[j]); }
  }

  /** The lines of a kind, in order. */
  function Only(lines: seq<Entry>, mark: Entry -> bool): seq<Entry> {
    if lines == [] then [] else
      var k := |lines| - 1;
      Only(lines[..k], mark) + if mark(lines[k]) then [lines[k]] else []
  }

  lemma {:induction false} OnlyAppend(a: seq<Entry>, b: seq<Entry>, mark: Entry -> bool)
    ensures Only(a + b, mark) == Only(a, mark) + Only(b, mark)
    decreases |b|
  {
    if b == [] {
      assert a + b == a;
    } else {
      var k := |b| - 1;
      assert (a + b)[..|a + b| - 1] == a + b[..k] && (a + b)[|a + b| - 1] == b[k];
      OnlyAppend(a, b[..k], mark);
    }
  }

  lemma {:induction false} OnlyNone(s: seq<Entry>, mark: Entry -> bool)
    requires NoneOf(s, mark)
    ensures Only(s, mark) == []
    decreases |s|
  {
    if s != [] {
      assert s[|s| - 1] in s;
      OnlyNone(s[..|s| - 1], mark);
    }
  }

  lemma OnlyBlock(s: seq<Entry>, mark: Entry -> bool)
    requires IsBlock(s, mark)
    ensures Only(s, mark) == [s[0]]
  {
    assert s == [s[0]] + s[1..] && [s[0]][..0] == [];
    OnlyAppend([s[0]], s[1..], mark);
    OnlyNone(s[1..], mark);
  }

  lemma OnlyLastBlock<T>(items: seq<T>, f: T -> seq<Entry>, mark: Entry -> bool)
    requires items != [] && IsBlock(f(items[|items| - 1]), mark)
    ensures Only(Blocks(items, f), mark) == Only(Blocks(items[..|items| - 1], f), mark) + [f(items[|items| - 1])[0]]
  {
    var k := |items| - 1;
    assert items[..k + 1] == items;
    ConcatMapGrows(f, items, k);
    OnlyAppend(Blocks(items[..k], f), f(items[k]), mark);
    OnlyBlock(f(items[k]), mark);
  }

  ghost predicate Opens<T(!new)>(items: seq<T>, f: T -> seq<Entry>, mark: Entry -> bool, first: T -> Entry) {
    forall x :: x in items ==> IsBlock(f(x), mark) && f(x)[0] == first(x)
  }

  lemma {:induction false} OnlyBlocks<T(!new)>(items: seq<T>, f: T -> seq<Entry>, mark: Entry -> bool,
                                               first: T -> Entry)
    requires Opens(items, f, mark, first)
    ensures Only(Blocks(items, f), mark) == MapSeq(first, items)
    decreases |items|
  {
    if items != [] {
      var rest, last := items[..|items| - 1], items[|items| - 1];
      assert last in items && forall x :: x in rest ==> x in items;
      OnlyBlocks(rest, f, mark, first);
      OnlyLastBlock(items, f, mark);
    }
  }

  predicate IsJobId(e: Entry) { e.key == "job.id" }

  predicate IsStepId(e: Entry) { e.key == "job.step.id" }

  function JobIdLine(j: Job): Entry { Entry("job.id", j.id) }

  function StepIdLine(s: Step): Entry { Entry("job.step.id", s.id) }

  lemma JobIdTag(e: Entry)
    ensures IsJobId(e) ==> Tag(e) == "id"
  {
  }

  lemma StepIdTags(e: Entry)
    ensures IsStepId(e) ==> Tag(e) == "st" && StepTag(e) == "id"
  {
  }

  lemma NoStepIds(s: seq<Entry>, tag: string)
    requires All(s, HasTag(tag)) && tag != "st"
    ensures NoneOf(s, IsStepId)
  {
    OtherSection(s, tag, "st");
    var p := HasTag("st");
    forall e | e in s ensures !IsStepId(e) {
      assert !p(e);
      StepIdTags(e);
    }
  }

  lemma HeadHasNoStepId(j: Job)
    ensures NoneOf(JobHeadLines(j), IsStepId)
  {
    var a := JobHeadLines(j);
    assert a[0].key[4] == 'i' && a[1].key[4] == 'n' && a[2].key[4] == 'r' && a[3].key[4] == 't';
    assert a[4].key[4] == 'r' && a[5].key[4] == 'r' && a[6].key[4] == 'n' && a[7].key[4] == 't';
    assert "job.step.id"[4] == 's';
  }

  lemma StepIdBlock(s: Step)
    ensures IsBlock(StepLines(s), IsStepId) && StepLines(s)[0] == StepIdLine(s)
  {
    StepIsBlock(s);
    var a, p := StepLines(s), HasStepTag("id");
    forall i | 1 <= i < |a| ensures !IsStepId(a[i]) {
      assert !p(a[i]);
      StepIdTags(a[i]);
    }
  }

  /** The lines of a job show its steps in the order in which they run. */
  lemma StepsInOrder(j: Job)
    ensures Only(JobLines(j), IsStepId) == MapSeq(StepIdLine, j.steps)
  {
    var a, b := MapLines("job.input.", j.inputs), MapLines("job.output.", j.outputs);
    var c, d, e := Blocks(j.cacheMounts, MountLine), Blocks(j.artifactPaths, ArtifactLine), Blocks(j.steps, StepLines);
    JobSections(j);
    HeadHasNoStepId(j);
    NoStepIds(a, "in");
    NoStepIds(b, "ou");
    NoStepIds(c, "ca");
    NoStepIds(d, "ar");
    OnlyAfter(JobHeadLines(j), a + (b + (c + (d + e))), IsStepId);
    OnlyAfter(a, b + (c + (d + e)), IsStepId);
    OnlyAfter(b, c + (d + e), IsStepId);
    OnlyAfter(c, d + e, IsStepId);
    OnlyAfter(d, e, IsStepId);
    forall s | s in j.steps ensures IsBlock(StepLines(s), IsStepId) && StepLines(s)[0] == StepIdLine(s) {
      StepIdBlock(s);
    }
    OnlyBlocks(j.steps, StepLines, IsStepId, StepIdLine);
  }

  lemma OnlyAfter(a: seq<Entry>, b: seq<Entry>, mark: Entry -> bool)
    requires NoneOf(a, mark)
    ensures Only(a + b, mark) == Only(b, mark)
  {
    OnlyAppend(a, b, mark);
    OnlyNone(a, mark);
  }

  lemma HeaderHasNoJobId(h: Header)
    ensures NoneOf(HeaderLines(h), IsJobId)
  {
    var lines := HeaderLines(h);
    assert forall i :: 0 <= i < |lines| ==> |lines[i].key| > 6;
    assert |"job.id"| == 6;
  }

  lemma JobIdBlock(j: Job)
    ensures IsBlock(JobLines(j), IsJobId) && JobLines(j)[0] == JobIdLine(j)
  {
    JobIsBlock(j);
    var a, p := JobLines(j), HasTag("id");
    forall i | 1 <= i < |a| ensures !IsJobId(a[i]) {
      assert !p(a[i]);
      JobIdTag(a[i]);
    }
  }

  /** The text shows the jobs of the sorted pipeline one after the other. */
  lemma JobsInOrder(p: Pipeline)
    requires Readable(p)
    ensures Only(Parse(CanonicalText(p)), IsJobId) == MapSeq(JobIdLine, Form(p).jobs)
  {
    ParseCanonical(p);
    var f := Form(p);
    var jobs, edges := Blocks(f.jobs, JobLines), Blocks(f.edges, EdgeLine);
    HeaderHasNoJobId(f.header);
    OnlyAfter(HeaderLines(f.header), jobs + edges, IsJobId);
    EdgeLinesSection(f.edges);
    forall e | e in edges ensures !IsJobId(e) { JobIdTag(e); }
    OnlyAppend(jobs, edges, IsJobId);
    OnlyNone(edges, IsJobId);
    forall j | j in f.jobs ensures IsBlock(JobLines(j), IsJobId) && JobLines(j)[0] == JobIdLine(j) { JobIdBlock(j); }
    OnlyBlocks(f.jobs, JobLines, IsJobId, JobIdLine);
  }

  /** Maps are shown in the order of their keys, once each. */
  lemma MapTextOrder(prefix: string, m: map<string, string>, i: nat, j: nat)
    requires i < j < |m|
    ensures |MapLines(prefix, m)| == |m|
    ensures exists a, b ::
      && a in m && b in m && StrLt(a, b)
      && MapLines(prefix, m)[i] == Entry(prefix + a, m[a]) && MapLines(prefix, m)[j] == Entry(prefix + b, m[b])
  {
    var keys, f := Iter(m.Keys), MapLine(prefix, m);
    MapLinesAt(prefix, m, keys, f, i);
    MapLinesAt(prefix, m, keys, f, j);
    assert |m.Keys| == |m|;
    assert StrLt(keys[i], keys[j]) && keys[i] in m.Keys && keys[j] in m.Keys;
  }

  lemma MapLinesAt(prefix: string, m: map<string, string>, keys: seq<string>, f: string -> seq<Entry>, i: nat)
    requires f == MapLine(prefix, m) && i < |keys| && forall k :: 0 <= k < |keys| ==> keys[k] in m
    ensures |Blocks(keys, f)| == |keys| && Blocks(keys, f)[i] == Entry(prefix + keys[i], m[keys[i]])
  {
    var parts := MapSeq(f, keys);
    forall k | 0 <= k < |parts| ensures |parts[k]| == 1 { assert parts[k] == f(keys[k]); }
    ConcatBlocksLength(parts, 1);
    ConcatBlocksAt(parts, 1, i, 0);
    assert parts[i] == f(keys[i]);
  }

  /** Which part of a job a line belongs to: inputs, outputs, mounts, artifacts, steps. */
  function PartOf(tag: string): nat {
    if tag == "in" then 0 else if tag == "ou" then 1 else if tag == "ca" then 2 else if tag == "ar" then 3 else 4
  }

  function Part(e: Entry): nat { PartOf(Tag(e)) }

  ghost predicate PartsClimb(s: seq<Entry>, least: nat) {
    && (forall e :: e in s ==> Part(e) >= least)
    && forall i, j :: 0 <= i < j < |s| ==> Part(s[i]) <= Part(s[j])
  }

  lemma PartsClimbOn(a: seq<Entry>, b: seq<Entry>, tag: string, part: nat)
    requires All(a, HasTag(tag)) && PartOf(tag) == part && PartsClimb(b, part)
    ensures PartsClimb(a + b, part)
  {
    var p := HasTag(tag);
    forall e | e in a ensures Part(e) == part { assert p(e); }
    var s := a + b;
    forall i, j | 0 <= i < j < |s| ensures Part(s[i]) <= Part(s[j]) {
      if i < |a| {
        assert s[i] in a;
        assert s[j] in a || s[j] in b;
      } else {
        assert s[i] == b[i - |a|] && s[j] == b[j - |a|];
      }
    }
  }

  lemma FivePartsClimb(a: seq<Entry>, b: seq<Entry>, c: seq<Entry>, d: seq<Entry>, e: seq<Entry>)
    requires All(a, HasTag("in")) && All(b, HasTag("ou")) && All(c, HasTag("ca")) && All(d, HasTag("ar"))
    requires All(e, HasTag("st"))
    ensures PartsClimb(a + (b + (c + (d + e))), 0)
  {
    assert e + [] == e;
    PartsClimbOn(e, [], "st", 4);
    PartsClimbOn(d, e, "ar", 3);
    PartsClimbOn(c, d + e, "ca", 2);
    PartsClimbOn(b, c + (d + e), "ou", 1);
    PartsClimbOn(a, b + (c + (d + e)), "in", 0);
  }

  /** After the fixed fields of a job come its inputs, outputs, mounts, artifacts and steps, in this order. */
  lemma PartsInOrder(j: Job)
    ensures PartsClimb(JobBodyLines(j), 0)
  {
    JobSections(j);
    FivePartsClimb(MapLines("job.input.", j.inputs), MapLines("job.output.", j.outputs),
                   Blocks(j.cacheMounts, MountLine), Blocks(j.artifactPaths, ArtifactLine), Blocks(j.steps, StepLines));
  }

  // ------------------------------------------------- why each condition is there

  lemma {:induction false} PlainEscape(s: string)
    requires '\\' !in s && '\n' !in s
    ensures EscapeCanonical(s) == s
  {
    if s != [] {
      EscapeCanonicalStep(s);
      assert s[0] in s && s == [s[0]] + s[1..];
      PlainEscape(s[1..]);
    }
  }

  lemma EscapeAppend(a: string, b: string)
    ensures EscapeCanonical(a + b) == EscapeCanonical(a) + EscapeCanonical(b)
  {
    ReplaceCharAppend(a, b, '\\', "\\\\");
    ReplaceCharAppend(ReplaceChar(a, '\\', "\\\\"), ReplaceChar(b, '\\', "\\\\"), '\n', "\\n");
  }

  /** Keys are not escaped: for every key with an equals sign, whatever stands before it, a shorter key
      with a longer value gives the same line. */
  lemma KeysCollide(key: string, more: string, value: string)
    requires '\\' !in more && '\n' !in more
    ensures Line(Entry(key + "=" + more, value)) == Line(Entry(key, more + "=" + value))
  {
    EscapeAppend(more + "=", value);
    assert '\\' !in more + "=" && '\n' !in more + "=";
    PlainEscape(more + "=");
  }

  lemma CutAt(s: string, c: char) returns (x: string, y: string)
    requires c in s
    ensures s == x + [c] + y
  {
    var i :| 0 <= i < |s| && s[i] == c;
    x, y := s[..i], s[i + 1..];
  }

  /** Every mount that is not readable shares its line with another mount. */
  lemma MountTwin(m: CacheMount) returns (n: CacheMount)
    requires !ReadableMount(m)
    ensures n != m && MountLine(n) == MountLine(m)
  {
    if '|' in m.name {
      var x, y := CutAt(m.name, '|');
      n := m.(name := x, path := y + "|" + m.path);
      assert x + "|" + (y + "|" + m.path) == m.name + "|" + m.path;
      assert |x| != |m.name|;
    } else {
      var x, y := CutAt(m.path, '|');
      n := m.(name := m.name + "|" + x, path := y);
      assert m.name + "|" + x + "|" + y == m.name + "|" + m.path;
      assert |y| != |m.path|;
    }
  }

  lemma {:induction false} JoinCut(s: seq<string>, k: nat, x: string, y: string)
    requires k < |s| && s[k] == x + "," + y
    ensures Join(s[..k] + [x, y] + s[k + 1..], ",") == Join(s, ",")
    decreases |s|
  {
    var t := s[..k] + [x, y] + s[k + 1..];
    if k == 0 {
      assert t[0] == x && t[1..] == [y] + s[1..];
      if |s| == 1 {
        assert t[1..] == [y] && s == [x + "," + y];
      } else {
        assert t[1..][1..] == s[1..];
        assert Join(t[1..], ",") == y + "," + Join(s[1..], ",");
        assert x + "," + (y + "," + Join(s[1..], ",")) == x + "," + y + "," + Join(s[1..], ",");
      }
    } else {
      assert s[1..][k - 1] == s[k] && s[1..][..k - 1] == s[1..k] && s[1..][k..] == s[k + 1..];
      JoinCut(s[1..], k - 1, x, y);
      assert t[0] == s[0] && t[1..] == s[1..k] + [x, y] + s[k + 1..];
    }
  }

  /** Every list that cannot be read back joins to the same text as another list. */
  lemma ListTwin(s: seq<string>) returns (t: seq<string>)
    requires !Listable(s)
    ensures t != s && Join(t, ",") == Join(s, ",")
  {
    if s == [""] {
      t := [];
    } else {
      var e :| e in s && ',' in e;
      var k :| 0 <= k < |s| && s[k] == e;
      var x, y := CutAt(e, ',');
      JoinCut(s, k, x, y);
      t := s[..k] + [x, y] + s[k + 1..];
      assert |t| == |s| + 1;
    }
  }

  /** Every edge that is not readable shares its line with another edge. */
  lemma EdgeTwin(e: Dependency) returns (f: Dependency)
    requires !ReadableEdge(e)
    ensures f != e && EdgeLine(f) == EdgeLine(e)
  {
    var i :| 0 <= i <= |e.from| && "->" <= e.from[i..];
    var x, y := e.from[..i], e.from[i + 2..];
    assert e.from == x + "->" + y by { assert e.from[i..][..2] == "->"; assert e.from[i..] == "->" + y; }
    f := Dependency(x, y + "->" + e.to);
    assert x + "->" + (y + "->" + e.to) == e.from + "->" + e.to;
    assert |x| != |e.from|;
  }

  /** Every custom class that is not readable is spelled like a named one. */
  lemma ClassTwin(c: RunnerClass) returns (d: RunnerClass)
    requires !ReadableClass(c)
    ensures d != c && RunnerClassText(d) == RunnerClassText(c)
  {
    d :| d in NamedClasses() && RunnerClassText(d) == c.name;
  }

  /** Every unknown source that is not readable is spelled like a named one. */
  lemma SourceTwin(s: PipelineSource) returns (t: PipelineSource)
    requires !ReadableSource(s)
    ensures t != s && SourceText(t) == SourceText(s)
  {
    t :| t in NamedSources() && SourceText(t) == s.value;
  }

  /** Artifacts join a label and a number as well: a name that ends in a label and a number, with bars
      between, reads as the shorter name with that label and number, whatever follows. */
  lemma ArtifactsCollide(name: string, first: ArtifactWhen, days: nat, when: ArtifactWhen, more: nat,
                         paths: seq<string>)
    ensures ArtifactLine(ArtifactPath(name + "|" + WhenText(first) + "|" + Dec(days), paths, when, more))
         == ArtifactLine(ArtifactPath(name, [WhenText(when) + "|" + Dec(more) + "|" + Join(paths, ",")], first, days))
  {
    BarsRegroup(name, WhenText(first), Dec(days), WhenText(when), Dec(more), Join(paths, ","));
  }

  lemma BarsRegroup(n: string, l: string, d: string, w: string, e: string, p: string)
    ensures n + "|" + l + "|" + d + "|" + w + "|" + e + "|" + p == n + "|" + l + "|" + d + "|" + (w + "|" + e + "|" + p)
  {
  }

  lemma InputLinesCollide(key: string, more: string, value: string)
    requires '\\' !in more && '\n' !in more
    ensures Render(MapLines("job.input.", map[key + "=" + more := value]))
         == Render(MapLines("job.input.", map[key := more + "=" + value]))
  {
    var long, short := Entry("job.input." + (key + "=" + more), value), Entry("job.input." + key, more + "=" + value);
    OneInput(key + "=" + more, value);
    OneInput(key, more + "=" + value);
    RenderOne(long);
    RenderOne(short);
    PrefixedKey("job.input.", key, more);
    KeysCollide("job.input." + key, more, value);
  }

  lemma PrefixedKey(prefix: string, key: string, more: string)
    ensures prefix + (key + "=" + more) == prefix + key + "=" + more
  {
  }

  /** So two different jobs can share their whole canonical text, and every hash of it. */
  lemma DifferentJobsSameText(j: Job, key: string, more: string, value: string)
    requires '\\' !in more && '\n' !in more
    ensures var a, b := j.(inputs := map[key + "=" + more := value]), j.(inputs := map[key := more + "=" + value]);
      a != b && Render(JobLines(a)) == Render(JobLines(b))
  {
    var a, b := j.(inputs := map[key + "=" + more := value]), j.(inputs := map[key := more + "=" + value]);
    assert key in b.inputs && key !in a.inputs by { assert |key + "=" + more| != |key|; }
    InputLinesCollide(key, more, value);
    SameOutsideInputs(a, b);
  }

  lemma OneInput(key: string, value: string)
    ensures MapLines("job.input.", map[key := value]) == [Entry("job.input." + key, value)]
  {
    var m: map<string, string> := map[key := value];
    assert m.Keys == {key};
    AscendingUnique(Iter({key}), [key]);
    var f := MapLine("job.input.", m);
    assert MapSeq(f, [key]) == [f(key)];
    assert [f(key)][..0] == [];
    assert Concat([f(key)]) == [] + f(key);
  }

  lemma SameOutsideInputs(a: Job, b: Job)
    requires a == b.(inputs := a.inputs)
    requires Render(MapLines("job.input.", a.inputs)) == Render(MapLines("job.input.", b.inputs))
    ensures Render(JobLines(a)) == Render(JobLines(b))
  {
    var rest := MapLines("job.output.", a.outputs)
                + (Blocks(a.cacheMounts, MountLine)
                + (Blocks(a.artifactPaths, ArtifactLine) + Blocks(a.steps, StepLines)));
    RenderAppend(JobHeadLines(a), JobBodyLines(a));
    RenderAppend(JobHeadLines(b), JobBodyLines(b));
    RenderAppend(MapLines("job.input.", a.inputs), rest);
    RenderAppend(MapLines("job.input.", b.inputs), rest);
  }
}
