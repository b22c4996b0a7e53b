/** Dependency chains: the reference notions of cycle and depth, stated on paths and
    independent of any scheduling algorithm. */
module Dag {
  import opened PipelineIr

  /** A dependency chain: each member is a dependency of the next one. */
  ghost predicate IsChain(p: seq<string>, edges: set<Dependency>) {
    |p| >= 1 && forall i :: 0 <= i < |p| - 1 ==> Dependency(p[i], p[i + 1]) in edges
  }

  ghost predicate ChainTo(p: seq<string>, job: string, edges: set<Dependency>) {
    IsChain(p, edges) && p[|p| - 1] == job
  }

  ghost predicate IsCycle(p: seq<string>, edges: set<Dependency>) {
    IsChain(p, edges) && |p| >= 2 && p[0] == p[|p| - 1]
  }

  ghost predicate Cyclic(edges: set<Dependency>) {
    exists p :: IsCycle(p, edges)
  }

  /** `k` is the number of edges on a longest chain ending at `job`. */
  ghost predicate Depth(job: string, k: nat, edges: set<Dependency>) {
    && (exists p :: ChainTo(p, job, edges) && |p| == k + 1)
    && (forall p :: ChainTo(p, job, edges) ==> |p| <= k + 1)
  }

  lemma DepthUnique(job: string, k: nat, l: nat, edges: set<Dependency>)
    requires Depth(job, k, edges) && Depth(job, l, edges)
    ensures k == l
  {
    var p :| ChainTo(p, job, edges) && |p| == k + 1;
    var q :| ChainTo(q, job, edges) && |q| == l + 1;
  }

  lemma ExtendChain(p: seq<string>, job: string, next: string, edges: set<Dependency>)
    requires ChainTo(p, job, edges) && Dependency(job, next) in edges
    ensures ChainTo(p + [next], next, edges)
  {
    var q := p + [next];
    forall i | 0 <= i < |q| - 1 ensures Dependency(q[i], q[i + 1]) in edges {
      assert i < |p| - 1 ==> Dependency(p[i], p[i + 1]) in edges;
    }
  }

  lemma DropLast(p: seq<string>, job: string, edges: set<Dependency>)
    requires ChainTo(p, job, edges) && |p| >= 2
    ensures ChainTo(p[..|p| - 1], p[|p| - 2], edges)
    ensures Dependency(p[|p| - 2], job) in edges
  {
    assert Dependency(p[|p| - 2], p[|p| - 2 + 1]) in edges;
  }

  /** A job without dependencies has depth 0; otherwise depth is one more than the deepest dependency. */
  lemma DepthFromDependencies(job: string, k: nat, edges: set<Dependency>, depth: map<string, nat>)
    requires forall e :: e in edges && e.to == job ==>
      e.from in depth && Depth(e.from, depth[e.from], edges) && depth[e.from] < k
    requires k > 0 ==> exists e :: e in edges && e.to == job && depth[e.from] == k - 1
    ensures Depth(job, k, edges)
  {
    if k == 0 {
      assert ChainTo([job], job, edges);
    } else {
      var e :| e in edges && e.to == job && depth[e.from] == k - 1;
      var p :| ChainTo(p, e.from, edges) && |p| == k;
      ExtendChain(p, e.from, job, edges);
    }
    forall p | ChainTo(p, job, edges) ensures |p| <= k + 1 {
      if |p| >= 2 {
        DropLast(p, job, edges);
        assert Dependency(p[|p| - 2], job).to == job;
      }
    }
  }

  /** A strictly increasing labelling of the edges grows by at least the length of any chain. */
  lemma {:induction false} LabelsGrowAlongChains(p: seq<string>, edges: set<Dependency>, rank: map<string, nat>)
    requires IsChain(p, edges)
    requires forall i :: 0 <= i < |p| ==> p[i] in rank
    requires forall e :: e in edges && e.from in rank && e.to in rank ==> rank[e.from] < rank[e.to]
    ensures rank[p[|p| - 1]] >= rank[p[0]] + |p| - 1
    decreases |p|
  {
    if |p| >= 2 {
      DropLast(p, p[|p| - 1], edges);
      LabelsGrowAlongChains(p[..|p| - 1], edges, rank);
    }
  }

  /** Every member of a cycle is the target of an edge. */
  lemma OnCycleHasDependency(p: seq<string>, edges: set<Dependency>, i: nat)
    requires IsCycle(p, edges) && i < |p|
    ensures exists e :: e in edges && e.to == p[i]
  {
    var k := if i == 0 then |p| - 1 else i;
    assert Dependency(p[k - 1], p[k - 1 + 1]) in edges;
    assert p[k] == p[i];
  }

  /** Some dependency of `job` lies in `inside`. */
  ghost predicate DependsInside(job: string, inside: set<string>, edges: set<Dependency>) {
    exists e :: e in edges && e.to == job && e.from in inside
  }

  lemma {:induction false} DistinctBound(p: seq<string>, s: set<string>)
    requires forall i, j :: 0 <= i < j < |p| ==> p[i] != p[j]
    requires forall i :: 0 <= i < |p| ==> p[i] in s
    ensures |p| <= |s|
    decreases |p|
  {
    if p != [] {
      assert forall i :: 1 <= i < |p| ==> p[i] in s - {p[0]};
      DistinctBound(p[1..], s - {p[0]});
    }
  }

  lemma PrependChain(p: seq<string>, e: Dependency, edges: set<Dependency>)
    requires IsChain(p, edges) && e in edges && e.to == p[0]
    ensures IsChain([e.from] + p, edges)
  {
    var q := [e.from] + p;
    forall i | 0 <= i < |q| - 1 ensures Dependency(q[i], q[i + 1]) in edges {
      assert i > 0 ==> Dependency(p[i - 1], p[i - 1 + 1]) in edges;
    }
  }

  lemma TakeChain(p: seq<string>, n: nat, edges: set<Dependency>)
    requires IsChain(p, edges) && 1 <= n <= |p|
    ensures IsChain(p[..n], edges)
  {
    forall i | 0 <= i < n - 1 ensures Dependency(p[..n][i], p[..n][i + 1]) in edges {
      assert Dependency(p[i], p[i + 1]) in edges;
    }
  }

  /** Walking backwards inside a finite set in which every member has a dependency must repeat a member. */
  lemma {:induction false} WalkBack(p: seq<string>, stuck: set<string>, edges: set<Dependency>)
    requires IsChain(p, edges)
    requires forall i, j :: 0 <= i < j < |p| ==> p[i] != p[j]
    requires forall i :: 0 <= i < |p| ==> p[i] in stuck
    requires forall j {:trigger DependsInside(j, stuck, edges)} :: j in stuck ==> DependsInside(j, stuck, edges)
    ensures Cyclic(edges)
    decreases |stuck| - |p|
  {
    DistinctBound(p, stuck);
    assert p[0] in stuck;
    assert DependsInside(p[0], stuck, edges);
    var e :| e in edges && e.to == p[0] && e.from in stuck;
    var q := [e.from] + p;
    PrependChain(p, e, edges);
    if e.from in p {
      var k :| 0 <= k < |p| && p[k] == e.from;
      assert IsCycle(q[..k + 2], edges) by { TakeChain(q, k + 2, edges); }
    } else {
      DistinctBound(q, stuck);
      WalkBack(q, stuck, edges);
    }
  }

  /** A non-empty finite set in which every member depends on a member lies over a cycle. */
  lemma StuckImpliesCyclic(stuck: set<string>, edges: set<Dependency>)
    requires stuck != {}
    requires forall j {:trigger DependsInside(j, stuck, edges)} :: j in stuck ==> DependsInside(j, stuck, edges)
    ensures Cyclic(edges)
  {
    var j :| j in stuck;
    WalkBack([j], stuck, edges);
  }
}
