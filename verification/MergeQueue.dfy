/** FIFO merge queue with proof-witness admission (`jeryu-ci-scheduler/src/merge_queue.rs`,
    `jeryu-core/src/phase7.rs`). A validator is any function of the validation request. */
module MergeQueue {
  import opened Order
  import opened Text

  datatype ChangedPath = ChangedPath(path: string, sensitive: bool)

  datatype PullRequest = PullRequest(repo: string, id: string, sourceBranch: string, targetBranch: string,
                                     baseSha: string, headSha: string, changedPaths: seq<ChangedPath>)

  datatype ProofWitness = ProofWitness(id: string, repo: string, pr: string, headSha: string, changedPaths: seq<string>)

  datatype EntryState = Queued | SpeculativeMergeTesting | Mergeable | DequeuedConflict | DequeuedFailedValidation

  datatype QueueEntry = QueueEntry(id: string, pr: PullRequest, proof: ProofWitness,
                                   speculativeSha: Option<string>, state: EntryState)

  datatype SpeculativeValidation =
    SpeculativeValidation(entryId: string, pr: PullRequest, speculativeSha: string, acceptedPathsAhead: set<string>)

  datatype Outcome = Passed | Failed(reason: string)

  type Validator = SpeculativeValidation -> Outcome

  datatype QueueError =
    | MissingWitness(pr: string) | WitnessDoesNotCover(proof: string, pr: string)
    | PathSetMismatch(proof: string, pr: string)

  datatype Summary = Summary(mergeable: nat, conflicts: nat, failedValidation: nat, processed: nat)

  function Plus(a: Summary, b: Summary): Summary {
    Summary(a.mergeable + b.mergeable, a.conflicts + b.conflicts, a.failedValidation + b.failedValidation,
            a.processed + b.processed)
  }

  const NOTHING := Summary(0, 0, 0, 0)

  function Paths(pr: PullRequest): set<string> { set c | c in pr.changedPaths :: c.path }

  function WitnessPaths(w: ProofWitness): set<string> { set p | p in w.changedPaths }

  function SyntheticSha(pr: PullRequest): string {
    "synthetic-" + ReplaceChar(pr.targetBranch, '/', "_") + "-" + pr.baseSha + "-" + pr.headSha
  }

  /** `DeterministicValidator`: rejects on the least path that is already accepted. */
  function Deterministic(v: SpeculativeValidation): Outcome {
    var hit := Paths(v.pr) * v.acceptedPathsAhead;
    if hit == {} then Passed else Failed("path conflict: " + Least(hit))
  }

  predicate IsConflictReason(reason: string) { "path conflict:" <= reason }

  // -------------------------------------------------------------- specification

  datatype Queue = Queue(entries: seq<QueueEntry>, accepted: set<string>)

  /** The witness is for this repository, pull request, head and path set. */
  predicate Covers(w: ProofWitness, pr: PullRequest) {
    w.repo == pr.repo && w.pr == pr.id && w.headSha == pr.headSha && WitnessPaths(w) == Paths(pr)
  }

  function Admission(pr: PullRequest, w: Option<ProofWitness>): Option<QueueError> {
    if w.None? then Some(MissingWitness(pr.id))
    else if w.value.repo != pr.repo || w.value.pr != pr.id || w.value.headSha != pr.headSha
      then Some(WitnessDoesNotCover(w.value.id, pr.id))
    else if Paths(pr) != WitnessPaths(w.value) then Some(PathSetMismatch(w.value.id, pr.id))
    else None
  }

  function Enqueued(q: Queue, pr: PullRequest, w: Option<ProofWitness>, id: string): Queue {
    if Admission(pr, w).Some? then q
    else q.(entries := q.entries + [QueueEntry(id, pr, w.value, None, Queued)])
  }

  /** Paths of the entries already found mergeable. */
  function MergeablePaths(entries: seq<QueueEntry>): set<string> {
    if entries == [] then {} else
      var last := entries[|entries| - 1];
      MergeablePaths(entries[..|entries| - 1]) + if last.state == Mergeable then Paths(last.pr) else {}
  }

  /** The request the validator sees for an entry. */
  function RequestFor(e: QueueEntry, accepted: set<string>): SpeculativeValidation {
    SpeculativeValidation(e.id, e.pr, SyntheticSha(e.pr), accepted)
  }

  function StateAfter(o: Outcome): EntryState {
    match o
    case Passed => Mergeable
    case Failed(reason) => if IsConflictReason(reason) then DequeuedConflict else DequeuedFailedValidation
  }

  function Settled(e: QueueEntry, accepted: set<string>, v: Validator): QueueEntry {
    if e.state != Queued then e
    else e.(speculativeSha := Some(SyntheticSha(e.pr)), state := StateAfter(v(RequestFor(e, accepted))))
  }

  function AcceptedAfter(e: QueueEntry, accepted: set<string>, v: Validator): set<string> {
    if e.state == Queued && v(RequestFor(e, accepted)).Passed? then accepted + Paths(e.pr) else accepted
  }

  function SummaryOf(e: QueueEntry, accepted: set<string>, v: Validator): Summary {
    if e.state != Queued then NOTHING else
      match StateAfter(v(RequestFor(e, accepted)))
      case Mergeable => Summary(1, 0, 0, 1)
      case DequeuedConflict => Summary(0, 1, 0, 1)
      case _ => Summary(0, 0, 1, 1)
  }

  /** One pass over the entries in order, starting from the accepted paths. */
  function Pass(entries: seq<QueueEntry>, accepted: set<string>, v: Validator): (Queue, Summary) {
    if entries == [] then (Queue([], accepted), NOTHING) else
      var (q, s) := Pass(entries[..|entries| - 1], accepted, v);
      var e := entries[|entries| - 1];
      (Queue(q.entries + [Settled(e, q.accepted, v)], AcceptedAfter(e, q.accepted, v)),
       Plus(s, SummaryOf(e, q.accepted, v)))
  }

  function Processed(q: Queue, v: Validator): (Queue, Summary) {
    Pass(q.entries, q.accepted + MergeablePaths(q.entries), v)
  }

  // ------------------------------------------------------------ imperative form

  class MergeQueue {
    var entries: seq<QueueEntry>
    var acceptedPaths: set<string>

    ghost function State(): Queue
      reads this
    {
      Queue(entries, acceptedPaths)
    }

    constructor ()
      ensures State() == Queue([], {})
    {
      entries, acceptedPaths := [], {};
    }

    /** `enqueue`; `freshId` is the id minted for the entry. */
    method Enqueue(pr: PullRequest, w: Option<ProofWitness>, freshId: string) returns (r: Result<string, QueueError>)
      modifies this
      ensures State() == Enqueued(old(State()), pr, w, freshId)
      ensures r == if Admission(pr, w).Some? then Err(Admission(pr, w).value) else Ok(freshId)
      ensures r.Ok? <==> w.Some? && Covers(w.value, pr)
      ensures r.Ok? ==> r.value == freshId && entries == old(entries) + [QueueEntry(freshId, pr, w.value, None, Queued)]
      ensures r.Err? ==> entries == old(entries) && acceptedPaths == old(acceptedPaths)
      ensures (r.Err? && r.error.MissingWitness?) <==> w.None?
      ensures (r.Err? && r.error.PathSetMismatch?) <==>
              w.Some? && w.value.repo == pr.repo && w.value.pr == pr.id && w.value.headSha == pr.headSha
              && WitnessPaths(w.value) != Paths(pr)
    {
      if w.None? { return Err(MissingWitness(pr.id)); }
      var proof := w.value;
      if proof.repo != pr.repo || proof.pr != pr.id || proof.headSha != pr.headSha {
        return Err(WitnessDoesNotCover(proof.id, pr.id));
      }
      if Paths(pr) != WitnessPaths(proof) { return Err(PathSetMismatch(proof.id, pr.id)); }
      entries := entries + [QueueEntry(freshId, pr, proof, None, Queued)];
      return Ok(freshId);
    }

    method ProcessAll(v: Validator) returns (summary: Summary)
      modifies this
      ensures (State(), summary) == Processed(old(State()), v)
    {
      var accepted := CollectAccepted(entries, acceptedPaths);
      ghost var start, before := accepted, entries;
      summary := NOTHING;
      var count := |entries|;
      for i := 0 to count
        invariant |entries| == count && entries[i..] == before[i..]
        invariant (Queue(entries[..i], accepted), summary) == Pass(before[..i], start, v)
      {
        assert before[..i + 1][..i] == before[..i];
        assert entries[i] == entries[i..][0] && before[i] == before[i..][0];
        ghost var head := entries[..i];
        var e, paths, s := SettleEntry(entries[i], accepted, v);
        accepted, summary := paths, Plus(summary, s);
        entries := entries[i := e];
        assert entries[..i + 1] == head + [e];
        assert entries[i + 1..] == before[i..][1..];
      }
      assert before[..count] == before && entries[..count] == entries;
      acceptedPaths := accepted;
    }
  }

  /** First loop of `process_all`: the persisted paths and those of the mergeable entries. */
  method CollectAccepted(entries: seq<QueueEntry>, persisted: set<string>) returns (accepted: set<string>)
    ensures accepted == persisted + MergeablePaths(entries)
  {
    accepted := persisted;
    for i := 0 to |entries|
      invariant accepted == persisted + MergeablePaths(entries[..i])
    {
      assert entries[..i + 1][..i] == entries[..i];
      if entries[i].state == Mergeable { accepted := accepted + Paths(entries[i].pr); }
    }
    assert entries[..|entries|] == entries;
  }

  /** Body of the second loop: a queued entry is validated and its state, the accepted paths and the
      counters follow the outcome; any other entry is skipped. */
  method SettleEntry(entry: QueueEntry, paths: set<string>, v: Validator)
    returns (e: QueueEntry, accepted: set<string>, s: Summary)
    ensures e == Settled(entry, paths, v) && accepted == AcceptedAfter(entry, paths, v)
    ensures s == SummaryOf(entry, paths, v)
  {
    e, accepted, s := entry, paths, NOTHING;
    if e.state != Queued { return; }
    e := e.(state := SpeculativeMergeTesting);
    var sha := SyntheticSha(e.pr);
    e := e.(speculativeSha := Some(sha));
    var outcome := v(SpeculativeValidation(e.id, e.pr, sha, accepted));
    match outcome {
      case Passed =>
        e := e.(state := Mergeable);
        accepted := accepted + Paths(e.pr);
        s := Summary(1, 0, 0, 1);
      case Failed(reason) =>
        if IsConflictReason(reason) {
          e := e.(state := DequeuedConflict);
          s := Summary(0, 1, 0, 1);
        } else {
          e := e.(state := DequeuedFailedValidation);
          s := Summary(0, 0, 1, 1);
        }
    }
  }

  // -------------------------------------------------------- batching independence

  datatype Op = Enqueue(pr: PullRequest, proof: Option<ProofWitness>, id: string) | Process

  /** The queue after a history, and the sum of all summaries. */
  function Run(q: Queue, ops: seq<Op>, v: Validator): (Queue, Summary) {
    if ops == [] then (q, NOTHING) else RunStep(Run(q, ops[..|ops| - 1], v), ops[|ops| - 1], v)
  }

  /** The same history without its `process_all` calls. */
  function OnlyEnqueues(ops: seq<Op>): seq<Op> {
    if ops == [] then [] else
      OnlyEnqueues(ops[..|ops| - 1]) + if ops[|ops| - 1].Process? then [] else [ops[|ops| - 1]]
  }

  /** Every mergeable path is accepted: what `process_all` establishes and `enqueue` keeps. */
  predicate Consistent(q: Queue) { MergeablePaths(q.entries) <= q.accepted }

  ghost predicate NoneQueued(entries: seq<QueueEntry>) {
    forall i :: 0 <= i < |entries| ==> entries[i].state != Queued
  }

  lemma MergeableLast(entries: seq<QueueEntry>, e: QueueEntry)
    ensures MergeablePaths(entries + [e]) == MergeablePaths(entries) + if e.state == Mergeable then Paths(e.pr) else {}
  {
    assert (entries + [e])[..|entries|] == entries;
  }

  lemma SettleKeeps(r: (Queue, Summary), e: QueueEntry, accepted: set<string>, v: Validator)
    requires NoneQueued(r.0.entries) && Consistent(r.0) && accepted <= r.0.accepted
    requires e.state == Mergeable ==> Paths(e.pr) <= accepted
    ensures var n := Extended(r, e, v).0;
      NoneQueued(n.entries) && Consistent(n) && accepted <= n.accepted && |n.entries| == |r.0.entries| + 1
  {
    MergeableLast(r.0.entries, Settled(e, r.0.accepted, v));
  }

  lemma {:induction false} PassSettles(entries: seq<QueueEntry>, accepted: set<string>, v: Validator)
    requires MergeablePaths(entries) <= accepted
    ensures var (q, _) := Pass(entries, accepted, v);
      |q.entries| == |entries| && NoneQueued(q.entries) && accepted <= q.accepted && Consistent(q)
    decreases |entries|
  {
    if entries != [] {
      PassSettles(entries[..|entries| - 1], accepted, v);
      PassLast(entries, accepted, v);
      SettleKeeps(Pass(entries[..|entries| - 1], accepted, v), entries[|entries| - 1], accepted, v);
    }
  }

  lemma SkipsSettled(e: QueueEntry, accepted: set<string>, v: Validator)
    requires e.state != Queued
    ensures Settled(e, accepted, v) == e && AcceptedAfter(e, accepted, v) == accepted
    ensures SummaryOf(e, accepted, v) == NOTHING
  {
  }

  lemma PassLast(entries: seq<QueueEntry>, accepted: set<string>, v: Validator)
    requires entries != []
    ensures Pass(entries, accepted, v)
         == Extended(Pass(entries[..|entries| - 1], accepted, v), entries[|entries| - 1], v)
  {
  }

  lemma {:induction false} PassSkipsSettled(entries: seq<QueueEntry>, accepted: set<string>, v: Validator)
    requires NoneQueued(entries)
    ensures Pass(entries, accepted, v) == (Queue(entries, accepted), NOTHING)
    decreases |entries|
  {
    if entries != [] {
      var rest, last := entries[..|entries| - 1], entries[|entries| - 1];
      PassSkipsSettled(rest, accepted, v);
      PassLast(entries, accepted, v);
      SkipsSettled(last, accepted, v);
      assert entries == rest + [last];
    }
  }

  /** A second pass right after the first one does nothing. */
  lemma ProcessingTwiceIsProcessingOnce(q: Queue, v: Validator)
    ensures Consistent(Processed(q, v).0)
    ensures Processed(Processed(q, v).0, v) == (Processed(q, v).0, NOTHING)
  {
    PassSettles(q.entries, q.accepted + MergeablePaths(q.entries), v);
    var n := Processed(q, v).0;
    assert n.accepted + MergeablePaths(n.entries) == n.accepted;
    PassSkipsSettled(n.entries, n.accepted, v);
  }

  /** What processing does to a queue with one more entry depends only on the processed queue. */
  function Extended(r: (Queue, Summary), e: QueueEntry, v: Validator): (Queue, Summary) {
    (Queue(r.0.entries + [Settled(e, r.0.accepted, v)], AcceptedAfter(e, r.0.accepted, v)),
     Plus(r.1, SummaryOf(e, r.0.accepted, v)))
  }

  lemma ProcessAppended(q: Queue, e: QueueEntry, v: Validator)
    requires Consistent(q) && e.state == Queued
    ensures Consistent(q.(entries := q.entries + [e]))
    ensures Processed(q.(entries := q.entries + [e]), v) == Extended(Processed(q, v), e, v)
  {
    var all := q.entries + [e];
    assert all[..|all| - 1] == q.entries;
    assert MergeablePaths(all) == MergeablePaths(q.entries);
  }

  /** Queue `a`, reached with summaries adding up to `t`, and the unprocessed queue `b` come to the same. */
  ghost predicate Agree(a: Queue, t: Summary, b: Queue, v: Validator) {
    Consistent(a) && Consistent(b) && AddsUp(Processed(a, v), t, Processed(b, v))
  }

  predicate AddsUp(a: (Queue, Summary), t: Summary, b: (Queue, Summary)) { a.0 == b.0 && Plus(t, a.1) == b.1 }

  lemma AddsUpAfterwards(n: (Queue, Summary), t: Summary, b: (Queue, Summary), again: (Queue, Summary))
    requires AddsUp(n, t, b) && again == (n.0, NOTHING)
    ensures AddsUp(again, Plus(t, n.1), b)
  {
  }

  lemma ExtendedAddsUp(a: (Queue, Summary), t: Summary, b: (Queue, Summary), e: QueueEntry, v: Validator)
    requires AddsUp(a, t, b)
    ensures AddsUp(Extended(a, e, v), t, Extended(b, e, v))
  {
  }

  lemma AppendKeepsAgreement(a: Queue, t: Summary, b: Queue, e: QueueEntry, v: Validator)
    requires Agree(a, t, b, v) && e.state == Queued
    ensures Agree(a.(entries := a.entries + [e]), t, b.(entries := b.entries + [e]), v)
  {
    ProcessAppended(a, e, v);
    ProcessAppended(b, e, v);
    ExtendedAddsUp(Processed(a, v), t, Processed(b, v), e, v);
  }

  lemma EnqueueKeepsAgreement(a: Queue, t: Summary, b: Queue, pr: PullRequest, w: Option<ProofWitness>, id: string,
                              v: Validator)
    requires Agree(a, t, b, v)
    ensures Agree(Enqueued(a, pr, w, id), t, Enqueued(b, pr, w, id), v)
  {
    if Admission(pr, w).None? {
      AppendKeepsAgreement(a, t, b, QueueEntry(id, pr, w.value, None, Queued), v);
    }
  }

  lemma ProcessKeepsAgreement(a: Queue, t: Summary, b: Queue, n: (Queue, Summary), v: Validator)
    requires Agree(a, t, b, v) && n == Processed(a, v)
    ensures Agree(n.0, Plus(t, n.1), b, v)
  {
    ProcessingTwiceIsProcessingOnce(a, v);
    AddsUpAfterwards(n, t, Processed(b, v), Processed(n.0, v));
  }

  /** The effect of one more operation on a history. */
  function RunStep(r: (Queue, Summary), op: Op, v: Validator): (Queue, Summary) {
    match op
    case Enqueue(pr, w, id) => (Enqueued(r.0, pr, w, id), r.1)
    case Process => var n := Processed(r.0, v); (n.0, Plus(r.1, n.1))
  }

  lemma RunAppend(q: Queue, ops: seq<Op>, op: Op, v: Validator)
    ensures Run(q, ops + [op], v) == RunStep(Run(q, ops, v), op, v)
  {
    assert (ops + [op])[..|ops|] == ops;
  }

  /** A history, and one that has not processed anything yet, come to the same. */
  ghost predicate PairsAgree(a: (Queue, Summary), b: (Queue, Summary), v: Validator) {
    Agree(a.0, a.1, b.0, v) && b.1 == NOTHING
  }

  lemma EnqueueOnBoth(a: (Queue, Summary), b: (Queue, Summary), op: Op, v: Validator)
    requires PairsAgree(a, b, v) && op.Enqueue?
    ensures PairsAgree(RunStep(a, op, v), RunStep(b, op, v), v)
  {
    EnqueueKeepsAgreement(a.0, a.1, b.0, op.pr, op.proof, op.id, v);
  }

  lemma ProcessOnOne(a: (Queue, Summary), b: (Queue, Summary), v: Validator)
    requires PairsAgree(a, b, v)
    ensures PairsAgree(RunStep(a, Process, v), b, v)
  {
    var n := Processed(a.0, v);
    ProcessKeepsAgreement(a.0, a.1, b.0, n, v);
    RunProcess(a, n, v);
  }

  lemma RunProcess(a: (Queue, Summary), n: (Queue, Summary), v: Validator)
    requires n == Processed(a.0, v)
    ensures RunStep(a, Process, v) == (n.0, Plus(a.1, n.1))
  {
  }

  /** A history agrees with the same history without its `process_all` calls. */
  ghost predicate HistoriesAgree(q: Queue, ops: seq<Op>, v: Validator) {
    PairsAgree(Run(q, ops, v), Run(q, OnlyEnqueues(ops), v), v)
  }

  lemma AddsUpToItself(r: (Queue, Summary))
    ensures AddsUp(r, NOTHING, r)
  {
  }

  lemma AgreesWithItself(q: Queue, v: Validator)
    requires Consistent(q)
    ensures PairsAgree((q, NOTHING), (q, NOTHING), v)
  {
    AddsUpToItself(Processed(q, v));
  }

  lemma EmptyHistoryAgrees(q: Queue, ops: seq<Op>, v: Validator)
    requires Consistent(q) && ops == []
    ensures HistoriesAgree(q, ops, v)
  {
    AgreesWithItself(q, v);
  }

  lemma RunLast(q: Queue, ops: seq<Op>, v: Validator)
    requires ops != []
    ensures Run(q, ops, v) == RunStep(Run(q, ops[..|ops| - 1], v), ops[|ops| - 1], v)
  {
  }

  lemma EnqueuesLast(q: Queue, ops: seq<Op>, v: Validator)
    requires ops != []
    ensures var b, last := Run(q, OnlyEnqueues(ops[..|ops| - 1]), v), ops[|ops| - 1];
      Run(q, OnlyEnqueues(ops), v) == if last.Process? then b else RunStep(b, last, v)
  {
    var before, last := OnlyEnqueues(ops[..|ops| - 1]), ops[|ops| - 1];
    if last.Process? {
      assert before + [] == before;
    } else {
      RunAppend(q, before, last, v);
    }
  }

  lemma LastStepAgrees(q: Queue, ops: seq<Op>, v: Validator)
    requires ops != [] && HistoriesAgree(q, ops[..|ops| - 1], v)
    ensures HistoriesAgree(q, ops, v)
  {
    var last := ops[|ops| - 1];
    var a, b := Run(q, ops[..|ops| - 1], v), Run(q, OnlyEnqueues(ops[..|ops| - 1]), v);
    RunLast(q, ops, v);
    EnqueuesLast(q, ops, v);
    if last.Process? { ProcessOnOne(a, b, v); } else { EnqueueOnBoth(a, b, last, v); }
  }

  lemma {:induction false} InterleavingsAgree(q: Queue, ops: seq<Op>, v: Validator)
    requires Consistent(q)
    ensures HistoriesAgree(q, ops, v)
    decreases |ops|
  {
    if ops == [] {
      EmptyHistoryAgrees(q, ops, v);
    } else {
      InterleavingsAgree(q, ops[..|ops| - 1], v);
      LastStepAgrees(q, ops, v);
    }
  }

  lemma AgreementMeansSameEnd(a: (Queue, Summary), b: (Queue, Summary), v: Validator)
    requires PairsAgree(a, b, v)
    ensures RunStep(a, Process, v) == RunStep(b, Process, v)
  {
    var pa, pb := Processed(a.0, v), Processed(b.0, v);
    assert AddsUp(pa, a.1, pb);
  }

  /** Batching independence, for every validator: intermediate `process_all` calls change neither the
      final entries nor the accepted paths, and the summaries add up to that of one final call. */
  lemma BatchingDoesNotMatter(ops: seq<Op>, v: Validator)
    ensures Run(Queue([], {}), ops + [Process], v) == Run(Queue([], {}), OnlyEnqueues(ops) + [Process], v)
  {
    var q := Queue([], {});
    InterleavingsAgree(q, ops, v);
    RunAppend(q, ops, Process, v);
    RunAppend(q, OnlyEnqueues(ops), Process, v);
    AgreementMeansSameEnd(Run(q, ops, v), Run(q, OnlyEnqueues(ops), v), v);
  }

  // ------------------------------------------------------ what a pass does and counts

  /** The state a validator's answer puts an entry in. */
  ghost predicate Follows(state: EntryState, answer: Outcome) {
    match answer
    case Passed => state == Mergeable
    case Failed(reason) =>
      state == if "path conflict:" <= reason then DequeuedConflict else DequeuedFailedValidation
  }

  /** Entry `e` after a pass, when the validator was shown the paths `ahead`. */
  ghost predicate SettledBy(e: QueueEntry, after: QueueEntry, ahead: set<string>, v: Validator) {
    if e.state != Queued then after == e else
      && after.id == e.id && after.pr == e.pr && after.proof == e.proof
      && after.speculativeSha == Some(SyntheticSha(e.pr))
      && Follows(after.state, v(SpeculativeValidation(e.id, e.pr, after.speculativeSha.value, ahead)))
  }

  /** Paths accepted before the entry at `i`: those there from the start and those of the entries that
      the pass has found mergeable. */
  function Ahead(start: set<string>, after: seq<QueueEntry>, i: nat): set<string>
    requires i <= |after|
  {
    start + MergeablePaths(after[..i])
  }

  /** What `Pass` leaves, position by position. */
  ghost predicate PassOutcome(before: seq<QueueEntry>, start: set<string>, q: Queue, v: Validator) {
    && |q.entries| == |before| && q.accepted == start + MergeablePaths(q.entries)
    && forall i :: 0 <= i < |before| ==> SettledBy(before[i], q.entries[i], Ahead(start, q.entries, i), v)
  }

  lemma PrefixAhead(start: set<string>, entries: seq<QueueEntry>, e: QueueEntry, i: nat)
    requires i <= |entries|
    ensures Ahead(start, entries + [e], i) == Ahead(start, entries, i)
  {
    assert (entries + [e])[..i] == entries[..i];
  }

  lemma SettledIsSettled(e: QueueEntry, accepted: set<string>, v: Validator)
    ensures SettledBy(e, Settled(e, accepted, v), accepted, v)
  {
  }

  lemma AcceptedGrows(e: QueueEntry, entries: seq<QueueEntry>, start: set<string>, v: Validator)
    requires e.state == Mergeable ==> Paths(e.pr) <= start
    ensures var accepted := start + MergeablePaths(entries);
      AcceptedAfter(e, accepted, v) == start + MergeablePaths(entries + [Settled(e, accepted, v)])
  {
    MergeableLast(entries, Settled(e, start + MergeablePaths(entries), v));
  }

  lemma OutcomeExtends(before: seq<QueueEntry>, rest: seq<QueueEntry>, e: QueueEntry, start: set<string>,
                       r: (Queue, Summary), n: Queue, v: Validator)
    requires before != [] && rest == before[..|before| - 1] && e == before[|before| - 1] && n == Extended(r, e, v).0
    requires PassOutcome(rest, start, r.0, v) && (e.state == Mergeable ==> Paths(e.pr) <= start)
    ensures PassOutcome(before, start, n, v)
  {
    var done, last := r.0.entries, Settled(e, r.0.accepted, v);
    AcceptedGrows(e, done, start, v);
    SettledIsSettled(e, r.0.accepted, v);
    forall i | 0 <= i < |before| ensures SettledBy(before[i], n.entries[i], Ahead(start, n.entries, i), v) {
      PrefixAhead(start, done, last, i);
      if i < |rest| {
        assert SettledBy(rest[i], done[i], Ahead(start, done, i), v);
      } else {
        assert done[..i] == done;
      }
    }
  }

  lemma MergeableWithin(before: seq<QueueEntry>, start: set<string>)
    requires before != [] && MergeablePaths(before) <= start
    ensures MergeablePaths(before[..|before| - 1]) <= start
    ensures before[|before| - 1].state == Mergeable ==> Paths(before[|before| - 1].pr) <= start
  {
  }

  lemma {:induction false} PassMeaning(before: seq<QueueEntry>, start: set<string>, v: Validator)
    requires MergeablePaths(before) <= start
    ensures PassOutcome(before, start, Pass(before, start, v).0, v)
    decreases |before|
  {
    if before == [] {
      EmptyOutcome(before, start, v);
    } else {
      MergeableWithin(before, start);
      PassMeaning(before[..|before| - 1], start, v);
      LastOutcome(before, start, v);
    }
  }

  lemma EmptyOutcome(before: seq<QueueEntry>, start: set<string>, v: Validator)
    requires before == []
    ensures PassOutcome(before, start, Pass(before, start, v).0, v)
  {
  }

  lemma LastOutcome(before: seq<QueueEntry>, start: set<string>, v: Validator)
    requires before != [] && PassOutcome(before[..|before| - 1], start, Pass(before[..|before| - 1], start, v).0, v)
    requires before[|before| - 1].state == Mergeable ==> Paths(before[|before| - 1].pr) <= start
    ensures PassOutcome(before, start, Pass(before, start, v).0, v)
  {
    var rest, last := before[..|before| - 1], before[|before| - 1];
    PassLast(before, start, v);
    OutcomeExtends(before, rest, last, start, Pass(rest, start, v), Pass(before, start, v).0, v);
  }

  /** What `process_all` does to each entry, for every validator: settled entries are left alone; a queued
      one is shown to the validator with its id, its pull request and the paths accepted so far, and its
      state follows the answer. */
  lemma ProcessMeaning(q: Queue, v: Validator)
    ensures PassOutcome(q.entries, q.accepted + MergeablePaths(q.entries), Processed(q, v).0, v)
  {
    PassMeaning(q.entries, q.accepted + MergeablePaths(q.entries), v);
  }

  /** How many entries were queued before and are in `state` after. */
  function Settlings(before: seq<QueueEntry>, after: seq<QueueEntry>, state: EntryState): nat
    requires |before| == |after|
  {
    if before == [] then 0 else
      var k := |before| - 1;
      Settlings(before[..k], after[..k], state) + if before[k].state == Queued && after[k].state == state then 1 else 0
  }

  function Waiting(entries: seq<QueueEntry>): nat {
    if entries == [] then 0 else
      Waiting(entries[..|entries| - 1]) + if entries[|entries| - 1].state == Queued then 1 else 0
  }

  /** The counters count what they are named after. */
  ghost predicate CountsWhatItSays(before: seq<QueueEntry>, after: seq<QueueEntry>, s: Summary)
    requires |before| == |after|
  {
    && s.processed == Waiting(before)
    && s.mergeable == Settlings(before, after, Mergeable)
    && s.conflicts == Settlings(before, after, DequeuedConflict)
    && s.failedValidation == Settlings(before, after, DequeuedFailedValidation)
  }

  lemma {:induction false} PassCounts(before: seq<QueueEntry>, start: set<string>, v: Validator)
    ensures |Pass(before, start, v).0.entries| == |before|
    ensures CountsWhatItSays(before, Pass(before, start, v).0.entries, Pass(before, start, v).1)
    decreases |before|
  {
    if before != [] {
      var k := |before| - 1;
      PassCounts(before[..k], start, v);
      var r := Pass(before[..k], start, v);
      PassLast(before, start, v);
      CountOne(before[..k], before[k], r, v);
      assert before == before[..k] + [before[k]];
    }
  }

  lemma CountOne(before: seq<QueueEntry>, e: QueueEntry, r: (Queue, Summary), v: Validator)
    requires |r.0.entries| == |before| && CountsWhatItSays(before, r.0.entries, r.1)
    ensures var n := Extended(r, e, v);
      |n.0.entries| == |before + [e]| && CountsWhatItSays(before + [e], n.0.entries, n.1)
  {
    var all, n := before + [e], Extended(r, e, v);
    assert all[..|before|] == before && n.0.entries[..|before|] == r.0.entries;
  }

  /** The summary of `process_all`, for every queue and validator: `processed` is the number of entries that
      were waiting, and each of the other counters the number of those that ended in the state it names. */
  lemma SummaryCounts(q: Queue, v: Validator)
    ensures |Processed(q, v).0.entries| == |q.entries|
    ensures CountsWhatItSays(q.entries, Processed(q, v).0.entries, Processed(q, v).1)
  {
    PassCounts(q.entries, q.accepted + MergeablePaths(q.entries), v);
  }

  /** The speculative commit names the branch, the base and the head; slashes of the branch are flattened. */
  lemma SyntheticShaShows(pr: PullRequest)
    ensures "synthetic-" <= SyntheticSha(pr)
    ensures '/' !in pr.targetBranch ==>
      SyntheticSha(pr) == "synthetic-" + pr.targetBranch + "-" + pr.baseSha + "-" + pr.headSha
    ensures '/' !in pr.baseSha && '/' !in pr.headSha ==> '/' !in SyntheticSha(pr)
  {
    Flattened(pr.targetBranch);
    var sha := SyntheticSha(pr);
    assert sha[..10] == "synthetic-";
  }

  lemma {:induction false} Flattened(s: string)
    ensures '/' !in ReplaceChar(s, '/', "_") && |ReplaceChar(s, '/', "_")| == |s|
    ensures '/' !in s ==> ReplaceChar(s, '/', "_") == s
  {
    if s != [] {
      Flattened(s[1..]);
      assert s == [s[0]] + s[1..];
    }
  }

  // ---------------------------------------------- safety with the deterministic validator

  /** The state the greedy rule gives an entry: mergeable exactly when its paths are disjoint from
      those of every earlier mergeable entry. */
  predicate GreedyAt(entries: seq<QueueEntry>, i: nat)
    requires i < |entries|
  {
    entries[i].state ==
      if Paths(entries[i].pr) * MergeablePaths(entries[..i]) == {} then Mergeable else DequeuedConflict
  }

  /** The first `n` entries are decided by the greedy rule, the others wait. */
  ghost predicate Greedy(q: Queue, n: nat) {
    && n <= |q.entries|
    && (forall i :: 0 <= i < n ==> GreedyAt(q.entries, i))
    && (forall i :: n <= i < |q.entries| ==> q.entries[i].state == Queued)
    && q.accepted == MergeablePaths(q.entries)
    && (forall i :: 0 <= i < |q.entries| ==> Covers(q.entries[i].proof, q.entries[i].pr))
  }

  lemma {:induction false} QueuedAddNothing(entries: seq<QueueEntry>, n: nat)
    requires n <= |entries| && forall i :: n <= i < |entries| ==> entries[i].state == Queued
    ensures MergeablePaths(entries) == MergeablePaths(entries[..n])
    decreases |entries|
  {
    if n < |entries| {
      QueuedAddNothing(entries[..|entries| - 1], n);
      assert entries[..|entries| - 1][..n] == entries[..n];
    } else {
      assert entries[..n] == entries;
    }
  }

  lemma DeterministicOutcome(e: QueueEntry, accepted: set<string>)
    ensures StateAfter(Deterministic(RequestFor(e, accepted))) ==
            if Paths(e.pr) * accepted == {} then Mergeable else DequeuedConflict
    ensures Deterministic(RequestFor(e, accepted)).Passed? <==> Paths(e.pr) * accepted == {}
  {
    var hit := Paths(e.pr) * accepted;
    if hit != {} {
      var reason := "path conflict: " + Least(hit);
      assert reason[..14] == "path conflict:";
    }
  }

  /** A conflict names the first path, in string order, that both sides change. */
  lemma ConflictNamesFirstPath(e: QueueEntry, accepted: set<string>, path: string)
    requires path in Paths(e.pr) * accepted && forall q :: q in Paths(e.pr) * accepted ==> StrLe(path, q)
    ensures Deterministic(RequestFor(e, accepted)) == Failed("path conflict: " + path)
  {
    StrLeAntisymmetric(path, Least(Paths(e.pr) * accepted));
  }

  /** Appending an entry keeps the greedy verdicts on the earlier ones. */
  lemma GreedyAppend(q: Queue, e: QueueEntry, accepted: set<string>)
    requires Greedy(q, |q.entries|) && Covers(e.proof, e.pr)
    requires e.state == if Paths(e.pr) * q.accepted == {} then Mergeable else DequeuedConflict
    requires accepted == q.accepted + if e.state == Mergeable then Paths(e.pr) else {}
    ensures Greedy(Queue(q.entries + [e], accepted), |q.entries| + 1)
  {
    var all := q.entries + [e];
    assert all[..|q.entries|] == q.entries;
    forall i | 0 <= i < |all| ensures GreedyAt(all, i) {
      if i < |q.entries| { assert all[..i] == q.entries[..i] && GreedyAt(q.entries, i); }
    }
  }

  lemma GreedyPrefix(q: Queue, n: nat)
    requires Greedy(q, n)
    ensures Greedy(Queue(q.entries[..n], q.accepted), n) && NoneQueued(q.entries[..n])
  {
    QueuedAddNothing(q.entries, n);
    forall i | 0 <= i < n ensures GreedyAt(q.entries[..n], i) && q.entries[..n][i].state != Queued {
      assert GreedyAt(q.entries, i);
      assert q.entries[..n][..i] == q.entries[..i];
    }
  }

  /** Settling one more entry keeps to the greedy rule. */
  lemma SettleIsGreedy(r: (Queue, Summary), e: QueueEntry, n: Queue, k: nat)
    requires Greedy(r.0, |r.0.entries|) && e.state == Queued && Covers(e.proof, e.pr)
    requires n == Extended(r, e, Deterministic).0 && k == |r.0.entries| + 1
    ensures Greedy(n, k) && |n.entries| == k
  {
    DeterministicOutcome(e, r.0.accepted);
    GreedyAppend(r.0, Settled(e, r.0.accepted, Deterministic), AcceptedAfter(e, r.0.accepted, Deterministic));
  }

  lemma LastIsGreedy(q: Queue, n: nat, k: nat)
    requires Greedy(q, n) && n < k <= |q.entries|
    requires var r := Pass(q.entries[..k - 1], q.accepted, Deterministic).0; Greedy(r, k - 1) && |r.entries| == k - 1
    ensures var r := Pass(q.entries[..k], q.accepted, Deterministic).0; Greedy(r, k) && |r.entries| == k
  {
    assert q.entries[..k][..k - 1] == q.entries[..k - 1];
    PassLast(q.entries[..k], q.accepted, Deterministic);
    SettleIsGreedy(Pass(q.entries[..k - 1], q.accepted, Deterministic), q.entries[k - 1],
                   Pass(q.entries[..k], q.accepted, Deterministic).0, k);
  }

  lemma {:induction false} PassIsGreedy(q: Queue, n: nat, k: nat)
    requires Greedy(q, n) && n <= k <= |q.entries|
    ensures var r := Pass(q.entries[..k], q.accepted, Deterministic).0; Greedy(r, k) && |r.entries| == k
    decreases k
  {
    if k == n {
      GreedyPrefix(q, n);
      PassSkipsSettled(q.entries[..n], q.accepted, Deterministic);
    } else {
      PassIsGreedy(q, n, k - 1);
      LastIsGreedy(q, n, k);
    }
  }

  lemma ProcessIsGreedy(q: Queue, n: nat)
    requires Greedy(q, n)
    ensures Greedy(Processed(q, Deterministic).0, |q.entries|)
    ensures |Processed(q, Deterministic).0.entries| == |q.entries|
  {
    assert q.accepted + MergeablePaths(q.entries) == q.accepted;
    assert q.entries[..|q.entries|] == q.entries;
    PassIsGreedy(q, n, |q.entries|);
  }

  lemma EnqueueIsGreedy(q: Queue, n: nat, pr: PullRequest, w: Option<ProofWitness>, id: string)
    requires Greedy(q, n)
    ensures Greedy(Enqueued(q, pr, w, id), n)
  {
    if Admission(pr, w).None? {
      var all := q.entries + [QueueEntry(id, pr, w.value, None, Queued)];
      assert all[..|q.entries|] == q.entries;
      forall i | 0 <= i < n ensures GreedyAt(all, i) {
        assert GreedyAt(q.entries, i);
        assert all[..i] == q.entries[..i];
      }
    }
  }

  /** Under any interleaving of `enqueue` and `process_all` the queue follows the greedy rule: decided
      entries come first, and right after a `process_all` every entry is decided. */
  lemma {:induction false} QueueStaysGreedy(ops: seq<Op>) returns (n: nat)
    ensures Greedy(Run(Queue([], {}), ops, Deterministic).0, n)
    ensures ops != [] && ops[|ops| - 1].Process? ==> n == |Run(Queue([], {}), ops, Deterministic).0.entries|
    decreases |ops|
  {
    n := 0;
    if ops != [] {
      n := QueueStaysGreedy(ops[..|ops| - 1]);
      var q := Run(Queue([], {}), ops[..|ops| - 1], Deterministic).0;
      match ops[|ops| - 1]
      case Enqueue(pr, w, id) => EnqueueIsGreedy(q, n, pr, w, id);
      case Process =>
        ProcessIsGreedy(q, n);
        n := |q.entries|;
    }
  }

  lemma {:induction false} MergeablePathsMember(entries: seq<QueueEntry>, p: string)
    ensures p in MergeablePaths(entries) <==>
            exists j :: 0 <= j < |entries| && entries[j].state == Mergeable && p in Paths(entries[j].pr)
    decreases |entries|
  {
    if entries != [] {
      var k := |entries| - 1;
      MergeablePathsMember(entries[..k], p);
      if p in MergeablePaths(entries[..k]) {
        var j :| 0 <= j < k && entries[..k][j].state == Mergeable && p in Paths(entries[..k][j].pr);
        assert entries[j] == entries[..k][j];
      }
      if exists j :: 0 <= j < |entries| && entries[j].state == Mergeable && p in Paths(entries[j].pr) {
        var j :| 0 <= j < |entries| && entries[j].state == Mergeable && p in Paths(entries[j].pr);
        if j < k { assert entries[..k][j] == entries[j]; }
      }
    }
  }

  /** Mergeable entries never share a path. */
  lemma MergeablesAreDisjoint(q: Queue, n: nat, i: nat, j: nat)
    requires Greedy(q, n) && i < j < |q.entries|
    requires q.entries[i].state == Mergeable && q.entries[j].state == Mergeable
    ensures Paths(q.entries[i].pr) * Paths(q.entries[j].pr) == {}
  {
    assert j < n && GreedyAt(q.entries, j);
    forall p | p in Paths(q.entries[i].pr) ensures p !in Paths(q.entries[j].pr) {
      assert q.entries[..j][i] == q.entries[i];
      MergeablePathsMember(q.entries[..j], p);
      assert p !in Paths(q.entries[j].pr) * MergeablePaths(q.entries[..j]);
    }
  }

  /** An entry dequeued for a conflict overlaps an earlier mergeable entry. */
  lemma ConflictHasACause(q: Queue, n: nat, i: nat)
    requires Greedy(q, n) && i < |q.entries| && q.entries[i].state == DequeuedConflict
    ensures exists j ::
      0 <= j < i && q.entries[j].state == Mergeable && Paths(q.entries[j].pr) * Paths(q.entries[i].pr) != {}
  {
    assert i < n && GreedyAt(q.entries, i);
    var p :| p in Paths(q.entries[i].pr) * MergeablePaths(q.entries[..i]);
    MergeablePathsMember(q.entries[..i], p);
    var j :| 0 <= j < i && q.entries[..i][j].state == Mergeable && p in Paths(q.entries[..i][j].pr);
    assert q.entries[j] == q.entries[..i][j];
    assert p in Paths(q.entries[j].pr) * Paths(q.entries[i].pr);
  }
}
