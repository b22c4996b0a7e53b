/** The PTY output filter that answers the theme prompt (`jeryu-agentbridge/src/pty_driver.rs`).
    UTF-8 lossy decoding is a parameter: the results hold for any decoding of bytes to text. */
module PromptFilter {
  import opened Text

  type Bytes = seq<bv8>
  type Decoder = Bytes -> string

  const BUFFER_LIMIT: nat := 16 * 1024

  /** The keystrokes that choose the theme: `2` and a carriage return. */
  const SELECTION: Bytes := [0x32, 0x0D]

  const HEADLINE: string := "Choose the text style"
  const FULL_HEADLINE: string := HEADLINE + " that looks best with your terminal"

  predicate IsPrompt(text: string) {
    && Contains(text, FULL_HEADLINE)
    && (Contains(text, "Syntax theme:") || Contains(text, "Dark mode") || Contains(text, "Monokai Extended"))
  }

  predicate MightBePrompt(text: string) {
    || Contains(text, "Let's get started") || Contains(text, HEADLINE)
    || Contains(text, "Syntax theme:") || Contains(text, "Monokai Extended")
  }

  lemma ContainsShorter(text: string, long: string, short: string)
    requires Contains(text, long) && short <= long
    ensures Contains(text, short)
  {
    var i :| 0 <= i <= |text| && long <= text[i..];
    assert short <= text[i..];
  }

  /** A full prompt is also a possible prompt. */
  lemma PromptMightBePrompt(text: string)
    requires IsPrompt(text)
    ensures MightBePrompt(text)
  {
    ContainsShorter(text, FULL_HEADLINE, HEADLINE);
  }

  // -------------------------------------------------------------- specification

  datatype FilterState = FilterState(pending: Bytes, selected: bool)

  /** What one call does: the new state, what is forwarded, and what is typed to the agent. */
  datatype Reply = Reply(state: FilterState, forward: Option<Bytes>, typed: Bytes)

  function Filtered(s: FilterState, chunk: Bytes, decode: Decoder): Reply {
    if s.selected then
      Reply(s, if MightBePrompt(decode(chunk)) then None else Some(chunk), [])
    else if s.pending == [] && !MightBePrompt(decode(chunk)) then Reply(s, Some(chunk), [])
    else
      var pending := s.pending + chunk;
      if IsPrompt(decode(pending)) then Reply(FilterState([], true), None, SELECTION)
      else if |pending| > BUFFER_LIMIT || !MightBePrompt(decode(pending)) then
        Reply(FilterState([], false), Some(pending), [])
      else Reply(FilterState(pending, false), None, [])
  }

  class ThemePromptAutoSelect {
    var pending: Bytes
    var selected: bool

    ghost function State(): FilterState
      reads this
    {
      FilterState(pending, selected)
    }

    constructor ()
      ensures State() == FilterState([], false)
    {
      pending, selected := [], false;
    }

    /** `filter`; `typed` are the bytes written to the agent's terminal. */
    method Filter(chunk: Bytes, decode: Decoder) returns (forward: Option<Bytes>, typed: Bytes)
      modifies this
      ensures Reply(State(), forward, typed) == Filtered(old(State()), chunk, decode)
    {
      typed := [];
      if selected {
        if MightBePrompt(decode(chunk)) { return None, typed; } else { return Some(chunk), typed; }
      }
      if pending == [] && !MightBePrompt(decode(chunk)) { return Some(chunk), typed; }
      pending := pending + chunk;
      if IsPrompt(decode(pending)) {
        selected := true;
        pending := [];
        typed := SELECTION;
        return None, typed;
      }
      if |pending| > BUFFER_LIMIT || !MightBePrompt(decode(pending)) {
        forward := Some(pending);
        pending := [];
        return forward, typed;
      }
      return None, typed;
    }

    method TakePending() returns (rest: Option<Bytes>)
      modifies this
      ensures State() == old(State()).(pending := [])
      ensures rest == if old(pending) == [] then None else Some(old(pending))
    {
      if pending == [] { return None; }
      rest := Some(pending);
      pending := [];
    }
  }

  // ---------------------------------------------------------------------- runs

  /** State, forwarded bytes and typed bytes after a sequence of chunks. */
  datatype Trace = Trace(state: FilterState, out: Bytes, typed: Bytes)

  function Given(o: Option<Bytes>): Bytes { if o.Some? then o.value else [] }

  function Run(chunks: seq<Bytes>, decode: Decoder): Trace {
    if chunks == [] then Trace(FilterState([], false), [], []) else
      var t := Run(chunks[..|chunks| - 1], decode);
      var r := Filtered(t.state, chunks[|chunks| - 1], decode);
      Trace(r.state, t.out + Given(r.forward), t.typed + r.typed)
  }

  /** Chunks a run forwards once the theme has been selected: those that cannot be a prompt, whole. */
  function Passing(chunks: seq<Bytes>, decode: Decoder): Bytes {
    if chunks == [] then [] else
      Passing(chunks[..|chunks| - 1], decode)
      + if MightBePrompt(decode(chunks[|chunks| - 1])) then [] else chunks[|chunks| - 1]
  }

  /** Until selection nothing is lost or reordered: forwarded bytes followed by pending ones are the
      input. What is held back could still become a prompt and is bounded. Nothing is typed. */
  ghost predicate Transparent(chunks: seq<Bytes>, t: Trace, decode: Decoder) {
    && !t.state.selected && t.typed == []
    && t.out + t.state.pending == Concat(chunks)
    && |t.state.pending| <= BUFFER_LIMIT
    && (t.state.pending != [] ==> MightBePrompt(decode(t.state.pending)) && !IsPrompt(decode(t.state.pending)))
  }

  /** The first `k` chunks end in a prompt `prompt`, which is all the run suppressed by then; the
      keystrokes were typed once, and later chunks pass whole or not at all. */
  ghost predicate Selected(chunks: seq<Bytes>, t: Trace, decode: Decoder, k: int, head: Bytes, prompt: Bytes) {
    && 0 <= k <= |chunks| && t.state == FilterState([], true) && t.typed == SELECTION
    && IsPrompt(decode(prompt)) && head + prompt == Concat(chunks[..k])
    && t.out == head + Passing(chunks[k..], decode)
  }

  lemma {:induction false} RunShape(chunks: seq<Bytes>, decode: Decoder)
    returns (selected: bool, k: nat, head: Bytes, prompt: Bytes)
    ensures selected == Run(chunks, decode).state.selected
    ensures !selected ==> Transparent(chunks, Run(chunks, decode), decode)
    ensures selected ==> Selected(chunks, Run(chunks, decode), decode, k, head, prompt)
    decreases |chunks|
  {
    selected, k, head, prompt := false, 0, [], [];
    if chunks != [] {
      var rest, chunk := chunks[..|chunks| - 1], chunks[|chunks| - 1];
      selected, k, head, prompt := RunShape(rest, decode);
      var t := Run(rest, decode);
      if selected {
        SelectedStep(rest, chunk, t, decode, k, head, prompt);
        assert chunks == rest + [chunk];
      } else {
        TransparentStep(rest, chunk, t, decode);
        assert chunks == rest + [chunk];
        if Run(chunks, decode).state.selected {
          selected, k, head, prompt := true, |chunks|, t.out, t.state.pending + chunk;
          assert chunks[..k] == chunks && chunks[k..] == [];
        }
      }
    }
  }

  function Next(t: Trace, chunk: Bytes, decode: Decoder): Trace {
    var r := Filtered(t.state, chunk, decode);
    Trace(r.state, t.out + Given(r.forward), t.typed + r.typed)
  }

  lemma TransparentStep(rest: seq<Bytes>, chunk: Bytes, t: Trace, decode: Decoder)
    requires Transparent(rest, t, decode)
    ensures var n := Next(t, chunk, decode);
      if n.state.selected
      then n.state == FilterState([], true) && n.typed == SELECTION && n.out == t.out
           && IsPrompt(decode(t.state.pending + chunk)) && t.out + (t.state.pending + chunk) == Concat(rest + [chunk])
      else Transparent(rest + [chunk], n, decode)
  {
    ConcatLast(rest, chunk);
    Assoc(t.out, t.state.pending, chunk);
    if t.state.pending == [] {
      assert t.out + t.state.pending == t.out && t.state.pending + chunk == chunk;
    }
    assert t.out + [] == t.out;
  }

  lemma ConcatLast(rest: seq<Bytes>, chunk: Bytes)
    ensures Concat(rest + [chunk]) == Concat(rest) + chunk
  {
    assert (rest + [chunk])[..|rest|] == rest;
  }

  lemma SelectedStep(rest: seq<Bytes>, chunk: Bytes, t: Trace, decode: Decoder, k: nat, head: Bytes, prompt: Bytes)
    requires Selected(rest, t, decode, k, head, prompt)
    ensures Selected(rest + [chunk], Next(t, chunk, decode), decode, k, head, prompt)
  {
    var all := rest + [chunk];
    assert all[..k] == rest[..k] && all[k..] == rest[k..] + [chunk];
    assert all[k..][..|rest[k..]|] == rest[k..];
    var passed := if MightBePrompt(decode(chunk)) then [] else chunk;
    assert Passing(all[k..], decode) == Passing(rest[k..], decode) + passed;
    assert t.out + passed == head + (Passing(rest[k..], decode) + passed);
  }

  /** What the run writes in total once the pending bytes are flushed at the end. */
  function Output(t: Trace): Bytes { t.out + t.state.pending }

  /** Over any chunk sequence: either the output is the input unchanged and nothing was typed, or one
      contiguous stretch ending at a chunk boundary decoded to the prompt and was suppressed, the
      selection was typed exactly once, and afterwards chunks passed whole or were dropped whole. */
  lemma FilterIsFaithful(chunks: seq<Bytes>, decode: Decoder)
    ensures var t := Run(chunks, decode);
      || (t.typed == [] && Output(t) == Concat(chunks))
      || (t.typed == SELECTION && exists k, head, prompt ::
            Selected(chunks, t, decode, k, head, prompt) && Output(t) == head + Passing(chunks[k..], decode))
  {
    var selected, k, head, prompt := RunShape(chunks, decode);
    var t := Run(chunks, decode);
    if selected {
      assert Selected(chunks, t, decode, k, head, prompt);
      assert Output(t) == t.out;
    }
  }

  /** The buffer stays within its limit after every call, and the keystrokes are typed at most once. */
  lemma BufferAndKeystrokesBounded(chunks: seq<Bytes>, decode: Decoder)
    ensures |Run(chunks, decode).state.pending| <= BUFFER_LIMIT
    ensures |Run(chunks, decode).typed| <= |SELECTION|
    ensures Run(chunks, decode).typed == SELECTION <==> Run(chunks, decode).state.selected
  {
    var selected, k, head, prompt := RunShape(chunks, decode);
  }

  /** Output that never looks like the prompt passes through chunk by chunk, unbuffered. */
  lemma {:induction false} OrdinaryOutputIsUntouched(chunks: seq<Bytes>, decode: Decoder)
    requires forall i :: 0 <= i < |chunks| ==> !MightBePrompt(decode(chunks[i]))
    ensures Run(chunks, decode) == Trace(FilterState([], false), Concat(chunks), [])
    decreases |chunks|
  {
    if chunks != [] {
      OrdinaryOutputIsUntouched(chunks[..|chunks| - 1], decode);
    }
  }

  /** A prompt drawn again after the selection is dropped, not answered a second time. */
  lemma RepeatedPromptIsDropped(chunk: Bytes, decode: Decoder)
    requires IsPrompt(decode(chunk))
    ensures Filtered(FilterState([], true), chunk, decode) == Reply(FilterState([], true), None, [])
  {
    PromptMightBePrompt(decode(chunk));
  }

  // --------------------------------------------------------- when the theme is selected

  /** The bytes held back after some chunks, as long as no prompt has been recognised: from the first
      chunk that might start a prompt, up to where the joined text can no longer become one. */
  function HeldBack(chunks: seq<Bytes>, decode: Decoder): Bytes {
    if chunks == [] then [] else
      var held := HeldBack(chunks[..|chunks| - 1], decode) + chunks[|chunks| - 1];
      if MightBePrompt(decode(held)) && |held| <= BUFFER_LIMIT then held else []
  }

  lemma RunLast(chunks: seq<Bytes>, decode: Decoder)
    requires chunks != []
    ensures Run(chunks, decode) == Next(Run(chunks[..|chunks| - 1], decode), chunks[|chunks| - 1], decode)
  {
  }

  lemma StepHolds(t: Trace, chunk: Bytes, decode: Decoder)
    requires !t.state.selected
    ensures var n, held := Next(t, chunk, decode), t.state.pending + chunk;
      && (n.state.selected <==> IsPrompt(decode(held)))
      && (!n.state.selected ==>
            n.state.pending == if MightBePrompt(decode(held)) && |held| <= BUFFER_LIMIT then held else [])
  {
    var held := t.state.pending + chunk;
    if t.state.pending == [] {
      assert held == chunk;
      if IsPrompt(decode(chunk)) { PromptMightBePrompt(decode(chunk)); }
    }
  }

  /** As long as nothing is selected, the pending bytes are the ones held back. */
  lemma {:induction false} PendingIsHeldBack(chunks: seq<Bytes>, decode: Decoder)
    requires !Run(chunks, decode).state.selected
    ensures Run(chunks, decode).state.pending == HeldBack(chunks, decode)
    decreases |chunks|
  {
    if chunks != [] {
      var rest, chunk := chunks[..|chunks| - 1], chunks[|chunks| - 1];
      RunLast(chunks, decode);
      PendingIsHeldBack(rest, decode);
      StepHolds(Run(rest, decode), chunk, decode);
    }
  }

  /** Chunk `k` completes a prompt: it does, together with the bytes held back before it. */
  ghost predicate Completes(chunks: seq<Bytes>, k: int, decode: Decoder) {
    0 <= k < |chunks| && IsPrompt(decode(HeldBack(chunks[..k], decode) + chunks[k]))
  }

  /** The theme is selected after a run if and only if some chunk of it completes a prompt. */
  lemma {:induction false} SelectedExactly(chunks: seq<Bytes>, decode: Decoder)
    ensures Run(chunks, decode).state.selected <==> exists k :: Completes(chunks, k, decode)
    decreases |chunks|
  {
    if chunks != [] {
      var last := |chunks| - 1;
      var rest := chunks[..last];
      RunLast(chunks, decode);
      SelectedExactly(rest, decode);
      CompletesEarlier(chunks, rest, decode);
      if !Run(rest, decode).state.selected {
        PendingIsHeldBack(rest, decode);
        StepHolds(Run(rest, decode), chunks[last], decode);
      }
    }
  }

  lemma CompletesEarlier(chunks: seq<Bytes>, rest: seq<Bytes>, decode: Decoder)
    requires chunks != [] && rest == chunks[..|chunks| - 1]
    ensures (exists k :: Completes(chunks, k, decode)) <==>
            (exists k :: Completes(rest, k, decode)) || Completes(chunks, |chunks| - 1, decode)
  {
    var last := |chunks| - 1;
    forall k | 0 <= k < last ensures Completes(rest, k, decode) <==> Completes(chunks, k, decode) {
      assert rest[..k] == chunks[..k];
    }
    if k :| Completes(rest, k, decode) { assert Completes(chunks, k, decode); }
    if k :| Completes(chunks, k, decode) { assert k == last || Completes(rest, k, decode); }
  }

  /** Nothing in the chunks might be a prompt on its own. */
  ghost predicate Ordinary(chunks: seq<Bytes>, decode: Decoder) {
    forall i :: 0 <= i < |chunks| ==> !MightBePrompt(decode(chunks[i]))
  }

  /** The joined chunks might become a prompt after each of them, fit the buffer and are none yet. */
  ghost predicate Growing(parts: seq<Bytes>, decode: Decoder) {
    forall m :: 1 <= m <= |parts| ==>
      && MightBePrompt(decode(Concat(parts[..m]))) && !IsPrompt(decode(Concat(parts[..m])))
      && |Concat(parts[..m])| <= BUFFER_LIMIT
  }

  lemma GrowingPrefix(parts: seq<Bytes>, k: nat, decode: Decoder)
    requires Growing(parts, decode) && k <= |parts|
    ensures Growing(parts[..k], decode)
  {
    forall m | 1 <= m <= k ensures parts[..k][..m] == parts[..m] {}
  }

  /** The trace after `before` went through and `parts` are held back. */
  ghost predicate Holds(t: Trace, before: seq<Bytes>, parts: seq<Bytes>) {
    t == Trace(FilterState(Concat(parts), false), Concat(before), [])
  }

  lemma NothingHeld(before: seq<Bytes>, parts: seq<Bytes>, decode: Decoder)
    requires Ordinary(before, decode) && parts == []
    ensures Holds(Run(before + parts, decode), before, parts)
  {
    assert before + parts == before;
    OrdinaryOutputIsUntouched(before, decode);
  }

  lemma RunHolds(rest: seq<Bytes>, chunk: Bytes, all: seq<Bytes>, before: seq<Bytes>, parts: seq<Bytes>,
                 decode: Decoder)
    requires all == rest + [chunk] && Holds(Next(Run(rest, decode), chunk, decode), before, parts)
    ensures Holds(Run(all, decode), before, parts)
  {
    RunNext(rest, chunk, all, decode);
  }

  lemma SplitLast(before: seq<Bytes>, parts: seq<Bytes>)
    requires parts != []
    ensures before + parts == before + parts[..|parts| - 1] + [parts[|parts| - 1]]
  {
  }

  lemma OneMoreHeld(before: seq<Bytes>, parts: seq<Bytes>, decode: Decoder)
    requires parts != [] && Growing(parts, decode)
    requires Holds(Run(before + parts[..|parts| - 1], decode), before, parts[..|parts| - 1])
    ensures Holds(Run(before + parts, decode), before, parts)
  {
    var rest, chunk := before + parts[..|parts| - 1], parts[|parts| - 1];
    GrowStep(Run(rest, decode), before, parts, decode);
    SplitLast(before, parts);
    RunHolds(rest, chunk, before + parts, before, parts, decode);
  }

  lemma {:induction false} GrowingIsHeld(before: seq<Bytes>, parts: seq<Bytes>, decode: Decoder)
    requires Ordinary(before, decode) && Growing(parts, decode)
    ensures Holds(Run(before + parts, decode), before, parts)
    decreases |parts|
  {
    if parts == [] {
      NothingHeld(before, parts, decode);
    } else {
      GrowingPrefix(parts, |parts| - 1, decode);
      GrowingIsHeld(before, parts[..|parts| - 1], decode);
      OneMoreHeld(before, parts, decode);
    }
  }

  lemma RunNext(rest: seq<Bytes>, chunk: Bytes, all: seq<Bytes>, decode: Decoder)
    requires all == rest + [chunk]
    ensures Run(all, decode) == Next(Run(rest, decode), chunk, decode)
  {
    assert all[..|all| - 1] == rest;
    RunLast(all, decode);
  }

  lemma GrowStep(t: Trace, before: seq<Bytes>, parts: seq<Bytes>, decode: Decoder)
    requires parts != [] && Growing(parts, decode) && Holds(t, before, parts[..|parts| - 1])
    ensures Holds(Next(t, parts[|parts| - 1], decode), before, parts)
  {
    var k := |parts| - 1;
    assert parts[..|parts|] == parts;
    KeepStep(t, parts[k], Concat(parts), decode);
  }

  lemma KeepStep(t: Trace, chunk: Bytes, held: Bytes, decode: Decoder)
    requires !t.state.selected && held == t.state.pending + chunk
    requires MightBePrompt(decode(held)) && !IsPrompt(decode(held)) && |held| <= BUFFER_LIMIT
    ensures Next(t, chunk, decode) == Trace(FilterState(held, false), t.out, t.typed)
  {
    if t.state.pending == [] { assert held == chunk; }
    assert t.out + [] == t.out && t.typed + [] == t.typed;
  }

  /** The prompt is answered: after ordinary output, a prompt that arrives in one or several chunks is
      suppressed and the selection is typed, with the ordinary output forwarded and nothing else. */
  lemma PromptIsAnswered(before: seq<Bytes>, parts: seq<Bytes>, last: Bytes, decode: Decoder)
    requires Ordinary(before, decode) && Growing(parts, decode) && IsPrompt(decode(Concat(parts + [last])))
    ensures Run(before + parts + [last], decode) == Trace(FilterState([], true), Concat(before), SELECTION)
  {
    var all := before + parts + [last];
    GrowingIsHeld(before, parts, decode);
    assert all[..|all| - 1] == before + parts;
    RunLast(all, decode);
    assert (parts + [last])[..|parts|] == parts;
    assert Concat(parts + [last]) == Concat(parts) + last;
    if Concat(parts) == [] {
      assert Concat(parts) + last == last;
      PromptMightBePrompt(decode(last));
    }
    assert Concat(before) + [] == Concat(before) && [] + SELECTION == SELECTION;
  }
}
