/** Steps and names of expanded jobs: substitution of axis values in step texts
    (`jeryu-ci-compiler/src/steps.rs`, `matrix.rs`). */
module Steps {
  import opened Order
  import opened Text
  import opened PipelineIr
  import opened Matrix

  /** How a step refers to the value of an axis. */
  function Needle(axis: string): string { "${{ matrix." + axis + " }}" }

  /** The axis values substituted one axis after the other, in name order. */
  function Substitute(text: string, combo: Combo, keys: seq<string>): string {
    if keys == [] then text else
      var k := keys[|keys| - 1];
      ReplaceText(Substitute(text, combo, keys[..|keys| - 1]), Needle(k), if k in combo then combo[k] else "")
  }

  function SubstituteIn(text: Option<string>, combo: Combo): Option<string> {
    if text.None? then None else Some(Substitute(text.value, combo, Iter(combo.Keys)))
  }

  function InstantiateStep(s: Step, index: nat, combo: Combo, id: string): Step {
    s.(id := id + "_step_" + Padded(Dec(index), 2), command := SubstituteIn(s.command, combo),
       uses := SubstituteIn(s.uses, combo), name := Substitute(s.name, combo, Iter(combo.Keys)))
  }

  /** `steps_with_matrix`. */
  function InstantiateSteps(steps: seq<Step>, combo: Combo, id: string): (r: seq<Step>)
    ensures |r| == |steps|
    ensures forall i {:trigger r[i]} :: 0 <= i < |r| ==> r[i] == InstantiateStep(steps[i], i, combo, id)
  {
    if steps == [] then [] else
      var k := |steps| - 1;
      InstantiateSteps(steps[..k], combo, id) + [InstantiateStep(steps[k], k, combo, id)]
  }

  /** A text that refers to no axis is the same in every expansion. */
  lemma {:induction false} PlainTextIsKept(text: string, combo: Combo, keys: seq<string>)
    requires forall k :: k in keys ==> !Contains(text, Needle(k))
    ensures Substitute(text, combo, keys) == text
    decreases |keys|
  {
    if keys != [] {
      var rest, k := keys[..|keys| - 1], keys[|keys| - 1];
      assert forall x :: x in rest ==> x in keys;
      PlainTextIsKept(text, combo, rest);
      assert k in keys;
      ReplaceNothing(text, Needle(k), if k in combo then combo[k] else "");
    }
  }

  function NameParts(combo: Combo, keys: seq<string>): seq<string>
    requires forall i :: 0 <= i < |keys| ==> keys[i] in combo
  {
    if keys == [] then [] else [keys[0] + "=" + combo[keys[0]]] + NameParts(combo, keys[1..])
  }

  /** `expanded_name`. */
  function ExpandedName(origin: string, combo: Combo): string {
    if combo == map[] then origin else origin + " (" + Join(NameParts(combo, Iter(combo.Keys)), ", ") + ")"
  }

  // -------------------------------------------------------------- templates

  /** What a step text is made of: literal text and references to axes. */
  datatype Piece = Literal(text: string) | Reference(axis: string)

  /** The text as it is written in the workflow. */
  function Written(ps: seq<Piece>): string {
    if ps == [] then "" else (if ps[0].Literal? then ps[0].text else Needle(ps[0].axis)) + Written(ps[1..])
  }

  /** The text with the references to the axes of a combination replaced by their values; a reference to
      any other name stays. */
  function Instantiated(ps: seq<Piece>, combo: Combo): string {
    if ps == [] then "" else
      (if ps[0].Literal? then ps[0].text
       else if ps[0].axis in combo then combo[ps[0].axis]
       else Needle(ps[0].axis)) + Instantiated(ps[1..], combo)
  }

  /** How every reference starts. */
  const MARK: string := "${{ matrix."

  /** When `t` follows `s`, it does not continue a reference that `s` has begun. */
  ghost predicate Apart(s: string, t: string) {
    forall n :: 1 <= n < |MARK| && n <= |s| && t != "" && s[|s| - n..] == MARK[..n] ==> t[0] != MARK[n]
  }

  /** Names that cannot be taken for the end or the start of a reference. */
  ghost predicate PlainAxis(k: string) { '$' !in k && '}' !in k }

  /** The texts that can meet in a step: its literals and the values of the combination. */
  ghost predicate IsText(ps: seq<Piece>, combo: Combo, t: string) {
    (exists p :: p in ps && p.Literal? && p.text == t) || (exists k :: k in combo && combo[k] == t)
  }

  /** Literals and values hold no start of a reference and form none where they meet; names are plain.
      Other expressions, such as those of secrets, may occur. */
  ghost predicate Unambiguous(ps: seq<Piece>, combo: Combo) {
    && (forall t :: IsText(ps, combo, t) ==> !Contains(t, MARK))
    && (forall s, t :: IsText(ps, combo, s) && IsText(ps, combo, t) ==> Apart(s, t))
    && (forall p :: p in ps && p.Reference? ==> PlainAxis(p.axis))
    && (forall k :: k in combo ==> PlainAxis(k))
  }

  lemma FewerPieces(ps: seq<Piece>, combo: Combo)
    requires Unambiguous(ps, combo) && ps != []
    ensures Unambiguous(ps[1..], combo)
  {
    forall t | IsText(ps[1..], combo, t) ensures IsText(ps, combo, t) {}
  }

  /** No occurrence of `needle` starts inside the front part. */
  ghost predicate NoStart(front: string, rest: string, needle: string) {
    forall i :: 0 <= i < |front| ==> !(needle <= (front + rest)[i..])
  }

  lemma {:induction false} ReplaceSkips(front: string, rest: string, needle: string, to: string)
    requires needle != [] && NoStart(front, rest, needle)
    ensures ReplaceText(front + rest, needle, to) == front + ReplaceText(rest, needle, to)
    decreases |front|
  {
    if front == [] {
      assert front + rest == rest;
    } else {
      var all := front + rest;
      assert all[0..] == all && all[1..] == front[1..] + rest;
      forall i | 0 <= i < |front[1..]| ensures !(needle <= (front[1..] + rest)[i..]) {
        assert (front[1..] + rest)[i..] == all[i + 1..];
      }
      ReplaceSkips(front[1..], rest, needle, to);
      assert [front[0]] + (front[1..] + ReplaceText(rest, needle, to)) == front + ReplaceText(rest, needle, to);
    }
  }

  lemma ReplaceFirst(rest: string, needle: string, to: string)
    requires needle != []
    ensures ReplaceText(needle + rest, needle, to) == to + ReplaceText(rest, needle, to)
  {
    assert (needle + rest)[|needle|..] == rest;
    assert needle <= needle + rest;
  }

  lemma MarkStarts(k: string)
    ensures MARK <= Needle(k)
  {
    assert Needle(k)[..|MARK|] == MARK;
  }

  /** A start of a reference that begins in the front part lies in it or runs into the rest. */
  lemma MarkInFront(front: string, rest: string, i: nat)
    requires i < |front| && MARK <= (front + rest)[i..]
    ensures Contains(front, MARK) || !Apart(front, rest)
  {
    var all, n := front + rest, |front| - i;
    assert front[i..] == all[i..][..n];
    if n >= |MARK| {
      assert MARK <= front[i..];
    } else {
      assert front[|front| - n..] == MARK[..n];
      assert rest[0] == all[i..][n] == MARK[n];
    }
  }

  lemma TextHasNoStart(front: string, rest: string, k: string)
    requires !Contains(front, MARK) && Apart(front, rest)
    ensures NoStart(front, rest, Needle(k))
  {
    MarkStarts(k);
    forall i | 0 <= i < |front| ensures !(Needle(k) <= (front + rest)[i..]) {
      if MARK <= (front + rest)[i..] { MarkInFront(front, rest, i); }
    }
  }

  lemma NamesDiffer(k: string, j: string, rest: string)
    requires '}' !in k && '}' !in j && k + " }}" <= j + " }}" + rest
    ensures k == j
  {
    var b := j + " }}" + rest;
    var more := b[|k| + 3..];
    assert b == k + " }}" + more;
    assert b == (k + " ") + (['}'] + ("}" + more)) && b == (j + " ") + (['}'] + ("}" + rest));
    SplitAt('}', k + " ", "}" + more, j + " ", "}" + rest);
    assert (k + " ")[..|k|] == k && (j + " ")[..|j|] == j;
  }

  /** A reference to one axis is not taken for another, wherever one looks. */
  lemma OtherReferenceStarts(k: string, j: string, rest: string)
    requires PlainAxis(k) && PlainAxis(j) && Needle(k) <= Needle(j) + rest
    ensures k == j
  {
    var all := Needle(j) + rest;
    assert Needle(k)[|MARK|..] == k + " }}" && all[|MARK|..] == j + " }}" + rest;
    if k != j { NamesDiffer(k, j, rest); }
  }

  lemma OtherReference(k: string, j: string, rest: string)
    requires PlainAxis(k) && PlainAxis(j) && k != j
    ensures NoStart(Needle(j), rest, Needle(k))
  {
    var all := Needle(j) + rest;
    forall i | 0 <= i < |Needle(j)| ensures !(Needle(k) <= all[i..]) {
      assert Needle(k)[0] == '$';
      if i == 0 {
        assert all[0..] == all;
        if Needle(k) <= all { OtherReferenceStarts(k, j, rest); }
      } else {
        DollarOnlyFirst(j, i);
        assert all[i..][0] == Needle(j)[i];
      }
    }
  }

  lemma DollarOnlyFirst(j: string, i: nat)
    requires '$' !in j && 0 < i < |Needle(j)|
    ensures Needle(j)[i] != '$'
  {
    var n := |MARK|;
    if i < n {
      assert Needle(j)[i] == MARK[i];
    } else if i < n + |j| {
      assert Needle(j)[i] == j[i - n];
    } else {
      assert Needle(j)[i] == " }}"[i - n - |j|];
    }
  }

  /** The text after the axes in `done` have been substituted. */
  function Partly(ps: seq<Piece>, combo: Combo, done: set<string>): string {
    if ps == [] then "" else Shown(ps[0], combo, done) + Partly(ps[1..], combo, done)
  }

  function Shown(p: Piece, combo: Combo, done: set<string>): string {
    if p.Literal? then p.text else if p.axis in done && p.axis in combo then combo[p.axis] else Needle(p.axis)
  }

  /** What a text begins with: nothing, a reference, or the first character of a literal or value. */
  lemma {:induction false} BeginsWith(ps: seq<Piece>, combo: Combo, done: set<string>)
    ensures var r := Partly(ps, combo, done);
      r == "" || r[0] == '$' || exists t :: IsText(ps, combo, t) && t != "" && t[0] == r[0]
    decreases |ps|
  {
    if ps != [] {
      var first := Shown(ps[0], combo, done);
      BeginsWith(ps[1..], combo, done);
      assert ps[0] in ps && forall p :: p in ps[1..] ==> p in ps;
      if first == "" {
        forall t | IsText(ps[1..], combo, t) ensures IsText(ps, combo, t) {}
        assert Partly(ps, combo, done) == Partly(ps[1..], combo, done);
      } else {
        assert Partly(ps, combo, done)[0] == first[0];
        assert first[0] == '$' || IsText(ps, combo, first);
      }
    }
  }

  /** So every literal and value is apart from all that follows it. */
  lemma ApartFromRest(ps: seq<Piece>, combo: Combo, done: set<string>, s: string)
    requires Unambiguous(ps, combo) && ps != [] && IsText(ps, combo, s)
    ensures Apart(s, Partly(ps[1..], combo, done))
  {
    var r := Partly(ps[1..], combo, done);
    BeginsWith(ps[1..], combo, done);
    if r != "" && r[0] != '$' {
      var t :| IsText(ps[1..], combo, t) && t != "" && t[0] == r[0];
      assert forall p :: p in ps[1..] ==> p in ps;
      assert IsText(ps, combo, t) && Apart(s, t);
    } else {
      assert forall n :: 1 <= n < |MARK| ==> MARK[n] != '$';
    }
  }

  lemma PieceStep(ps: seq<Piece>, combo: Combo, done: set<string>, k: string)
    requires Unambiguous(ps, combo) && ps != [] && k in combo
    ensures var rest := Partly(ps[1..], combo, done);
      ReplaceText(Shown(ps[0], combo, done) + rest, Needle(k), combo[k])
      == Shown(ps[0], combo, done + {k}) + ReplaceText(rest, Needle(k), combo[k])
  {
    var p, front, rest := ps[0], Shown(ps[0], combo, done), Partly(ps[1..], combo, done);
    assert p in ps;
    if p.Reference? && !(p.axis in done && p.axis in combo) {
      if p.axis == k {
        ReplaceFirst(rest, Needle(k), combo[k]);
      } else {
        OtherReference(k, p.axis, rest);
        ReplaceSkips(front, rest, Needle(k), combo[k]);
      }
    } else {
      assert IsText(ps, combo, front);
      ApartFromRest(ps, combo, done, front);
      TextHasNoStart(front, rest, k);
      ReplaceSkips(front, rest, Needle(k), combo[k]);
    }
  }

  lemma {:induction false} AxisStep(ps: seq<Piece>, combo: Combo, done: set<string>, k: string)
    requires Unambiguous(ps, combo) && k in combo
    ensures ReplaceText(Partly(ps, combo, done), Needle(k), combo[k]) == Partly(ps, combo, done + {k})
    decreases |ps|
  {
    if ps != [] {
      FewerPieces(ps, combo);
      AxisStep(ps[1..], combo, done, k);
      PieceStep(ps, combo, done, k);
    }
  }

  lemma {:induction false} NothingDone(ps: seq<Piece>, combo: Combo)
    ensures Partly(ps, combo, {}) == Written(ps)
    decreases |ps|
  {
    if ps != [] { NothingDone(ps[1..], combo); }
  }

  lemma {:induction false} AllDone(ps: seq<Piece>, combo: Combo, done: set<string>)
    requires combo.Keys <= done
    ensures Partly(ps, combo, done) == Instantiated(ps, combo)
    decreases |ps|
  {
    if ps != [] { AllDone(ps[1..], combo, done); }
  }

  lemma {:induction false} AxesStep(ps: seq<Piece>, combo: Combo, keys: seq<string>)
    requires Unambiguous(ps, combo) && forall k :: k in keys ==> k in combo
    ensures Substitute(Written(ps), combo, keys) == Partly(ps, combo, set k | k in keys)
    decreases |keys|
  {
    if keys == [] {
      assert (set k | k in keys) == {};
      NothingDone(ps, combo);
    } else {
      var rest, last := keys[..|keys| - 1], keys[|keys| - 1];
      assert keys == rest + [last] && last in keys;
      AxesStep(ps, combo, rest);
      AxisStep(ps, combo, (set k | k in rest), last);
      assert (set k | k in keys) == (set k | k in rest) + {last};
    }
  }

  /** Substitution does what the workflow means: every reference to an axis, and nothing else, is replaced
      by the value the combination gives it. */
  lemma SubstitutionMeaning(ps: seq<Piece>, combo: Combo)
    requires Unambiguous(ps, combo)
    ensures Substitute(Written(ps), combo, Iter(combo.Keys)) == Instantiated(ps, combo)
  {
    AxesStep(ps, combo, Iter(combo.Keys));
    AllDone(ps, combo, set k | k in Iter(combo.Keys));
  }

  // ---------------------------------------------------------- nothing remains

  /** When all references are to axes, no reference remains, nor does a new one arise. */
  lemma {:induction false} NoReferenceRemains(ps: seq<Piece>, combo: Combo)
    requires Unambiguous(ps, combo) && forall p :: p in ps && p.Reference? ==> p.axis in combo
    ensures !Contains(Instantiated(ps, combo), MARK)
    decreases |ps|
  {
    if ps != [] {
      var front, rest := Shown(ps[0], combo, combo.Keys), Instantiated(ps[1..], combo);
      assert ps[0] in ps && forall p :: p in ps[1..] ==> p in ps;
      FewerPieces(ps, combo);
      NoReferenceRemains(ps[1..], combo);
      assert IsText(ps, combo, front);
      ApartFromRest(ps, combo, combo.Keys, front);
      AllDone(ps[1..], combo, combo.Keys);
      forall i | 0 <= i <= |front + rest| ensures !(MARK <= (front + rest)[i..]) {
        if i >= |front| {
          assert (front + rest)[i..] == rest[i - |front|..];
        } else if MARK <= (front + rest)[i..] {
          MarkInFront(front, rest, i);
        }
      }
    }
  }

  /** The condition on values is needed: a value that is a reference to a later axis is read again. */
  lemma ValuesAreReadAgain(a: string, b: string, v: string)
    requires StrLt(a, b) && PlainAxis(a) && PlainAxis(b)
    ensures var combo: Combo := map[a := Needle(b), b := v];
      && Instantiated([Reference(a)], combo) == Needle(b)
      && Substitute(Written([Reference(a)]), combo, Iter(combo.Keys)) == v
  {
    var combo: Combo := map[a := Needle(b), b := v];
    assert a != b && combo.Keys == {a, b};
    AscendingUnique(Iter(combo.Keys), [a, b]);
    assert [Reference(a)][1..] == [];
    assert Written([Reference(a)]) == Needle(a);
    ReplaceFirst("", Needle(a), Needle(b));
    ReplaceFirst("", Needle(b), v);
    assert Needle(a) + "" == Needle(a) && Needle(b) + "" == Needle(b) && v + "" == v;
    assert [a, b][..1] == [a] && [a][..0] == [];
    assert Substitute(Needle(a), combo, [a]) == Needle(b);
  }

  /** The steps of an expanded job: command, action and name say what their templates mean for the
      combination, environment and directory are as declared, and every step has an id of its own. */
  lemma StepMeaning(steps: seq<Step>, combo: Combo, id: string, i: nat, ps: seq<Piece>)
    requires i < |steps| && Unambiguous(ps, combo)
    ensures var r := InstantiateSteps(steps, combo, id);
      && (steps[i].command == Some(Written(ps)) ==> r[i].command == Some(Instantiated(ps, combo)))
      && (steps[i].uses == Some(Written(ps)) ==> r[i].uses == Some(Instantiated(ps, combo)))
      && (steps[i].name == Written(ps) ==> r[i].name == Instantiated(ps, combo))
      && (steps[i].command.None? <==> r[i].command.None?) && (steps[i].uses.None? <==> r[i].uses.None?)
      && r[i].env == steps[i].env && r[i].workingDirectory == steps[i].workingDirectory
  {
    SubstitutionMeaning(ps, combo);
  }

  lemma StepIdsDiffer(steps: seq<Step>, combo: Combo, id: string, i: nat, j: nat)
    requires i < j < |steps|
    ensures var r := InstantiateSteps(steps, combo, id); r[i].id != r[j].id && id <= r[i].id && id <= r[j].id
  {
    var a, b := Padded(Dec(i), 2), Padded(Dec(j), 2);
    PaddingKeepsValue(Dec(i), 2);
    PaddingKeepsValue(Dec(j), 2);
    DecRoundTrip(i);
    DecRoundTrip(j);
    if id + "_step_" + a == id + "_step_" + b { CancelPrefix(id + "_step_", a, b); }
  }

  // ------------------------------------------------------------------- names

  lemma {:induction false} PartsShow(combo: Combo, keys: seq<string>, i: nat)
    requires i < |keys| && forall k :: 0 <= k < |keys| ==> keys[k] in combo
    ensures |NameParts(combo, keys)| == |keys| && NameParts(combo, keys)[i] == keys[i] + "=" + combo[keys[i]]
    decreases |keys|
  {
    if i > 0 { PartsShow(combo, keys[1..], i - 1); }
    if |keys| > 1 { PartsShow(combo, keys[1..], 0); }
  }

  lemma {:induction false} JoinShows(s: seq<string>, sep: string, i: nat)
    requires i < |s|
    ensures Contains(Join(s, sep), s[i])
    decreases |s|
  {
    if i == 0 {
      assert Join(s, sep)[0..] == Join(s, sep);
    } else {
      JoinShows(s[1..], sep, i - 1);
      ContainsAfter(s[0] + sep, Join(s[1..], sep), s[i]);
    }
  }

  lemma ContainsAfter(front: string, s: string, pattern: string)
    requires Contains(s, pattern)
    ensures Contains(front + s, pattern)
  {
    var i :| 0 <= i <= |s| && pattern <= s[i..];
    assert (front + s)[|front| + i..] == s[i..];
  }

  lemma ContainsBefore(s: string, back: string, pattern: string)
    requires Contains(s, pattern)
    ensures Contains(s + back, pattern)
  {
    var i :| 0 <= i <= |s| && pattern <= s[i..];
    assert (s + back)[i..] == s[i..] + back;
  }

  /** The display name starts with the name of the job and shows the value of every axis. */
  lemma NameShowsAxes(origin: string, combo: Combo, axis: string)
    requires axis in combo
    ensures origin <= ExpandedName(origin, combo)
    ensures Contains(ExpandedName(origin, combo), axis + "=" + combo[axis])
    ensures ExpandedName(origin, map[]) == origin
  {
    var keys := Iter(combo.Keys);
    var parts := NameParts(combo, keys);
    assert axis in keys;
    var i :| 0 <= i < |keys| && keys[i] == axis;
    PartsShow(combo, keys, i);
    JoinShows(parts, ", ", i);
    ContainsAfter(origin + " (", Join(parts, ", "), parts[i]);
    ContainsBefore(origin + " (" + Join(parts, ", "), ")", parts[i]);
  }
}
