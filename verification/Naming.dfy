/** Job ids: sanitising (`jeryu-ci-ir/src/hashing.rs`), the ids of expanded jobs
    (`jeryu-ci-compiler/src/matrix.rs`), and when two combinations of a matrix get the same one. */
module Naming {
  import opened Order
  import opened Text
  import opened Matrix

  predicate IsAsciiAlnum(c: char) { IsDigit(c) || 'a' <= c <= 'z' || IsAsciiUpper(c) }

  /** The characters of a sanitised id. */
  predicate IdChar(c: char) { IsDigit(c) || 'a' <= c <= 'z' || c == '_' || c == '-' || c == '.' }

  predicate EndsWithUnderscore(s: string) { s != [] && s[|s| - 1] == '_' }

  function Push(out: string, ch: char): string {
    if IsAsciiAlnum(ch) then out + [AsciiLower(ch)]
    else if ch == '_' || ch == '-' || ch == '.' then out + [ch]
    else if !EndsWithUnderscore(out) then out + ['_']
    else out
  }

  /** The characters of `value` pushed one after the other. */
  function PushOn(out: string, value: string): string {
    if value == [] then out else Push(PushOn(out, value[..|value| - 1]), value[|value| - 1])
  }

  function PushAll(value: string): string { PushOn("", value) }

  function TrimLeft(s: string): string { if s != [] && s[0] == '_' then TrimLeft(s[1..]) else s }

  function TrimRight(s: string): string { if EndsWithUnderscore(s) then TrimRight(s[..|s| - 1]) else s }

  function OrUnnamed(s: string): string { if s == [] then "unnamed" else s }

  function SanitizeId(value: string): string { OrUnnamed(TrimRight(TrimLeft(PushAll(value)))) }

  /** The character loop of `sanitize_id`. */
  method Sanitize(value: string) returns (id: string)
    ensures id == SanitizeId(value)
  {
    var out := "";
    for i := 0 to |value|
      invariant out == PushAll(value[..i])
    {
      assert value[..i + 1][..i] == value[..i];
      out := Push(out, value[i]);
    }
    assert value[..|value|] == value;
    id := OrUnnamed(TrimRight(TrimLeft(out)));
  }

  ghost predicate AllIdChars(s: string) { forall i :: 0 <= i < |s| ==> IdChar(s[i]) }

  /** Ids that sanitising leaves alone: non-empty, id characters only, no underscore at either end. */
  ghost predicate IsCleanId(s: string) {
    s != [] && AllIdChars(s) && s[0] != '_' && s[|s| - 1] != '_'
  }

  lemma PushIdChar(out: string, ch: char)
    ensures AllIdChars(out) ==> AllIdChars(Push(out, ch))
    ensures IdChar(ch) ==> Push(out, ch) == out + [ch]
  {
  }

  lemma {:induction false} PushAllIdChars(value: string)
    ensures AllIdChars(PushAll(value))
    ensures AllIdChars(value) ==> PushAll(value) == value
    decreases |value|
  {
    if value != [] {
      var rest, last := value[..|value| - 1], value[|value| - 1];
      PushAllIdChars(rest);
      PushIdChar(PushAll(rest), last);
      if AllIdChars(value) {
        assert AllIdChars(rest);
        assert value == rest + [last];
      }
    }
  }

  lemma {:induction false} TrimLeftSpec(s: string)
    requires AllIdChars(s)
    ensures AllIdChars(TrimLeft(s)) && (TrimLeft(s) != [] ==> TrimLeft(s)[0] != '_')
  {
    if s != [] && s[0] == '_' { TrimLeftSpec(s[1..]); }
  }

  lemma {:induction false} TrimRightSpec(s: string)
    requires AllIdChars(s) && (s != [] ==> s[0] != '_')
    ensures AllIdChars(TrimRight(s)) && !EndsWithUnderscore(TrimRight(s))
    ensures TrimRight(s) != [] ==> TrimRight(s)[0] != '_'
  {
    if EndsWithUnderscore(s) { TrimRightSpec(s[..|s| - 1]); }
  }

  lemma CleanIdIsFixed(id: string)
    requires IsCleanId(id)
    ensures SanitizeId(id) == id
  {
    PushAllIdChars(id);
    assert TrimLeft(id) == id && TrimRight(id) == id;
  }

  lemma SanitizedIsClean(value: string)
    ensures IsCleanId(SanitizeId(value))
  {
    PushAllIdChars(value);
    TrimLeftSpec(PushAll(value));
    TrimRightSpec(TrimLeft(PushAll(value)));
    assert IsCleanId("unnamed");
  }

  /** Sanitising yields a clean id, and a clean id is a fixed point. */
  lemma SanitizeIsIdempotent(value: string)
    ensures IsCleanId(SanitizeId(value))
    ensures IsCleanId(value) ==> SanitizeId(value) == value
    ensures SanitizeId(SanitizeId(value)) == SanitizeId(value)
  {
    SanitizedIsClean(value);
    CleanIdIsFixed(SanitizeId(value));
    if IsCleanId(value) { CleanIdIsFixed(value); }
  }

  function Suffix(combo: Combo, keys: seq<string>): seq<string>
    requires forall i :: 0 <= i < |keys| ==> keys[i] in combo
  {
    if keys == [] then [] else [keys[0] + "_" + combo[keys[0]]] + Suffix(combo, keys[1..])
  }

  /** `expanded_id`. */
  function ExpandedId(origin: string, combo: Combo): (id: string)
    ensures IsCleanId(id)
  {
    SanitizedIsClean(RawId(origin, combo));
    SanitizeId(RawId(origin, combo))
  }

  function RawId(origin: string, combo: Combo): string {
    if combo == map[] then origin else origin + "__" + Join(Suffix(combo, Iter(combo.Keys)), "__")
  }

  // ---------------------------------------------------------- normal forms of values

  lemma {:induction false} PushOnAppend(out: string, a: string, b: string)
    ensures PushOn(out, a + b) == PushOn(PushOn(out, a), b)
    decreases |b|
  {
    if b == [] {
      assert a + b == a;
    } else {
      assert (a + b)[..|a + b| - 1] == a + b[..|b| - 1];
      PushOnAppend(out, a, b[..|b| - 1]);
    }
  }

  lemma {:induction false} PushOnKeeps(out: string, value: string)
    ensures out <= PushOn(out, value)
    decreases |value|
  {
    if value != [] { PushOnKeeps(out, value[..|value| - 1]); }
  }

  /** What a text contributes to an id when an underscore stands before it. */
  function Normal(value: string): string {
    PushOnKeeps("_", value);
    PushOn("_", value)[1..]
  }

  lemma PushShift(a: string, b: string, n: string, ch: char)
    requires EndsWithUnderscore(a) && EndsWithUnderscore(b)
    ensures exists m :: Push(a + n, ch) == a + m && Push(b + n, ch) == b + m
  {
    assert EndsWithUnderscore(a + n) <==> EndsWithUnderscore(b + n) by {
      if n == [] { assert a + n == a && b + n == b; }
    }
    if IsAsciiAlnum(ch) {
      assert a + n + [AsciiLower(ch)] == a + (n + [AsciiLower(ch)]);
      assert b + n + [AsciiLower(ch)] == b + (n + [AsciiLower(ch)]);
    } else if ch == '_' || ch == '-' || ch == '.' {
      assert a + n + [ch] == a + (n + [ch]) && b + n + [ch] == b + (n + [ch]);
    } else if !EndsWithUnderscore(a + n) {
      assert a + n + ['_'] == a + (n + ['_']) && b + n + ['_'] == b + (n + ['_']);
    }
  }

  /** Behind an underscore the contribution does not depend on what came before. */
  lemma {:induction false} PushBehindUnderscore(a: string, b: string, value: string)
    requires EndsWithUnderscore(a) && EndsWithUnderscore(b)
    ensures exists m :: PushOn(a, value) == a + m && PushOn(b, value) == b + m
    decreases |value|
  {
    if value == [] {
      assert a + "" == a && b + "" == b;
    } else {
      var rest, last := value[..|value| - 1], value[|value| - 1];
      PushBehindUnderscore(a, b, rest);
      var n :| PushOn(a, rest) == a + n && PushOn(b, rest) == b + n;
      PushShift(a, b, n, last);
    }
  }

  lemma PushIsNormal(out: string, value: string)
    requires EndsWithUnderscore(out)
    ensures PushOn(out, value) == out + Normal(value)
  {
    PushBehindUnderscore(out, "_", value);
    var m :| PushOn(out, value) == out + m && PushOn("_", value) == "_" + m;
    PushOnKeeps("_", value);
    assert Normal(value) == m;
  }

  // ------------------------------------------------------------ the text behind an id

  function RawLead(axis: string): string { "__" + axis + "_" }

  function Lead(axis: string): string { "__" + Normal(axis) + "_" }

  /** The part of the raw id text that comes from the axes. */
  function RawTail(combo: Combo, keys: seq<string>): string
    requires forall i :: 0 <= i < |keys| ==> keys[i] in combo
  {
    if keys == [] then "" else RawLead(keys[0]) + (combo[keys[0]] + RawTail(combo, keys[1..]))
  }

  /** The same part after pushing: underscores separate the normal forms of axis names and values. */
  function Tail(combo: Combo, keys: seq<string>): string
    requires forall i :: 0 <= i < |keys| ==> keys[i] in combo
    decreases |keys|, 1
  {
    if keys == [] then "" else Lead(keys[0]) + AfterFirstAxis(combo, keys)
  }

  /** What follows the first axis name: its value, and the other axes. */
  function AfterFirstAxis(combo: Combo, keys: seq<string>): string
    requires keys != [] && forall i :: 0 <= i < |keys| ==> keys[i] in combo
    decreases |keys|, 0
  {
    Normal(combo[keys[0]]) + Tail(combo, keys[1..])
  }

  lemma RegroupAxis(axis: string, value: string, rest: string)
    ensures "__" + (axis + "_" + value) + rest == RawLead(axis) + (value + rest)
  {
  }

  lemma RegroupJoin(first: string, joined: string)
    ensures "__" + (first + "__" + joined) == "__" + first + ("__" + joined)
  {
  }

  lemma {:induction false} JoinedSuffix(combo: Combo, keys: seq<string>)
    requires keys != [] && forall i :: 0 <= i < |keys| ==> keys[i] in combo
    ensures "__" + Join(Suffix(combo, keys), "__") == RawTail(combo, keys)
    decreases |keys|
  {
    var first := keys[0] + "_" + combo[keys[0]];
    var all := Suffix(combo, keys);
    RegroupAxis(keys[0], combo[keys[0]], RawTail(combo, keys[1..]));
    assert all == [first] + Suffix(combo, keys[1..]);
    if |keys| == 1 {
      assert all == [first];
      assert RawTail(combo, keys[1..]) == "" && "__" + first + "" == "__" + first;
    } else {
      JoinedSuffix(combo, keys[1..]);
      assert all[1..] == Suffix(combo, keys[1..]);
      RegroupJoin(first, Join(Suffix(combo, keys[1..]), "__"));
    }
  }

  lemma PushUnderscores(out: string)
    ensures PushOn(out, "__") == out + "__" && PushOn(out, "_") == out + "_"
  {
    assert "__"[..1] == "_" && "_"[..0] == "";
    assert PushOn(out, "") == out;
    assert PushOn(out, "_") == Push(out, '_');
    assert PushOn(out, "__") == Push(PushOn(out, "_"), '_');
  }

  lemma PushLead(out: string, axis: string)
    ensures PushOn(out, RawLead(axis)) == out + Lead(axis) && EndsWithUnderscore(out + Lead(axis))
  {
    PushOnAppend(out, "__" + axis, "_");
    PushOnAppend(out, "__", axis);
    PushUnderscores(out);
    PushIsNormal(out + "__", axis);
    PushUnderscores(out + "__" + Normal(axis));
    assert out + "__" + Normal(axis) + "_" == out + Lead(axis);
  }

  lemma PushAxis(out: string, axis: string, value: string, rest: string)
    ensures PushOn(out, RawLead(axis) + (value + rest)) == PushOn(out + Lead(axis) + Normal(value), rest)
  {
    PushOnAppend(out, RawLead(axis), value + rest);
    PushLead(out, axis);
    PushOnAppend(out + Lead(axis), value, rest);
    PushIsNormal(out + Lead(axis), value);
  }

  lemma {:induction false} PushTail(out: string, combo: Combo, keys: seq<string>)
    requires forall i :: 0 <= i < |keys| ==> keys[i] in combo
    ensures PushOn(out, RawTail(combo, keys)) == out + Tail(combo, keys)
    decreases |keys|
  {
    if keys != [] {
      var k, v := keys[0], combo[keys[0]];
      PushAxis(out, k, v, RawTail(combo, keys[1..]));
      PushTail(out + Lead(k) + Normal(v), combo, keys[1..]);
      Assoc(out + Lead(k), Normal(v), Tail(combo, keys[1..]));
      Assoc(out, Lead(k), Normal(v) + Tail(combo, keys[1..]));
    }
  }

  function TrimId(s: string): string { OrUnnamed(TrimRight(TrimLeft(s))) }

  lemma RawIdText(origin: string, combo: Combo)
    ensures RawId(origin, combo) == origin + RawTail(combo, Iter(combo.Keys))
  {
    var keys := Iter(combo.Keys);
    if combo == map[] {
      assert keys == [] && origin + "" == origin;
    } else {
      assert |keys| == |combo.Keys| > 0;
      JoinedSuffix(combo, keys);
      Assoc(origin, "__", Join(Suffix(combo, keys), "__"));
    }
  }

  /** An id is the pushed origin followed by the normal forms of axis names and values, trimmed. */
  lemma ExpandedIdText(origin: string, combo: Combo)
    ensures ExpandedId(origin, combo) == TrimId(PushAll(origin) + Tail(combo, Iter(combo.Keys)))
  {
    RawIdText(origin, combo);
    PushOnAppend("", origin, RawTail(combo, Iter(combo.Keys)));
    PushTail(PushAll(origin), combo, Iter(combo.Keys));
  }

  // ------------------------------------------------------------------- collisions

  /** The same axes, with values that have the same normal forms. */
  ghost predicate Alike(x: Combo, y: Combo) {
    x.Keys == y.Keys && forall k :: k in x ==> Normal(x[k]) == Normal(y[k])
  }

  lemma {:induction false} AlikeTails(x: Combo, y: Combo, keys: seq<string>)
    requires Alike(x, y) && forall i :: 0 <= i < |keys| ==> keys[i] in x
    ensures Tail(x, keys) == Tail(y, keys)
    decreases |keys|
  {
    if keys != [] { AlikeTails(x, y, keys[1..]); }
  }

  /** Combinations whose values have the same normal forms get the same job id. */
  lemma AlikeCollide(origin: string, x: Combo, y: Combo)
    requires Alike(x, y)
    ensures ExpandedId(origin, x) == ExpandedId(origin, y)
  {
    ExpandedIdText(origin, x);
    ExpandedIdText(origin, y);
    AlikeTails(x, y, Iter(x.Keys));
  }

  /** A text that cannot be mistaken for part of a separator: not empty, no underscore at either end and
      no two underscores in a row. Single underscores inside are fine, as in `x86_64`. */
  ghost predicate IsWord(w: string) { w != [] && w[0] != '_' && w[|w| - 1] != '_' && !Contains(w, "__") }

  ghost predicate WordValues(x: Combo) { forall k :: k in x ==> IsWord(Normal(x[k])) }

  lemma {:induction false} TrimLeftThen(a: string, b: string)
    requires b != [] && b[0] != '_'
    ensures TrimLeft(a + b) == TrimLeft(a) + b
    decreases |a|
  {
    if a == [] {
      assert a + b == b && TrimLeft(a) + b == b;
    } else if a[0] == '_' {
      assert (a + b)[1..] == a[1..] + b;
      TrimLeftThen(a[1..], b);
    }
  }

  /** A separator, or the end of the text. */
  ghost predicate StartsSeparator(s: string) { s == [] || "__" <= s }

  lemma DoubleInside(w: string, i: nat)
    requires i + 1 < |w| && w[i] == '_' && w[i + 1] == '_'
    ensures Contains(w, "__")
  {
    assert w[i..][..2] == "__";
  }

  /** A word is not longer than the text in front of the first separator. */
  lemma WordNotLonger(v: string, s: string, w: string, t: string)
    requires IsWord(w) && StartsSeparator(s) && v + s == w + t
    ensures |w| <= |v|
  {
    var n, text := |v|, w + t;
    if n < |w| {
      assert "__" <= s;
      assert text[n] == s[0] && text[n + 1] == s[1];
      if n + 1 < |w| { DoubleInside(w, n); }
    }
  }

  /** Words end where the next separator starts. */
  lemma WordsSplit(v: string, s: string, w: string, t: string)
    requires IsWord(v) && IsWord(w) && StartsSeparator(s) && StartsSeparator(t) && v + s == w + t
    ensures v == w && s == t
  {
    WordNotLonger(v, s, w, t);
    WordNotLonger(w, t, v, s);
    assert (v + s)[..|v|] == v && (w + t)[..|w|] == w;
    CancelPrefix(v, s, t);
  }

  lemma TailStart(combo: Combo, keys: seq<string>)
    requires forall i :: 0 <= i < |keys| ==> keys[i] in combo
    ensures StartsSeparator(Tail(combo, keys))
  {
    if keys != [] { assert Tail(combo, keys)[..2] == "__"; }
  }

  lemma LastOf(a: string, b: string)
    requires b != []
    ensures EndsWithUnderscore(a + b) <==> EndsWithUnderscore(b)
  {
  }

  lemma {:induction false} AxesEndInWord(combo: Combo, keys: seq<string>)
    requires WordValues(combo) && keys != [] && forall i :: 0 <= i < |keys| ==> keys[i] in combo
    ensures AfterFirstAxis(combo, keys) != [] && !EndsWithUnderscore(AfterFirstAxis(combo, keys))
    ensures AfterFirstAxis(combo, keys)[0] != '_'
    decreases |keys|
  {
    var w, rest := Normal(combo[keys[0]]), Tail(combo, keys[1..]);
    if |keys| > 1 {
      AxesEndInWord(combo, keys[1..]);
      LastOf(Lead(keys[1..][0]), AfterFirstAxis(combo, keys[1..]));
      LastOf(w, rest);
    } else {
      assert rest == "" && w + rest == w;
    }
  }

  lemma TrimWordText(lead: string, rest: string)
    requires rest != [] && rest[0] != '_' && !EndsWithUnderscore(rest)
    ensures TrimId(lead + rest) == TrimLeft(lead) + rest
  {
    TrimLeftThen(lead, rest);
    LastOf(TrimLeft(lead), rest);
  }

  /** With word values nothing but leading underscores is trimmed. */
  lemma WordIdText(origin: string, combo: Combo, keys: seq<string>)
    requires keys == Iter(combo.Keys) && keys != [] && WordValues(combo)
    ensures ExpandedId(origin, combo) == TrimLeft(PushAll(origin) + Lead(keys[0])) + AfterFirstAxis(combo, keys)
  {
    ExpandedIdText(origin, combo);
    AxesEndInWord(combo, keys);
    Assoc(PushAll(origin), Lead(keys[0]), AfterFirstAxis(combo, keys));
    TrimWordText(PushAll(origin) + Lead(keys[0]), AfterFirstAxis(combo, keys));
  }

  lemma SameAfterFirstAxis(x: Combo, y: Combo, keys: seq<string>)
    requires WordValues(x) && WordValues(y) && keys != []
    requires forall i :: 0 <= i < |keys| ==> keys[i] in x && keys[i] in y
    requires AfterFirstAxis(x, keys) == AfterFirstAxis(y, keys)
    ensures Normal(x[keys[0]]) == Normal(y[keys[0]]) && Tail(x, keys[1..]) == Tail(y, keys[1..])
  {
    TailStart(x, keys[1..]);
    TailStart(y, keys[1..]);
    assert IsWord(Normal(x[keys[0]])) && IsWord(Normal(y[keys[0]]));
    WordsSplit(Normal(x[keys[0]]), Tail(x, keys[1..]), Normal(y[keys[0]]), Tail(y, keys[1..]));
  }

  lemma {:induction false} SameTailsAlike(x: Combo, y: Combo, keys: seq<string>)
    requires WordValues(x) && WordValues(y) && forall i :: 0 <= i < |keys| ==> keys[i] in x && keys[i] in y
    requires Tail(x, keys) == Tail(y, keys)
    ensures forall i :: 0 <= i < |keys| ==> Normal(x[keys[i]]) == Normal(y[keys[i]])
    decreases |keys|
  {
    if keys != [] {
      CancelPrefix(Lead(keys[0]), AfterFirstAxis(x, keys), AfterFirstAxis(y, keys));
      SameAfterFirstAxis(x, y, keys);
      SameTailsAlike(x, y, keys[1..]);
      forall i | 0 <= i < |keys| ensures Normal(x[keys[i]]) == Normal(y[keys[i]]) {
        if i > 0 { assert keys[i] == keys[1..][i - 1]; }
      }
    }
  }

  lemma WordIdsGiveTails(origin: string, x: Combo, y: Combo, keys: seq<string>)
    requires keys == Iter(x.Keys) == Iter(y.Keys) && keys != [] && WordValues(x) && WordValues(y)
    requires ExpandedId(origin, x) == ExpandedId(origin, y)
    ensures Tail(x, keys) == Tail(y, keys)
  {
    WordIdText(origin, x, keys);
    WordIdText(origin, y, keys);
    CancelPrefix(TrimLeft(PushAll(origin) + Lead(keys[0])), AfterFirstAxis(x, keys), AfterFirstAxis(y, keys));
  }

  lemma AlikeByPosition(x: Combo, y: Combo, keys: seq<string>)
    requires x.Keys == y.Keys && forall k :: k in keys <==> k in x
    requires forall i :: 0 <= i < |keys| ==> Normal(x[keys[i]]) == Normal(y[keys[i]])
    ensures Alike(x, y)
  {
    forall k | k in x ensures Normal(x[k]) == Normal(y[k]) {
      assert k in keys;
      var i :| 0 <= i < |keys| && keys[i] == k;
    }
  }

  lemma WordIdsAlike(origin: string, x: Combo, y: Combo)
    requires x.Keys == y.Keys && WordValues(x) && WordValues(y)
    requires ExpandedId(origin, x) == ExpandedId(origin, y)
    ensures Alike(x, y)
  {
    var keys := Iter(x.Keys);
    if keys != [] { WordIdsGiveTails(origin, x, y, keys); }
    SameTailsAlike(x, y, keys);
    AlikeByPosition(x, y, keys);
  }

  /** Over the same axes, as long as the values are words after normalisation, two combinations get the
      same id exactly when their values have the same normal forms. */
  lemma WordsCollideExactly(origin: string, x: Combo, y: Combo)
    requires x.Keys == y.Keys && WordValues(x) && WordValues(y)
    ensures ExpandedId(origin, x) == ExpandedId(origin, y) <==> Alike(x, y)
  {
    if Alike(x, y) { AlikeCollide(origin, x, y); }
    if ExpandedId(origin, x) == ExpandedId(origin, y) { WordIdsAlike(origin, x, y); }
  }

  // --------------------------------------------------------------- plain values

  /** Lower-case letters, digits, dots, dashes and single underscores between them. */
  ghost predicate IsPlainValue(v: string) { AllIdChars(v) && IsWord(v) }

  /** For one, the usual name of a target architecture. */
  lemma ArchitectureIsPlain()
    ensures IsPlainValue("x86_64")
  {
    var s := "x86_64";
    forall i | 0 <= i <= |s| ensures !("__" <= s[i..]) {
      assert i + 1 < |s| ==> s[i..][0] != '_' || s[i..][1] != '_';
    }
  }

  lemma {:induction false} PushOnIdChars(out: string, value: string)
    requires AllIdChars(value)
    ensures PushOn(out, value) == out + value
    decreases |value|
  {
    if value != [] {
      var rest, last := value[..|value| - 1], value[|value| - 1];
      assert AllIdChars(rest);
      PushOnIdChars(out, rest);
      PushIdChar(out + rest, last);
      assert out + rest + [last] == out + value;
    }
  }

  lemma PlainIsNormal(v: string)
    requires AllIdChars(v)
    ensures Normal(v) == v
  {
    PushOnIdChars("_", v);
  }

  /** Plain values are told apart by the ids of their combinations. */
  lemma PlainValuesGiveDistinctIds(origin: string, x: Combo, y: Combo)
    requires x.Keys == y.Keys && (forall k :: k in x ==> IsPlainValue(x[k]) && IsPlainValue(y[k]))
    ensures ExpandedId(origin, x) == ExpandedId(origin, y) <==> x == y
  {
    forall k | k in x ensures Normal(x[k]) == x[k] && Normal(y[k]) == y[k] {
      PlainIsNormal(x[k]);
      PlainIsNormal(y[k]);
    }
    WordsCollideExactly(origin, x, y);
    if Alike(x, y) { SameCombo(x, y); }
  }

  // ---------------------------------------------------------- families of collisions

  function LowerAll(s: string): string { if s == [] then "" else LowerAll(s[..|s| - 1]) + [AsciiLower(s[|s| - 1])] }

  /** Pushing does not see the case of ASCII letters. */
  lemma {:induction false} PushIgnoresCase(out: string, value: string)
    ensures PushOn(out, LowerAll(value)) == PushOn(out, value)
    decreases |value|
  {
    if value != [] {
      var rest := value[..|value| - 1];
      PushIgnoresCase(out, rest);
      assert LowerAll(value)[..|LowerAll(value)| - 1] == LowerAll(rest);
    }
  }

  /** The same axes with values that differ at most in case. */
  ghost predicate CaseVariants(x: Combo, y: Combo) {
    x.Keys == y.Keys && forall k :: k in x ==> LowerAll(x[k]) == LowerAll(y[k])
  }

  /** Combinations that differ only in case get the same job id. */
  lemma CaseVariantsCollide(origin: string, x: Combo, y: Combo)
    requires CaseVariants(x, y)
    ensures Alike(x, y) && ExpandedId(origin, x) == ExpandedId(origin, y)
  {
    forall k | k in x ensures Normal(x[k]) == Normal(y[k]) {
      PushIgnoresCase("_", x[k]);
      PushIgnoresCase("_", y[k]);
    }
    AlikeCollide(origin, x, y);
  }

  lemma SpaceIsUnderscore()
    ensures Normal("a b") == Normal("a_b")
  {
    var s, t := "a b", "a_b";
    assert s[..2] == "a " && "a "[..1] == "a" && "a"[..0] == "";
    assert t[..2] == "a_" && "a_"[..1] == "a";
    assert PushOn("_", "a") == Push(PushOn("_", ""), 'a') == "_a";
    assert PushOn("_", "a ") == Push("_a", ' ') == "_a_";
    assert PushOn("_", "a_") == Push("_a", '_') == "_a_";
  }

  /** So do values that differ in the characters an id cannot hold. */
  lemma SpacesCollide(origin: string, axis: string)
    ensures ExpandedId(origin, map[axis := "a b"]) == ExpandedId(origin, map[axis := "a_b"])
    ensures !CaseVariants(map[axis := "a b"], map[axis := "a_b"])
  {
    SpaceIsUnderscore();
    AlikeCollide(origin, map[axis := "a b"], map[axis := "a_b"]);
    var x: Combo, y: Combo := map[axis := "a b"], map[axis := "a_b"];
    LowerKeeps("a b");
    LowerKeeps("a_b");
    assert LowerAll(x[axis])[1] == ' ' && LowerAll(y[axis])[1] == '_';
  }

  lemma {:induction false} LowerKeeps(s: string)
    ensures |LowerAll(s)| == |s| && forall i :: 0 <= i < |s| ==> LowerAll(s)[i] == AsciiLower(s[i])
    decreases |s|
  {
    if s != [] { LowerKeeps(s[..|s| - 1]); }
  }

  lemma TwoAxes()
    ensures Iter({"os", "ver"}) == ["os", "ver"]
  {
    var keys := ["os", "ver"];
    assert StrLt("os", "ver") by { assert "os"[0] < "ver"[0]; }
    assert Ascending(keys) by {
      forall i, j | 0 <= i < j < |keys| ensures StrLt(keys[i], keys[j]) { assert i == 0 && j == 1; }
    }
    AscendingUnique(Iter({"os", "ver"}), keys);
  }

  lemma TwoAxesText(combo: Combo)
    requires "os" in combo && "ver" in combo
    ensures RawTail(combo, ["os", "ver"]) == "__os_" + (combo["os"] + ("__ver_" + combo["ver"]))
  {
    var keys := ["os", "ver"];
    assert keys[1..] == ["ver"] && keys[1..][1..] == [];
    assert RawLead("os") == "__os_" && RawLead("ver") == "__ver_";
    assert RawTail(combo, keys[1..][1..]) == "" && combo["ver"] + "" == combo["ver"];
    assert RawTail(combo, ["ver"]) == "__ver_" + combo["ver"];
  }

  lemma SameRawSameId(origin: string, x: Combo, y: Combo)
    requires x.Keys == y.Keys && RawTail(x, Iter(x.Keys)) == RawTail(y, Iter(y.Keys))
    ensures ExpandedId(origin, x) == ExpandedId(origin, y)
  {
    PushTail(PushAll(origin), x, Iter(x.Keys));
    PushTail(PushAll(origin), y, Iter(y.Keys));
    ExpandedIdText(origin, x);
    ExpandedIdText(origin, y);
  }

  function ShiftedLeft(): Combo { map["os" := "a__ver_b", "ver" := "c"] }

  function ShiftedRight(): Combo { map["os" := "a", "ver" := "b__ver_c"] }

  lemma ShiftedTexts()
    ensures ShiftedLeft().Keys == ShiftedRight().Keys == {"os", "ver"}
    ensures RawTail(ShiftedLeft(), ["os", "ver"]) == RawTail(ShiftedRight(), ["os", "ver"])
  {
    TwoAxesText(ShiftedLeft());
    TwoAxesText(ShiftedRight());
    assert "a__ver_b" + ("__ver_" + "c") == "a" + ("__ver_" + "b__ver_c");
  }

  lemma ShiftedDiffer()
    ensures Normal("a__ver_b") != Normal("a") && Normal("c") != Normal("b__ver_c")
  {
    PlainIsNormal("a__ver_b");
    PlainIsNormal("a");
    PlainIsNormal("c");
    PlainIsNormal("b__ver_c");
  }

  /** A value that contains the separator can move text to the next axis: the two combinations are alike
      on neither axis, and their raw ids are the same text. */
  lemma SeparatorsCollide(origin: string)
    ensures ExpandedId(origin, ShiftedLeft()) == ExpandedId(origin, ShiftedRight())
    ensures forall axis :: axis in ShiftedLeft() ==>
              axis in ShiftedRight() && Normal(ShiftedLeft()[axis]) != Normal(ShiftedRight()[axis])
  {
    ShiftedTexts();
    TwoAxes();
    SameRawSameId(origin, ShiftedLeft(), ShiftedRight());
    ShiftedDiffer();
  }

  lemma {:induction false} TrimLeftSplits(a: string, b: string)
    ensures TrimLeft(a + b) == if TrimLeft(a) == "" then TrimLeft(b) else TrimLeft(a) + b
    decreases |a|
  {
    if a == [] {
      assert a + b == b;
    } else if a[0] == '_' {
      assert (a + b)[1..] == a[1..] + b;
      TrimLeftSplits(a[1..], b);
    }
  }

  lemma {:induction false} TrimRightSplits(a: string, b: string)
    ensures TrimRight(a + b) == if TrimRight(b) == "" then TrimRight(a) else a + TrimRight(b)
    decreases |b|
  {
    if b == [] {
      assert a + b == a;
    } else if EndsWithUnderscore(b) {
      assert (a + b)[..|a + b| - 1] == a + b[..|b| - 1];
      TrimRightSplits(a, b[..|b| - 1]);
    }
  }

  lemma OneUnderscore()
    ensures TrimLeft("_") == "" && TrimRight("_") == ""
  {
    assert "_"[1..] == "" && "_"[..0] == "";
  }

  lemma TrailingIsTrimmed(s: string)
    ensures TrimId(s + "_") == TrimId(s)
  {
    OneUnderscore();
    TrimLeftSplits(s, "_");
    TrimRightSplits(TrimLeft(s), "_");
  }

  lemma NormalUnderscore(v: string)
    ensures Normal(v + "_") == Normal(v) + "_"
  {
    PushOnAppend("_", v, "_");
    PushUnderscores(PushOn("_", v));
    PushOnKeeps("_", v);
  }

  lemma {:induction false} TailTrails(x: Combo, y: Combo, keys: seq<string>)
    requires keys != [] && forall i :: 0 <= i < |keys| ==> keys[i] in x && keys[i] in y
    requires forall i :: 0 <= i < |keys| - 1 ==> x[keys[i]] == y[keys[i]]
    requires y[keys[|keys| - 1]] == x[keys[|keys| - 1]] + "_"
    ensures Tail(y, keys) == Tail(x, keys) + "_"
    decreases |keys|
  {
    var w, rest := Normal(x[keys[0]]), Tail(x, keys[1..]);
    if |keys| == 1 {
      NormalUnderscore(x[keys[0]]);
      assert rest == "" && Tail(y, keys[1..]) == "";
      assert Normal(y[keys[0]]) + "" == w + rest + "_";
    } else {
      assert keys[1..][|keys| - 2] == keys[|keys| - 1];
      TailTrails(x, y, keys[1..]);
      Assoc(w, rest, "_");
    }
    Assoc(Lead(keys[0]), w + rest, "_");
  }

  /** Underscores at the end of the last axis are trimmed, so a value there and the same value with one
      more underscore always collide, although their normal forms differ. */
  lemma TrailingSeparatorsCollide(origin: string, x: Combo, axis: string)
    requires axis in x && forall k :: k in x ==> StrLe(k, axis)
    ensures ExpandedId(origin, x[axis := x[axis] + "_"]) == ExpandedId(origin, x)
    ensures Normal(x[axis] + "_") != Normal(x[axis])
  {
    var y, keys := x[axis := x[axis] + "_"], Iter(x.Keys);
    assert y.Keys == x.Keys && axis in keys;
    LastIsGreatest(keys, axis);
    forall i | 0 <= i < |keys| - 1 ensures keys[i] in x && x[keys[i]] == y[keys[i]] {
      assert keys[i] in keys && StrLt(keys[i], keys[|keys| - 1]);
    }
    TailTrails(x, y, keys);
    ExpandedIdText(origin, x);
    ExpandedIdText(origin, y);
    Assoc(PushAll(origin), Tail(x, keys), "_");
    TrailingIsTrimmed(PushAll(origin) + Tail(x, keys));
    NormalUnderscore(x[axis]);
  }

  lemma LastIsGreatest(keys: seq<string>, axis: string)
    requires Ascending(keys) && axis in keys && forall k :: k in keys ==> StrLe(k, axis)
    ensures keys[|keys| - 1] == axis
  {
    var i :| 0 <= i < |keys| && keys[i] == axis;
    var last := |keys| - 1;
    assert keys[last] in keys;
    if i < last {
      assert StrLt(keys[i], keys[last]);
      StrLeAntisymmetric(keys[i], keys[last]);
    }
  }

  lemma OneAxis(axis: string)
    ensures Iter({axis}) == [axis]
  {
    AscendingUnique(Iter({axis}), [axis]);
  }

  lemma OneAxisId(origin: string, axis: string, value: string)
    ensures ExpandedId(origin, map[axis := value]) == TrimId(PushAll(origin) + Lead(axis) + Normal(value))
  {
    var combo: Combo := map[axis := value];
    assert combo.Keys == {axis};
    OneAxis(axis);
    ExpandedIdText(origin, combo);
    assert [axis][1..] == [];
    assert AfterFirstAxis(combo, [axis]) == Normal(value) + "" == Normal(value);
    Assoc(PushAll(origin), Lead(axis), Normal(value));
  }

  lemma {:induction false} TrimRightFrom(a: string)
    ensures TrimRight(a) <= a
    decreases |a|
  {
    if EndsWithUnderscore(a) { TrimRightFrom(a[..|a| - 1]); }
  }

  lemma SameTrimmed(lead: string, n: string, m: string)
    requires lead != "" && EndsWithUnderscore(lead) && lead[0] != '_'
    ensures OrUnnamed(TrimRight(lead + n)) == OrUnnamed(TrimRight(lead + m)) <==> TrimRight(n) == TrimRight(m)
  {
    TrimRightSplits(lead, n);
    TrimRightSplits(lead, m);
    VisibleStays(lead);
    TrimRightFrom(lead);
    if TrimRight(n) != "" && TrimRight(m) != "" && TrimRight(lead + n) == TrimRight(lead + m) {
      CancelPrefix(lead, TrimRight(n), TrimRight(m));
    }
  }

  lemma {:induction false} VisibleStays(s: string)
    requires s != "" && s[0] != '_'
    ensures TrimRight(s) != "" && (EndsWithUnderscore(s) ==> |TrimRight(s)| < |s|)
    decreases |s|
  {
    if EndsWithUnderscore(s) {
      TrimRightFrom(s[..|s| - 1]);
      VisibleStays(s[..|s| - 1]);
    }
  }

  /** A matrix with one axis, and every value it can have: two values get the same id exactly when their
      normal forms agree once trailing underscores are dropped. The name of the job or of the axis shows
      in the id. */
  lemma OneAxisCollidesExactly(origin: string, axis: string, v: string, w: string)
    requires TrimLeft(PushAll(origin) + Lead(axis)) != ""
    ensures ExpandedId(origin, map[axis := v]) == ExpandedId(origin, map[axis := w]) <==>
            TrimRight(Normal(v)) == TrimRight(Normal(w))
  {
    var lead := PushAll(origin) + Lead(axis);
    OneAxisId(origin, axis, v);
    OneAxisId(origin, axis, w);
    TrimLeftSplits(lead, Normal(v));
    TrimLeftSplits(lead, Normal(w));
    TrimmedLead(lead);
    SameTrimmed(TrimLeft(lead), Normal(v), Normal(w));
  }

  lemma {:induction false} TrimmedLead(s: string)
    requires TrimLeft(s) != "" && EndsWithUnderscore(s)
    ensures TrimLeft(s)[0] != '_' && EndsWithUnderscore(TrimLeft(s))
  {
    if s[0] == '_' {
      assert EndsWithUnderscore(s[1..]);
      TrimmedLead(s[1..]);
    }
  }

  lemma BangIsSeparator()
    ensures PushAll("!") == "_" && Normal("!") == "" && Normal("") == ""
  {
    assert "!"[..0] == "";
    assert PushAll("!") == Push(PushOn("", ""), '!') == "_";
    assert PushOn("_", "!") == Push(PushOn("_", ""), '!') == "_";
  }

  lemma BangLead()
    ensures PushAll("!") + Lead("!") == "____" && TrimLeft("____") == ""
  {
    BangIsSeparator();
    UnderscoresTrim("____");
  }

  lemma BangId(value: string)
    requires value == "" || IsPlainValue(value)
    ensures ExpandedId("!", map["!" := value]) == OrUnnamed(value)
  {
    OneAxisId("!", "!", value);
    BangLead();
    PlainIsNormal(value);
    if value == "" {
      assert "____" + value == "____";
    } else {
      TrimWordText("____", value);
    }
  }

  /** Empty values are no words for a reason: where nothing but separators is left, the fallback name
      collides with a value that spells it. */
  lemma EmptyValueCollides()
    ensures ExpandedId("!", map["!" := ""]) == ExpandedId("!", map["!" := "unnamed"])
  {
    BangId("");
    UnnamedIsPlain();
    BangId("unnamed");
  }

  lemma UnnamedIsPlain()
    ensures IsPlainValue("unnamed")
  {
    var s := "unnamed";
    forall i | 0 <= i <= |s| ensures !("__" <= s[i..]) { assert i + 1 < |s| ==> s[i..][0] != '_'; }
  }

  lemma {:induction false} UnderscoresTrim(s: string)
    requires forall i :: 0 <= i < |s| ==> s[i] == '_'
    ensures TrimLeft(s) == ""
  {
    if s != [] { UnderscoresTrim(s[1..]); }
  }
}
