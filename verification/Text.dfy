/** Small text utilities shared by the models: results, decimals, concatenation, character replacement. */
module Text {

  datatype Option<+T> = None | Some(value: T)

  datatype Result<+T, +E> = Ok(value: T) | Err(error: E)

  // --------------------------------------------------------------- decimals

  function Digit(d: nat): (c: char)
    requires d < 10
    ensures IsDigit(c) && DigitValue(c) == d
  {
    ('0' as int + d) as char
  }

  predicate IsDigit(c: char) { '0' <= c <= '9' }

  function DigitValue(c: char): nat
    requires IsDigit(c)
  {
    c as int - '0' as int
  }

  /** Decimal rendering of an unsigned integer. */
  function Dec(n: nat): (s: string)
    ensures s != [] && forall i :: 0 <= i < |s| ==> IsDigit(s[i])
    ensures n > 0 ==> s[0] != '0'
  {
    if n < 10 then [Digit(n)] else Dec(n / 10) + [Digit(n % 10)]
  }

  /** Value of a digit string read left to right. */
  function DecValue(s: string): nat
    requires forall i :: 0 <= i < |s| ==> IsDigit(s[i])
  {
    if s == [] then 0 else 10 * DecValue(s[..|s| - 1]) + DigitValue(s[|s| - 1])
  }

  lemma {:induction false} DecRoundTrip(n: nat)
    ensures DecValue(Dec(n)) == n
  {
    if n >= 10 {
      var s := Dec(n);
      assert s[..|s| - 1] == Dec(n / 10);
      DecRoundTrip(n / 10);
    }
  }

  /** Zero padding on the left. */
  function Padded(s: string, width: nat): string
    decreases width - |s|
  {
    if |s| >= width then s else Padded("0" + s, width)
  }

  ghost predicate AllDigits(s: string) { forall i :: 0 <= i < |s| ==> IsDigit(s[i]) }

  lemma {:induction false} LeadingZero(s: string)
    requires AllDigits(s)
    ensures AllDigits("0" + s) && DecValue("0" + s) == DecValue(s)
    decreases |s|
  {
    var z := "0" + s;
    if s == [] {
      assert z[..|z| - 1] == [];
    } else {
      assert z[..|z| - 1] == "0" + s[..|s| - 1];
      LeadingZero(s[..|s| - 1]);
    }
  }

  lemma {:induction false} PaddingKeepsValue(s: string, width: nat)
    requires AllDigits(s)
    ensures AllDigits(Padded(s, width)) && DecValue(Padded(s, width)) == DecValue(s)
    decreases width - |s|
  {
    if |s| < width {
      LeadingZero(s);
      PaddingKeepsValue("0" + s, width);
    }
  }

  lemma {:induction false} PaddedWidth(s: string, width: nat)
    ensures |Padded(s, width)| == if |s| >= width then |s| else width
    decreases width - |s|
  {
    if |s| < width { PaddedWidth("0" + s, width); }
  }

  // ----------------------------------------------------------- concatenation

  /** Concatenation of `f` over a list, in list order. */
  function Cat<T>(s: seq<T>, f: T -> string): string {
    if s == [] then "" else Cat(s[..|s| - 1], f) + f(s[|s| - 1])
  }

  lemma {:induction false} CatAppend<T>(a: seq<T>, b: seq<T>, f: T -> string)
    ensures Cat(a + b, f) == Cat(a, f) + Cat(b, f)
    decreases |b|
  {
    if b == [] {
      assert a + b == a;
    } else {
      assert (a + b)[..|a + b| - 1] == a + b[..|b| - 1];
      CatAppend(a, b[..|b| - 1], f);
    }
  }

  lemma Assoc<T>(a: seq<T>, b: seq<T>, c: seq<T>)
    ensures a + b + c == a + (b + c)
  {
  }

  lemma CancelPrefix<T>(prefix: seq<T>, a: seq<T>, b: seq<T>)
    requires prefix + a == prefix + b
    ensures a == b
  {
    assert (prefix + a)[|prefix|..] == a && (prefix + b)[|prefix|..] == b;
  }

  /** Concatenation of a list of texts. */
  function Concat<T>(s: seq<seq<T>>): seq<T> {
    if s == [] then [] else Concat(s[..|s| - 1]) + s[|s| - 1]
  }

  lemma {:induction false} ConcatMember<T(!new)>(s: seq<seq<T>>, x: T)
    ensures x in Concat(s) <==> exists part :: part in s && x in part
    decreases |s|
  {
    if s != [] {
      ConcatMember(s[..|s| - 1], x);
      assert s == s[..|s| - 1] + [s[|s| - 1]];
    }
  }

  lemma {:induction false} ConcatBlocksLength<T>(parts: seq<seq<T>>, n: nat)
    requires forall i :: 0 <= i < |parts| ==> |parts[i]| == n
    ensures |Concat(parts)| == |parts| * n
    decreases |parts|
  {
    if parts != [] {
      ConcatBlocksLength(parts[..|parts| - 1], n);
      OneMoreBlock(|parts| - 1, n);
    }
  }

  lemma OneMoreBlock(k: nat, n: nat)
    ensures k * n + n == (k + 1) * n
  {
  }

  /** Blocks of equal length lie at multiples of that length. */
  lemma {:induction false} ConcatBlocksAt<T>(parts: seq<seq<T>>, n: nat, a: nat, b: nat)
    requires forall i :: 0 <= i < |parts| ==> |parts[i]| == n
    requires a < |parts| && b < n
    ensures a * n + b < |Concat(parts)| && Concat(parts)[a * n + b] == parts[a][b]
    decreases |parts|
  {
    var last := |parts| - 1;
    ConcatBlocksLength(parts[..last], n);
    if a < last {
      ConcatBlocksAt(parts[..last], n, a, b);
    }
  }

  ghost predicate NoDuplicates<T>(s: seq<T>) { forall i, j :: 0 <= i < j < |s| ==> s[i] != s[j] }

  /** `f` applied to every element. */
  function MapSeq<A, B>(f: A -> B, s: seq<A>): (r: seq<B>)
    ensures |r| == |s| && forall i {:trigger r[i]} :: 0 <= i < |s| ==> r[i] == f(s[i])
  {
    if s == [] then [] else MapSeq(f, s[..|s| - 1]) + [f(s[|s| - 1])]
  }

  lemma MapFirst<A, B>(f: A -> B, s: seq<A>)
    requires s != []
    ensures MapSeq(f, s) == [f(s[0])] + MapSeq(f, s[1..])
  {
  }

  lemma MapPrefix<A, B>(f: A -> B, s: seq<A>, n: nat)
    requires n <= |s|
    ensures MapSeq(f, s)[..n] == MapSeq(f, s[..n])
  {
  }

  lemma ConcatMapGrows<A, B>(f: A -> seq<B>, s: seq<A>, i: nat)
    requires i < |s|
    ensures Concat(MapSeq(f, s[..i + 1])) == Concat(MapSeq(f, s[..i])) + f(s[i])
  {
    assert s[..i + 1][..i] == s[..i];
    var all := MapSeq(f, s[..i + 1]);
    assert all[..i] == MapSeq(f, s[..i]);
  }

  lemma ConcatMapMember<A(!new), B(!new)>(f: A -> seq<B>, s: seq<A>, x: B)
    ensures x in Concat(MapSeq(f, s)) <==> exists a :: a in s && x in f(a)
  {
    ConcatMember(MapSeq(f, s), x);
    if exists a :: a in s && x in f(a) {
      var a :| a in s && x in f(a);
      var i :| 0 <= i < |s| && s[i] == a;
      assert MapSeq(f, s)[i] == f(a);
    }
    if exists part :: part in MapSeq(f, s) && x in part {
      var i :| 0 <= i < |s| && x in MapSeq(f, s)[i];
      assert MapSeq(f, s)[i] == f(s[i]);
    }
  }

  lemma MapMember<A, B>(f: A -> B, s: seq<A>, x: A)
    requires x in s
    ensures f(x) in MapSeq(f, s)
  {
    var i :| 0 <= i < |s| && s[i] == x;
    assert MapSeq(f, s)[i] == f(x);
  }

  /** A loop that pushes `f` of each element. */
  method PushEach<A, B>(f: A -> B, s: seq<A>) returns (r: seq<B>)
    ensures r == MapSeq(f, s)
  {
    r := [];
    for i := 0 to |s|
      invariant r == MapSeq(f, s[..i])
    {
      assert s[..i + 1][..i] == s[..i];
      r := r + [f(s[i])];
    }
    assert s[..|s|] == s;
  }

  /** `join`: the texts with a separator between neighbours. */
  function Join(s: seq<string>, sep: string): string {
    if s == [] then ""
    else if |s| == 1 then s[0]
    else s[0] + sep + Join(s[1..], sep)
  }

  // ---------------------------------------------------------------- splitting

  /** A separator that occurs in neither front part is found at the same place in both texts. */
  lemma {:induction false} SplitAt(c: char, x: string, s: string, y: string, t: string)
    requires c !in x && c !in y && x + ([c] + s) == y + ([c] + t)
    ensures x == y && s == t
    decreases |x|
  {
    var a, b := x + ([c] + s), y + ([c] + t);
    assert x == [] ==> a[0] == c;
    assert y == [] ==> b[0] == c;
    assert x != [] ==> a[0] == x[0] && x[0] in x;
    assert y != [] ==> b[0] == y[0] && y[0] in y;
    if x == [] {
      assert a[1..] == s && b[1..] == t;
    } else {
      assert a[1..] == x[1..] + ([c] + s) && b[1..] == y[1..] + ([c] + t);
      SplitAt(c, x[1..], s, y[1..], t);
      assert x == [x[0]] + x[1..] && y == [y[0]] + y[1..];
    }
  }

  /** The text before the first `c`, and the text after it. */
  function Cut(s: string, c: char): (r: (string, string))
    ensures |r.0| <= |s| && |r.1| <= |s| && (s != [] ==> |r.1| < |s|)
  {
    if s == [] then ("", "")
    else if s[0] == c then ("", s[1..])
    else ([s[0]] + Cut(s[1..], c).0, Cut(s[1..], c).1)
  }

  lemma {:induction false} CutAtFirst(x: string, c: char, s: string)
    requires c !in x
    ensures Cut(x + ([c] + s), c) == (x, s)
    decreases |x|
  {
    var t := x + ([c] + s);
    if x == [] {
      assert t[0] == c && t[1..] == s;
    } else {
      assert t[0] == x[0] && x[0] in x && t[1..] == x[1..] + ([c] + s);
      CutAtFirst(x[1..], c, s);
      assert x == [x[0]] + x[1..];
    }
  }

  lemma {:induction false} CutFinds(s: string, c: char)
    ensures c !in Cut(s, c).0
    ensures if c in s then s == Cut(s, c).0 + ([c] + Cut(s, c).1) else Cut(s, c) == (s, "")
  {
    if s != [] {
      assert s == [s[0]] + s[1..];
      if s[0] != c { CutFinds(s[1..], c); }
    }
  }

  /** `split`: the parts between the separators. */
  function Split(s: string, c: char): (r: seq<string>)
    ensures r != []
    decreases |s|
  {
    if c !in s then [s] else var (x, rest) := Cut(s, c); [x] + Split(rest, c)
  }

  lemma {:induction false} SplitJoin(parts: seq<string>, c: char)
    requires parts != [] && forall x :: x in parts ==> c !in x
    ensures Split(Join(parts, [c]), c) == parts
    decreases |parts|
  {
    assert parts[0] in parts;
    if |parts| == 1 {
      assert parts == [parts[0]];
    } else {
      var rest := Join(parts[1..], [c]);
      assert Join(parts, [c]) == parts[0] + ([c] + rest);
      assert (parts[0] + ([c] + rest))[|parts[0]|] == c;
      CutAtFirst(parts[0], c, rest);
      SplitJoin(parts[1..], c);
      assert parts == [parts[0]] + parts[1..];
    }
  }

  lemma SplitFirst(a: string, c: char, rest: string)
    requires c !in a
    ensures Split(a + [c] + rest, c) == [a] + Split(rest, c)
  {
    assert a + [c] + rest == a + ([c] + rest);
    assert (a + ([c] + rest))[|a|] == c;
    CutAtFirst(a, c, rest);
  }

  // -------------------------------------------------------------- ASCII case

  predicate IsAsciiUpper(c: char) { 'A' <= c <= 'Z' }

  function AsciiLower(c: char): char { if IsAsciiUpper(c) then (c as int + 32) as char else c }

  // ------------------------------------------------------------- replacement

  /** `replace` of one character by a text. */
  function ReplaceChar(s: string, c: char, to: string): string {
    if s == [] then "" else (if s[0] == c then to else [s[0]]) + ReplaceChar(s[1..], c, to)
  }

  lemma {:induction false} ReplaceCharAppend(a: string, b: string, c: char, to: string)
    ensures ReplaceChar(a + b, c, to) == ReplaceChar(a, c, to) + ReplaceChar(b, c, to)
  {
    if a == [] {
      assert a + b == b;
    } else {
      assert (a + b)[1..] == a[1..] + b;
      ReplaceCharAppend(a[1..], b, c, to);
    }
  }

  /** `replace` of a text, from left to right and without overlaps. */
  function ReplaceText(s: string, needle: string, to: string): string
    requires needle != []
    decreases |s|
  {
    if s == [] then ""
    else if needle <= s then to + ReplaceText(s[|needle|..], needle, to)
    else [s[0]] + ReplaceText(s[1..], needle, to)
  }

  /** `s.contains(pattern)`. */
  predicate Contains(s: string, pattern: string) { exists i :: 0 <= i <= |s| && pattern <= s[i..] }

  lemma {:induction false} ReplaceNothing(s: string, needle: string, to: string)
    requires needle != [] && !Contains(s, needle)
    ensures ReplaceText(s, needle, to) == s
    decreases |s|
  {
    if s != [] {
      assert s[0..] == s;
      forall i | 0 <= i <= |s[1..]| ensures !(needle <= s[1..][i..]) { assert s[1..][i..] == s[i + 1..]; }
      ReplaceNothing(s[1..], needle, to);
      assert s == [s[0]] + s[1..];
    }
  }

  // -------------------------------------------------------------- whitespace

  /** The characters `str::trim` removes: the Unicode `White_Space` property. */
  predicate IsSpace(c: char) {
    var n := c as int;
    || 0x9 <= n <= 0xD || n == 0x20 || n == 0x85 || n == 0xA0 || n == 0x1680
    || 0x2000 <= n <= 0x200A || n == 0x2028 || n == 0x2029 || n == 0x202F
    || n == 0x205F || n == 0x3000
  }

  /** `s.trim().is_empty()`. */
  predicate Blank(s: string) { forall i :: 0 <= i < |s| ==> IsSpace(s[i]) }
}
