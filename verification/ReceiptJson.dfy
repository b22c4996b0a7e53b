/** Receipt serialisation without a JSON library (`jeryu-runner-core/src/receipt.rs`), read back by a
    lexer written from RFC 8259 (strings: section 7; numbers and literals as far as receipts use them). */
module ReceiptJson {
  import opened Text

  // ------------------------------------------------------------------ escaping

  /** `char::is_control`: the Unicode category Cc. */
  predicate IsControl(c: char) { c as int < 0x20 || 0x7F <= c as int <= 0x9F }

  function HexDigit(d: nat): char
    requires d < 16
  {
    if d < 10 then ('0' as int + d) as char else ('a' as int + d - 10) as char
  }

  predicate IsHex(c: char) { '0' <= c <= '9' || 'a' <= c <= 'f' || 'A' <= c <= 'F' }

  function HexValue(c: char): nat
    requires IsHex(c)
  {
    if '0' <= c <= '9' then c as int - '0' as int
    else if 'a' <= c <= 'f' then c as int - 'a' as int + 10
    else c as int - 'A' as int + 10
  }

  /** `{:04x}` of a value below 0x10000. */
  function Hex4(n: nat): string
    requires n < 0x10000
  {
    [HexDigit(n / 16 / 16 / 16), HexDigit(n / 16 / 16 % 16), HexDigit(n / 16 % 16), HexDigit(n % 16)]
  }

  function EscapeChar(c: char): string {
    if c == '\\' then "\\\\"
    else if c == '"' then "\\\""
    else if c == '\n' then "\\n"
    else if c == '\r' then "\\r"
    else if c == '\t' then "\\t"
    else if IsControl(c) then "\\u" + Hex4(c as int)
    else [c]
  }

  function Escape(s: string): string {
    if s == [] then "" else EscapeChar(s[0]) + Escape(s[1..])
  }

  lemma {:induction false} EscapeAppend(s: string, c: char)
    ensures Escape(s + [c]) == Escape(s) + EscapeChar(c)
    decreases |s|
  {
    if s == [] {
      assert s + [c] == [c] && [c][1..] == [];
    } else {
      assert (s + [c])[1..] == s[1..] + [c];
      EscapeAppend(s[1..], c);
    }
  }

  /** The character loop of `escape_json`. */
  method EscapeJson(value: string) returns (out: string)
    ensures out == Escape(value)
  {
    out := "";
    for i := 0 to |value|
      invariant out == Escape(value[..i])
    {
      assert value[..i + 1] == value[..i] + [value[i]];
      EscapeAppend(value[..i], value[i]);
      out := out + EscapeChar(value[i]);
    }
    assert value[..|value|] == value;
  }

  // ------------------------------------------- reading strings, RFC 8259 section 7

  /** The escape after a backslash: the character it stands for and the number of characters used. */
  function ReadEscape(t: string): (r: Option<(char, nat)>)
    ensures r.Some? ==> 1 <= r.value.1 <= |t|
  {
    if t == [] then None
    else match t[0]
      case '"' => Some(('"', 1))
      case '\\' => Some(('\\', 1))
      case '/' => Some(('/', 1))
      case 'b' => Some((8 as char, 1))
      case 'f' => Some((12 as char, 1))
      case 'n' => Some(('\n', 1))
      case 'r' => Some(('\r', 1))
      case 't' => Some(('\t', 1))
      case 'u' => ReadUnicode(t)
      case _ => None
  }

  predicate FourHex(t: string) { |t| >= 4 && IsHex(t[0]) && IsHex(t[1]) && IsHex(t[2]) && IsHex(t[3]) }

  function Unit(t: string): nat
    requires FourHex(t)
  {
    HexValue(t[0]) * 4096 + HexValue(t[1]) * 256 + HexValue(t[2]) * 16 + HexValue(t[3])
  }

  /** `uXXXX`, with a surrogate pair read as one character and a lone surrogate refused. */
  function ReadUnicode(t: string): (r: Option<(char, nat)>)
    requires t != []
    ensures r.Some? ==> 1 <= r.value.1 <= |t|
  {
    if !FourHex(t[1..]) then None else
      var unit := Unit(t[1..]);
      if unit < 0xD800 || 0xE000 <= unit < 0x10000 then Some((unit as char, 5))
      else if unit < 0xDC00 && |t| >= 11 && t[5] == '\\' && t[6] == 'u'
              && FourHex(t[7..]) && 0xDC00 <= Unit(t[7..]) < 0xE000
      then Some(((0x10000 + (unit - 0xD800) * 0x400 + (Unit(t[7..]) - 0xDC00)) as char, 11))
      else None
  }

  /** Reads the characters after an opening quote up to the closing one: the string and what follows. */
  function ScanString(t: string): (r: Option<(string, string)>)
    ensures r.Some? ==> |r.value.1| < |t|
    decreases |t|
  {
    if t == [] || t[0] as int < 0x20 then None
    else if t[0] == '"' then Some(("", t[1..]))
    else if t[0] == '\\' then
      var e := ReadEscape(t[1..]);
      if e.None? then None else Then(e.value.0, ScanString(t[1 + e.value.1..]))
    else Then(t[0], ScanString(t[1..]))
  }

  function Then(c: char, rest: Option<(string, string)>): Option<(string, string)> {
    if rest.None? then None else Some(([c] + rest.value.0, rest.value.1))
  }

  lemma HexDigitRoundTrip(d: nat)
    requires d < 16
    ensures IsHex(HexDigit(d)) && HexValue(HexDigit(d)) == d
  {
  }

  lemma HexPositions(n: nat)
    requires n < 0x10000
    ensures n == n / 16 / 16 / 16 * 4096 + n / 16 / 16 % 16 * 256 + n / 16 % 16 * 16 + n % 16
  {
    var p := n / 16;
    var q := p / 16;
    assert n == p * 16 + n % 16;
    assert p == q * 16 + p % 16;
    assert q == q / 16 * 16 + q % 16;
  }

  lemma UnitRoundTrip(n: nat, rest: string)
    requires n < 0x10000
    ensures FourHex(Hex4(n) + rest) && Unit(Hex4(n) + rest) == n
  {
    HexDigitRoundTrip(n / 16 / 16 / 16);
    HexDigitRoundTrip(n / 16 / 16 % 16);
    HexDigitRoundTrip(n / 16 % 16);
    HexDigitRoundTrip(n % 16);
    HexPositions(n);
  }

  lemma ScanBackslash(t: string, c: char, n: nat, rest: string)
    requires t != [] && t[0] == '\\' && ReadEscape(t[1..]) == Some((c, n)) && t[1 + n..] == rest
    ensures ScanString(t) == Then(c, ScanString(rest))
  {
    var e := ReadEscape(t[1..]);
    assert e.value.0 == c && e.value.1 == n;
    assert t[1 + e.value.1..] == rest;
  }

  lemma ReadEscapedControl(c: char, rest: string)
    requires IsControl(c)
    ensures ReadEscape("u" + Hex4(c as int) + rest) == Some((c, 5))
  {
    var t := "u" + Hex4(c as int) + rest;
    assert t[1..] == Hex4(c as int) + rest;
    UnitRoundTrip(c as int, rest);
    assert ReadEscape(t) == ReadUnicode(t);
  }

  /** A scanner that meets the escape of a character reads that character and goes on behind it. */
  lemma ScanEscapedChar(c: char, rest: string)
    ensures ScanString(EscapeChar(c) + rest) == Then(c, ScanString(rest))
  {
    var t := EscapeChar(c) + rest;
    if c == '\\' || c == '"' || c == '\n' || c == '\r' || c == '\t' {
      assert t[2..] == rest;
      ScanBackslash(t, c, 1, rest);
    } else if IsControl(c) {
      assert t[1..] == "u" + Hex4(c as int) + rest;
      ReadEscapedControl(c, rest);
      assert t[6..] == rest;
      ScanBackslash(t, c, 5, rest);
    } else {
      assert t[1..] == rest;
    }
  }

  /** Round trip: scanning an escaped string returns the string, and the scanner finds the closing
      quote exactly where it was written, whatever follows. */
  lemma {:induction false} EscapeRoundTrip(s: string, rest: string)
    ensures ScanString(Escape(s) + "\"" + rest) == Some((s, rest))
    decreases |s|
  {
    var tail := Escape(s[if s == [] then 0 else 1..]) + "\"" + rest;
    if s == [] {
      assert Escape(s) + "\"" + rest == "\"" + rest;
      assert ("\"" + rest)[1..] == rest;
    } else {
      assert Escape(s) + "\"" + rest == EscapeChar(s[0]) + tail;
      EscapeRoundTrip(s[1..], rest);
      ScanEscapedChar(s[0], tail);
      assert s == [s[0]] + s[1..];
    }
  }

  lemma HexIsPrintable(d: nat)
    requires d < 16
    ensures !IsControl(HexDigit(d)) && HexDigit(d) != '"'
  {
  }

  /** Escaped text is one printable line: it holds no control character at all. */
  lemma {:induction false} EscapedTextIsPrintable(s: string)
    ensures forall i :: 0 <= i < |Escape(s)| ==> !IsControl(Escape(s)[i])
    decreases |s|
  {
    if s != [] {
      EscapedTextIsPrintable(s[1..]);
      var c := s[0];
      if IsControl(c) {
        HexIsPrintable(c as int / 16 / 16 / 16);
        HexIsPrintable(c as int / 16 / 16 % 16);
        HexIsPrintable(c as int / 16 % 16);
        HexIsPrintable(c as int % 16);
      }
    }
  }

  /** Escapes are as short as the format allows: nothing but quotes, backslashes and control characters
      is escaped at all, five characters have an escape of two characters, the others one of six with
      small hexadecimal digits. */
  lemma EscapesAreShort(c: char)
    ensures EscapeChar(c) == [c] <==> !IsControl(c) && c != '"' && c != '\\'
    ensures |EscapeChar(c)| == 2 <==> c in ['\\', '"', '\n', '\r', '\t']
    ensures |EscapeChar(c)| <= 2 || (|EscapeChar(c)| == 6 && EscapeChar(c)[..2] == "\\u")
    ensures forall i :: 1 <= i < |EscapeChar(c)| ==> !IsAsciiUpper(EscapeChar(c)[i])
  {
  }

  /** Different strings have different escaped forms. */
  lemma EscapeIsInjective(a: string, b: string)
    requires Escape(a) == Escape(b)
    ensures a == b
  {
    EscapeRoundTrip(a, "");
    EscapeRoundTrip(b, "");
  }

  // ---------------------------------------------------------------- receipt text

  datatype ReceiptStatus = Planned | PassedStatus | FailedStatus | TimedOut | Denied

  function StatusText(s: ReceiptStatus): string {
    match s
    case Planned => "planned"
    case PassedStatus => "passed"
    case FailedStatus => "failed"
    case TimedOut => "timed_out"
    case Denied => "denied"
  }

  datatype Receipt =
    Receipt(receiptId: string, jobId: string, repoId: string, commitSha: string, runnerClass: string, trustTier: string,
            status: ReceiptStatus, exitCode: Option<int>, startedMs: nat, finishedMs: nat, reasons: seq<string>,
            sandbox: string, message: string)

  function IntText(n: int): string { if n < 0 then "-" + Dec(-n) else Dec(n) }

  function Quoted(s: string): string { "\"" + Escape(s) + "\"" }

  /** The quoted reasons with commas between them. */
  function ReasonsText(reasons: seq<string>): string {
    if reasons == [] then ""
    else if |reasons| == 1 then Quoted(reasons[0])
    else Quoted(reasons[0]) + "," + ReasonsText(reasons[1..])
  }

  /** `"key":value`. */
  function Member(key: string, value: string): string { "\"" + key + "\":" + value }

  /** The kinds of value a receipt holds. A label is written without escaping. */
  datatype Value = Text(s: string) | Label(s: string) | Number(n: int) | NullValue | List(items: seq<string>)

  function ValueText(v: Value): string {
    match v
    case Text(s) => Quoted(s)
    case Label(s) => "\"" + s + "\""
    case Number(n) => IntText(n)
    case NullValue => "null"
    case List(items) => "[" + ReasonsText(items) + "]"
  }

  datatype Field = Field(key: string, value: Value)

  /** The members with commas between them. */
  function MembersText(fields: seq<Field>): string {
    if fields == [] then ""
    else if |fields| == 1 then Member(fields[0].key, ValueText(fields[0].value))
    else Member(fields[0].key, ValueText(fields[0].value)) + "," + MembersText(fields[1..])
  }

  /** The members of a receipt, in the order `to_json` writes them. */
  function Fields(r: Receipt): seq<Field> {
    [Field("receipt_id", Text(r.receiptId)), Field("job_id", Text(r.jobId)), Field("repo_id", Text(r.repoId)),
     Field("commit_sha", Text(r.commitSha)), Field("runner_class", Text(r.runnerClass)),
     Field("trust_tier", Text(r.trustTier)), Field("status", Label(StatusText(r.status))),
     Field("exit_code", if r.exitCode.Some? then Number(r.exitCode.value) else NullValue),
     Field("started_ms", Number(r.startedMs)), Field("finished_ms", Number(r.finishedMs)),
     Field("reasons", List(r.reasons)), Field("sandbox", Text(r.sandbox)), Field("message", Text(r.message))]
  }

  /** `Receipt::to_json`. */
  function ToJson(r: Receipt): string { "{" + MembersText(Fields(r)) + "}" }

  // ----------------------------------------------------------------------- lexer

  datatype Token = Punct(c: char) | Str(text: string) | Num(n: int) | Null

  predicate IsPunct(c: char) { c == '{' || c == '}' || c == '[' || c == ']' || c == ':' || c == ',' }

  /** The leading digits of a text. */
  function Digits(t: string): (d: string)
    ensures |d| <= |t| && d == t[..|d|] && forall i :: 0 <= i < |d| ==> IsDigit(d[i])
  {
    if t != [] && IsDigit(t[0]) then [t[0]] + Digits(t[1..]) else []
  }

  /** One token at the front of a non-empty text, and the rest. */
  function NextToken(t: string): (r: Option<(Token, string)>)
    requires t != []
    ensures r.Some? ==> |r.value.1| < |t|
  {
    if IsPunct(t[0]) then Some((Punct(t[0]), t[1..]))
    else if t[0] == '"' then
      var s := ScanString(t[1..]);
      if s.None? then None else Some((Str(s.value.0), s.value.1))
    else if IsDigit(t[0]) then
      var d := Digits(t);
      Some((Num(DecValue(d)), t[|d|..]))
    else if t[0] == '-' && Digits(t[1..]) != [] then
      var d := Digits(t[1..]);
      Some((Num(0 - DecValue(d)), t[1 + |d|..]))
    else if "null" <= t then Some((Null, t[4..]))
    else None
  }

  function Lex(t: string): Option<seq<Token>>
    decreases |t|
  {
    if t == [] then Some([]) else
      var next := NextToken(t);
      if next.None? then None else
        var rest := Lex(next.value.1);
        if rest.None? then None else Some([next.value.0] + rest.value)
  }

  function Prepend(toks: seq<Token>, rest: Option<seq<Token>>): Option<seq<Token>> {
    if rest.None? then None else Some(toks + rest.value)
  }

  /** Text that cannot continue a number. */
  predicate Breaks(rest: string) { rest == [] || !IsDigit(rest[0]) }

  /** `text` reads as `toks` in front of anything that does not continue a number. */
  ghost predicate Reads(text: string, toks: seq<Token>) {
    forall rest {:trigger Breaks(rest)} :: Breaks(rest) ==> Lex(text + rest) == Prepend(toks, Lex(rest))
  }

  lemma ReadsThen(a: string, x: seq<Token>, b: string, y: seq<Token>)
    requires Reads(a, x) && Reads(b, y) && b != [] && !IsDigit(b[0])
    ensures Reads(a + b, x + y)
  {
    forall rest | Breaks(rest) ensures Lex(a + b + rest) == Prepend(x + y, Lex(rest)) {
      assert a + b + rest == a + (b + rest);
      ReadsAt(a, x, b + rest);
      ReadsAt(b, y, rest);
      PrependTwice(x, y, Lex(rest));
    }
  }

  lemma ReadsAt(text: string, toks: seq<Token>, rest: string)
    requires Reads(text, toks) && Breaks(rest)
    ensures Lex(text + rest) == Prepend(toks, Lex(rest))
  {
  }

  lemma PrependTwice(x: seq<Token>, y: seq<Token>, rest: Option<seq<Token>>)
    ensures Prepend(x, Prepend(y, rest)) == Prepend(x + y, rest)
  {
    if rest.Some? { assert x + (y + rest.value) == x + y + rest.value; }
  }

  /** One token in front: the step all the readings below come down to. */
  lemma LexFirst(t: string, tok: Token, rest: string)
    requires t != [] && NextToken(t) == Some((tok, rest))
    ensures Lex(t) == Prepend([tok], Lex(rest))
  {
  }

  lemma PunctReads(c: char)
    requires IsPunct(c)
    ensures Reads([c], [Punct(c)])
  {
    forall rest | Breaks(rest) ensures Lex([c] + rest) == Prepend([Punct(c)], Lex(rest)) {
      assert ([c] + rest)[1..] == rest;
      LexFirst([c] + rest, Punct(c), rest);
    }
  }

  lemma QuotedFirst(s: string, rest: string)
    ensures Lex(Quoted(s) + rest) == Prepend([Str(s)], Lex(rest))
  {
    var t := Quoted(s) + rest;
    assert t[1..] == Escape(s) + "\"" + rest;
    EscapeRoundTrip(s, rest);
    LexFirst(t, Str(s), rest);
  }

  lemma QuotedReads(s: string)
    ensures Reads(Quoted(s), [Str(s)])
  {
    forall rest | Breaks(rest) ensures Lex(Quoted(s) + rest) == Prepend([Str(s)], Lex(rest)) { QuotedFirst(s, rest); }
  }

  lemma {:induction false} DigitsStop(d: string, rest: string)
    requires (forall i :: 0 <= i < |d| ==> IsDigit(d[i])) && Breaks(rest)
    ensures Digits(d + rest) == d
    decreases |d|
  {
    if d == [] {
      assert d + rest == rest;
    } else {
      assert (d + rest)[1..] == d[1..] + rest;
      DigitsStop(d[1..], rest);
    }
  }

  lemma NatReads(n: nat)
    ensures Reads(Dec(n), [Num(n)])
  {
    forall rest | Breaks(rest) ensures Lex(Dec(n) + rest) == Prepend([Num(n)], Lex(rest)) {
      var t := Dec(n) + rest;
      DigitsStop(Dec(n), rest);
      DecRoundTrip(n);
      assert t[|Dec(n)|..] == rest;
      LexFirst(t, Num(n), rest);
    }
  }

  lemma IntReads(n: int)
    ensures Reads(IntText(n), [Num(n)])
  {
    if n >= 0 {
      NatReads(n);
    } else {
      forall rest | Breaks(rest) ensures Lex(IntText(n) + rest) == Prepend([Num(n)], Lex(rest)) {
        NegativeFirst(-n, rest);
        LexFirst(IntText(n) + rest, Num(n), rest);
      }
    }
  }

  lemma SignedFirst(t: string, d: string)
    requires t != [] && t[0] == '-' && d != [] && Digits(t[1..]) == d
    ensures NextToken(t) == Some((Num(0 - DecValue(d)), t[1 + |d|..]))
  {
  }

  lemma MinusSplits(d: string, rest: string)
    ensures ("-" + d + rest)[1..] == d + rest && ("-" + d + rest)[1 + |d|..] == rest
  {
  }

  lemma NegativeFirst(n: nat, rest: string)
    requires n > 0 && Breaks(rest)
    ensures NextToken("-" + Dec(n) + rest) == Some((Num(0 - n), rest))
  {
    DigitsStop(Dec(n), rest);
    DecRoundTrip(n);
    MinusSplits(Dec(n), rest);
    SignedFirst("-" + Dec(n) + rest, Dec(n));
  }

  lemma NullReads()
    ensures Reads("null", [Null])
  {
    forall rest | Breaks(rest) ensures Lex("null" + rest) == Prepend([Null], Lex(rest)) {
      var t := "null" + rest;
      assert t[..4] == "null" && t[4..] == rest;
      assert t[0] == 'n';
      LexFirst(t, Null, rest);
    }
  }

  function ReasonTokens(reasons: seq<string>): seq<Token> {
    if reasons == [] then []
    else if |reasons| == 1 then [Str(reasons[0])]
    else [Str(reasons[0]), Punct(',')] + ReasonTokens(reasons[1..])
  }

  lemma {:induction false} ReasonsRead(reasons: seq<string>)
    ensures Reads("[" + ReasonsText(reasons) + "]", [Punct('[')] + ReasonTokens(reasons) + [Punct(']')])
  {
    PunctReads('[');
    PunctReads(']');
    if reasons == [] {
      ReadsThen("[", [Punct('[')], "]", [Punct(']')]);
      assert "[" + ReasonsText(reasons) + "]" == "[" + "]";
      assert [Punct('[')] + ReasonTokens(reasons) + [Punct(']')] == [Punct('[')] + [Punct(']')];
    } else {
      ReasonListReads(reasons);
      ReadsThen("[", [Punct('[')], ReasonsText(reasons), ReasonTokens(reasons));
      ReadsThen("[" + ReasonsText(reasons), [Punct('[')] + ReasonTokens(reasons), "]", [Punct(']')]);
    }
  }

  lemma {:induction false} ReasonListReads(reasons: seq<string>)
    requires reasons != []
    ensures Reads(ReasonsText(reasons), ReasonTokens(reasons)) && ReasonsText(reasons)[0] == '"'
    decreases |reasons|
  {
    QuotedReads(reasons[0]);
    if |reasons| > 1 {
      ReasonListReads(reasons[1..]);
      PunctReads(',');
      ReadsThen(Quoted(reasons[0]), [Str(reasons[0])], ",", [Punct(',')]);
      ReadsThen(Quoted(reasons[0]) + ",", [Str(reasons[0])] + [Punct(',')], ReasonsText(reasons[1..]),
                ReasonTokens(reasons[1..]));
      assert [Str(reasons[0])] + [Punct(',')] == [Str(reasons[0]), Punct(',')];
    }
  }

  /** Characters the escaper leaves alone. */
  predicate IsPlain(c: char) { EscapeChar(c) == [c] }

  lemma {:induction false} PlainIsUnescaped(s: string)
    requires forall i :: 0 <= i < |s| ==> IsPlain(s[i])
    ensures Escape(s) == s
    decreases |s|
  {
    if s != [] {
      PlainIsUnescaped(s[1..]);
      assert s == [s[0]] + s[1..];
    }
  }

  lemma MemberReads(key: string, value: string, toks: seq<Token>)
    requires (forall i :: 0 <= i < |key| ==> IsPlain(key[i])) && Reads(value, toks) && value != []
    ensures Reads(Member(key, value), [Str(key), Punct(':')] + toks) && Member(key, value)[0] == '"'
  {
    PlainIsUnescaped(key);
    QuotedReads(key);
    PunctReads(':');
    assert Reads(Quoted(key) + ":", [Str(key)] + [Punct(':')]) by {
      ReadsThen(Quoted(key), [Str(key)], ":", [Punct(':')]);
    }
    forall rest | Breaks(rest)
      ensures Lex(Member(key, value) + rest) == Prepend([Str(key), Punct(':')] + toks, Lex(rest)) {
      MemberThen(key, value, toks, rest);
    }
  }

  lemma KeyFirst(key: string, tail: string)
    requires Escape(key) == key
    ensures Lex("\"" + key + "\"" + tail) == Prepend([Str(key)], Lex(tail))
  {
    QuotedFirst(key, tail);
  }

  lemma ColonFirst(tail: string)
    ensures Lex(":" + tail) == Prepend([Punct(':')], Lex(tail))
  {
    assert (":" + tail)[1..] == tail;
    LexFirst(":" + tail, Punct(':'), tail);
  }

  lemma MemberText(key: string, value: string, rest: string)
    ensures Member(key, value) + rest == "\"" + key + "\"" + (":" + (value + rest))
  {
  }

  lemma ColonThen(value: string, toks: seq<Token>, rest: string)
    requires Reads(value, toks) && Breaks(rest)
    ensures Lex(":" + (value + rest)) == Prepend([Punct(':')], Prepend(toks, Lex(rest)))
  {
    ColonFirst(value + rest);
    ReadsAt(value, toks, rest);
  }

  /** A value may start with a digit: a colon in front of it does not continue a number. */
  lemma MemberThen(key: string, value: string, toks: seq<Token>, rest: string)
    requires Escape(key) == key && Reads(value, toks) && Breaks(rest)
    ensures Lex(Member(key, value) + rest) == Prepend([Str(key), Punct(':')] + toks, Lex(rest))
  {
    MemberText(key, value, rest);
    KeyFirst(key, ":" + (value + rest));
    ColonThen(value, toks, rest);
    PrependThrice(Str(key), Punct(':'), toks, Lex(rest));
  }

  lemma PrependThrice(a: Token, b: Token, toks: seq<Token>, rest: Option<seq<Token>>)
    ensures Prepend([a], Prepend([b], Prepend(toks, rest))) == Prepend([a, b] + toks, rest)
  {
    PrependTwice([b], toks, rest);
    PrependTwice([a], [b] + toks, rest);
    assert [a] + ([b] + toks) == [a, b] + toks;
  }

  // -------------------------------------------------------------- the whole receipt

  ghost predicate AllPlain(s: string) { forall i :: 0 <= i < |s| ==> IsPlain(s[i]) }

  function ValueTokens(v: Value): seq<Token> {
    match v
    case Text(s) => [Str(s)]
    case Label(s) => [Str(s)]
    case Number(n) => [Num(n)]
    case NullValue => [Null]
    case List(items) => [Punct('[')] + ReasonTokens(items) + [Punct(']')]
  }

  lemma ValueReads(v: Value)
    requires v.Label? ==> AllPlain(v.s)
    ensures Reads(ValueText(v), ValueTokens(v)) && ValueText(v) != []
  {
    match v
    case Text(s) => QuotedReads(s);
    case Label(s) => PlainIsUnescaped(s); QuotedReads(s);
    case Number(n) => IntReads(n);
    case NullValue => NullReads();
    case List(items) => ReasonsRead(items);
  }

  function FieldTokens(f: Field): seq<Token> { [Str(f.key), Punct(':')] + ValueTokens(f.value) }

  function MembersTokens(fields: seq<Field>): seq<Token> {
    if fields == [] then []
    else if |fields| == 1 then FieldTokens(fields[0])
    else FieldTokens(fields[0]) + [Punct(',')] + MembersTokens(fields[1..])
  }

  /** Keys and labels that can be written without escaping. */
  ghost predicate PlainField(f: Field) { AllPlain(f.key) && (f.value.Label? ==> AllPlain(f.value.s)) }

  lemma {:induction false} MembersRead(fields: seq<Field>)
    requires fields != [] && forall i :: 0 <= i < |fields| ==> PlainField(fields[i])
    ensures Reads(MembersText(fields), MembersTokens(fields)) && MembersText(fields) != []
    ensures MembersText(fields)[0] == '"'
    decreases |fields|
  {
    var f := fields[0];
    ValueReads(f.value);
    MemberReads(f.key, ValueText(f.value), ValueTokens(f.value));
    if |fields| > 1 {
      MembersRead(fields[1..]);
      var text := Member(f.key, ValueText(f.value));
      PunctReads(',');
      ReadsThen(text, FieldTokens(f), ",", [Punct(',')]);
      ReadsThen(text + ",", FieldTokens(f) + [Punct(',')], MembersText(fields[1..]), MembersTokens(fields[1..]));
    }
  }

  function ReceiptTokens(r: Receipt): seq<Token> { [Punct('{')] + MembersTokens(Fields(r)) + [Punct('}')] }

  predicate IsWordChar(c: char) { 'a' <= c <= 'z' || c == '_' }

  lemma WordIsPlain(s: string)
    requires forall i :: 0 <= i < |s| ==> IsWordChar(s[i])
    ensures AllPlain(s)
  {
  }

  lemma IdKeysArePlain()
    ensures AllPlain("receipt_id") && AllPlain("job_id") && AllPlain("repo_id") && AllPlain("commit_sha")
  {
    WordIsPlain("receipt_id");
    WordIsPlain("job_id");
    WordIsPlain("repo_id");
    WordIsPlain("commit_sha");
  }

  lemma RunKeysArePlain()
    ensures AllPlain("runner_class") && AllPlain("trust_tier") && AllPlain("status") && AllPlain("exit_code")
  {
    WordIsPlain("runner_class");
    WordIsPlain("trust_tier");
    WordIsPlain("status");
    WordIsPlain("exit_code");
  }

  lemma EndKeysArePlain()
    ensures AllPlain("started_ms") && AllPlain("finished_ms") && AllPlain("reasons") && AllPlain("sandbox")
    ensures AllPlain("message")
  {
    WordIsPlain("started_ms");
    WordIsPlain("finished_ms");
    WordIsPlain("reasons");
    WordIsPlain("sandbox");
    WordIsPlain("message");
  }

  lemma StatusIsPlain(s: ReceiptStatus)
    ensures AllPlain(StatusText(s))
  {
    WordIsPlain(StatusText(s));
  }

  lemma KeysArePlain(r: Receipt)
    ensures forall i :: 0 <= i < |Fields(r)| ==> PlainField(Fields(r)[i])
  {
    IdKeysArePlain();
    RunKeysArePlain();
    EndKeysArePlain();
    StatusIsPlain(r.status);
  }

  /** The serialised receipt lexes to exactly its members: every field value comes back as written,
      whatever quotes, backslashes or control characters the strings contain. */
  lemma ReceiptReadsBack(r: Receipt)
    ensures Lex(ToJson(r)) == Some(ReceiptTokens(r))
  {
    var fields := Fields(r);
    KeysArePlain(r);
    MembersRead(fields);
    PunctReads('{');
    PunctReads('}');
    ReadsThen("{", [Punct('{')], MembersText(fields), MembersTokens(fields));
    ReadsThen("{" + MembersText(fields), [Punct('{')] + MembersTokens(fields), "}", [Punct('}')]);
    ReadsAt(ToJson(r), ReceiptTokens(r), "");
    assert ToJson(r) + "" == ToJson(r);
    assert ReceiptTokens(r) + [] == ReceiptTokens(r);
  }

  // ------------------------------------------------------------- reading the object

  /** What a reader of JSON sees: it cannot tell a label from a text. */
  datatype Json = JText(s: string) | JNumber(n: int) | JNull | JList(items: seq<string>)

  /** The strings of a list up to its closing bracket, and the tokens after it. */
  function ReadList(toks: seq<Token>): (r: Option<(seq<string>, seq<Token>)>)
    ensures r.Some? ==> |r.value.1| < |toks|
  {
    if |toks| >= 1 && toks[0] == Punct(']') then Some(([], toks[1..]))
    else if |toks| >= 2 && toks[0].Str? && toks[1] == Punct(']') then Some(([toks[0].text], toks[2..]))
    else if |toks| >= 2 && toks[0].Str? && toks[1] == Punct(',') then
      var rest := ReadList(toks[2..]);
      if rest.None? then None else Some(([toks[0].text] + rest.value.0, rest.value.1))
    else None
  }

  function ReadValue(toks: seq<Token>): (r: Option<(Json, seq<Token>)>)
    ensures r.Some? ==> |r.value.1| < |toks|
  {
    if toks == [] then None
    else match toks[0]
      case Str(s) => Some((JText(s), toks[1..]))
      case Num(n) => Some((JNumber(n), toks[1..]))
      case Null => Some((JNull, toks[1..]))
      case Punct(c) =>
        if c != '[' then None else
          var list := ReadList(toks[1..]);
          if list.None? then None else Some((JList(list.value.0), list.value.1))
  }

  /** The members of an object up to its closing brace, which ends the text. */
  function ReadMembers(toks: seq<Token>): Option<seq<(string, Json)>>
    decreases |toks|
  {
    if |toks| < 2 || !toks[0].Str? || toks[1] != Punct(':') then None else
      var value := ReadValue(toks[2..]);
      if value.None? || value.value.1 == [] then None else
        var member, after := (toks[0].text, value.value.0), value.value.1;
        if after == [Punct('}')] then Some([member])
        else if after[0] != Punct(',') then None else
          var rest := ReadMembers(after[1..]);
          if rest.None? then None else Some([member] + rest.value)
  }

  function ReadObject(text: string): Option<seq<(string, Json)>> {
    var toks := Lex(text);
    if toks.None? || toks.value == [] || toks.value[0] != Punct('{') then None else ReadMembers(toks.value[1..])
  }

  function AsJson(v: Value): Json {
    match v
    case Text(s) => JText(s)
    case Label(s) => JText(s)
    case Number(n) => JNumber(n)
    case NullValue => JNull
    case List(items) => JList(items)
  }

  lemma {:induction false} ListReads(items: seq<string>, rest: seq<Token>)
    ensures ReadList(ReasonTokens(items) + ([Punct(']')] + rest)) == Some((items, rest))
    decreases |items|
  {
    var toks := ReasonTokens(items) + ([Punct(']')] + rest);
    if items == [] {
      assert toks[0] == Punct(']') && toks[1..] == rest;
    } else if |items| == 1 {
      assert toks[0] == Str(items[0]) && toks[1] == Punct(']') && toks[2..] == rest;
      assert items == [items[0]];
    } else {
      assert toks[0] == Str(items[0]) && toks[1] == Punct(',');
      assert toks[2..] == ReasonTokens(items[1..]) + ([Punct(']')] + rest);
      ListReads(items[1..], rest);
      assert items == [items[0]] + items[1..];
    }
  }

  lemma ValueIsRead(v: Value, rest: seq<Token>)
    ensures ReadValue(ValueTokens(v) + rest) == Some((AsJson(v), rest))
  {
    var toks := ValueTokens(v) + rest;
    if v.List? {
      assert toks[0] == Punct('[') && toks[1..] == ReasonTokens(v.items) + ([Punct(']')] + rest);
      ListReads(v.items, rest);
    } else {
      assert toks[0] == ValueTokens(v)[0] && toks[1..] == rest;
    }
  }

  lemma MemberIsRead(f: Field, rest: seq<Token>)
    ensures var toks := FieldTokens(f) + rest;
      toks[0] == Str(f.key) && toks[1] == Punct(':') && ReadValue(toks[2..]) == Some((AsJson(f.value), rest))
  {
    var toks := FieldTokens(f) + rest;
    assert toks[2..] == ValueTokens(f.value) + rest;
    ValueIsRead(f.value, rest);
  }

  function AsMember(f: Field): (string, Json) { (f.key, AsJson(f.value)) }

  lemma LastMemberIsRead(f: Field)
    ensures ReadMembers(FieldTokens(f) + [Punct('}')]) == Some([AsMember(f)])
  {
    MemberIsRead(f, [Punct('}')]);
  }

  lemma NextMemberIsRead(f: Field, more: seq<Token>)
    requires ReadMembers(more).Some?
    ensures ReadMembers(FieldTokens(f) + ([Punct(',')] + more)) == Some([AsMember(f)] + ReadMembers(more).value)
  {
    var rest := [Punct(',')] + more;
    assert rest[0] == Punct(',') && rest[1..] == more;
    MemberIsRead(f, rest);
  }

  lemma Regroup<T>(a: seq<T>, b: seq<T>, c: seq<T>, d: seq<T>)
    ensures a + b + c + d == a + (b + (c + d))
  {
  }

  lemma {:induction false} MembersAreRead(fields: seq<Field>)
    requires fields != []
    ensures ReadMembers(MembersTokens(fields) + [Punct('}')]) == Some(MapSeq(AsMember, fields))
    decreases |fields|
  {
    var f := fields[0];
    MapFirst(AsMember, fields);
    if |fields| == 1 {
      LastMemberIsRead(f);
      assert fields[1..] == [] && [AsMember(f)] + [] == [AsMember(f)];
    } else {
      MembersAreRead(fields[1..]);
      NextMemberIsRead(f, MembersTokens(fields[1..]) + [Punct('}')]);
      Regroup(FieldTokens(f), [Punct(',')], MembersTokens(fields[1..]), [Punct('}')]);
    }
  }

  /** A reader of the text gets the members back, thirteen of them. */
  lemma ObjectIsRead(r: Receipt)
    ensures ReadObject(ToJson(r)) == Some(MapSeq(AsMember, Fields(r))) && |Fields(r)| == 13
  {
    ReceiptReadsBack(r);
    assert ReceiptTokens(r)[1..] == MembersTokens(Fields(r)) + [Punct('}')];
    MembersAreRead(Fields(r));
  }

  /** A reader of `text` finds `value` under `key`. */
  ghost predicate Shows(text: string, key: string, value: Json) {
    ReadObject(text).Some? && (key, value) in ReadObject(text).value
  }

  lemma FieldIsShown(r: Receipt, i: nat)
    requires i < 13
    ensures |Fields(r)| == 13 && Shows(ToJson(r), Fields(r)[i].key, AsJson(Fields(r)[i].value))
  {
    ObjectIsRead(r);
    assert MapSeq(AsMember, Fields(r))[i] == AsMember(Fields(r)[i]);
  }

  /** What stands under each key of the text: where the job comes from, */
  lemma JsonShowsOrigin(r: Receipt)
    ensures Shows(ToJson(r), "receipt_id", JText(r.receiptId)) && Shows(ToJson(r), "job_id", JText(r.jobId))
    ensures Shows(ToJson(r), "repo_id", JText(r.repoId)) && Shows(ToJson(r), "commit_sha", JText(r.commitSha))
  {
    FieldIsShown(r, 0);
    FieldIsShown(r, 1);
    FieldIsShown(r, 2);
    FieldIsShown(r, 3);
  }

  /** where it ran and how it ended, */
  lemma JsonShowsResult(r: Receipt)
    ensures Shows(ToJson(r), "runner_class", JText(r.runnerClass))
    ensures Shows(ToJson(r), "trust_tier", JText(r.trustTier))
    ensures Shows(ToJson(r), "status", JText(StatusText(r.status)))
    ensures Shows(ToJson(r), "exit_code", if r.exitCode.Some? then JNumber(r.exitCode.value) else JNull)
  {
    FieldIsShown(r, 4);
    FieldIsShown(r, 5);
    FieldIsShown(r, 6);
    FieldIsShown(r, 7);
  }

  /** when it ran, and what is said about it. */
  lemma JsonShowsCircumstances(r: Receipt)
    ensures Shows(ToJson(r), "started_ms", JNumber(r.startedMs))
    ensures Shows(ToJson(r), "finished_ms", JNumber(r.finishedMs))
    ensures Shows(ToJson(r), "reasons", JList(r.reasons))
    ensures Shows(ToJson(r), "sandbox", JText(r.sandbox)) && Shows(ToJson(r), "message", JText(r.message))
  {
    FieldIsShown(r, 8);
    FieldIsShown(r, 9);
    FieldIsShown(r, 10);
    FieldIsShown(r, 11);
    FieldIsShown(r, 12);
  }

  // ------------------------------------------------------------------- injectivity

  /** Values that a reader can tell apart by their tokens alone. */
  predicate SameShape(v: Value, w: Value) {
    (v.Text? && w.Text?) || (v.Label? && w.Label?) || (v.List? && w.List?)
    || ((v.Number? || v.NullValue?) && (w.Number? || w.NullValue?))
  }

  lemma {:induction false} ListTokensDetermine(a: seq<string>, b: seq<string>, x: seq<Token>, y: seq<Token>)
    requires ReasonTokens(a) + [Punct(']')] + x == ReasonTokens(b) + [Punct(']')] + y
    ensures a == b && x == y
    decreases |a|
  {
    var s, t := ReasonTokens(a) + [Punct(']')] + x, ReasonTokens(b) + [Punct(']')] + y;
    assert s[0] == t[0];
    assert a == [] <==> s[0] == Punct(']');
    assert b == [] <==> t[0] == Punct(']');
    if a == [] {
      assert s[1..] == x && t[1..] == y;
    } else {
      assert s[0] == Str(a[0]) && t[0] == Str(b[0]);
      assert |a| == 1 <==> s[1] == Punct(']');
      assert |b| == 1 <==> t[1] == Punct(']');
      if |a| == 1 {
        assert s[2..] == x && t[2..] == y;
        assert a == [a[0]] && b == [b[0]];
      } else {
        assert s[2..] == ReasonTokens(a[1..]) + [Punct(']')] + x;
        assert t[2..] == ReasonTokens(b[1..]) + [Punct(']')] + y;
        ListTokensDetermine(a[1..], b[1..], x, y);
        assert a == [a[0]] + a[1..] && b == [b[0]] + b[1..];
      }
    }
  }

  lemma ValueTokensDetermine(v: Value, w: Value, x: seq<Token>, y: seq<Token>)
    requires SameShape(v, w) && ValueTokens(v) + x == ValueTokens(w) + y
    ensures v == w && x == y
  {
    if v.List? {
      BracketsDetermine(v.items, w.items, x, y);
    } else {
      FirstDetermines(ValueTokens(v)[0], ValueTokens(w)[0], x, y);
    }
  }

  lemma FirstDetermines<T>(a: T, b: T, x: seq<T>, y: seq<T>)
    requires [a] + x == [b] + y
    ensures a == b && x == y
  {
    var s, t := [a] + x, [b] + y;
    assert s[0] == t[0] && s[1..] == x && t[1..] == y;
  }

  lemma BracketsDetermine(a: seq<string>, b: seq<string>, x: seq<Token>, y: seq<Token>)
    requires [Punct('[')] + ReasonTokens(a) + [Punct(']')] + x == [Punct('[')] + ReasonTokens(b) + [Punct(']')] + y
    ensures a == b && x == y
  {
    var p, q := ReasonTokens(a) + [Punct(']')] + x, ReasonTokens(b) + [Punct(']')] + y;
    assert [Punct('[')] + ReasonTokens(a) + [Punct(']')] + x == [Punct('[')] + p;
    assert [Punct('[')] + ReasonTokens(b) + [Punct(']')] + y == [Punct('[')] + q;
    FirstDetermines(Punct('['), Punct('['), p, q);
    ListTokensDetermine(a, b, x, y);
  }

  lemma AfterTwo<T>(p: T, q: T, tail: seq<T>, x: seq<T>)
    ensures ([p, q] + tail + x)[2..] == tail + x && ([p, q] + tail + x)[0] == p
  {
  }

  lemma FieldTokensDetermine(f: Field, g: Field, x: seq<Token>, y: seq<Token>)
    requires SameShape(f.value, g.value) && FieldTokens(f) + x == FieldTokens(g) + y
    ensures f == g && x == y
  {
    AfterTwo(Str(f.key), Punct(':'), ValueTokens(f.value), x);
    AfterTwo(Str(g.key), Punct(':'), ValueTokens(g.value), y);
    ValueTokensDetermine(f.value, g.value, x, y);
  }

  lemma {:induction false} MembersTokensDetermine(a: seq<Field>, b: seq<Field>)
    requires |a| == |b| && (forall i :: 0 <= i < |a| ==> SameShape(a[i].value, b[i].value))
    requires MembersTokens(a) == MembersTokens(b)
    ensures a == b
    decreases |a|
  {
    if |a| == 1 {
      assert FieldTokens(a[0]) + [] == FieldTokens(b[0]) + [];
      FieldTokensDetermine(a[0], b[0], [], []);
      assert a == [a[0]] && b == [b[0]];
    } else if |a| > 1 {
      FirstMemberDetermines(a, b);
      MembersTokensDetermine(a[1..], b[1..]);
      assert a == [a[0]] + a[1..] && b == [b[0]] + b[1..];
    }
  }

  lemma FirstMemberDetermines(a: seq<Field>, b: seq<Field>)
    requires |a| > 1 && |b| > 1 && SameShape(a[0].value, b[0].value) && MembersTokens(a) == MembersTokens(b)
    ensures a[0] == b[0] && MembersTokens(a[1..]) == MembersTokens(b[1..])
  {
    FieldThenComma(a[0], b[0], MembersTokens(a[1..]), MembersTokens(b[1..]));
  }

  lemma FieldThenComma(f: Field, g: Field, p: seq<Token>, q: seq<Token>)
    requires SameShape(f.value, g.value) && FieldTokens(f) + [Punct(',')] + p == FieldTokens(g) + [Punct(',')] + q
    ensures f == g && p == q
  {
    var x, y := [Punct(',')] + p, [Punct(',')] + q;
    Assoc(FieldTokens(f), [Punct(',')], p);
    Assoc(FieldTokens(g), [Punct(',')], q);
    FieldTokensDetermine(f, g, x, y);
    assert x[1..] == p && y[1..] == q;
  }

  lemma Unwrap<T>(a: T, p: seq<T>, b: T, q: seq<T>)
    requires [a] + p + [b] == [a] + q + [b]
    ensures p == q
  {
    var s := [a] + p + [b];
    assert s[1..|s| - 1] == p && s[1..|s| - 1] == q;
  }

  lemma StatusTextIsInjective(a: ReceiptStatus, b: ReceiptStatus)
    requires StatusText(a) == StatusText(b)
    ensures a == b
  {
    var x, y := StatusText(a), StatusText(b);
    assert |x| == |y| && x[0] == y[0] && x[1] == y[1];
  }

  lemma FieldsDetermine(a: Receipt, b: Receipt)
    requires Fields(a) == Fields(b)
    ensures a == b
  {
    var x, y := Fields(a), Fields(b);
    assert x[0] == y[0] && x[1] == y[1] && x[2] == y[2] && x[3] == y[3] && x[4] == y[4] && x[5] == y[5];
    assert x[6] == y[6];
    StatusTextIsInjective(a.status, b.status);
    assert x[7] == y[7] && x[8] == y[8] && x[9] == y[9] && x[10] == y[10] && x[11] == y[11] && x[12] == y[12];
  }

  lemma SameTextSameTokens(a: Receipt, b: Receipt)
    requires ToJson(a) == ToJson(b)
    ensures MembersTokens(Fields(a)) == MembersTokens(Fields(b))
  {
    ReceiptReadsBack(a);
    ReceiptReadsBack(b);
    var p, q := MembersTokens(Fields(a)), MembersTokens(Fields(b));
    assert [Punct('{')] + p + [Punct('}')] == [Punct('{')] + q + [Punct('}')];
    Unwrap(Punct('{'), p, Punct('}'), q);
  }

  lemma SameShapes(a: Receipt, b: Receipt)
    ensures |Fields(a)| == |Fields(b)|
    ensures forall i :: 0 <= i < |Fields(a)| ==> SameShape(Fields(a)[i].value, Fields(b)[i].value)
  {
  }

  /** No two receipts have the same JSON text. */
  lemma ToJsonIsInjective(a: Receipt, b: Receipt)
    requires ToJson(a) == ToJson(b)
    ensures a == b
  {
    SameTextSameTokens(a, b);
    SameShapes(a, b);
    var x, y := Fields(a), Fields(b);
    MembersTokensDetermine(x, y);
    FieldsDetermine(a, b);
  }
}
