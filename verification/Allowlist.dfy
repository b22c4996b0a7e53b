/** Egress host allowlist (`jeryu-egress/src/allowlist.rs`): the string-suffix test the code uses
    against the subdomain relation on label sequences (section 3.1 of RFC 1034). */
module Allowlist {
  import opened Text

  // --------------------------------------------------------------- text helpers

  predicate EndsWith<T(==)>(s: seq<T>, t: seq<T>) { |t| <= |s| && s[|s| - |t|..] == t }

  function TrimStart(s: string): string { if s != [] && IsSpace(s[0]) then TrimStart(s[1..]) else s }

  function TrimEnd(s: string): string { if s != [] && IsSpace(s[|s| - 1]) then TrimEnd(s[..|s| - 1]) else s }

  function Trim(s: string): string { TrimEnd(TrimStart(s)) }

  function Lower(s: string): (r: string)
    ensures |r| == |s| && forall i {:trigger r[i]} :: 0 <= i < |s| ==> r[i] == AsciiLower(s[i])
  {
    if s == [] then [] else [AsciiLower(s[0])] + Lower(s[1..])
  }

  function DropDot(s: string): string { if s != [] && s[|s| - 1] == '.' then s[..|s| - 1] else s }

  // ------------------------------------------------------------------- the list

  datatype Allowlist = Allowlist(hosts: seq<string>, suffixes: seq<string>)

  function Rule(text: string): string { Lower(Trim(text)) }

  predicate UsableSuffix(rule: string) { rule != "" && rule != "." }

  function WithDot(rule: string): string { if rule != [] && rule[0] == '.' then rule else "." + rule }

  function HostRules(hosts: seq<string>): seq<string> {
    if hosts == [] then [] else (if Rule(hosts[0]) == "" then [] else [Rule(hosts[0])]) + HostRules(hosts[1..])
  }

  function SuffixRules(suffixes: seq<string>): (r: seq<string>)
    ensures forall s :: s in r ==> s != [] && s[0] == '.'
  {
    if suffixes == [] then []
    else (if UsableSuffix(Rule(suffixes[0])) then [WithDot(Rule(suffixes[0]))] else []) + SuffixRules(suffixes[1..])
  }

  /** `Allowlist::new`. */
  function New(hosts: seq<string>, suffixes: seq<string>): Allowlist {
    Allowlist(HostRules(hosts), SuffixRules(suffixes))
  }

  /** `matches_suffix`; the suffix starts with a dot. */
  predicate MatchesSuffix(host: string, suffix: string)
    requires suffix != []
  {
    host == suffix[1..] || EndsWith(host, suffix)
  }

  function Normalise(host: string): string { DropDot(Cut(Lower(Trim(host)), ':').0) }

  /** `Allowlist::permits`. */
  predicate Permits(a: Allowlist, host: string)
    requires forall s :: s in a.suffixes ==> s != []
  {
    var h := Normalise(host);
    h != [] && (h in a.hosts || exists s :: s in a.suffixes && MatchesSuffix(h, s))
  }

  // ---------------------------------------------------------------- DNS labels

  /** The dot-separated labels of a name. */
  function Labels(s: string): (r: seq<string>)
    ensures r != []
  {
    if s == [] then [""] else Glue(s[0], Labels(s[1..]))
  }

  /** A character in front of a label sequence: a dot opens a new label, anything else extends the first. */
  function Glue(c: char, rest: seq<string>): (r: seq<string>)
    requires rest != []
    ensures r != []
  {
    if c == '.' then [""] + rest else [[c] + rest[0]] + rest[1..]
  }

  lemma GlueAppend(c: char, r: seq<string>, m: seq<string>)
    requires r != []
    ensures Glue(c, r + m) == Glue(c, r) + m
  {
    assert (r + m)[0] == r[0] && (r + m)[1..] == r[1..] + m;
  }

  lemma {:induction false} JoinLabels(s: string)
    ensures Join(Labels(s), ".") == s
  {
    if s != [] {
      var rest := Labels(s[1..]);
      JoinLabels(s[1..]);
      var all := Labels(s);
      if s[0] == '.' {
        assert all[1..] == rest;
        assert Join(all, ".") == "" + "." + s[1..];
        assert s == "." + s[1..];
      } else {
        assert all[1..] == rest[1..];
        assert s == [s[0]] + s[1..];
        if |rest| > 1 {
          assert Join(all, ".") == ([s[0]] + rest[0]) + "." + Join(rest[1..], ".");
          assert Join(rest, ".") == rest[0] + "." + Join(rest[1..], ".");
        } else {
          assert all == [[s[0]] + rest[0]];
        }
      }
    }
  }

  lemma {:induction false} LabelsOfSubdomain(x: string, a: string)
    ensures Labels(x + "." + a) == Labels(x) + Labels(a)
    decreases |x|
  {
    var whole := x + "." + a;
    if x == [] {
      assert whole == "." + a && whole[1..] == a;
    } else {
      assert whole[0] == x[0] && whole[1..] == x[1..] + "." + a;
      LabelsOfSubdomain(x[1..], a);
      GlueAppend(x[0], Labels(x[1..]), Labels(a));
    }
  }

  lemma {:induction false} JoinAppend(l: seq<string>, m: seq<string>)
    requires l != [] && m != []
    ensures Join(l + m, ".") == Join(l, ".") + "." + Join(m, ".")
    decreases |l|
  {
    assert (l + m)[0] == l[0] && (l + m)[1..] == l[1..] + m;
    if |l| == 1 {
      assert l[1..] + m == m;
    } else {
      JoinAppend(l[1..], m);
    }
  }

  lemma SuffixGivesLabels(host: string, apex: string)
    requires MatchesSuffix(host, "." + apex)
    ensures EndsWith(Labels(host), Labels(apex))
  {
    assert ("." + apex)[1..] == apex;
    if host != apex {
      var x := host[..|host| - |apex| - 1];
      assert host == x + "." + apex by {
        assert host == x + host[|host| - |apex| - 1..];
        assert host[|host| - |"." + apex|..] == "." + apex;
      }
      LabelsOfSubdomain(x, apex);
      assert Labels(host)[|Labels(x)|..] == Labels(apex);
    } else {
      assert Labels(host)[0..] == Labels(apex);
    }
  }

  lemma TailEnds<T>(p: seq<T>, t: seq<T>)
    ensures EndsWith(p + t, t)
  {
  }

  lemma JoinedFrontEnds(front: seq<string>, back: seq<string>, apex: string)
    requires front != [] && back != [] && Join(back, ".") == apex
    ensures EndsWith(Join(front + back, "."), "." + apex)
  {
    var p, d := Join(front, "."), "." + apex;
    JoinAppend(front, back);
    Assoc(p, ".", apex);
    assert Join(front + back, ".") == p + d;
    TailEnds(p, d);
  }

  lemma LabelsGiveSuffix(host: string, apex: string)
    requires EndsWith(Labels(host), Labels(apex))
    ensures MatchesSuffix(host, "." + apex)
  {
    var n := |Labels(host)| - |Labels(apex)|;
    var front, back := Labels(host)[..n], Labels(host)[n..];
    assert Labels(host) == front + back;
    JoinLabels(host);
    JoinLabels(apex);
    if n == 0 {
      assert back == Labels(host);
      assert ("." + apex)[1..] == apex;
    } else {
      JoinedFrontEnds(front, back, apex);
    }
  }

  /** The subdomain relation: the labels of the host end with the labels of the domain. */
  predicate WithinDomain(host: string, domain: string) { EndsWith(Labels(host), Labels(domain)) }

  /** The string test agrees with the subdomain relation on labels, for all strings. */
  lemma SuffixTestIsSubdomainTest(host: string, apex: string)
    ensures MatchesSuffix(host, "." + apex) <==> WithinDomain(host, apex)
  {
    if MatchesSuffix(host, "." + apex) { SuffixGivesLabels(host, apex); }
    if WithinDomain(host, apex) { LabelsGiveSuffix(host, apex); }
  }

  // ----------------------------------------------------------------- main results

  /** The domain a suffix rule stands for: the rule without a leading dot. */
  function Apex(text: string): string {
    if Rule(text) != "" && Rule(text)[0] == '.' then Rule(text)[1..] else Rule(text)
  }

  lemma {:induction false} HostRulesMember(hosts: seq<string>, h: string)
    ensures h in HostRules(hosts) <==> h != "" && exists t :: t in hosts && Rule(t) == h
    decreases |hosts|
  {
    if hosts != [] {
      HostRulesMember(hosts[1..], h);
      assert hosts == [hosts[0]] + hosts[1..];
    }
  }

  lemma {:induction false} SuffixRulesMember(suffixes: seq<string>, s: string)
    ensures s in SuffixRules(suffixes) <==> exists t :: t in suffixes && UsableSuffix(Rule(t)) && s == WithDot(Rule(t))
    decreases |suffixes|
  {
    if suffixes != [] {
      SuffixRulesMember(suffixes[1..], s);
      assert suffixes == [suffixes[0]] + suffixes[1..];
    }
  }

  /** Some suffix rule, other than nothing and a lone dot, names a domain that the host is in. */
  ghost predicate InAllowedDomain(suffixes: seq<string>, h: string) {
    exists t :: t in suffixes && Rule(t) != "" && Rule(t) != "." && WithinDomain(h, Apex(t))
  }

  /** What the allowlist means: a host is permitted exactly when, normalised and not empty, it equals
      an allowed host or its labels end with the labels of an allowed suffix. */
  lemma PermitsMeaning(hosts: seq<string>, suffixes: seq<string>, host: string)
    ensures Permits(New(hosts, suffixes), host) <==>
            var h := Normalise(host);
            h != "" && ((exists t :: t in hosts && Rule(t) == h) || InAllowedDomain(suffixes, h))
  {
    var h := Normalise(host);
    HostRulesMember(hosts, h);
    SuffixRulesMeaning(suffixes, h);
  }

  lemma RuleMatchesItsDomain(h: string, text: string)
    ensures MatchesSuffix(h, WithDot(Rule(text))) <==> WithinDomain(h, Apex(text))
  {
    assert WithDot(Rule(text)) == "." + Apex(text);
    SuffixTestIsSubdomainTest(h, Apex(text));
  }

  lemma SuffixRulesMeaning(suffixes: seq<string>, h: string)
    ensures (exists s :: s in SuffixRules(suffixes) && MatchesSuffix(h, s)) <==> InAllowedDomain(suffixes, h)
  {
    var rules := SuffixRules(suffixes);
    if exists s :: s in rules && MatchesSuffix(h, s) {
      var s :| s in rules && MatchesSuffix(h, s);
      SuffixRulesMember(suffixes, s);
      var t :| t in suffixes && UsableSuffix(Rule(t)) && s == WithDot(Rule(t));
      RuleMatchesItsDomain(h, t);
    }
    if InAllowedDomain(suffixes, h) {
      var t :| t in suffixes && UsableSuffix(Rule(t)) && WithinDomain(h, Apex(t));
      SuffixRulesMember(suffixes, WithDot(Rule(t)));
      RuleMatchesItsDomain(h, t);
    }
  }

  // ------------------------------------------------------------ how texts are read

  /** Nothing to trim. */
  ghost predicate Trimmed(s: string) { s != "" ==> !IsSpace(s[0]) && !IsSpace(s[|s| - 1]) }

  lemma {:induction false} TrimStartBlanks(a: string, s: string)
    requires Blank(a)
    ensures TrimStart(a + s) == TrimStart(s)
    decreases |a|
  {
    if a == [] {
      assert a + s == s;
    } else {
      assert (a + s)[0] == a[0] && (a + s)[1..] == a[1..] + s;
      TrimStartBlanks(a[1..], s);
    }
  }

  lemma {:induction false} TrimEndBlanks(s: string, b: string)
    requires Blank(b)
    ensures TrimEnd(s + b) == TrimEnd(s)
    decreases |b|
  {
    if b == [] {
      assert s + b == s;
    } else {
      var n := |s + b| - 1;
      assert (s + b)[n] == b[|b| - 1] && (s + b)[..n] == s + b[..|b| - 1];
      TrimEndBlanks(s, b[..|b| - 1]);
    }
  }

  /** Trimming removes the blanks around a text and nothing else. */
  lemma TrimMeaning(a: string, s: string, b: string)
    requires Blank(a) && Blank(b) && Trimmed(s)
    ensures Trim(a + s + b) == s
  {
    assert a + s + b == a + (s + b);
    TrimStartBlanks(a, s + b);
    if s == "" {
      assert s + b == b && b + "" == b;
      TrimStartBlanks(b, "");
    } else {
      assert (s + b)[0] == s[0];
      TrimEndBlanks(s, b);
    }
  }

  /** A rule is its text in lower case without the blanks around it. */
  lemma RuleMeaning(a: string, s: string, b: string)
    requires Blank(a) && Blank(b) && Trimmed(s)
    ensures Rule(a + s + b) == Lower(s)
  {
    TrimMeaning(a, s, b);
  }

  lemma LowerAppend(s: string, t: string)
    ensures Lower(s + t) == Lower(s) + Lower(t)
  {
  }

  lemma LowerKeepsColons(s: string)
    ensures ':' in s <==> ':' in Lower(s)
  {
    if ':' in s {
      var i :| 0 <= i < |s| && s[i] == ':';
      assert Lower(s)[i] == ':';
    }
  }

  /** A host name with, possibly, a final dot and a port. */
  ghost predicate Authority(name: string, dot: string, port: string) {
    && ':' !in name && (dot == "." || (dot == "" && (name != "" ==> name[|name| - 1] != '.')))
    && (port != "" ==> port[0] == ':')
  }

  lemma FrontOfAuthority(name: string, dot: string, port: string)
    requires Authority(name, dot, port)
    ensures Cut(Lower(name + dot + port), ':').0 == Lower(name) + dot
  {
    LowerAppend(name + dot, port);
    LowerAppend(name, dot);
    LowerKeepsColons(name);
    var low := Lower(name) + dot;
    assert Lower(dot) == dot && ':' !in low;
    if port == "" {
      assert low + Lower(port) == low;
      CutFinds(low, ':');
    } else {
      var rest := Lower(port)[1..];
      assert Lower(port) == [':'] + rest;
      CutAtFirst(low, ':', rest);
    }
  }

  lemma DotIsDropped(low: string, dot: string)
    requires dot == "." || (dot == "" && (low != "" ==> low[|low| - 1] != '.'))
    ensures DropDot(low + dot) == low
  {
    assert dot == "" ==> low + dot == low;
  }

  /** How a host is read: blanks around it, one final dot and a port are dropped, and case is folded. */
  lemma HostMeaning(a: string, name: string, dot: string, port: string, b: string)
    requires Blank(a) && Blank(b) && Authority(name, dot, port) && Trimmed(name + dot + port)
    ensures Normalise(a + (name + dot + port) + b) == Lower(name)
  {
    TrimMeaning(a, name + dot + port, b);
    FrontOfAuthority(name, dot, port);
    assert name != "" ==> Lower(name)[|name| - 1] == AsciiLower(name[|name| - 1]);
    DotIsDropped(Lower(name), dot);
  }

  /** Every text has that form, so the reading above is the only one. */
  lemma EveryHostHasAForm(host: string) returns (a: string, name: string, dot: string, port: string, b: string)
    ensures Blank(a) && Blank(b) && Authority(name, dot, port) && Trimmed(name + dot + port)
    ensures host == a + (name + dot + port) + b
  {
    var whole: string;
    a, whole, b := Unpad(host);
    var front := Cut(whole, ':').0;
    CutFinds(whole, ':');
    port := whole[|front|..];
    name, dot := SplitDot(front);
    assert front + port == whole;
  }

  lemma {:induction false} Unpad(s: string) returns (a: string, t: string, b: string)
    ensures Blank(a) && Blank(b) && Trimmed(t) && s == a + t + b
    decreases |s|
  {
    if s != "" && IsSpace(s[0]) {
      a, t, b := Unpad(s[1..]);
      a := [s[0]] + a;
    } else if s != "" && IsSpace(s[|s| - 1]) {
      a, t, b := Unpad(s[..|s| - 1]);
      b := b + [s[|s| - 1]];
    } else {
      a, t, b := "", s, "";
    }
  }

  lemma {:induction false} UnpadEnd(c: char, s: string) returns (t: string, b: string)
    requires !IsSpace(c)
    ensures [c] + s == t + b && Blank(b) && t != "" && t[0] == c && !IsSpace(t[|t| - 1])
    decreases |s|
  {
    if s != "" && IsSpace(s[|s| - 1]) {
      t, b := UnpadEnd(c, s[..|s| - 1]);
      assert s == s[..|s| - 1] + [s[|s| - 1]];
      Assoc(t, b, [s[|s| - 1]]);
      b := b + [s[|s| - 1]];
    } else {
      t, b := [c] + s, "";
    }
  }

  lemma SplitDot(h: string) returns (name: string, dot: string)
    requires ':' !in h
    ensures h == name + dot && Authority(name, dot, "")
  {
    if h != "" && h[|h| - 1] == '.' {
      name, dot := h[..|h| - 1], ".";
    } else {
      name, dot := h, "";
    }
  }

  lemma HostReadsAs(h: string, whole: string, name: string, dot: string, port: string, b: string)
    requires Authority(name, dot, port) && Trimmed(name + dot + port) && Blank(b)
    requires h == name + dot && whole == h + (port + b)
    ensures Normalise(whole) == Lower(name)
  {
    HostMeaning("", name, dot, port, b);
    assert whole == "" + (name + dot + port) + b;
  }

  /** A port changes nothing. */
  lemma PortIsIgnored(a: Allowlist, h: string, port: string)
    requires forall s :: s in a.suffixes ==> s != []
    requires Trimmed(h) && h != "" && ':' !in h
    ensures Permits(a, h + ":" + port) <==> Permits(a, h)
  {
    var name, dot := SplitDot(h);
    var p, b := UnpadEnd(':', port);
    assert (name + dot + p)[0] == h[0] && name + dot + "" == h;
    Assoc(h, ":", port);
    HostReadsAs(h, h + ":" + port, name, dot, p, b);
    HostReadsAs(h, h, name, dot, "", "");
  }

  /** `t` is `s` with some capital letters written small. */
  ghost predicate CaseVariant(s: string, t: string) {
    |s| == |t| && forall i :: 0 <= i < |s| ==> t[i] == s[i] || (IsAsciiUpper(s[i]) && t[i] as int == s[i] as int + 32)
  }

  lemma {:induction false} LowerTrimEnd(s: string)
    ensures TrimEnd(Lower(s)) == Lower(TrimEnd(s))
  {
    if s != [] {
      var n := |s| - 1;
      assert IsSpace(Lower(s)[n]) <==> IsSpace(s[n]);
      assert Lower(s)[..n] == Lower(s[..n]);
      if IsSpace(s[n]) { LowerTrimEnd(s[..n]); }
    }
  }

  lemma {:induction false} LowerTrimStart(s: string)
    ensures TrimStart(Lower(s)) == Lower(TrimStart(s))
  {
    if s != [] {
      assert IsSpace(Lower(s)[0]) <==> IsSpace(s[0]);
      assert Lower(s)[1..] == Lower(s[1..]);
      if IsSpace(s[0]) { LowerTrimStart(s[1..]); }
    }
  }

  /** Case changes nothing, in a rule or in a host. */
  lemma CaseIsIgnored(s: string, t: string)
    requires CaseVariant(s, t)
    ensures Rule(s) == Rule(t) && Normalise(s) == Normalise(t)
  {
    LowerTrimStart(s);
    LowerTrimStart(t);
    LowerTrimEnd(TrimStart(s));
    LowerTrimEnd(TrimStart(t));
    assert Lower(s) == Lower(t);
  }

  /** A host text that normalises to a given rule: the rule with a final dot. */
  lemma RuleIsReached(text: string)
    requires Rule(text) != "" && ':' !in Rule(text)
    ensures Normalise(Rule(text) + ".") == Rule(text)
  {
    var a, t, b := Unpad(text);
    RuleMeaning(a, t, b);
    var r := Lower(t);
    assert Lower(r) == r;
    assert r[0] == AsciiLower(t[0]) && !IsSpace((r + "." + "")[0]);
    HostMeaning("", r, ".", "", "");
    assert "" + (r + "." + "") + "" == r + ".";
  }

  lemma DropDotKeeps(s: string)
    ensures DropDot(s) == s <==> !(s != [] && s[|s| - 1] == '.')
  {
  }

  /** An exact-host rule permits the host it is written as exactly when it is not empty, holds no colon
      and does not end in a dot: ports and final dots are stripped from hosts and not from rules. */
  lemma HostRulePermitsItself(text: string)
    ensures Permits(New([text], []), text) <==>
            var r := Rule(text); r != "" && ':' !in r && r[|r| - 1] != '.'
  {
    var r := Rule(text);
    assert HostRules([text][1..]) == [];
    assert HostRules([text]) == if r == "" then [] else [r];
    CutFinds(r, ':');
    DropDotKeeps(r);
    if ':' in r {
      assert ':' !in Cut(r, ':').0 && ':' !in DropDot(Cut(r, ':').0);
    }
  }

  /** An exact-host rule can match some host exactly when it holds no colon: a rule written with a
      port is accepted by the constructor and never matches anything. */
  lemma HostRuleIsReachable(text: string)
    requires Rule(text) != ""
    ensures (exists host :: Normalise(host) == Rule(text)) <==> ':' !in Rule(text)
  {
    if ':' !in Rule(text) { RuleIsReached(text); }
    forall host ensures ':' !in Normalise(host) { CutFinds(Lower(Trim(host)), ':'); }
  }
}
