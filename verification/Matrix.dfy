/** Build-matrix expansion (`jeryu-ci-compiler/src/matrix.rs`). A matrix maps axis names to value lists;
    axes are taken in name order, as `BTreeMap` iteration does. */
module Matrix {
  import opened Order
  import opened Text

  type Axes = map<string, seq<string>>
  type Combo = map<string, string>

  // ---------------------------------------------- choices: the reference view

  ghost predicate Known(keys: seq<string>, m: Axes) {
    forall i :: 0 <= i < |keys| ==> keys[i] in m
  }

  /** A choice picks one value position per axis. */
  ghost predicate IsChoice(keys: seq<string>, m: Axes, c: seq<nat>)
    requires Known(keys, m)
  {
    |c| == |keys| && forall i :: 0 <= i < |keys| ==> c[i] < |m[keys[i]]|
  }

  /** The combination a choice stands for. */
  ghost function ComboOf(keys: seq<string>, m: Axes, c: seq<nat>): Combo
    requires Known(keys, m) && IsChoice(keys, m, c)
  {
    if keys == [] then map[] else
      var k := |keys| - 1;
      ComboOf(keys[..k], m, c[..k])[keys[k] := m[keys[k]][c[k]]]
  }

  /** Number of choices: the product of the axis lengths. */
  ghost function Count(keys: seq<string>, m: Axes): nat
    requires Known(keys, m)
  {
    if keys == [] then 1 else Count(keys[..|keys| - 1], m) * |m[keys[|keys| - 1]]|
  }

  /** Position of a choice in lexicographic order (first axis most significant). */
  ghost function Rank(keys: seq<string>, m: Axes, c: seq<nat>): nat
    requires Known(keys, m) && IsChoice(keys, m, c)
  {
    if keys == [] then 0 else
      var k := |keys| - 1;
      Rank(keys[..k], m, c[..k]) * |m[keys[k]]| + c[k]
  }

  /** Lexicographic order on choices. */
  ghost predicate LexLess(c: seq<nat>, d: seq<nat>) {
    exists k :: 0 <= k < |c| && k < |d| && c[..k] == d[..k] && c[k] < d[k]
  }

  // ---------------------------------------------------------------- algorithm

  function WithValues(combo: Combo, key: string, values: seq<string>): (r: seq<Combo>)
    ensures |r| == |values| && forall j {:trigger r[j]} :: 0 <= j < |r| ==> r[j] == combo[key := values[j]]
  {
    if values == [] then []
    else WithValues(combo, key, values[..|values| - 1]) + [combo[key := values[|values| - 1]]]
  }

  function Widen(key: string, values: seq<string>): Combo -> seq<Combo> { combo => WithValues(combo, key, values) }

  /** Every combination extended by every value of one more axis. */
  function Extend(combos: seq<Combo>, key: string, values: seq<string>): seq<Combo> {
    Concat(MapSeq(Widen(key, values), combos))
  }

  function AxesCombos(keys: seq<string>, m: Axes): seq<Combo>
    requires forall i :: 0 <= i < |keys| ==> keys[i] in m
  {
    if keys == [] then [map[]]
    else Extend(AxesCombos(keys[..|keys| - 1], m), keys[|keys| - 1], m[keys[|keys| - 1]])
  }

  /** The combinations of a matrix. */
  function Combos(m: Axes): seq<Combo> { AxesCombos(Iter(m.Keys), m) }

  /** `matrix_combinations`: the nested loops over axes, combinations and values. */
  method MatrixCombinations(m: Axes) returns (combos: seq<Combo>)
    ensures combos == Combos(m)
  {
    if m == map[] {
      assert Iter(m.Keys) == [];
      return [map[]];
    }
    combos := ExpandAxes(Iter(m.Keys), m);
  }

  method ExpandAxes(keys: seq<string>, m: Axes) returns (combos: seq<Combo>)
    requires forall i :: 0 <= i < |keys| ==> keys[i] in m
    ensures combos == AxesCombos(keys, m)
  {
    combos := [map[]];
    for k := 0 to |keys|
      invariant combos == AxesCombos(keys[..k], m)
    {
      assert keys[..k + 1][..k] == keys[..k];
      combos := ExpandAxis(keys[k], m[keys[k]], combos);
    }
    assert keys[..|keys|] == keys;
  }

  method ExpandAxis(key: string, values: seq<string>, combos: seq<Combo>) returns (next: seq<Combo>)
    ensures next == Extend(combos, key, values)
  {
    ghost var widen := Widen(key, values);
    next := [];
    for a := 0 to |combos|
      invariant next == Concat(MapSeq(widen, combos[..a]))
    {
      ConcatMapGrows(widen, combos, a);
      next := ExpandCombo(combos[a], key, values, next);
    }
    assert combos[..|combos|] == combos;
  }

  /** The innermost loop: one combination with every value of the axis. */
  method ExpandCombo(combo: Combo, key: string, values: seq<string>, before: seq<Combo>) returns (next: seq<Combo>)
    ensures next == before + WithValues(combo, key, values)
  {
    next := before;
    for b := 0 to |values|
      invariant next == before + WithValues(combo, key, values[..b])
    {
      assert values[..b + 1][..b] == values[..b];
      var expanded := combo[key := values[b]];
      next := next + [expanded];
    }
    assert values[..|values|] == values;
  }

  // -------------------------------------------------------- positions in the list

  /** The combination at a position, read off the mixed-radix digits of the position. */
  ghost function ComboAt(keys: seq<string>, m: Axes, i: nat): Combo
    requires Known(keys, m) && i < Count(keys, m)
  {
    if keys == [] then map[] else
      var k := |keys| - 1;
      var n := |m[keys[k]]|;
      SplitIndex(i, Count(keys[..k], m), n);
      ComboAt(keys[..k], m, i / n)[keys[k] := m[keys[k]][i % n]]
  }

  lemma SplitIndex(i: nat, outer: nat, n: nat)
    requires i < outer * n
    ensures n > 0 && i / n < outer && i % n < n && i == i / n * n + i % n
  {
    assert n > 0;
    var q := i / n;
    assert q >= outer ==> q * n >= outer * n;
  }

  lemma JoinIndex(a: nat, b: nat, outer: nat, n: nat)
    requires a < outer && b < n
    ensures a * n + b < outer * n
    ensures (a * n + b) / n == a && (a * n + b) % n == b
  {
    assert (a + 1) * n <= outer * n;
    DivUnique(a * n + b, n, a, b);
  }

  lemma DivUnique(x: nat, n: nat, q: nat, r: nat)
    requires n > 0 && x == q * n + r && r < n
    ensures x / n == q && x % n == r
  {
    var d := x / n - q;
    assert x == x / n * n + x % n;
    assert d * n == r - x % n;
    assert d >= 1 ==> d * n >= n;
    assert d <= -1 ==> d * n <= -1 * n;
  }

  lemma ExtendLength(combos: seq<Combo>, key: string, values: seq<string>)
    ensures |Extend(combos, key, values)| == |combos| * |values|
  {
    ConcatBlocksLength(MapSeq(Widen(key, values), combos), |values|);
  }

  lemma ExtendAt(combos: seq<Combo>, key: string, values: seq<string>, a: nat, b: nat)
    requires a < |combos| && b < |values|
    ensures a * |values| + b < |Extend(combos, key, values)|
    ensures Extend(combos, key, values)[a * |values| + b] == combos[a][key := values[b]]
  {
    ConcatBlocksAt(MapSeq(Widen(key, values), combos), |values|, a, b);
  }

  lemma {:induction false} CombosAt(keys: seq<string>, m: Axes, i: nat)
    requires Known(keys, m) && i < Count(keys, m)
    ensures i < |AxesCombos(keys, m)| && AxesCombos(keys, m)[i] == ComboAt(keys, m, i)
    decreases |keys|
  {
    if keys != [] {
      var k := |keys| - 1;
      var combos, values := AxesCombos(keys[..k], m), m[keys[k]];
      SplitIndex(i, Count(keys[..k], m), |values|);
      CombosAt(keys[..k], m, i / |values|);
      ExtendAt(combos, keys[k], values, i / |values|, i % |values|);
    }
  }

  lemma {:induction false} CombosCount(keys: seq<string>, m: Axes)
    requires Known(keys, m)
    ensures |AxesCombos(keys, m)| == Count(keys, m)
    decreases |keys|
  {
    if keys != [] {
      var k := |keys| - 1;
      CombosCount(keys[..k], m);
      ExtendLength(AxesCombos(keys[..k], m), keys[k], m[keys[k]]);
    }
  }

  // -------------------------------------------------------------- main results

  /** Every choice occurs, at its lexicographic position. */
  lemma {:induction false} EveryChoiceOccurs(keys: seq<string>, m: Axes, c: seq<nat>)
    requires Known(keys, m) && IsChoice(keys, m, c)
    ensures Rank(keys, m, c) < Count(keys, m)
    ensures ComboAt(keys, m, Rank(keys, m, c)) == ComboOf(keys, m, c)
    decreases |keys|
  {
    if keys != [] {
      var k := |keys| - 1;
      EveryChoiceOccurs(keys[..k], m, c[..k]);
      JoinIndex(Rank(keys[..k], m, c[..k]), c[k], Count(keys[..k], m), |m[keys[k]]|);
    }
  }

  /** Every position holds a choice, and the position determines it. */
  lemma {:induction false} EveryPositionIsAChoice(keys: seq<string>, m: Axes, i: nat) returns (c: seq<nat>)
    requires Known(keys, m) && i < Count(keys, m)
    ensures IsChoice(keys, m, c) && Rank(keys, m, c) == i
    decreases |keys|
  {
    if keys == [] {
      c := [];
    } else {
      var k := |keys| - 1;
      var n := |m[keys[k]]|;
      SplitIndex(i, Count(keys[..k], m), n);
      var d := EveryPositionIsAChoice(keys[..k], m, i / n);
      c := d + [i % n];
      assert c[..k] == d;
    }
  }

  /** The expansion is in lexicographic order. */
  lemma {:induction false} RankIsLexicographic(keys: seq<string>, m: Axes, c: seq<nat>, d: seq<nat>)
    requires Known(keys, m) && IsChoice(keys, m, c) && IsChoice(keys, m, d)
    requires LexLess(c, d)
    ensures Rank(keys, m, c) < Rank(keys, m, d)
    decreases |keys|
  {
    var k := |keys| - 1;
    var j :| 0 <= j < |c| && j < |d| && c[..j] == d[..j] && c[j] < d[j];
    if j == k {
      assert c[..k] == d[..k];
    } else {
      assert c[..k][..j] == c[..j] && d[..k][..j] == d[..j] && c[..k][j] < d[..k][j];
      RankIsLexicographic(keys[..k], m, c[..k], d[..k]);
      HigherDigitDecides(Rank(keys[..k], m, c[..k]), Rank(keys[..k], m, d[..k]), |m[keys[k]]|, c[k], d[k]);
    }
  }

  lemma HigherDigitDecides(x: nat, y: nat, n: nat, a: nat, b: nat)
    requires x < y && a < n
    ensures x * n + a < y * n + b
  {
    assert (x + 1) * n <= y * n;
  }

  /** A combination assigns to each axis the chosen one of its values, and nothing else. */
  lemma {:induction false} ComboAssignsEachAxis(keys: seq<string>, m: Axes, c: seq<nat>)
    requires Known(keys, m) && Ascending(keys) && IsChoice(keys, m, c)
    ensures forall x :: x in ComboOf(keys, m, c) <==> x in keys
    ensures forall i :: 0 <= i < |keys| ==>
      keys[i] in ComboOf(keys, m, c) && ComboOf(keys, m, c)[keys[i]] == m[keys[i]][c[i]]
    decreases |keys|
  {
    if keys != [] {
      var k := |keys| - 1;
      ComboAssignsEachAxis(keys[..k], m, c[..k]);
      assert keys == keys[..k] + [keys[k]];
      forall i | 0 <= i < |keys|
        ensures keys[i] in ComboOf(keys, m, c) && ComboOf(keys, m, c)[keys[i]] == m[keys[i]][c[i]] {
        if i < k { assert keys[..k][i] == keys[i] && c[..k][i] == c[i] && StrLt(keys[i], keys[k]); }
      }
    }
  }

  /** A combination that takes one value from every axis. */
  ghost predicate InProduct(combo: Combo, m: Axes) {
    combo.Keys == m.Keys && forall x :: x in m ==> combo[x] in m[x]
  }

  lemma {:induction false} ChoiceFor(combo: Combo, m: Axes, keys: seq<string>) returns (c: seq<nat>)
    requires InProduct(combo, m) && Known(keys, m)
    ensures IsChoice(keys, m, c) && forall i :: 0 <= i < |keys| ==> m[keys[i]][c[i]] == combo[keys[i]]
    decreases |keys|
  {
    if keys == [] {
      c := [];
    } else {
      var k := |keys| - 1;
      var d := ChoiceFor(combo, m, keys[..k]);
      var j :| 0 <= j < |m[keys[k]]| && m[keys[k]][j] == combo[keys[k]];
      c := d + [j];
      forall i | 0 <= i < |keys| ensures c[i] < |m[keys[i]]| && m[keys[i]][c[i]] == combo[keys[i]] {
        if i < k { assert keys[..k][i] == keys[i] && c[i] == d[i]; }
      }
    }
  }

  lemma ChoicesAreInProduct(m: Axes, keys: seq<string>, c: seq<nat>)
    requires keys == Iter(m.Keys) && IsChoice(keys, m, c)
    ensures InProduct(ComboOf(keys, m, c), m)
  {
    ComboAssignsEachAxis(keys, m, c);
    var combo := ComboOf(keys, m, c);
    forall x | x in m ensures x in combo && combo[x] in m[x] {
      var k :| 0 <= k < |keys| && keys[k] == x;
      assert combo[keys[k]] == m[keys[k]][c[k]];
    }
    assert combo.Keys == m.Keys;
  }

  lemma SameCombo(x: Combo, y: Combo)
    requires x.Keys == y.Keys && forall k :: k in x ==> x[k] == y[k]
    ensures x == y
  {
  }

  lemma ProductMembersAreChoices(m: Axes, keys: seq<string>, combo: Combo) returns (c: seq<nat>)
    requires keys == Iter(m.Keys) && InProduct(combo, m)
    ensures IsChoice(keys, m, c) && ComboOf(keys, m, c) == combo
  {
    c := ChoiceFor(combo, m, keys);
    ComboAssignsEachAxis(keys, m, c);
    var full := ComboOf(keys, m, c);
    forall x | x in combo ensures x in full && full[x] == combo[x] {
      var k :| 0 <= k < |keys| && keys[k] == x;
      assert full[keys[k]] == m[keys[k]][c[k]];
    }
    SameCombo(full, combo);
  }

  lemma ListedIsInProduct(m: Axes, i: nat)
    requires i < |Combos(m)|
    ensures InProduct(Combos(m)[i], m)
  {
    var keys := Iter(m.Keys);
    CombosCount(keys, m);
    var c := EveryPositionIsAChoice(keys, m, i);
    EveryChoiceOccurs(keys, m, c);
    CombosAt(keys, m, i);
    ChoicesAreInProduct(m, keys, c);
  }

  lemma ProductIsListed(m: Axes, combo: Combo)
    requires InProduct(combo, m)
    ensures combo in Combos(m)
  {
    var keys := Iter(m.Keys);
    var c := ProductMembersAreChoices(m, keys, combo);
    EveryChoiceOccurs(keys, m, c);
    CombosAt(keys, m, Rank(keys, m, c));
  }

  /** The list of combinations holds exactly the members of the cartesian product. */
  lemma ExpansionIsTheProduct(m: Axes, combo: Combo)
    ensures combo in Combos(m) <==> InProduct(combo, m)
  {
    var combos := Combos(m);
    if combo in combos {
      var i :| 0 <= i < |combos| && combos[i] == combo;
      ListedIsInProduct(m, i);
    }
    if InProduct(combo, m) {
      ProductIsListed(m, combo);
    }
  }

  /** Axes without repeated values give pairwise different combinations. */
  lemma DistinctChoicesDistinctCombos(keys: seq<string>, m: Axes, c: seq<nat>, d: seq<nat>)
    requires Known(keys, m) && Ascending(keys) && IsChoice(keys, m, c) && IsChoice(keys, m, d)
    requires forall x :: x in m ==> NoDuplicates(m[x])
    requires c != d
    ensures ComboOf(keys, m, c) != ComboOf(keys, m, d)
  {
    var i :| 0 <= i < |c| && c[i] != d[i];
    ComboAssignsEachAxis(keys, m, c);
    ComboAssignsEachAxis(keys, m, d);
    assert m[keys[i]][c[i]] != m[keys[i]][d[i]];
  }

  /** An axis without values leaves no combination; an empty matrix leaves exactly one. */
  lemma {:induction false} CountZero(keys: seq<string>, m: Axes)
    requires Known(keys, m)
    ensures Count(keys, m) == 0 <==> exists i :: 0 <= i < |keys| && m[keys[i]] == []
    decreases |keys|
  {
    if keys != [] {
      var k := |keys| - 1;
      CountZero(keys[..k], m);
      if Count(keys[..k], m) == 0 {
        var i :| 0 <= i < k && m[keys[..k][i]] == [];
        assert m[keys[i]] == [];
      } else {
        if m[keys[k]] != [] {
          assert Count(keys[..k], m) * |m[keys[k]]| > 0;
          forall i | 0 <= i < |keys| ensures m[keys[i]] != [] {
            if i < k { assert keys[..k][i] == keys[i]; }
          }
        }
      }
    }
  }

  // ------------------------------------------------------------ repeated combinations

  /** A choice that takes position `a` on axis `k` and the first value everywhere else. */
  ghost function Picked(keys: seq<string>, k: nat, a: nat): (c: seq<nat>)
    ensures |c| == |keys| && forall i {:trigger c[i]} :: 0 <= i < |keys| ==> c[i] == if i == k then a else 0
  {
    seq(|keys|, i => if i == k then a else 0)
  }

  lemma PickedTwice(keys: seq<string>, m: Axes, k: nat, a: nat, b: nat)
    requires Known(keys, m) && Ascending(keys) && k < |keys| && a < b < |m[keys[k]]| && m[keys[k]][a] == m[keys[k]][b]
    requires forall i :: 0 <= i < |keys| ==> m[keys[i]] != []
    ensures IsChoice(keys, m, Picked(keys, k, a)) && IsChoice(keys, m, Picked(keys, k, b))
    ensures ComboOf(keys, m, Picked(keys, k, a)) == ComboOf(keys, m, Picked(keys, k, b))
  {
    var c, d := Picked(keys, k, a), Picked(keys, k, b);
    ComboAssignsEachAxis(keys, m, c);
    ComboAssignsEachAxis(keys, m, d);
    var x, y := ComboOf(keys, m, c), ComboOf(keys, m, d);
    forall i | 0 <= i < |keys| ensures x[keys[i]] == y[keys[i]] {
      assert x[keys[i]] == m[keys[i]][c[i]] && y[keys[i]] == m[keys[i]][d[i]];
    }
    SameCombo(x, y);
  }

  lemma PickedInOrder(keys: seq<string>, m: Axes, k: nat, a: nat, b: nat)
    requires Known(keys, m) && k < |keys| && a < b
    requires IsChoice(keys, m, Picked(keys, k, a)) && IsChoice(keys, m, Picked(keys, k, b))
    ensures Rank(keys, m, Picked(keys, k, a)) < Rank(keys, m, Picked(keys, k, b))
  {
    var c, d := Picked(keys, k, a), Picked(keys, k, b);
    assert c[..k] == d[..k] && c[k] < d[k];
    RankIsLexicographic(keys, m, c, d);
  }

  lemma RepeatedValueRepeatsCombo(m: Axes, x: string)
    requires x in m && !NoDuplicates(m[x]) && forall y :: y in m ==> m[y] != []
    ensures !NoDuplicates(Combos(m))
  {
    var keys := Iter(m.Keys);
    var k :| 0 <= k < |keys| && keys[k] == x;
    var a, b :| 0 <= a < b < |m[x]| && m[x][a] == m[x][b];
    PickedTwice(keys, m, k, a, b);
    PickedInOrder(keys, m, k, a, b);
    var c, d := Picked(keys, k, a), Picked(keys, k, b);
    EveryChoiceOccurs(keys, m, c);
    EveryChoiceOccurs(keys, m, d);
    CombosAt(keys, m, Rank(keys, m, c));
    CombosAt(keys, m, Rank(keys, m, d));
    assert Combos(m)[Rank(keys, m, c)] == Combos(m)[Rank(keys, m, d)];
  }

  lemma PositionsDiffer(m: Axes, i: nat, j: nat)
    requires (forall x :: x in m ==> NoDuplicates(m[x])) && i < j < |Combos(m)|
    ensures Combos(m)[i] != Combos(m)[j]
  {
    var keys := Iter(m.Keys);
    CombosCount(keys, m);
    var c := EveryPositionIsAChoice(keys, m, i);
    var d := EveryPositionIsAChoice(keys, m, j);
    EveryChoiceOccurs(keys, m, c);
    EveryChoiceOccurs(keys, m, d);
    CombosAt(keys, m, i);
    CombosAt(keys, m, j);
    DistinctChoicesDistinctCombos(keys, m, c, d);
  }

  lemma EmptyAxisAt(m: Axes, keys: seq<string>)
    requires forall x :: x in keys <==> x in m
    ensures (exists i :: 0 <= i < |keys| && m[keys[i]] == []) <==> (exists x :: x in m && m[x] == [])
  {
    if x :| x in m && m[x] == [] {
      assert x in keys;
      var i :| 0 <= i < |keys| && keys[i] == x;
      assert m[keys[i]] == [];
    }
  }

  lemma EmptyAxisMeansNoCombos(m: Axes)
    ensures Combos(m) == [] <==> exists x :: x in m && m[x] == []
  {
    var keys := Iter(m.Keys);
    CombosCount(keys, m);
    CountZero(keys, m);
    EmptyAxisAt(m, keys);
  }

  /** No combination is listed twice exactly when no axis repeats a value, or some axis has none. */
  lemma CombosAreDistinctExactly(m: Axes)
    ensures NoDuplicates(Combos(m)) <==>
            (exists x :: x in m && m[x] == []) || (forall x :: x in m ==> NoDuplicates(m[x]))
  {
    EmptyAxisMeansNoCombos(m);
    if forall x :: x in m ==> m[x] != [] {
      if forall x :: x in m ==> NoDuplicates(m[x]) {
        forall i, j | 0 <= i < j < |Combos(m)| ensures Combos(m)[i] != Combos(m)[j] { PositionsDiffer(m, i, j); }
      } else {
        var x :| x in m && !NoDuplicates(m[x]);
        RepeatedValueRepeatsCombo(m, x);
      }
    }
  }
}
