/** Ordering of strings and of lists, as `BTreeSet`, `BTreeMap` and `sort_by` see it.

    Rust compares strings byte by byte in UTF-8, which is the same order as comparing
    them code point by code point; `StrLe` is that order. `Iter` is the iteration order
    of a `BTreeSet<String>` (and of the keys of a `BTreeMap`), `StableSort` is `sort_by`.
 */
module Order {

  // ---------------------------------------------------------------- strings

  predicate StrLe(a: string, b: string)
    decreases |a|
  {
    a == [] || (b != [] && (a[0] < b[0] || (a[0] == b[0] && StrLe(a[1..], b[1..]))))
  }

  lemma {:induction false} StrLeReflexive(a: string)
    ensures StrLe(a, a)
  {
    if a != [] {
      StrLeReflexive(a[1..]);
    }
  }

  lemma {:induction false} StrLeTotal(a: string, b: string)
    ensures StrLe(a, b) || StrLe(b, a)
    decreases |a|
  {
    if a != [] && b != [] && a[0] == b[0] {
      StrLeTotal(a[1..], b[1..]);
    }
  }

  lemma {:induction false} StrLeAntisymmetric(a: string, b: string)
    requires StrLe(a, b) && StrLe(b, a)
    ensures a == b
    decreases |a|
  {
    if a != [] && b != [] {
      StrLeAntisymmetric(a[1..], b[1..]);
      assert a == [a[0]] + a[1..] && b == [b[0]] + b[1..];
    }
  }

  lemma {:induction false} StrLeTransitive(a: string, b: string, c: string)
    requires StrLe(a, b) && StrLe(b, c)
    ensures StrLe(a, c)
    decreases |a|
  {
    if a != [] && a[0] == b[0] == c[0] {
      StrLeTransitive(a[1..], b[1..], c[1..]);
    }
  }

  /** The order says what the standard library's string order says: a proper prefix comes first, otherwise
      the first difference decides. */
  lemma {:induction false} StrLeMeaning(a: string, b: string)
    ensures StrLe(a, b) <==> a <= b || exists i :: 0 <= i < |a| && i < |b| && a[..i] == b[..i] && a[i] < b[i]
    decreases |a|
  {
    if a != [] && b != [] {
      StrLeMeaning(a[1..], b[1..]);
      assert a == [a[0]] + a[1..] && b == [b[0]] + b[1..];
      if a[0] == b[0] {
        FirstDifferenceShifts(a, b);
      } else {
        assert a[..0] == b[..0];
        forall i | 0 < i < |a| && i < |b| ensures a[..i] != b[..i] { assert a[..i][0] != b[..i][0]; }
      }
    }
  }

  lemma FirstDifferenceShifts(a: string, b: string)
    requires a != [] && b != [] && a[0] == b[0]
    ensures a <= b <==> a[1..] <= b[1..]
    ensures (exists i :: 0 <= i < |a| && i < |b| && a[..i] == b[..i] && a[i] < b[i]) <==>
            (exists i :: 0 <= i < |a[1..]| && i < |b[1..]| && a[1..][..i] == b[1..][..i] && a[1..][i] < b[1..][i])
  {
    var p, q := a[1..], b[1..];
    assert a == [a[0]] + p && b == [b[0]] + q;
    if i :| 0 <= i < |a| && i < |b| && a[..i] == b[..i] && a[i] < b[i] {
      assert i > 0 && p[..i - 1] == a[..i][1..] && q[..i - 1] == b[..i][1..] && p[i - 1] < q[i - 1];
    }
    if i :| 0 <= i < |p| && i < |q| && p[..i] == q[..i] && p[i] < q[i] {
      assert a[..i + 1] == [a[0]] + p[..i] && b[..i + 1] == [b[0]] + q[..i] && a[i + 1] < b[i + 1];
    }
  }

  predicate StrLt(a: string, b: string) { a != b && StrLe(a, b) }

  // ---------------------------------------------------- ordered set iteration

  /** Strictly increasing: sorted and without duplicates. */
  predicate Ascending(s: seq<string>) {
    forall i, j {:trigger StrLt(s[i], s[j])} :: 0 <= i < j < |s| ==> StrLt(s[i], s[j])
  }

  ghost predicate IsLeast(m: string, s: set<string>) { m in s && forall y :: y in s ==> StrLe(m, y) }

  lemma {:induction false} LeastExists(s: set<string>)
    requires s != {}
    ensures exists m :: IsLeast(m, s)
    decreases |s|
  {
    var x :| x in s;
    var rest := s - {x};
    if rest == {} {
      StrLeReflexive(x);
      assert forall y :: y in s ==> y == x || y in rest;
      assert IsLeast(x, s);
    } else {
      LeastExists(rest);
      var m :| IsLeast(m, rest);
      if StrLe(x, m) {
        forall y | y in s ensures StrLe(x, y) {
          if y == x { StrLeReflexive(x); } else { StrLeTransitive(x, m, y); }
        }
        assert IsLeast(x, s);
      } else {
        StrLeTotal(x, m);
        assert IsLeast(m, s);
      }
    }
  }

  function Least(s: set<string>): (m: string)
    requires s != {}
    ensures m in s && forall y :: y in s ==> StrLe(m, y)
  {
    LeastExists(s);
    assert exists m :: m in s && forall y :: y in s ==> StrLe(m, y) by {
      var m :| IsLeast(m, s);
    }
    assert forall a, b | a in s && b in s && (forall y :: y in s ==> StrLe(a, y)) &&
        (forall y :: y in s ==> StrLe(b, y)) :: a == b by {
      forall a, b | a in s && b in s && (forall y :: y in s ==> StrLe(a, y)) &&
        (forall y :: y in s ==> StrLe(b, y)) ensures a == b {
        StrLeAntisymmetric(a, b);
      }
    }
    var m :| m in s && forall y :: y in s ==> StrLe(m, y);
    m
  }

  /** Iteration order of a `BTreeSet`: every element once, in increasing order. */
  function Iter(s: set<string>): (r: seq<string>)
    ensures Ascending(r)
    ensures forall x :: x in r <==> x in s
    ensures |r| == |s|
    decreases |s|
  {
    if s == {} then [] else
      var m := Least(s);
      var rest := Iter(s - {m});
      assert forall i :: 0 <= i < |rest| ==> rest[i] in s - {m};
      [m] + rest
  }

  lemma FirstIsLeast(s: seq<string>, x: string)
    requires Ascending(s) && x in s
    ensures StrLe(s[0], x)
  {
    var i :| 0 <= i < |s| && s[i] == x;
    if i == 0 { StrLeReflexive(x); } else { assert StrLt(s[0], s[i]); }
  }

  lemma RestIsLater(s: seq<string>, x: string)
    requires Ascending(s) && s != []
    ensures Ascending(s[1..])
    ensures x in s[1..] <==> x in s && x != s[0]
  {
    forall i, j | 0 <= i < j < |s[1..]| ensures StrLt(s[1..][i], s[1..][j]) {
      assert StrLt(s[i + 1], s[j + 1]);
    }
    if x in s[1..] {
      var i :| 1 <= i < |s| && s[i] == x;
      assert StrLt(s[0], s[i]);
    }
  }

  lemma AscendingPrefix(s: seq<string>, n: nat)
    requires Ascending(s) && n <= |s|
    ensures Ascending(s[..n])
  {
    forall i, j | 0 <= i < j < n ensures StrLt(s[..n][i], s[..n][j]) { assert StrLt(s[i], s[j]); }
  }

  /** In an increasing list an element does not occur before its position. */
  lemma NotEarlier(s: seq<string>, i: nat)
    requires Ascending(s) && i < |s|
    ensures s[i] !in s[..i]
  {
    forall k | 0 <= k < i ensures s[k] != s[i] { assert StrLt(s[k], s[i]); }
  }

  /** An increasing enumeration of a set is unique, so `Iter` is the only one. */
  lemma {:induction false} AscendingUnique(a: seq<string>, b: seq<string>)
    requires Ascending(a) && Ascending(b)
    requires forall x :: x in a <==> x in b
    ensures a == b
    decreases |a|
  {
    if a + b != [] {
      assert (a + b)[0] in a + b;
      FirstIsLeast(a, b[0]);
      FirstIsLeast(b, a[0]);
      StrLeAntisymmetric(a[0], b[0]);
      forall x ensures x in a[1..] <==> x in b[1..] {
        RestIsLater(a, x);
        RestIsLater(b, x);
      }
      RestIsLater(a, a[0]);
      RestIsLater(b, b[0]);
      AscendingUnique(a[1..], b[1..]);
      assert a == [a[0]] + a[1..] && b == [b[0]] + b[1..];
    }
  }

  // ------------------------------------------------------------------ sorting

  ghost predicate TotalOrder<T(!new)>(le: (T, T) -> bool) {
    && (forall x, y :: le(x, y) || le(y, x))
    && (forall x, y, z :: le(x, y) && le(y, z) ==> le(x, z))
  }

  ghost predicate Sorted<T>(s: seq<T>, le: (T, T) -> bool) {
    forall i, j :: 0 <= i < j < |s| ==> le(s[i], s[j])
  }

  /** Elements that compare equal are equal. */
  ghost predicate Antisymmetric<T>(s: seq<T>, le: (T, T) -> bool) {
    forall x, y :: x in s && y in s && le(x, y) && le(y, x) ==> x == y
  }

  function Insert<T>(x: T, s: seq<T>, le: (T, T) -> bool): seq<T> {
    if s == [] then [x]
    else if le(x, s[0]) then [x] + s
    else [s[0]] + Insert(x, s[1..], le)
  }

  /** Stable sort: an element is placed before the elements that compare equal and came later. */
  function StableSort<T>(s: seq<T>, le: (T, T) -> bool): seq<T> {
    if s == [] then [] else Insert(s[0], StableSort(s[1..], le), le)
  }

  lemma {:induction false} InsertKeeps<T(!new)>(x: T, s: seq<T>, le: (T, T) -> bool)
    requires TotalOrder(le) && Sorted(s, le)
    ensures Sorted(Insert(x, s, le), le)
    ensures multiset(Insert(x, s, le)) == multiset(s) + multiset{x}
    decreases |s|
  {
    if s == [] {
    } else if le(x, s[0]) {
    } else {
      var rest := Insert(x, s[1..], le);
      InsertKeeps(x, s[1..], le);
      assert s == [s[0]] + s[1..];
      forall j | 0 <= j < |rest| ensures le(s[0], rest[j]) {
        assert rest[j] in multiset(rest);
        assert rest[j] == x || rest[j] in s[1..];
      }
    }
  }

  lemma {:induction false} StableSortSorts<T(!new)>(s: seq<T>, le: (T, T) -> bool)
    requires TotalOrder(le)
    ensures Sorted(StableSort(s, le), le)
    ensures multiset(StableSort(s, le)) == multiset(s)
    decreases |s|
  {
    if s != [] {
      StableSortSorts(s[1..], le);
      InsertKeeps(s[0], StableSort(s[1..], le), le);
      assert s == [s[0]] + s[1..];
    }
  }

  /** Neither element comes before the other. */
  predicate Tied<T>(x: T, y: T, le: (T, T) -> bool) { le(x, y) && le(y, x) }

  /** The elements of a list that tie with `x`, in list order. */
  function TiedWith<T>(x: T, s: seq<T>, le: (T, T) -> bool): seq<T> {
    if s == [] then [] else (if Tied(x, s[0], le) then [s[0]] else []) + TiedWith(x, s[1..], le)
  }

  lemma TiedCons<T>(x: T, y: T, s: seq<T>, le: (T, T) -> bool)
    ensures TiedWith(x, [y] + s, le) == (if Tied(x, y, le) then [y] else []) + TiedWith(x, s, le)
  {
    assert ([y] + s)[1..] == s;
  }

  lemma NotBothTied<T(!new)>(x: T, y: T, z: T, le: (T, T) -> bool)
    requires TotalOrder(le) && !le(y, z)
    ensures !(Tied(x, y, le) && Tied(x, z, le))
  {
  }

  lemma EitherOrder<T>(a: seq<T>, b: seq<T>, c: seq<T>)
    requires a == [] || b == []
    ensures a + (b + c) == b + (a + c)
  {
  }

  lemma {:induction false} InsertIsStable<T(!new)>(y: T, s: seq<T>, le: (T, T) -> bool, x: T)
    requires TotalOrder(le)
    ensures TiedWith(x, Insert(y, s, le), le) == TiedWith(x, [y] + s, le)
    decreases |s|
  {
    if s == [] {
      assert Insert(y, s, le) == [y] + s;
    } else if !le(y, s[0]) {
      var rest := TiedWith(x, s[1..], le);
      var first, own := if Tied(x, s[0], le) then [s[0]] else [], if Tied(x, y, le) then [y] else [];
      InsertIsStable(y, s[1..], le, x);
      TiedCons(x, s[0], Insert(y, s[1..], le), le);
      TiedCons(x, y, s[1..], le);
      TiedCons(x, y, s, le);
      NotBothTied(x, y, s[0], le);
      assert TiedWith(x, s, le) == first + rest;
      EitherOrder(first, own, rest);
    }
  }

  /** Elements that tie keep the order in which they came. */
  lemma {:induction false} StableSortIsStable<T(!new)>(s: seq<T>, le: (T, T) -> bool, x: T)
    requires TotalOrder(le)
    ensures TiedWith(x, StableSort(s, le), le) == TiedWith(x, s, le)
    decreases |s|
  {
    if s != [] {
      StableSortIsStable(s[1..], le, x);
      InsertIsStable(s[0], StableSort(s[1..], le), le, x);
      assert ([s[0]] + StableSort(s[1..], le))[1..] == StableSort(s[1..], le);
    }
  }

  lemma WithoutFirst<T>(s: seq<T>)
    requires s != []
    ensures multiset(s[1..]) == multiset(s) - multiset{s[0]} && s == [s[0]] + s[1..]
  {
    assert s == [s[0]] + s[1..];
  }

  lemma SameFirst<T>(a: seq<T>, b: seq<T>, le: (T, T) -> bool)
    requires Sorted(a, le) && Sorted(b, le) && Antisymmetric(a, le) && a != []
    requires multiset(a) == multiset(b) && forall x :: x in a ==> le(x, x)
    ensures |a| == |b| && a[0] == b[0]
  {
    assert |multiset(b)| == |b| && |multiset(a)| == |a|;
    assert a[0] in multiset(b) && b[0] in multiset(a);
    assert a[0] in b && b[0] in a;
    assert le(a[0], b[0]) && le(b[0], a[0]);
  }

  lemma TailSorted<T>(a: seq<T>, le: (T, T) -> bool)
    requires Sorted(a, le) && a != []
    ensures Sorted(a[1..], le)
  {
  }

  /** A sorted arrangement is determined by its multiset of elements. */
  lemma {:induction false} SortedUnique<T>(a: seq<T>, b: seq<T>, le: (T, T) -> bool)
    requires Sorted(a, le) && Sorted(b, le) && Antisymmetric(a, le)
    requires multiset(a) == multiset(b)
    requires forall x :: x in a ==> le(x, x)
    ensures a == b
    decreases |a|
  {
    if a == [] {
      assert |multiset(b)| == 0;
    } else {
      SameFirst(a, b, le);
      TailSorted(a, le);
      TailSorted(b, le);
      WithoutFirst(a);
      WithoutFirst(b);
      assert forall x :: x in a[1..] ==> x in a;
      SortedUnique(a[1..], b[1..], le);
    }
  }

  /** Sorting forgets the input order whenever elements that compare equal are equal. */
  lemma StableSortPermutation<T(!new)>(a: seq<T>, b: seq<T>, le: (T, T) -> bool)
    requires TotalOrder(le) && multiset(a) == multiset(b) && Antisymmetric(a, le)
    ensures StableSort(a, le) == StableSort(b, le)
  {
    StableSortSorts(a, le);
    StableSortSorts(b, le);
    var sa := StableSort(a, le);
    forall x | x in sa ensures x in a {
      assert x in multiset(sa);
    }
    SortedUnique(sa, StableSort(b, le), le);
  }
}
