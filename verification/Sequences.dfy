/** Filtering, mapping and stable sorting of sequences.

    Both the database (ORDER BY) and the JavaScript runtime (Array.prototype.sort) are
    modelled by the stable sort defined here.  The lemmas characterise that sort by its
    tie classes, which is what makes it possible to say exactly when one sort may be
    dropped in favour of a later one. */
module Sequences {

  function Filter<T(!new)>(p: T -> bool, s: seq<T>): (r: seq<T>)
    ensures |r| <= |s|
    ensures forall x :: x in r <==> x in s && p(x)
  {
    if s == [] then []
    else if p(s[0]) then [s[0]] + Filter(p, s[1..])
    else Filter(p, s[1..])
  }

  function Map<T(!new), U(!new)>(f: T -> U, s: seq<T>): (r: seq<U>)
    ensures |r| == |s|
    ensures forall i :: 0 <= i < |s| ==> r[i] == f(s[i])
  {
    if s == [] then [] else [f(s[0])] + Map(f, s[1..])
  }

  function Min(a: nat, b: nat): nat {
    if a <= b then a else b
  }

  /** The first `n` elements, or all of them when there are fewer. */
  function Take<T(!new)>(s: seq<T>, n: nat): seq<T> {
    s[..Min(n, |s|)]
  }

  /** What is left after the first `n` elements. */
  function Drop<T(!new)>(s: seq<T>, n: nat): seq<T> {
    s[Min(n, |s|)..]
  }

  function Reverse<T(!new)>(s: seq<T>): (r: seq<T>)
    ensures |r| == |s|
    ensures forall i :: 0 <= i < |s| ==> r[i] == s[|s| - 1 - i]
  {
    if s == [] then [] else Reverse(s[1..]) + [s[0]]
  }

  // ---------- filtering ----------

  lemma FilterCons<T(!new)>(p: T -> bool, x: T, s: seq<T>)
    ensures Filter(p, [x] + s) == if p(x) then [x] + Filter(p, s) else Filter(p, s)
  {
    assert ([x] + s)[1..] == s;
  }

  lemma {:induction false} FilterAppend<T(!new)>(p: T -> bool, s: seq<T>, t: seq<T>)
    ensures Filter(p, s + t) == Filter(p, s) + Filter(p, t)
  {
    if s == [] {
      assert s + t == t;
    } else {
      assert (s + t)[1..] == s[1..] + t;
      FilterAppend(p, s[1..], t);
    }
  }

  lemma {:induction false} FilterCongruent<T(!new)>(p: T -> bool, q: T -> bool, s: seq<T>)
    requires forall x :: x in s ==> p(x) == q(x)
    ensures Filter(p, s) == Filter(q, s)
  {
    if s != [] {
      FilterCongruent(p, q, s[1..]);
    }
  }

  function Both<T(!new)>(p: T -> bool, q: T -> bool): T -> bool {
    x => p(x) && q(x)
  }

  lemma {:induction false} FilterTwice<T(!new)>(p: T -> bool, q: T -> bool, s: seq<T>)
    ensures Filter(q, Filter(p, s)) == Filter(Both(p, q), s)
  {
    if s != [] {
      FilterTwice(p, q, s[1..]);
      if p(s[0]) {
        FilterCons(q, s[0], Filter(p, s[1..]));
      }
    }
  }

  lemma {:induction false} FilterAll<T(!new)>(p: T -> bool, s: seq<T>)
    requires forall x :: x in s ==> p(x)
    ensures Filter(p, s) == s
  {
    if s != [] {
      FilterAll(p, s[1..]);
    }
  }

  lemma {:induction false} FilterNone<T(!new)>(p: T -> bool, s: seq<T>)
    requires forall x :: x in s ==> !p(x)
    ensures Filter(p, s) == []
  {
    if s != [] {
      FilterNone(p, s[1..]);
    }
  }

  lemma {:induction false} FilterMap<T(!new), U(!new)>(f: T -> U, p: U -> bool, q: T -> bool, s: seq<T>)
    requires forall x :: x in s ==> p(f(x)) == q(x)
    ensures Filter(p, Map(f, s)) == Map(f, Filter(q, s))
  {
    if s != [] {
      FilterMap(f, p, q, s[1..]);
      var rest := Filter(q, s[1..]);
      assert Map(f, s)[1..] == Map(f, s[1..]);
      assert ([s[0]] + rest)[1..] == rest;
    }
  }

  /** Positions survive filtering: the i-th and j-th kept elements come from increasing
      positions of the input. */
  lemma {:induction false} FilterKeepsOrder<T(!new)>(p: T -> bool, s: seq<T>, i: nat, j: nat) returns (a: nat, b: nat)
    requires i < j < |Filter(p, s)|
    ensures a < b < |s| && s[a] == Filter(p, s)[i] && s[b] == Filter(p, s)[j]
  {
    var rest := Filter(p, s[1..]);
    if p(s[0]) {
      assert Filter(p, s) == [s[0]] + rest;
      if i == 0 {
        assert rest[j - 1] in s[1..];
        b :| 0 <= b < |s[1..]| && s[1..][b] == rest[j - 1];
        a, b := 0, b + 1;
      } else {
        a, b := FilterKeepsOrder(p, s[1..], i - 1, j - 1);
        a, b := a + 1, b + 1;
      }
    } else {
      a, b := FilterKeepsOrder(p, s[1..], i, j);
      a, b := a + 1, b + 1;
    }
  }

  /** Conversely two kept positions of the input appear in that order in the result. */
  lemma {:induction false} FilterFindsPair<T(!new)>(p: T -> bool, s: seq<T>, a: nat, b: nat) returns (i: nat, j: nat)
    requires a < b < |s| && p(s[a]) && p(s[b])
    ensures i < j < |Filter(p, s)| && Filter(p, s)[i] == s[a] && Filter(p, s)[j] == s[b]
  {
    var rest := Filter(p, s[1..]);
    if a == 0 {
      assert s[1..][b - 1] == s[b];
      assert s[b] in rest;
      j :| 0 <= j < |rest| && rest[j] == s[b];
      i, j := 0, j + 1;
    } else {
      i, j := FilterFindsPair(p, s[1..], a - 1, b - 1);
      if p(s[0]) {
        i, j := i + 1, j + 1;
      }
    }
  }

  // ---------- stable sorting ----------

  /** `lt` is a strict weak order: asymmetric, and "not less" is transitive. */
  ghost predicate WeakOrder<T(!new)>(lt: (T, T) -> bool) {
    && (forall a, b :: lt(a, b) ==> !lt(b, a))
    && (forall a, b, c :: !lt(a, b) && !lt(b, c) ==> !lt(a, c))
  }

  predicate Tied<T(!new)>(lt: (T, T) -> bool, a: T, b: T) {
    !lt(a, b) && !lt(b, a)
  }

  /** No element is less than one before it. */
  ghost predicate Sorted<T(!new)>(lt: (T, T) -> bool, s: seq<T>) {
    forall i, j :: 0 <= i < j < |s| ==> !lt(s[j], s[i])
  }

  function Insert<T(!new)>(lt: (T, T) -> bool, x: T, s: seq<T>): (r: seq<T>)
    ensures |r| == |s| + 1
    ensures forall y :: y in r <==> y == x || y in s
  {
    if s == [] || !lt(s[0], x) then [x] + s else [s[0]] + Insert(lt, x, s[1..])
  }

  function Sort<T(!new)>(lt: (T, T) -> bool, s: seq<T>): (r: seq<T>)
    ensures |r| == |s|
    ensures forall y :: y in r <==> y in s
  {
    if s == [] then [] else Insert(lt, s[0], Sort(lt, s[1..]))
  }

  lemma {:induction false} InsertSorted<T(!new)>(lt: (T, T) -> bool, x: T, s: seq<T>)
    requires WeakOrder(lt) && Sorted(lt, s)
    ensures Sorted(lt, Insert(lt, x, s))
  {
    if s == [] {
    } else if !lt(s[0], x) {
      var r := [x] + s;
      forall i, j | 0 <= i < j < |r| ensures !lt(r[j], r[i]) {
        if i == 0 && j > 1 {
          assert !lt(s[j - 1], s[0]);
        }
      }
    } else {
      InsertSorted(lt, x, s[1..]);
      var r := [s[0]] + Insert(lt, x, s[1..]);
      forall i, j | 0 <= i < j < |r| ensures !lt(r[j], r[i]) {
        if i == 0 {
          assert r[j] in Insert(lt, x, s[1..]);
          if r[j] != x {
            var k :| 0 <= k < |s[1..]| && s[1..][k] == r[j];
            assert !lt(s[k + 1], s[0]);
          }
        }
      }
    }
  }

  lemma {:induction false} SortSorted<T(!new)>(lt: (T, T) -> bool, s: seq<T>)
    requires WeakOrder(lt)
    ensures Sorted(lt, Sort(lt, s))
  {
    if s != [] {
      SortSorted(lt, s[1..]);
      InsertSorted(lt, s[0], Sort(lt, s[1..]));
    }
  }

  lemma {:induction false} SortOfSorted<T(!new)>(lt: (T, T) -> bool, s: seq<T>)
    requires WeakOrder(lt) && Sorted(lt, s)
    ensures Sort(lt, s) == s
  {
    if s != [] {
      SortOfSorted(lt, s[1..]);
    }
  }

  /** From the first element that is not less than `x` on, none is. */
  ghost predicate Splits<T(!new)>(lt: (T, T) -> bool, x: T, s: seq<T>) {
    forall i, j :: 0 <= i < j < |s| && !lt(s[i], x) ==> !lt(s[j], x)
  }

  lemma SortedSplits<T(!new)>(lt: (T, T) -> bool, x: T, s: seq<T>)
    requires WeakOrder(lt) && Sorted(lt, s)
    ensures Splits(lt, x, s)
  {
    forall i, j | 0 <= i < j < |s| && !lt(s[i], x) ensures !lt(s[j], x) {
      assert !lt(s[j], s[i]);
    }
  }

  lemma {:induction false} FilterInsert<T(!new)>(lt: (T, T) -> bool, p: T -> bool, x: T, s: seq<T>)
    requires Splits(lt, x, s)
    ensures Filter(p, Insert(lt, x, s)) == if p(x) then Insert(lt, x, Filter(p, s)) else Filter(p, s)
  {
    if s == [] {
    } else if !lt(s[0], x) {
      FilterCons(p, x, s);
      var f := Filter(p, s);
      if f != [] {
        assert f[0] in s;
      }
    } else {
      FilterInsert(lt, p, x, s[1..]);
      FilterCons(p, s[0], Insert(lt, x, s[1..]));
      if p(s[0]) {
        var f := Filter(p, s[1..]);
        assert ([s[0]] + f)[1..] == f;
      }
    }
  }

  /** Filtering commutes with stable sorting. */
  lemma {:induction false} FilterSort<T(!new)>(lt: (T, T) -> bool, p: T -> bool, s: seq<T>)
    requires WeakOrder(lt)
    ensures Filter(p, Sort(lt, s)) == Sort(lt, Filter(p, s))
  {
    if s != [] {
      FilterSort(lt, p, s[1..]);
      SortSorted(lt, s[1..]);
      SortedSplits(lt, s[0], Sort(lt, s[1..]));
      FilterInsert(lt, p, s[0], Sort(lt, s[1..]));
      if p(s[0]) {
        var f := Filter(p, s[1..]);
        assert ([s[0]] + f)[1..] == f;
      }
    }
  }

  function TiedTo<T(!new)>(lt: (T, T) -> bool, x: T): T -> bool {
    y => Tied(lt, x, y)
  }

  /** The elements of `s` that `lt` does not tell apart from `x`, in order. */
  function TieClass<T(!new)>(lt: (T, T) -> bool, x: T, s: seq<T>): seq<T> {
    Filter(TiedTo(lt, x), s)
  }

  /** Stability: sorting leaves every tie class as it was. */
  lemma SortKeepsTieClass<T(!new)>(lt: (T, T) -> bool, x: T, s: seq<T>)
    requires WeakOrder(lt)
    ensures TieClass(lt, x, Sort(lt, s)) == TieClass(lt, x, s)
  {
    var c := TieClass(lt, x, s);
    FilterSort(lt, TiedTo(lt, x), s);
    forall i, j | 0 <= i < j < |c| ensures !lt(c[j], c[i]) {
      assert c[i] in c && c[j] in c;
    }
    SortOfSorted(lt, c);
  }

  /** A sorted sequence is determined by its tie classes. */
  lemma {:induction false} SortedByTieClasses<T(!new)>(lt: (T, T) -> bool, s: seq<T>, t: seq<T>)
    requires WeakOrder(lt) && Sorted(lt, s) && Sorted(lt, t)
    requires forall x :: TieClass(lt, x, s) == TieClass(lt, x, t)
    ensures s == t
  {
    if s == [] {
    } else {
      assert s[0] in TieClass(lt, s[0], s) && s[0] in TieClass(lt, s[0], t);
      assert t[0] in TieClass(lt, t[0], t) && t[0] in TieClass(lt, t[0], s);
      assert !lt(s[0], t[0]) by {
        var k :| 0 <= k < |t| && t[k] == s[0];
      }
      assert !lt(t[0], s[0]) by {
        var k :| 0 <= k < |s| && s[k] == t[0];
      }
      assert TieClass(lt, s[0], s)[0] == s[0];
      assert TieClass(lt, s[0], t)[0] == t[0];
      forall x ensures TieClass(lt, x, s[1..]) == TieClass(lt, x, t[1..]) {
        var head := if Tied(lt, x, s[0]) then [s[0]] else [];
        var u, v := TieClass(lt, x, s[1..]), TieClass(lt, x, t[1..]);
        assert TieClass(lt, x, s) == head + u;
        assert TieClass(lt, x, t) == head + v;
        assert head + u == head + v;
        assert u == (head + u)[|head|..] && v == (head + v)[|head|..];
      }
      SortedByTieClasses(lt, s[1..], t[1..]);
    }
  }

  /** Order first by `hi`, then among ties by `lo`. */
  function Lex<T(!new)>(hi: (T, T) -> bool, lo: (T, T) -> bool): (T, T) -> bool {
    (a, b) => hi(a, b) || (!hi(b, a) && lo(a, b))
  }

  lemma LexWeakOrder<T(!new)>(hi: (T, T) -> bool, lo: (T, T) -> bool)
    requires WeakOrder(hi) && WeakOrder(lo)
    ensures WeakOrder(Lex(hi, lo))
  {
    var lt := Lex(hi, lo);
    forall a, b, c | !lt(a, b) && !lt(b, c) ensures !lt(a, c) {
      assert !hi(a, b) && !hi(b, c) && !hi(a, c);
      if !hi(c, a) {
        assert !hi(b, a) && !hi(c, b);
      }
    }
  }

  /** Sorting by `lo` and then by `hi` is one sort by `hi`, ties by `lo`. */
  lemma SortTwice<T(!new)>(hi: (T, T) -> bool, lo: (T, T) -> bool, s: seq<T>)
    requires WeakOrder(hi) && WeakOrder(lo)
    ensures Sort(hi, Sort(lo, s)) == Sort(Lex(hi, lo), s)
  {
    LexWeakOrder(hi, lo);
    var two, one := Sort(hi, Sort(lo, s)), Sort(Lex(hi, lo), s);
    SortSorted(hi, Sort(lo, s));
    SortSorted(Lex(hi, lo), s);
    assert Sorted(hi, one) by {
      forall i, j | 0 <= i < j < |one| ensures !hi(one[j], one[i]) {
        assert !Lex(hi, lo)(one[j], one[i]);
      }
    }
    forall x ensures TieClass(hi, x, two) == TieClass(hi, x, one) {
      SortKeepsTieClass(hi, x, Sort(lo, s));
      FilterSort(lo, TiedTo(hi, x), s);
      FilterSort(Lex(hi, lo), TiedTo(hi, x), s);
      var c := TieClass(hi, x, s);
      SortCongruentOn(lo, Lex(hi, lo), c);
    }
    SortedByTieClasses(hi, two, one);
  }

  /** Two orders that agree on the elements of `s` sort `s` alike. */
  lemma {:induction false} SortCongruentOn<T(!new)>(lt: (T, T) -> bool, lt': (T, T) -> bool, s: seq<T>)
    requires forall a, b :: a in s && b in s ==> lt(a, b) == lt'(a, b)
    ensures Sort(lt, s) == Sort(lt', s)
  {
    if s != [] {
      SortCongruentOn(lt, lt', s[1..]);
      InsertCongruentOn(lt, lt', s[0], Sort(lt, s[1..]));
    }
  }

  lemma {:induction false} InsertCongruentOn<T(!new)>(lt: (T, T) -> bool, lt': (T, T) -> bool, x: T, s: seq<T>)
    requires forall a :: a in s ==> lt(a, x) == lt'(a, x)
    ensures Insert(lt, x, s) == Insert(lt', x, s)
  {
    if s != [] {
      InsertCongruentOn(lt, lt', x, s[1..]);
    }
  }

  /** Two elements tied by `hi` that `lo` would swap. */
  ghost predicate NoTiedInversion<T(!new)>(hi: (T, T) -> bool, lo: (T, T) -> bool, s: seq<T>) {
    forall i, j :: 0 <= i < j < |s| && Tied(hi, s[i], s[j]) ==> !lo(s[j], s[i])
  }

  /** A refining key may be dropped from a sort exactly when, among rows the main key does
      not tell apart, it has nothing left to reorder. */
  lemma DropRefiningKey<T(!new)>(hi: (T, T) -> bool, lo: (T, T) -> bool, s: seq<T>)
    requires WeakOrder(hi) && WeakOrder(lo)
    ensures Sort(Lex(hi, lo), s) == Sort(hi, s) <==> NoTiedInversion(hi, lo, s)
  {
    var lt := Lex(hi, lo);
    LexWeakOrder(hi, lo);
    var full, main := Sort(lt, s), Sort(hi, s);
    SortSorted(lt, s);
    SortSorted(hi, s);
    forall i, j | 0 <= i < j < |full| ensures !hi(full[j], full[i]) {
      assert !lt(full[j], full[i]);
    }
    if NoTiedInversion(hi, lo, s) {
      forall x ensures TieClass(hi, x, full) == TieClass(hi, x, main) {
        SortKeepsTieClass(hi, x, s);
        var p := TiedTo(hi, x);
        FilterSort(lt, p, s);
        var c := TieClass(hi, x, s);
        forall i, j | 0 <= i < j < |c| ensures !lt(c[j], c[i]) {
          var a, b := FilterKeepsOrder(p, s, i, j);
          assert c[i] in c && c[j] in c;
        }
        SortOfSorted(lt, c);
      }
      SortedByTieClasses(hi, full, main);
    }
    if full == main {
      forall i, j | 0 <= i < j < |s| && Tied(hi, s[i], s[j]) ensures !lo(s[j], s[i]) {
        var p := TiedTo(hi, s[i]);
        SortKeepsTieClass(hi, s[i], s);
        FilterSort(lt, p, s);
        var c := TieClass(hi, s[i], s);
        var a, b := FilterFindsPair(p, s, i, j);
        assert Sort(lt, c) == c;
        SortSorted(lt, c);
        assert !lt(c[b], c[a]);
      }
    }
  }
}
