/** A map that iterates in the order of its keys, as its sequence of entries. */
module OrderedMap {
  import opened Values
  import opened Sequences

  datatype Entry<V> = Entry(key: string, value: V)

  function Keys<V>(m: seq<Entry<V>>): set<string> {
    if m == [] then {} else {m[0].key} + Keys(m[1..])
  }

  ghost predicate IsOrdered<V>(m: seq<Entry<V>>) {
    m != [] ==> (forall k | k in Keys(m[1..]) :: StrLess(m[0].key, k)) && IsOrdered(m[1..])
  }

  function Get<V>(m: seq<Entry<V>>, k: string): Option<V> {
    if m == [] then None else if m[0].key == k then Some(m[0].value) else Get(m[1..], k)
  }

  function Put<V>(m: seq<Entry<V>>, k: string, v: V): seq<Entry<V>> {
    if m == [] || StrLess(k, m[0].key) then [Entry(k, v)] + m
    else if m[0].key == k then [Entry(k, v)] + m[1..]
    else [m[0]] + Put(m[1..], k, v)
  }

  function Del<V>(m: seq<Entry<V>>, k: string): seq<Entry<V>> {
    if m == [] then [] else if m[0].key == k then m[1..] else [m[0]] + Del(m[1..], k)
  }

  lemma StrLessIrreflexive(a: string)
    ensures !StrLess(a, a)
  {
    if StrLess(a, a) {
      StrLessAsymmetric(a, a);
      assert false;
    }
  }

  lemma {:induction false} StrLessTransitive(a: string, b: string, c: string)
    requires StrLess(a, b) && StrLess(b, c)
    ensures StrLess(a, c)
  {
    if a != [] && a[0] == b[0] && b[0] == c[0] {
      StrLessTransitive(a[1..], b[1..], c[1..]);
    }
  }

  lemma StrLessIsWeakOrder()
    ensures WeakOrder(StrLess)
  {
    forall a, b | StrLess(a, b) ensures !StrLess(b, a) { StrLessAsymmetric(a, b); }
    forall a, b, c | !StrLess(a, b) && !StrLess(b, c) ensures !StrLess(a, c) { StrNotLessTransitive(a, b, c); }
  }

  lemma {:induction false} GetIff<V>(m: seq<Entry<V>>, k: string)
    ensures Get(m, k).Some? <==> k in Keys(m)
  {
    if m != [] {
      GetIff(m[1..], k);
    }
  }

  lemma {:induction false} KeyAt<V>(m: seq<Entry<V>>, i: nat)
    requires i < |m|
    ensures m[i].key in Keys(m)
  {
    if i > 0 {
      KeyAt(m[1..], i - 1);
    }
  }

  /** Entries by position. */
  lemma {:induction false} GetAt<V>(m: seq<Entry<V>>, i: nat)
    requires IsOrdered(m) && i < |m|
    ensures Get(m, m[i].key) == Some(m[i].value)
  {
    if i > 0 {
      KeyAt(m[1..], i - 1);
      StrLessIrreflexive(m[0].key);
      GetAt(m[1..], i - 1);
    }
  }

  lemma {:induction false} EarlierIsLess<V>(m: seq<Entry<V>>, j: nat, i: nat)
    requires IsOrdered(m) && j < i < |m|
    ensures StrLess(m[j].key, m[i].key)
  {
    if j > 0 {
      EarlierIsLess(m[1..], j - 1, i - 1);
    } else {
      KeyAt(m[1..], i - 1);
    }
  }

  lemma {:induction false} Position<V>(m: seq<Entry<V>>, k: string) returns (i: nat)
    requires k in Keys(m)
    ensures i < |m| && m[i].key == k
  {
    if m[0].key == k {
      i := 0;
    } else {
      i := Position(m[1..], k);
      i := i + 1;
    }
  }

  /** Putting changes one key only and keeps the order. */
  lemma {:induction false} PutMeans<V>(m: seq<Entry<V>>, k: string, v: V)
    requires IsOrdered(m)
    ensures IsOrdered(Put(m, k, v)) && Keys(Put(m, k, v)) == Keys(m) + {k}
    ensures forall k' :: Get(Put(m, k, v), k') == if k' == k then Some(v) else Get(m, k')
  {
    if m == [] {
    } else if StrLess(k, m[0].key) {
      forall x | x in Keys(m[1..]) ensures StrLess(k, x) {
        StrLessTransitive(k, m[0].key, x);
      }
      assert ([Entry(k, v)] + m)[1..] == m;
    } else if m[0].key == k {
      assert ([Entry(k, v)] + m[1..])[1..] == m[1..];
    } else {
      StrLessTotal(k, m[0].key);
      PutMeans(m[1..], k, v);
      assert ([m[0]] + Put(m[1..], k, v))[1..] == Put(m[1..], k, v);
    }
  }

  lemma NotInTail<V>(m: seq<Entry<V>>)
    requires m != [] && IsOrdered(m)
    ensures m[0].key !in Keys(m[1..])
  {
    StrLessIrreflexive(m[0].key);
  }

  /** Deleting takes away one key and keeps the order. */
  lemma {:induction false} DelMeans<V>(m: seq<Entry<V>>, k: string)
    requires IsOrdered(m)
    ensures IsOrdered(Del(m, k)) && Keys(Del(m, k)) == Keys(m) - {k}
    ensures forall k' :: Get(Del(m, k), k') == if k' == k then None else Get(m, k')
  {
    if m != [] {
      if m[0].key == k {
        NotInTail(m);
        GetIff(m[1..], k);
      } else {
        DelMeans(m[1..], k);
        assert ([m[0]] + Del(m[1..], k))[1..] == Del(m[1..], k);
      }
    }
  }
}
