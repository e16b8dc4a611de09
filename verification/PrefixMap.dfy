/** Longest path prefix (server/src/prefix_map.rs): the keys up to the path are scanned
    backwards for the first one that is a prefix ending on a segment boundary. */
module PrefixMap {
  import opened Values
  import opened Sequences
  import opened OrderedMap

  const SLASH: char := '/'

  predicate EndsWithSlash(s: string) { s != [] && s[|s| - 1] == SLASH }

  predicate IsPathPrefix(needle: string, haystack: string) {
    if !(needle <= haystack) then false
    else EndsWithSlash(needle) || (var unmatched := haystack[|needle|..]; unmatched == [] || unmatched[0] == SLASH)
  }

  predicate UpTo(k: string, path: string) { !StrLess(path, k) }

  // ---------- path prefixes by segments ----------

  /** The parts of a path between its slashes. */
  function Segments(s: string): (r: seq<string>)
    ensures r != []
  {
    if s == [] then [[]]
    else
      var rest := Segments(s[1..]);
      if s[0] == '/' then [[]] + rest else [[s[0]] + rest[0]] + rest[1..]
  }

  /** `t` begins with all parts of `s`; the last part of `s` must be a whole part unless it is the
      empty one after a slash. */
  predicate Leads(s: seq<string>, t: seq<string>)
    requires s != []
  {
    var last := |s| - 1;
    && |s| <= |t| && s[..last] == t[..last]
    && (s[last] == t[last] || (last > 0 && s[last] == []))
  }

  /** A key is a path prefix when the path begins with its parts: a key matches whole parts only,
      and one that ends in a slash whatever follows. */
  lemma {:induction false} PathPrefixMeans(needle: string, haystack: string)
    ensures IsPathPrefix(needle, haystack) <==> Leads(Segments(needle), Segments(haystack))
  {
    if needle == [] {
      assert haystack[0..] == haystack;
    } else if haystack == [] || needle[0] != haystack[0] {
      OtherHead(needle, haystack);
    } else {
      PathPrefixMeans(needle[1..], haystack[1..]);
      SameHead(needle, haystack);
    }
  }

  lemma OtherHead(needle: string, haystack: string)
    requires needle != [] && (haystack == [] || needle[0] != haystack[0])
    ensures !IsPathPrefix(needle, haystack) && !Leads(Segments(needle), Segments(haystack))
  {
    var s, t := Segments(needle), Segments(haystack);
    if needle[0] == '/' {
      assert |s| > 1 && s[0] == [];
      if |t| > 1 {
        assert s[..|s| - 1][0] == s[0];
        assert |s| <= |t| ==> t[..|s| - 1][0] == t[0];
      }
    } else {
      assert s[0] != [] && s[0][0] == needle[0];
      assert |s| > 1 ==> s[..|s| - 1][0] == s[0];
      assert 1 < |s| <= |t| ==> t[..|s| - 1][0] == t[0];
    }
  }

  lemma OnePart(s: string)
    ensures Segments(s) == [[]] <==> s == []
  {
    if s != [] && s[0] != '/' {
      assert Segments(s)[0] != [];
    }
  }

  lemma SameHead(needle: string, haystack: string)
    requires needle != [] && haystack != [] && needle[0] == haystack[0]
    requires IsPathPrefix(needle[1..], haystack[1..]) <==> Leads(Segments(needle[1..]), Segments(haystack[1..]))
    ensures IsPathPrefix(needle, haystack) <==> Leads(Segments(needle), Segments(haystack))
  {
    var s, t := Segments(needle[1..]), Segments(haystack[1..]);
    OnePart(needle[1..]);
    if needle[0] == '/' {
      assert Segments(needle) == [[]] + s && Segments(haystack) == [[]] + t;
      if needle[1..] == [] {
        assert needle == ['/'];
        assert needle <= haystack;
      } else {
        TailIsPathPrefix(needle, haystack);
        LeadsBehind([], s, t);
      }
    } else {
      TailIsPathPrefix(needle, haystack);
      LeadsWithin(needle[0], s, t);
    }
  }

  lemma TailIsPathPrefix(needle: string, haystack: string)
    requires needle != [] && haystack != [] && needle[0] == haystack[0]
    requires |needle| > 1 || needle[0] != '/'
    ensures IsPathPrefix(needle, haystack) <==> IsPathPrefix(needle[1..], haystack[1..])
  {
    assert needle == [needle[0]] + needle[1..] && haystack == [haystack[0]] + haystack[1..];
    assert needle <= haystack <==> needle[1..] <= haystack[1..];
    if needle <= haystack {
      assert haystack[1..][|needle[1..]|..] == haystack[|needle|..];
    }
  }

  lemma LeadsBehind(part: string, s: seq<string>, t: seq<string>)
    requires s != [] && t != [] && s != [[]]
    ensures Leads([part] + s, [part] + t) <==> Leads(s, t)
  {
    var last := |s| - 1;
    assert ([part] + s)[..last + 1] == [part] + s[..last];
    if |s| <= |t| {
      assert ([part] + t)[..last + 1] == [part] + t[..last];
      assert [part] + s[..last] == [part] + t[..last] <==> s[..last] == t[..last] by {
        assert ([part] + s[..last])[1..] == s[..last] && ([part] + t[..last])[1..] == t[..last];
      }
    }
  }

  lemma LeadsWithin(c: char, s: seq<string>, t: seq<string>)
    requires s != [] && t != []
    ensures Leads([[c] + s[0]] + s[1..], [[c] + t[0]] + t[1..]) <==> Leads(s, t)
  {
    var s', t', last := [[c] + s[0]] + s[1..], [[c] + t[0]] + t[1..], |s| - 1;
    assert [c] + s[0] == [c] + t[0] <==> s[0] == t[0] by {
      assert ([c] + s[0])[1..] == s[0] && ([c] + t[0])[1..] == t[0];
    }
    if |s| <= |t| {
      assert s'[..last] == t'[..last] <==> s[..last] == t[..last] by {
        if s'[..last] == t'[..last] {
          forall i | 0 <= i < last ensures s[i] == t[i] {
            assert s'[..last][i] == t'[..last][i];
          }
        }
        if s[..last] == t[..last] {
          forall i | 0 <= i < last ensures s'[i] == t'[i] {
            assert s[..last][i] == t[..last][i];
          }
        }
      }
    }
  }

  /** A prefix comes before what it is a prefix of. */
  lemma {:induction false} PrefixComesFirst(a: string, b: string)
    requires a <= b
    ensures !StrLess(b, a)
    ensures a != b ==> StrLess(a, b)
  {
    if a != [] {
      PrefixComesFirst(a[1..], b[1..]);
      assert a == [a[0]] + a[1..] && b == [b[0]] + b[1..];
    }
  }

  class PrefixMap<V> {
    var entries: seq<Entry<V>>

    ghost predicate Valid()
      reads this
    {
      IsOrdered(entries)
    }

    constructor ()
      ensures Valid() && entries == []
    {
      entries := [];
    }

    /** Returns the value that was there. */
    method Insert(k: string, v: V) returns (before: Option<V>)
      requires Valid()
      modifies this
      ensures Valid() && before == Get(old(entries), k)
      ensures forall k' :: Get(entries, k') == if k' == k then Some(v) else Get(old(entries), k')
    {
      before := Get(entries, k);
      PutMeans(entries, k, v);
      entries := Put(entries, k, v);
    }

    /** The longest key that is a path prefix; none is found exactly when there is none. */
    method LongestPrefix(path: string) returns (r: Option<Entry<V>>)
      requires Valid()
      ensures r.None? <==> forall k | k in Keys(entries) :: !IsPathPrefix(k, path)
      ensures r.Some? ==> Get(entries, r.value.key) == Some(r.value.value) && IsPathPrefix(r.value.key, path)
      ensures r.Some? ==>
              forall k | k in Keys(entries) && IsPathPrefix(k, path) && k != r.value.key :: |k| < |r.value.key|
    {
      var i := |entries|;
      while i > 0 && !UpTo(entries[i - 1].key, path)
        invariant 0 <= i <= |entries|
        invariant forall j :: i <= j < |entries| ==> !IsPathPrefix(entries[j].key, path)
      {
        i := i - 1;
        BeyondIsNoPrefix(entries[i].key, path);
      }
      while i > 0
        invariant 0 <= i <= |entries|
        invariant forall j :: i <= j < |entries| ==> !IsPathPrefix(entries[j].key, path)
      {
        i := i - 1;
        if IsPathPrefix(entries[i].key, path) {
          GetAt(entries, i);
          KeyAt(entries, i);
          LastIsLongest(entries, i, path);
          return Some(entries[i]);
        }
      }
      forall k | k in Keys(entries) ensures !IsPathPrefix(k, path) {
        var j := Position(entries, k);
      }
      return None;
    }
  }

  lemma BeyondIsNoPrefix(k: string, path: string)
    requires !UpTo(k, path)
    ensures !IsPathPrefix(k, path)
  {
    if k <= path {
      PrefixComesFirst(k, path);
      assert false;
    }
  }

  /** Of two prefixes of a path the later one is longer. */
  lemma LastIsLongest<V>(entries: seq<Entry<V>>, i: nat, path: string)
    requires IsOrdered(entries) && i < |entries| && IsPathPrefix(entries[i].key, path)
    requires forall j :: i < j < |entries| ==> !IsPathPrefix(entries[j].key, path)
    ensures forall k | k in Keys(entries) && IsPathPrefix(k, path) && k != entries[i].key :: |k| < |entries[i].key|
  {
    var b := entries[i].key;
    forall k | k in Keys(entries) && IsPathPrefix(k, path) && k != b ensures |k| < |b| {
      var j := Position(entries, k);
      assert j < i;
      EarlierIsLess(entries, j, i);
      LaterIsLonger(k, b, path);
    }
  }

  lemma LaterIsLonger(a: string, b: string, path: string)
    requires a <= path && b <= path && StrLess(a, b)
    ensures |a| < |b|
  {
    if |b| <= |a| {
      assert b == path[..|b|] && a == path[..|a|] && a[..|b|] == b;
      PrefixComesFirst(b, a);
      assert false;
    }
  }
}
