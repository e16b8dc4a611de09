/** The debugging handle (dbgarc/src/lib.rs): all handles of one shared value are linked in a
    ring, a circular doubly linked list on the heap. */
module HandleRing {
  import opened Values

  class Node {
    const bt: string
    var prev: Node?
    var next: Node?

    constructor (bt: string)
      ensures this.bt == bt && prev == null && next == null
    {
      this.bt := bt;
      prev, next := null, null;
    }
  }

  ghost predicate Distinct(ring: seq<Node>) {
    forall i, j :: 0 <= i < j < |ring| ==> ring[i] != ring[j]
  }

  ghost predicate Linked(ring: seq<Node>)
    reads ring
  {
    && (forall i :: 0 <= i < |ring| - 1 ==> ring[i].next == ring[i + 1] && ring[i + 1].prev == ring[i])
    && (ring != [] ==> ring[|ring| - 1].next == ring[0] && ring[0].prev == ring[|ring| - 1])
  }

  /** The nodes are linked in this order, the last one back to the first. */
  ghost predicate IsRing(ring: seq<Node>)
    reads ring
  {
    Distinct(ring) && Linked(ring)
  }

  /** A ring may be read from any node on. */
  lemma Rotate(a: seq<Node>, b: seq<Node>)
    requires IsRing(a + b)
    ensures IsRing(b + a)
  {
    var ring, turned := a + b, b + a;
    var n, k := |a| + |b|, |a|;
    assert forall i :: 0 <= i < n ==> turned[i] == ring[if i < |b| then i + k else i - |b|];
  }

  /** The other nodes, from the one after the `i`-th on. */
  function Others(ring: seq<Node>, i: nat): seq<Node>
    requires i < |ring|
  {
    ring[i + 1..] + ring[..i]
  }

  /** The ring is one that ends with its `i`-th node. */
  lemma TurnTo(ring: seq<Node>, i: nat)
    requires i < |ring| && IsRing(ring)
    ensures IsRing(Others(ring, i) + [ring[i]])
    ensures forall n | n in Others(ring, i) :: n in ring
  {
    assert ring == ring[..i + 1] + ring[i + 1..];
    Rotate(ring[..i + 1], ring[i + 1..]);
    assert Others(ring, i) + [ring[i]] == ring[i + 1..] + ring[..i + 1];
  }

  lemma TurnBack(ring: seq<Node>, i: nat)
    requires i < |ring| && IsRing(Others(ring, i) + [ring[i]])
    ensures IsRing(ring)
  {
    assert Others(ring, i) + [ring[i]] == ring[i + 1..] + ring[..i + 1];
    Rotate(ring[i + 1..], ring[..i + 1]);
    assert ring == ring[..i + 1] + ring[i + 1..];
  }

  /** Links `node` in after `cur`. */
  method Insert(cur: Node, node: Node, ghost others: seq<Node>)
    requires IsRing(others + [cur]) && node !in others && node != cur
    modifies others, cur, node
    ensures IsRing(others + [cur, node])
  {
    ghost var ring, ring' := others + [cur], others + [cur, node];
    var next := cur.next;
    assert next == ring[0] == ring'[0];
    cur.next := node;
    node.prev := cur;
    node.next := next;
    next.prev := node;
    assert forall i :: 0 <= i < |ring| ==> ring'[i] == ring[i];
  }

  /** Unlinks `node`; a node alone stays linked to itself. */
  method Remove(node: Node, ghost others: seq<Node>)
    requires IsRing(others + [node])
    modifies others, node
    ensures IsRing(others)
    ensures others == [] ==> IsRing([node])
  {
    ghost var ring := others + [node];
    assert others == [] ==> ring == [node];
    assert forall i :: 0 <= i < |others| ==> ring[i] == others[i];
    assert others != [] ==> ring[|others| - 1].next == node && node.prev == ring[|others| - 1];
    var prev, next := node.prev, node.next;
    node.prev, node.next := null, null;
    prev.next := next;
    next.prev := prev;
  }

  /** The `i`-th node was removed from a ring in which it came after `prev`. */
  ghost predicate TakenOut(ring: seq<Node>, i: nat, prev: Node)
    requires i < |ring|
    reads ring
  {
    && Distinct(ring) && (forall n | n in Others(ring, i) :: n in ring)
    && IsRing(Others(ring, i))
    && if |ring| == 1 then prev == ring[i] && IsRing([ring[i]]) else prev == Others(ring, i)[|ring| - 2]
  }

  /** The shared value with its strong count. */
  class Shared<T> {
    const value: T
    var count: nat

    constructor (value: T)
      ensures this.value == value && count == 1
    {
      this.value := value;
      count := 1;
    }
  }

  datatype Unwrapped<T> = Taken(value: T) | Back(node: Node)

  /** One shared value with all its handles.  A handle is its node; `outside` counts the
      references to the value that were taken without a handle. */
  class Handles<T> {
    const inner: Shared<T>
    ghost var ring: seq<Node>
    ghost var outside: nat

    ghost predicate Valid()
      reads this, inner, ring
    {
      IsRing(ring) && inner.count == |ring| + outside
    }

    constructor (value: T, bt: string)
      ensures Valid() && |ring| == 1 && ring[0].bt == bt && outside == 0 && inner.value == value
      ensures fresh(inner) && fresh(ring)
    {
      var node := new Node(bt);
      inner := new Shared(value);
      ring := [node];
      outside := 0;
      new;
      node.prev := node;
      node.next := node;
    }

    /** The new handle comes right after the one it was cloned from. */
    method Clone(h: Node, bt: string, ghost i: nat) returns (node: Node)
      requires Valid() && i < |ring| && ring[i] == h
      modifies this`ring, inner`count, ring
      ensures Valid() && fresh(node) && node.bt == bt && outside == old(outside)
      ensures ring == Others(old(ring), i) + [h, node]
    {
      TurnTo(ring, i);
      ghost var others := Others(ring, i);
      node := new Node(bt);
      Insert(h, node, others);
      inner.count := inner.count + 1;
      ring := others + [h, node];
    }

    /** Taking or returning a reference to the value that bypasses the handles. */
    method ShareOutside()
      requires Valid()
      modifies this`outside, inner`count
      ensures Valid() && outside == old(outside) + 1
    {
      inner.count := inner.count + 1;
      outside := outside + 1;
    }

    method ReturnOutside()
      requires Valid() && outside > 0
      modifies this`outside, inner`count
      ensures Valid() && outside == old(outside) - 1
    {
      inner.count := inner.count - 1;
      outside := outside - 1;
    }

    /** Dropping a handle; the last one leaves no ring. */
    method Drop(h: Node, ghost i: nat)
      requires Valid() && i < |ring| && ring[i] == h
      modifies this`ring, inner`count, ring
      ensures Valid() && outside == old(outside)
      ensures ring == Others(old(ring), i)
    {
      TurnTo(ring, i);
      ghost var others := Others(ring, i);
      Remove(h, others);
      inner.count := inner.count - 1;
      ring := others;
    }

    /** Takes the value out if this is its last reference; otherwise the handle comes back and
        the ring is in the order it was in. */
    method TryUnwrap(h: Node, ghost i: nat) returns (r: Unwrapped<T>)
      requires Valid() && i < |ring| && ring[i] == h
      modifies this`ring, inner`count, ring
      ensures Valid() && outside == old(outside)
      ensures r.Taken? <==> old(|ring| == 1 && outside == 0)
      ensures r.Taken? ==> r.value == inner.value && ring == []
      ensures r.Back? ==> r.node == h && ring == old(ring)
    {
      inner.count := inner.count + 1;
      var prev := TakeOut(h, ring, i);
      inner.count := inner.count - 1;
      if inner.count == 1 {
        inner.count := 0;
        ring := [];
        return Taken(inner.value);
      }
      PutBack(h, prev, ring, i);
      return Back(h);
    }

    /** Removes a handle and says which one was before it. */
    static method TakeOut(h: Node, ghost ring: seq<Node>, ghost i: nat) returns (prev: Node)
      requires IsRing(ring) && i < |ring| && ring[i] == h
      modifies ring
      ensures TakenOut(ring, i, prev)
    {
      TurnTo(ring, i);
      ghost var others := Others(ring, i);
      assert others != [] ==> (others + [h])[|others| - 1].next == (others + [h])[|others|];
      prev := h.prev;
      Remove(h, others);
    }

    /** Links a removed handle in again, unless it was alone. */
    static method PutBack(h: Node, prev: Node, ghost ring: seq<Node>, ghost i: nat)
      requires i < |ring| && ring[i] == h && TakenOut(ring, i, prev)
      modifies ring
      ensures IsRing(ring)
    {
      ghost var others := Others(ring, i);
      assert h !in others && forall n | n in others :: n in ring;
      if prev != h {
        ghost var rest := others[..|others| - 1];
        assert others == rest + [prev] && rest + [prev, h] == others + [h];
        Insert(prev, h, rest);
      } else {
        assert others + [h] == [h];
      }
      TurnBack(ring, i);
    }
  }

  /** A ring in the same order has the same links in each node. */
  twostate lemma SameLinks(ring: seq<Node>)
    requires old(IsRing(ring)) && IsRing(ring)
    ensures forall n | n in ring :: n.next == old(n.next) && n.prev == old(n.prev)
  {
    forall n | n in ring ensures n.next == old(n.next) && n.prev == old(n.prev) {
      var k :| 0 <= k < |ring| && ring[k] == n;
      if k > 0 {
        assert ring[k].prev == ring[k - 1] && old(ring[k].prev) == ring[k - 1] by {
          assert ring[k - 1].next == ring[k] && old(ring[k - 1].next) == ring[k];
        }
      }
      if k < |ring| - 1 {
        assert ring[k].next == ring[k + 1] && old(ring[k].next) == ring[k + 1];
      }
    }
  }

  // ---------- iteration ----------

  class Iter {
    var cur: Node
    const end: Node

    constructor (h: Node)
      ensures cur == h && end == h
    {
      cur, end := h, h;
    }

    /** One step along the ring; `k` nodes were visited before. */
    method Next(ghost ring: seq<Node>, ghost k: nat) returns (r: Option<string>)
      requires IsRing(ring) && k < |ring| && end == ring[|ring| - 1]
      requires cur == if k == 0 then end else ring[k - 1]
      modifies this
      ensures cur == ring[k]
      ensures r == if k == |ring| - 1 then None else Some(ring[k].bt)
    {
      assert k > 0 ==> ring[k - 1].next == ring[k];
      var next := cur.next;
      cur := next;
      if cur == end {
        return None;
      }
      return Some(cur.bt);
    }
  }

  function Traces(ring: seq<Node>): seq<string> {
    if ring == [] then [] else Traces(ring[..|ring| - 1]) + [ring[|ring| - 1].bt]
  }

  /** One trace for each node, in their order. */
  lemma {:induction false} TracesAreInOrder(ring: seq<Node>)
    ensures |Traces(ring)| == |ring|
    ensures forall i :: 0 <= i < |ring| ==> Traces(ring)[i] == ring[i].bt
  {
    if ring != [] {
      TracesAreInOrder(ring[..|ring| - 1]);
    }
  }

  /** Iterating from a handle visits each other handle once, in ring order, and stops. */
  method CollectOthers(h: Node, ghost ring: seq<Node>, ghost i: nat) returns (traces: seq<string>)
    requires IsRing(ring) && i < |ring| && ring[i] == h
    ensures traces == Traces(Others(ring, i))
    ensures |traces| == |ring| - 1
    ensures forall k :: 0 <= k < |traces| ==>
              traces[k] == ring[if i + 1 + k < |ring| then i + 1 + k else i + 1 + k - |ring|].bt
  {
    TurnTo(ring, i);
    traces := CollectUpTo(h, Others(ring, i));
    TracesAreInOrder(Others(ring, i));
  }

  method CollectUpTo(h: Node, ghost others: seq<Node>) returns (traces: seq<string>)
    requires IsRing(others + [h])
    ensures traces == Traces(others)
  {
    ghost var ring, k := others + [h], 0;
    var iter := new Iter(h);
    traces := [];
    var item := iter.Next(ring, 0);
    while item.Some?
      invariant k <= |others| && iter.end == h && iter.cur == ring[k] && IsRing(ring)
      invariant item == if k == |others| then None else Some(others[k].bt)
      invariant traces == Traces(others[..k])
      decreases |others| - k
    {
      traces := traces + [item.value];
      assert others[..k + 1][..k] == others[..k];
      k := k + 1;
      item := iter.Next(ring, k);
    }
    assert others[..k] == others;
  }
}
