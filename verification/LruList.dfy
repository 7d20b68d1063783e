/**
  The doubly linked list under the LRU cache, with its nodes: the std::list operations the cache uses.
  A node keeps its identity while the list changes around it, as a list iterator does.
 */
module LruList {

  class Node<V> {
    var value: V
    var prev: Node?<V>
    var next: Node?<V>

    constructor (v: V)
      ensures value == v && prev == null && next == null
    {
      value, prev, next := v, null, null;
    }
  }

  ghost predicate NoDup<T>(s: seq<T>) {
    forall i, j :: 0 <= i < j < |s| ==> s[i] != s[j]
  }

  ghost predicate Within<T>(s: seq<T>, t: seq<T>) {
    forall i :: 0 <= i < |s| ==> s[i] in t
  }

  /** s without its k-th element. */
  ghost function Without<T>(s: seq<T>, k: nat): seq<T>
    requires k < |s|
  {
    s[..k] + s[k + 1..]
  }

  lemma WithoutWithin<T>(s: seq<T>, k: nat)
    requires k < |s|
    ensures Within(Without(s, k), s)
    ensures NoDup(s) ==> s[k] !in Without(s, k)
  {
  }

  ghost function At<V>(nodes: seq<Node<V>>, i: int): Node?<V> {
    if 0 <= i < |nodes| then nodes[i] else null
  }

  lemma AtWithout<V>(nodes: seq<Node<V>>, k: nat, i: int)
    requires k < |nodes|
    ensures At(Without(nodes, k), i) == At(nodes, if i < k then i else i + 1)
  {
  }

  class LinkedList<V> {
    var head: Node?<V>
    var tail: Node?<V>
    var count: nat
    ghost var nodes: seq<Node<V>>
    ghost var values: seq<V>

    ghost predicate Valid()
      reads this, nodes
    {
      && count == |nodes| == |values|
      && head == At(nodes, 0)
      && tail == At(nodes, |nodes| - 1)
      && forall i :: 0 <= i < |nodes| ==> Placed(i)
    }

    /** The i-th node is new to the list, holds the i-th value and is linked to its neighbours. */
    ghost predicate Placed(i: nat)
      requires i < |nodes| == |values|
      reads this, nodes
    {
      && (forall j :: 0 <= j < i ==> nodes[j] != nodes[i])
      && nodes[i].value == values[i]
      && nodes[i].prev == At(nodes, i - 1)
      && nodes[i].next == At(nodes, i + 1)
    }

    lemma Distinct()
      requires Valid()
      ensures NoDup(nodes)
    {
      forall i, j | 0 <= i < j < |nodes|
        ensures nodes[i] != nodes[j]
      {
        assert Placed(j);
      }
    }

    constructor ()
      ensures Valid() && nodes == [] && values == []
    {
      head, tail, count := null, null, 0;
      nodes, values := [], [];
    }

    /** Links a node in front. */
    method LinkFront(n: Node<V>)
      requires Valid() && n !in nodes
      modifies this, nodes, n
      ensures Valid() && nodes == [n] + old(nodes) && values == [old(n.value)] + old(values)
    {
      n.prev, n.next := null, head;
      if head == null {
        tail := n;
      } else {
        head.prev := n;
      }
      head, count := n, count + 1;
      nodes, values := [n] + nodes, [n.value] + values;
      forall i | 0 <= i < |nodes|
        ensures Placed(i)
      {
        assert i > 0 ==> old(Placed(i - 1));
      }
    }

    /** The j-th node of ns is placed, but its links pass the k-th node by. */
    ghost predicate Skips(ns: seq<Node<V>>, vs: seq<V>, j: nat, k: nat)
      requires j < |ns| == |vs|
      reads ns
    {
      && ns[j].value == vs[j]
      && ns[j].prev == At(ns, if j == k + 1 then k - 1 else j - 1)
      && ns[j].next == At(ns, if j == k - 1 then k + 1 else j + 1)
    }

    method PassBy(n: Node<V>, ghost k: nat)
      requires Valid() && k < |nodes| && nodes[k] == n
      modifies this, nodes
      ensures nodes == old(nodes) && values == old(values) && count == old(count) && n.value == old(n.value)
      ensures head == At(nodes, if k == 0 then 1 else 0)
      ensures tail == At(nodes, if k == |nodes| - 1 then k - 1 else |nodes| - 1)
      ensures forall j :: 0 <= j < |nodes| && j != k ==> Skips(nodes, values, j, k)
    {
      Distinct();
      assert Placed(k);
      if n.prev == null {
        head := n.next;
      } else {
        n.prev.next := n.next;
      }
      if n.next == null {
        tail := n.prev;
      } else {
        n.next.prev := n.prev;
      }
      forall j | 0 <= j < |nodes| && j != k
        ensures Skips(nodes, values, j, k)
      {
        assert old(Placed(j));
      }
    }

    /** Without the node that its links pass by, a node is placed. */
    lemma SkipsPlaced(ns: seq<Node<V>>, vs: seq<V>, k: nat, i: nat)
      requires k < |ns| == |vs| && nodes == Without(ns, k) && values == Without(vs, k) && i < |nodes|
      requires NoDup(ns) && Skips(ns, vs, if i < k then i else i + 1, k)
      ensures Placed(i)
    {
      AtWithout(ns, k, i - 1);
      AtWithout(ns, k, i + 1);
    }

    /** Unlinks the k-th node. */
    method Unlink(n: Node<V>, ghost k: nat)
      requires Valid() && k < |nodes| && nodes[k] == n
      modifies this, nodes
      ensures Valid() && nodes == Without(old(nodes), k) && values == Without(old(values), k)
      ensures n.value == old(n.value) && n !in nodes && Within(nodes, old(nodes))
    {
      Distinct();
      WithoutWithin(nodes, k);
      PassBy(n, k);
      ghost var ns, vs := nodes, values;
      count := count - 1;
      nodes, values := Without(ns, k), Without(vs, k);
      forall i | 0 <= i < |nodes|
        ensures Placed(i)
      {
        SkipsPlaced(ns, vs, k, i);
      }
    }

    /** emplace_front. */
    method PushFront(v: V) returns (n: Node<V>)
      requires Valid()
      modifies this, nodes
      ensures Valid() && fresh(n) && nodes == [n] + old(nodes) && values == [v] + old(values)
    {
      n := new Node(v);
      LinkFront(n);
    }

    /** Stores a value through the iterator of the first element. */
    method AssignFront(v: V)
      requires Valid() && nodes != []
      modifies this, nodes
      ensures Valid() && nodes == old(nodes) && values == [v] + old(values)[1..]
    {
      head.value := v;
      values := [v] + values[1..];
      forall i | 0 <= i < |nodes|
        ensures Placed(i)
      {
        assert old(Placed(i));
      }
    }

    /** splice to the front, and a store through the iterator. */
    method Refresh(n: Node<V>, v: V, ghost k: nat)
      requires Valid() && k < |nodes| && nodes[k] == n
      modifies this, nodes
      ensures Valid() && nodes == [n] + Without(old(nodes), k) && values == [v] + Without(old(values), k)
      ensures Within(nodes, old(nodes))
    {
      Unlink(n, k);
      LinkFront(n);
      AssignFront(v);
    }
  }
}
