/**
  The LRU cache: a linked list in order of use and an index from a value to its list node.  What the
  operations do to the sequence of cached values is the function Next; its runs are in LruRuns.
 */
module Lru {
  import opened Common
  import opened LruList

  // ---------------------------------------------------------------- on values

  /** What an add leaves of the list before it links the new value: full means exactly capacity values. */
  function Evicted<V>(s: seq<V>, capacity: int): seq<V>
    requires capacity != 0
  {
    if |s| == capacity then s[..|s| - 1] else s
  }

  /** s without the first v. */
  function Drop<V(==)>(s: seq<V>, v: V): seq<V> {
    if s == [] then [] else if s[0] == v then s[1..] else [s[0]] + Drop(s[1..], v)
  }

  lemma WithoutLater<V>(s: seq<V>, k: nat)
    requires 0 < k < |s|
    ensures Without(s, k) == [s[0]] + Without(s[1..], k - 1)
  {
  }

  lemma {:induction false} DropIsWithout<V>(s: seq<V>, v: V, k: nat)
    requires NoDup(s) && k < |s| && s[k] == v
    ensures Drop(s, v) == Without(s, k)
  {
    if k > 0 {
      DropIsWithout(s[1..], v, k - 1);
      WithoutLater(s, k);
    }
  }

  lemma {:induction false} DropAbsent<V>(s: seq<V>, v: V)
    requires v !in s
    ensures Drop(s, v) == s
  {
    if s != [] {
      DropAbsent(s[1..], v);
    }
  }

  datatype Op<V> = Add(v: V) | Access(v: V) | Remove(v: V)

  /** The cached values, most recently used first, after one operation that adds no value already there. */
  function Next<V(==)>(s: seq<V>, capacity: int, op: Op<V>): seq<V>
    requires op.Add? ==> capacity != 0
  {
    match op
    case Add(v) => [v] + Evicted(s, capacity)
    case Access(v) => if v in s then [v] + Drop(s, v) else s
    case Remove(v) => Drop(s, v)
  }

  // ---------------------------------------------------------------- the index against the list

  /** Each stored iterator points at a node of the list that holds its value. */
  ghost predicate Live<N, V>(nodes: seq<N>, values: seq<V>, index: map<V, N>)
    requires |nodes| == |values|
  {
    forall v :: v in index ==> exists k :: 0 <= k < |nodes| && nodes[k] == index[v] && values[k] == v
  }

  /** Every node of the list is the one the index gives for its value. */
  ghost predicate Agree<N, V>(nodes: seq<N>, values: seq<V>, index: map<V, N>)
    requires |nodes| == |values|
  {
    forall i :: 0 <= i < |nodes| ==> values[i] in index && index[values[i]] == nodes[i]
  }

  /** Agreement is what the index is for: no value twice, and the keys are exactly the cached values. */
  lemma AgreeMeans<N, V>(nodes: seq<N>, values: seq<V>, index: map<V, N>)
    requires |nodes| == |values| && NoDup(nodes) && Live(nodes, values, index)
    ensures Agree(nodes, values, index) <==> NoDup(values) && index.Keys == set v | v in values
  {
    forall v | v in index
      ensures v in values
    {
      var k :| 0 <= k < |nodes| && nodes[k] == index[v] && values[k] == v;
    }
    if NoDup(values) && index.Keys == set v | v in values {
      forall i | 0 <= i < |nodes|
        ensures values[i] in index && index[values[i]] == nodes[i]
      {
        assert values[i] in index.Keys;
        var k :| 0 <= k < |nodes| && nodes[k] == index[values[i]] && values[k] == values[i];
      }
    }
  }

  /** Where an element of s other than the k-th is in s without the k-th. */
  function Shift(i: int, k: int): int {
    if i < k then i else i - 1
  }

  /** Taking out the k-th node and the index entry of its value. */
  lemma TakeOutLive<N, V>(nodes: seq<N>, values: seq<V>, index: map<V, N>, k: nat)
    requires |nodes| == |values| && Live(nodes, values, index) && k < |nodes|
    ensures Live(Without(nodes, k), Without(values, k), index - {values[k]})
  {
    var ns, vs, ix := Without(nodes, k), Without(values, k), index - {values[k]};
    forall v | v in ix
      ensures exists j :: 0 <= j < |ns| && ns[j] == ix[v] && vs[j] == v
    {
      var j :| 0 <= j < |nodes| && nodes[j] == index[v] && values[j] == v;
      assert ns[Shift(j, k)] == nodes[j] && vs[Shift(j, k)] == values[j];
    }
  }

  lemma TakeOutAgree<N, V>(nodes: seq<N>, values: seq<V>, index: map<V, N>, k: nat)
    requires |nodes| == |values| && NoDup(nodes) && Agree(nodes, values, index) && k < |nodes|
    ensures Agree(Without(nodes, k), Without(values, k), index - {values[k]})
  {
    var ns, vs := Without(nodes, k), Without(values, k);
    forall i | 0 <= i < |ns|
      ensures vs[i] in index && vs[i] != values[k] && index[vs[i]] == ns[i]
    {
      var j := if i < k then i else i + 1;
      assert nodes[j] != nodes[k] && vs[i] == values[j] && ns[i] == nodes[j];
    }
  }

  /** Putting a new node in front and pointing the index at it. */
  lemma PutIn<N, V>(nodes: seq<N>, values: seq<V>, index: map<V, N>, n: N, v: V)
    requires |nodes| == |values| && n !in nodes && Live(nodes, values, index)
    ensures Live([n] + nodes, [v] + values, index[v := n])
    ensures Agree(nodes, values, index) ==> (Agree([n] + nodes, [v] + values, index[v := n]) <==> v !in values)
  {
    var ns, vs, ix := [n] + nodes, [v] + values, index[v := n];
    forall w | w in ix
      ensures exists j :: 0 <= j < |ns| && ns[j] == ix[w] && vs[j] == w
    {
      if w == v {
        assert ns[0] == ix[w] && vs[0] == w;
      } else {
        var j :| 0 <= j < |nodes| && nodes[j] == index[w] && values[j] == w;
        assert ns[j + 1] == ix[w] && vs[j + 1] == w;
      }
    }
    if v in values {
      var i :| 0 <= i < |values| && values[i] == v;
      assert ns[i + 1] == nodes[i] && vs[i + 1] == v && nodes[i] != n;
    }
  }

  /** Moving the k-th node to the front. */
  lemma MoveUpLive<N, V>(nodes: seq<N>, values: seq<V>, index: map<V, N>, k: nat)
    requires |nodes| == |values| && Live(nodes, values, index) && k < |nodes|
    ensures Live([nodes[k]] + Without(nodes, k), [values[k]] + Without(values, k), index)
  {
    var ns, vs := [nodes[k]] + Without(nodes, k), [values[k]] + Without(values, k);
    forall v | v in index
      ensures exists j :: 0 <= j < |ns| && ns[j] == index[v] && vs[j] == v
    {
      var j :| 0 <= j < |nodes| && nodes[j] == index[v] && values[j] == v;
      var i := if j == k then 0 else Shift(j, k) + 1;
      assert ns[i] == nodes[j] && vs[i] == values[j];
    }
  }

  lemma MoveUpAgree<N, V>(nodes: seq<N>, values: seq<V>, index: map<V, N>, k: nat)
    requires |nodes| == |values| && Agree(nodes, values, index) && k < |nodes|
    ensures Agree([nodes[k]] + Without(nodes, k), [values[k]] + Without(values, k), index)
  {
    var ns, vs := [nodes[k]] + Without(nodes, k), [values[k]] + Without(values, k);
    forall i | 0 <= i < |ns|
      ensures vs[i] in index && index[vs[i]] == ns[i]
    {
      var j := if i == 0 then k else if i <= k then i - 1 else i;
      assert vs[i] == values[j] && ns[i] == nodes[j];
    }
  }

  /** In agreement, taking out the node that the index gives for v is dropping v. */
  lemma TakeOutIsDrop<N, V>(nodes: seq<N>, values: seq<V>, index: map<V, N>, v: V, k: nat)
    requires |nodes| == |values| && NoDup(nodes) && Live(nodes, values, index) && Agree(nodes, values, index)
    requires k < |nodes| && values[k] == v
    ensures Drop(values, v) == Without(values, k)
  {
    AgreeMeans(nodes, values, index);
    DropIsWithout(values, v, k);
  }

  lemma IndexIsMembership<N, V>(nodes: seq<N>, values: seq<V>, index: map<V, N>, v: V)
    requires |nodes| == |values| && NoDup(nodes) && Live(nodes, values, index) && Agree(nodes, values, index)
    ensures v in index <==> v in values
    ensures v !in index ==> Drop(values, v) == values
  {
    AgreeMeans(nodes, values, index);
    assert v in index <==> v in index.Keys;
    if v !in values {
      DropAbsent(values, v);
    }
  }

  // ---------------------------------------------------------------- the cache

  class Cache<V(==)> {
    const capacity: int
    const list: LinkedList<V>
    var index: map<V, Node<V>>

    ghost predicate Valid()
      reads this, list, list.nodes
    {
      list.Valid() && Live(list.nodes, list.values, index)
    }

    ghost predicate Agrees()
      requires Valid()
      reads this, list, list.nodes
    {
      Agree(list.nodes, list.values, index)
    }

    constructor (cap: int)
      ensures Valid() && Agrees() && list.values == [] && capacity == cap && fresh(list)
    {
      capacity := cap;
      list := new LinkedList<V>();
      index := map[];
    }

    /** Erases the k-th node, which holds v, from the list, and v from the index. */
    method Erase(n: Node<V>, v: V, ghost k: nat)
      requires Valid() && k < |list.nodes| && list.nodes[k] == n && list.values[k] == v
      modifies this, list, list.nodes
      ensures Valid() && index == old(index) - {v}
      ensures list.nodes == Without(old(list.nodes), k) && list.values == Without(old(list.values), k)
      ensures Within(list.nodes, old(list.nodes))
      ensures old(Agrees()) ==> Agrees()
    {
      TakeOutLive(list.nodes, list.values, index, k);
      if Agrees() {
        list.Distinct();
        TakeOutAgree(list.nodes, list.values, index, k);
      }
      list.Unlink(n, k);
      index := index - {v};
    }

    /** Drops the last value when the list holds exactly capacity values. */
    method PopIfFull() returns (popped: Option<V>)
      requires Valid() && capacity != 0
      modifies this, list, list.nodes
      ensures Valid() && list.values == Evicted(old(list.values), capacity)
      ensures popped == if |old(list.values)| == capacity then Some(old(list.values[|list.values| - 1])) else None
      ensures old(Agrees()) ==> Agrees()
      ensures list.nodes == Evicted(old(list.nodes), capacity)
    {
      popped := None;
      if list.count == capacity {
        assert list.Placed(list.count - 1);
        popped := Some(list.tail.value);
        Erase(list.tail, list.tail.value, list.count - 1);
      }
    }

    method Link(v: V)
      requires Valid()
      modifies this, list, list.nodes
      ensures Valid() && list.values == [v] + old(list.values)
      ensures old(Agrees()) ==> (Agrees() <==> v !in old(list.values))
      ensures forall i :: 0 <= i < |list.nodes| ==> list.nodes[i] in old(list.nodes) || fresh(list.nodes[i])
    {
      ghost var nodes, values := list.nodes, list.values;
      var n := list.PushFront(v);
      PutIn(nodes, values, index, n, v);
      index := index[v := n];
    }

    /** Capacity zero would take the back of an empty list; a negative capacity never evicts. */
    method Add(v: V) returns (popped: Option<V>)
      requires Valid() && capacity != 0
      modifies this, list, list.nodes
      ensures Valid()
      ensures |old(list.values)| != capacity ==> list.values == [v] + old(list.values)
      ensures |old(list.values)| == capacity ==> list.values == [v] + old(list.values)[..capacity - 1]
      ensures popped == if |old(list.values)| == capacity then Some(old(list.values[|list.values| - 1])) else None
      ensures old(Agrees()) ==>
                (Agrees() <==> if |old(list.values)| == capacity then v !in old(list.values)[..capacity - 1] else v !in old(list.values))
      ensures forall i :: 0 <= i < |list.nodes| ==> list.nodes[i] in old(list.nodes) || fresh(list.nodes[i])
    {
      popped := PopIfFull();
      Link(v);
    }

    lemma NoDuplicates()
      requires Valid() && Agrees()
      ensures NoDup(list.values)
    {
      list.Distinct();
      AgreeMeans(list.nodes, list.values, index);
    }

    /** Where the list holds the node that the index gives for v. */
    ghost function Where(v: V): (k: nat)
      requires Valid() && v in index
      reads this, list, list.nodes
      ensures k < |list.nodes| && list.nodes[k] == index[v] && list.values[k] == v
    {
      var k :| 0 <= k < |list.nodes| && list.nodes[k] == index[v] && list.values[k] == v;
      k
    }

    lemma DropIsErase(v: V)
      requires Valid() && Agrees()
      ensures v in index <==> v in list.values
      ensures Drop(list.values, v) == if v in index then Without(list.values, Where(v)) else list.values
    {
      list.Distinct();
      IndexIsMembership(list.nodes, list.values, index, v);
      if v in index {
        TakeOutIsDrop(list.nodes, list.values, index, v, Where(v));
      }
    }

    method Access(v: V)
      requires Valid()
      modifies this, list, list.nodes
      ensures Valid() && index == old(index)
      ensures list.values == if v in index then [v] + Without(old(list.values), old(Where(v))) else old(list.values)
      ensures old(Agrees()) ==> Agrees() && list.values == Next(old(list.values), capacity, Op.Access(v))
      ensures Within(list.nodes, old(list.nodes))
    {
      if Agrees() {
        DropIsErase(v);
      }
      if v in index {
        var n := index[v];
        ghost var k := Where(v);
        MoveUpLive(list.nodes, list.values, index, k);
        if Agrees() {
          MoveUpAgree(list.nodes, list.values, index, k);
        }
        list.Refresh(n, v, k);
      }
    }

    method EraseValue(v: V)
      requires Valid() && v in index
      modifies this, list, list.nodes
      ensures Valid() && index == old(index) - {v} && list.values == Without(old(list.values), old(Where(v)))
      ensures old(Agrees()) ==> Agrees() && list.values == Drop(old(list.values), v)
      ensures Within(list.nodes, old(list.nodes))
    {
      if Agrees() {
        DropIsErase(v);
      }
      Erase(index[v], v, Where(v));
    }

    method Remove(v: V)
      requires Valid()
      modifies this, list, list.nodes
      ensures Valid() && index == old(index) - {v}
      ensures list.values == if v in old(index) then Without(old(list.values), old(Where(v))) else old(list.values)
      ensures old(Agrees()) ==> Agrees() && list.values == Next(old(list.values), capacity, Op.Remove(v))
      ensures Within(list.nodes, old(list.nodes))
    {
      if v in index {
        EraseValue(v);
      } else {
        if Agrees() {
          DropIsErase(v);
        }
        assert index - {v} == index;
      }
    }
  }
}
