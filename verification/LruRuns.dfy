/**
  Runs of the LRU cache: the list is in order of last use, and what an add evicts is the least recently
  used value.
 */
module LruRuns {
  import opened LruList
  import opened Lru

  /** The cached values after a run that starts empty. */
  function State<V(==)>(run: seq<Op<V>>, capacity: int): seq<V>
    requires capacity != 0
  {
    if run == [] then [] else Next(State(run[..|run| - 1], capacity), capacity, run[|run| - 1])
  }

  /** v is not cached, or it is just what a full cache would evict. */
  predicate Absent<V(==)>(s: seq<V>, capacity: int, v: V)
    requires capacity != 0
  {
    v in s ==> |s| == capacity && s[capacity - 1] == v
  }

  /** No add in the run brings a value that is cached when it is linked. */
  predicate AddsAbsent<V(==)>(run: seq<Op<V>>, capacity: int)
    requires capacity != 0
  {
    run == [] ||
    var before, op := run[..|run| - 1], run[|run| - 1];
    AddsAbsent(before, capacity) && (op.Add? ==> Absent(State(before, capacity), capacity, op.v))
  }

  lemma AbsentIsNotKept<V>(s: seq<V>, capacity: int, v: V)
    requires capacity != 0 && NoDup(s)
    ensures Absent(s, capacity, v) <==> v !in Evicted(s, capacity)
  {
    if v in s {
      var i :| 0 <= i < |s| && s[i] == v;
      if |s| == capacity && i < capacity - 1 {
        assert Evicted(s, capacity)[i] == v;
      }
    }
  }

  /** When the run last added or accessed v; -1 if never. */
  function LastUse<V(==)>(run: seq<Op<V>>, v: V): (t: int)
    ensures -1 <= t < |run|
  {
    if run == [] then -1
    else if !run[|run| - 1].Remove? && run[|run| - 1].v == v then |run| - 1
    else LastUse(run[..|run| - 1], v)
  }

  /** Most recently used first. */
  ghost predicate ByRecency<V>(run: seq<Op<V>>, s: seq<V>) {
    && (forall i, j :: 0 <= i < j < |s| ==> LastUse(run, s[i]) > LastUse(run, s[j]))
    && forall i :: 0 <= i < |s| ==> LastUse(run, s[i]) >= 0
  }

  /** An operation that keeps some of the values, in order, and uses none of them. */
  lemma StillOrdered<V>(run: seq<Op<V>>, op: Op<V>, s: seq<V>, t: seq<V>)
    requires ByRecency(run, s) && (op.Remove? || op.v !in t)
    requires Sublist(t, s)
    ensures ByRecency(run + [op], t)
  {
    assert (run + [op])[..|run|] == run;
    SublistOrdered(run, t, s);
    forall v | v in t
      ensures LastUse(run + [op], v) == LastUse(run, v)
    {
    }
  }

  predicate Sublist<V(==)>(t: seq<V>, s: seq<V>) {
    t == [] || (s != [] && if t[0] == s[0] then Sublist(t[1..], s[1..]) else Sublist(t, s[1..]))
  }

  lemma {:induction false} SublistIn<V>(t: seq<V>, s: seq<V>, v: V)
    requires Sublist(t, s) && v in t
    ensures v in s
  {
    if t[0] == s[0] {
      if v != t[0] {
        SublistIn(t[1..], s[1..], v);
      }
    } else {
      SublistIn(t, s[1..], v);
    }
  }

  lemma {:induction false} SublistOrdered<V>(run: seq<Op<V>>, t: seq<V>, s: seq<V>)
    requires Sublist(t, s) && ByRecency(run, s)
    ensures ByRecency(run, t)
  {
    if t != [] {
      assert ByRecency(run, s[1..]);
      if t[0] == s[0] {
        SublistOrdered(run, t[1..], s[1..]);
        forall j | 0 < j < |t|
          ensures LastUse(run, t[0]) > LastUse(run, t[j])
        {
          SublistIn(t[1..], s[1..], t[j]);
        }
        assert forall j :: 0 < j < |t| ==> t[j] == t[1..][j - 1];
      } else {
        SublistOrdered(run, t, s[1..]);
      }
    }
  }

  lemma {:induction false} SublistTail<V>(t: seq<V>, s: seq<V>)
    requires Sublist(t, s) && t != []
    ensures Sublist(t[1..], s)
    decreases |s|, 0
  {
    if t[0] == s[0] {
      SublistCons(t[1..], s[1..], s[0]);
      assert [s[0]] + s[1..] == s;
    } else {
      SublistTail(t, s[1..]);
      SublistCons(t[1..], s[1..], s[0]);
      assert [s[0]] + s[1..] == s;
    }
  }

  lemma {:induction false} SublistCons<V>(t: seq<V>, s: seq<V>, v: V)
    requires Sublist(t, s)
    ensures Sublist(t, [v] + s)
    decreases |s|, 1
  {
    assert ([v] + s)[1..] == s;
    if t != [] && t[0] == v {
      SublistTail(t, s);
    }
  }

  lemma {:induction false} PrefixSublist<V>(s: seq<V>, k: nat)
    requires k <= |s|
    ensures Sublist(s[..k], s)
  {
    if k > 0 {
      PrefixSublist(s[1..], k - 1);
      assert s[..k][1..] == s[1..][..k - 1];
    }
  }

  lemma {:induction false} DropSublist<V>(s: seq<V>, v: V)
    ensures Sublist(Drop(s, v), s)
  {
    if s != [] {
      if s[0] == v {
        PrefixSublist(s[1..], |s| - 1);
        assert s[1..][..|s| - 1] == s[1..];
        SublistCons(s[1..], s[1..], v);
        assert [v] + s[1..] == s;
      } else {
        DropSublist(s[1..], v);
        assert Drop(s, v)[1..] == Drop(s[1..], v);
      }
    }
  }

  lemma {:induction false} DropGone<V>(s: seq<V>, v: V)
    requires NoDup(s)
    ensures v !in Drop(s, v)
  {
    if s != [] && s[0] != v {
      DropGone(s[1..], v);
    }
  }

  /** Using v puts it in front of values that are not v. */
  lemma FrontOrdered<V>(run: seq<Op<V>>, op: Op<V>, s: seq<V>, t: seq<V>)
    requires ByRecency(run, s) && Sublist(t, s) && !op.Remove? && op.v !in t
    ensures ByRecency(run + [op], [op.v] + t)
  {
    StillOrdered(run, op, s, t);
    assert (run + [op])[..|run|] == run;
    forall w | w in t
      ensures LastUse(run + [op], w) < |run| == LastUse(run + [op], op.v)
    {
    }
    assert LastUse(run + [op], op.v) == |run|;
  }

  /** One operation keeps the list in order of last use. */
  lemma StepOrdered<V>(run: seq<Op<V>>, op: Op<V>, s: seq<V>, capacity: int)
    requires capacity != 0 && ByRecency(run, s)
    requires op.Add? ==> op.v !in Evicted(s, capacity)
    ensures ByRecency(run + [op], Next(s, capacity, op))
  {
    match op
    case Add(v) =>
      PrefixSublist(s, |Evicted(s, capacity)|);
      assert s[..|Evicted(s, capacity)|] == Evicted(s, capacity);
      FrontOrdered(run, op, s, Evicted(s, capacity));
    case Access(v) =>
      if v in s {
        DropSublist(s, v);
        DropGone(s, v);
        FrontOrdered(run, op, s, Drop(s, v));
      } else {
        PrefixSublist(s, |s|);
        assert s[..|s|] == s;
        StillOrdered(run, op, s, s);
      }
    case Remove(v) =>
      DropSublist(s, v);
      StillOrdered(run, op, s, Drop(s, v));
  }

  lemma {:induction false} DropLength<V>(s: seq<V>, v: V)
    ensures |Drop(s, v)| == if v in s then |s| - 1 else |s|
  {
    if s != [] && s[0] != v {
      DropLength(s[1..], v);
    }
  }

  /** After every run: list order is recency order, no value is cached twice, and capacity is kept. */
  lemma {:induction false} EveryRun<V>(run: seq<Op<V>>, capacity: int)
    requires capacity != 0 && AddsAbsent(run, capacity)
    ensures ByRecency(run, State(run, capacity)) && NoDup(State(run, capacity))
    ensures capacity > 0 ==> |State(run, capacity)| <= capacity
  {
    if run != [] {
      var before, op := run[..|run| - 1], run[|run| - 1];
      EveryRun(before, capacity);
      if op.Add? {
        AbsentIsNotKept(State(before, capacity), capacity, op.v);
      }
      StepOrdered(before, op, State(before, capacity), capacity);
      assert before + [op] == run;
      DropLength(State(before, capacity), op.v);
    }
  }

  /** After every run: a full cache evicts the value whose last use is the longest ago, and no other. */
  lemma EvictsLeastRecentlyUsed<V>(run: seq<Op<V>>, capacity: int, v: V, w: V)
    requires capacity > 0 && AddsAbsent(run, capacity) && |State(run, capacity)| == capacity
    requires w in State(run, capacity)
    ensures var s := State(run, capacity);
            && Next(s, capacity, Op.Add(v)) == [v] + s[..capacity - 1]
            && (LastUse(run, s[capacity - 1]) < LastUse(run, w) || w == s[capacity - 1])
  {
    EveryRun(run, capacity);
    LastIsOldest(run, State(run, capacity), w);
  }

  lemma LastIsOldest<V>(run: seq<Op<V>>, s: seq<V>, w: V)
    requires ByRecency(run, s) && w in s
    ensures LastUse(run, s[|s| - 1]) < LastUse(run, w) || w == s[|s| - 1]
  {
    var i :| 0 <= i < |s| && s[i] == w;
  }

  /** Adding a value that stays cached always leaves it in the list twice, and nothing else does. */
  lemma AddPresentDuplicates<V>(s: seq<V>, capacity: int, v: V)
    requires capacity != 0 && NoDup(s)
    ensures NoDup(Next(s, capacity, Op.Add(v))) <==> v !in s || (|s| == capacity && s[capacity - 1] == v)
  {
    AbsentIsNotKept(s, capacity, v);
    var t := [v] + Evicted(s, capacity);
    if v in Evicted(s, capacity) {
      var i :| 0 <= i < |Evicted(s, capacity)| && Evicted(s, capacity)[i] == v;
      assert t[0] == t[i + 1];
    }
  }

  /** op takes w out of the cache s: it removes it, or it adds to a full cache that has it last. */
  predicate TakesOut<V(==)>(s: seq<V>, capacity: int, op: Op<V>, w: V) {
    op == Remove(w) || (op.Add? && |s| == capacity > 0 && s[capacity - 1] == w)
  }

  lemma {:induction false} DropMembers<V>(s: seq<V>, v: V, w: V)
    requires NoDup(s)
    ensures w in Drop(s, v) <==> w in s && w != v
  {
    if s != [] {
      DropMembers(s[1..], v, w);
      assert s == [s[0]] + s[1..];
    }
  }

  lemma KeptMembers<V>(s: seq<V>, capacity: int, w: V)
    requires capacity != 0 && NoDup(s)
    ensures w in Evicted(s, capacity) <==> w in s && !(|s| == capacity > 0 && s[capacity - 1] == w)
  {
    AbsentIsNotKept(s, capacity, w);
  }

  lemma NextMembers<V>(s: seq<V>, capacity: int, op: Op<V>, w: V)
    requires capacity != 0 && NoDup(s)
    ensures w in Next(s, capacity, op) <==> op == Add(w) || (w in s && !TakesOut(s, capacity, op, w))
  {
    match op
    case Add(v) => KeptMembers(s, capacity, w);
    case Access(v) => DropMembers(s, v, w);
    case Remove(v) => DropMembers(s, v, w);
  }

  /** What is cached after one more operation: what it adds, and what was cached and is not taken out. */
  lemma CachedIff<V>(run: seq<Op<V>>, op: Op<V>, capacity: int, w: V)
    requires capacity != 0 && AddsAbsent(run, capacity)
    ensures w in State(run + [op], capacity) <==>
              op == Add(w) || (w in State(run, capacity) && !TakesOut(State(run, capacity), capacity, op, w))
  {
    EveryRun(run, capacity);
    assert (run + [op])[..|run|] == run;
    NextMembers(State(run, capacity), capacity, op, w);
  }

  lemma {:induction false} RecencyDistinct<V>(run: seq<Op<V>>, s: seq<V>)
    requires ByRecency(run, s) && s != []
    ensures s[0] !in s[1..]
  {
  }

  lemma FirstIn<V>(t: seq<V>)
    requires t != []
    ensures t[0] in t
  {
  }

  /** There is only one list of given values in order of last use. */
  lemma {:induction false} OnlyList<V>(run: seq<Op<V>>, s: seq<V>, t: seq<V>)
    requires ByRecency(run, s) && ByRecency(run, t) && forall v :: v in s <==> v in t
    ensures s == t
  {
    if s == [] {
      if t != [] {
        FirstIn(t);
      }
    } else {
      FirstIn(s);
      FirstIn(t);
      SameFirst(run, s, t);
      RecencyDistinct(run, s);
      RecencyDistinct(run, t);
      forall v
        ensures v in s[1..] <==> v in t[1..]
      {
        assert v in s <==> v == s[0] || v in s[1..];
        assert v in t <==> v == t[0] || v in t[1..];
      }
      OnlyList(run, s[1..], t[1..]);
      assert s == [s[0]] + s[1..] && t == [t[0]] + t[1..];
    }
  }

  lemma SameFirst<V>(run: seq<Op<V>>, s: seq<V>, t: seq<V>)
    requires ByRecency(run, s) && ByRecency(run, t) && s != [] && t != [] && s[0] in t && t[0] in s
    ensures s[0] == t[0]
  {
    var i :| 0 <= i < |t| && t[i] == s[0];
    var j :| 0 <= j < |s| && s[j] == t[0];
  }

  lemma {:induction false} AddsAbsentPrefix<V>(run: seq<Op<V>>, capacity: int, k: nat)
    requires capacity != 0 && AddsAbsent(run, capacity) && k <= |run|
    ensures AddsAbsent(run[..k], capacity)
  {
    if k < |run| {
      AddsAbsentPrefix(run[..|run| - 1], capacity, k);
      assert run[..|run| - 1][..k] == run[..k];
    } else {
      assert run[..k] == run;
    }
  }

  method Apply<V(==)>(c: Cache<V>, op: Op<V>)
    requires c.Valid() && c.Agrees() && c.capacity != 0
    requires op.Add? ==> Absent(c.list.values, c.capacity, op.v)
    modifies c, c.list, c.list.nodes
    ensures c.Valid() && c.Agrees() && c.list.values == Next(old(c.list.values), c.capacity, op)
    ensures forall i :: 0 <= i < |c.list.nodes| ==> c.list.nodes[i] in old(c.list.nodes) || fresh(c.list.nodes[i])
  {
    c.NoDuplicates();
    match op {
      case Add(v) =>
        AbsentIsNotKept(c.list.values, c.capacity, v);
        var popped := c.Add(v);
      case Access(v) => c.Access(v);
      case Remove(v) => c.Remove(v);
    }
  }

  /** The cache itself, driven through a run, ends in agreement and holds what the run's state says. */
  method Drive<V(==)>(run: seq<Op<V>>, capacity: int) returns (c: Cache<V>)
    requires capacity != 0 && AddsAbsent(run, capacity)
    ensures fresh(c) && c.Valid() && c.Agrees() && c.list.values == State(run, capacity)
  {
    c := new Cache<V>(capacity);
    var i := 0;
    while i < |run|
      invariant 0 <= i <= |run|
      invariant fresh(c) && fresh(c.list) && fresh(c.list.nodes) && c.capacity == capacity
      invariant c.Valid() && c.Agrees() && c.list.values == State(run[..i], capacity)
    {
      AddsAbsentPrefix(run, capacity, i + 1);
      assert run[..i + 1][..i] == run[..i];
      Apply(c, run[i]);
      i := i + 1;
    }
    assert run[..i] == run;
  }
}
