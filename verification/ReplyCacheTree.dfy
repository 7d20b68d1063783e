/**
  The search tree of one reply-cache bucket.  A node is a reference to an entry: the entry's identity
  (its address in the source) and its key, which never changes while the entry lives.
 */
module ReplyCacheTree {
  import opened Common
  import opened ReplyCacheKey

  datatype Ref = Ref(id: nat, key: Key)

  datatype Tree = Leaf | Node(left: Tree, ref: Ref, right: Tree)

  function Refs(t: Tree): set<Ref> {
    match t
    case Leaf => {}
    case Node(l, r, g) => Refs(l) + {r} + Refs(g)
  }

  ghost predicate AllBelow(s: set<Ref>, k: Key) {
    forall x :: x in s ==> Less(x.key, k)
  }

  ghost predicate AllAbove(s: set<Ref>, k: Key) {
    forall x :: x in s ==> Less(k, x.key)
  }

  /** Strictly ordered by key, hence without duplicate keys. */
  ghost predicate Ordered(t: Tree) {
    t.Node? ==>
      && Ordered(t.left) && Ordered(t.right)
      && AllBelow(Refs(t.left), t.ref.key) && AllAbove(Refs(t.right), t.ref.key)
  }

  function Find(t: Tree, k: Key): Option<Ref> {
    match t
    case Leaf => None
    case Node(l, r, g) =>
      var cmp := MemCmp(k, r.key);
      if cmp < 0 then Find(l, k) else if cmp > 0 then Find(g, k) else Some(r)
  }

  /** Links a new node where the search for its key falls off the tree. */
  function Link(t: Tree, x: Ref): Tree {
    match t
    case Leaf => Node(Leaf, x, Leaf)
    case Node(l, r, g) =>
      var cmp := MemCmp(x.key, r.key);
      if cmp < 0 then Node(Link(l, x), r, g) else if cmp > 0 then Node(l, r, Link(g, x)) else t
  }

  function Smallest(t: Tree): Ref
    requires t.Node?
  {
    if t.left.Leaf? then t.ref else Smallest(t.left)
  }

  function DropSmallest(t: Tree): Tree
    requires t.Node?
  {
    if t.left.Leaf? then t.right else Node(DropSmallest(t.left), t.ref, t.right)
  }

  function Join(l: Tree, g: Tree): Tree {
    if g.Leaf? then l else Node(l, Smallest(g), DropSmallest(g))
  }

  function Erase(t: Tree, k: Key): Tree {
    match t
    case Leaf => Leaf
    case Node(l, r, g) =>
      var cmp := MemCmp(k, r.key);
      if cmp < 0 then Node(Erase(l, k), r, g)
      else if cmp > 0 then Node(l, r, Erase(g, k))
      else Join(l, g)
  }

  /** What the tree means: a finite map from keys to entries. */
  ghost function Index(t: Tree): map<Key, nat> {
    match t
    case Leaf => map[]
    case Node(l, r, g) => (Index(l) + Index(g))[r.key := r.id]
  }

  lemma {:induction false} FindComplete(t: Tree, x: Ref)
    requires Ordered(t) && x in Refs(t)
    ensures Find(t, x.key) == Some(x)
  {
    MemCmpZero(x.key, t.ref.key);
    MemCmpFlips(x.key, t.ref.key);
    LessIsStrictTotalOrder(x.key, t.ref.key, x.key);
    if x in Refs(t.left) {
      FindComplete(t.left, x);
    } else if x in Refs(t.right) {
      FindComplete(t.right, x);
    }
  }

  lemma {:induction false} FindSound(t: Tree, k: Key)
    ensures Find(t, k).Some? ==> Find(t, k).value in Refs(t) && Find(t, k).value.key == k
  {
    if t.Node? {
      MemCmpZero(k, t.ref.key);
      FindSound(t.left, k);
      FindSound(t.right, k);
    }
  }

  /** Search answers membership exactly. */
  lemma FindIff(t: Tree, k: Key)
    requires Ordered(t)
    ensures Find(t, k).None? <==> (forall x :: x in Refs(t) ==> x.key != k)
    ensures Find(t, k).Some? ==> Find(t, k).value in Refs(t) && Find(t, k).value.key == k
  {
    FindSound(t, k);
    forall x | x in Refs(t) && x.key == k
      ensures Find(t, k).Some?
    {
      FindComplete(t, x);
    }
  }

  lemma {:induction false} LinkAdds(t: Tree, x: Ref)
    requires Ordered(t) && Find(t, x.key).None?
    ensures Refs(Link(t, x)) == Refs(t) + {x}
    ensures Ordered(Link(t, x))
  {
    if t.Node? {
      MemCmpFlips(x.key, t.ref.key);
      if Less(x.key, t.ref.key) {
        LinkAdds(t.left, x);
      } else {
        LinkAdds(t.right, x);
      }
    }
  }

  lemma {:induction false} SmallestSplits(t: Tree)
    requires t.Node? && Ordered(t)
    ensures Refs(t) == {Smallest(t)} + Refs(DropSmallest(t))
    ensures Smallest(t) !in Refs(DropSmallest(t))
    ensures Ordered(DropSmallest(t)) && AllAbove(Refs(DropSmallest(t)), Smallest(t).key)
  {
    if t.left.Leaf? {
      LessIsStrictTotalOrder(t.ref.key, t.ref.key, t.ref.key);
    } else {
      SmallestSplits(t.left);
      var m := Smallest(t.left);
      forall x | x in Refs(DropSmallest(t))
        ensures Less(m.key, x.key)
      {
        LessIsStrictTotalOrder(m.key, t.ref.key, x.key);
      }
      LessIsStrictTotalOrder(m.key, m.key, m.key);
    }
  }

  lemma {:induction false} EraseRemoves(t: Tree, x: Ref)
    requires Ordered(t) && x in Refs(t)
    ensures Refs(Erase(t, x.key)) == Refs(t) - {x}
    ensures Ordered(Erase(t, x.key))
  {
    FindComplete(t, x);
    MemCmpFlips(x.key, t.ref.key);
    MemCmpZero(x.key, t.ref.key);
    LessIsStrictTotalOrder(x.key, t.ref.key, x.key);
    assert x !in Refs(t.left) || Less(x.key, t.ref.key);
    assert x !in Refs(t.right) || Less(t.ref.key, x.key);
    if Less(x.key, t.ref.key) {
      EraseRemoves(t.left, x);
    } else if Less(t.ref.key, x.key) {
      EraseRemoves(t.right, x);
    } else if t.right.Node? {
      SmallestSplits(t.right);
      forall y | y in Refs(t.left)
        ensures Less(y.key, Smallest(t.right).key)
      {
        LessIsStrictTotalOrder(y.key, t.ref.key, Smallest(t.right).key);
      }
    }
  }

  lemma {:induction false} IndexMeaning(t: Tree)
    requires Ordered(t)
    ensures forall x: Ref :: x in Refs(t) <==> x.key in Index(t) && Index(t)[x.key] == x.id
  {
    if t.Node? {
      IndexMeaning(t.left);
      IndexMeaning(t.right);
      forall x: Ref
        ensures x in Refs(t) <==> x.key in Index(t) && Index(t)[x.key] == x.id
      {
        LessIsStrictTotalOrder(x.key, t.ref.key, x.key);
        if x.key in Index(t.left) {
          assert Ref(Index(t.left)[x.key], x.key) in Refs(t.left);
        }
        if x.key in Index(t.right) {
          assert Ref(Index(t.right)[x.key], x.key) in Refs(t.right);
        }
      }
    }
  }

  /** Find-or-insert on the tree is find-or-insert on the plain map. */
  lemma FindOrLinkIsMapInsert(t: Tree, x: Ref)
    requires Ordered(t)
    ensures Find(t, x.key).Some? ==> x.key in Index(t) && Index(t)[x.key] == Find(t, x.key).value.id
    ensures Find(t, x.key).None? ==> x.key !in Index(t) && Index(Link(t, x)) == Index(t)[x.key := x.id]
  {
    IndexMeaning(t);
    FindIff(t, x.key);
    if Find(t, x.key).None? {
      LinkAdds(t, x);
      IndexMeaning(Link(t, x));
      if x.key in Index(t) {
        assert Ref(Index(t)[x.key], x.key) in Refs(t);
      }
      SameMap(Index(Link(t, x)), Index(t)[x.key := x.id]);
    }
  }

  /** Erasing an entry erases its key from the map and nothing else. */
  lemma EraseIsMapRemove(t: Tree, x: Ref)
    requires Ordered(t) && x in Refs(t)
    ensures Index(Erase(t, x.key)) == Index(t) - {x.key}
  {
    EraseRemoves(t, x);
    IndexMeaning(t);
    IndexMeaning(Erase(t, x.key));
    SameMap(Index(Erase(t, x.key)), Index(t) - {x.key});
  }

  lemma SameMap(m: map<Key, nat>, n: map<Key, nat>)
    requires forall x: Ref :: x.key in m && m[x.key] == x.id <==> x.key in n && n[x.key] == x.id
    ensures m == n
  {
    forall k: Key
      ensures k in m <==> k in n
      ensures k in m && k in n ==> m[k] == n[k]
    {
      if k in m {
        var x := Ref(m[k], k);
        assert x.key in m && m[x.key] == x.id;
      }
      if k in n {
        var x := Ref(n[k], k);
        assert x.key in n && n[x.key] == x.id;
      }
    }
  }

  /** One step of a descent: the link that was taken, with everything on the other side of it. */
  datatype Turn = WentLeft(ref: Ref, right: Tree) | WentRight(left: Tree, ref: Ref)

  function Plug(turn: Turn, t: Tree): Tree {
    match turn
    case WentLeft(r, g) => Node(t, r, g)
    case WentRight(l, r) => Node(l, r, t)
  }

  function Rebuild(trail: seq<Turn>, t: Tree): Tree {
    if trail == [] then t
    else Rebuild(trail[..|trail| - 1], Plug(trail[|trail| - 1], t))
  }

  lemma RebuildStep(trail: seq<Turn>, turn: Turn, t: Tree)
    ensures Rebuild(trail + [turn], t) == Rebuild(trail, Plug(turn, t))
  {
    assert (trail + [turn])[..|trail|] == trail;
  }

  /**
    The walk of nfsd_cache_insert: follow the links until the key is met or a null link is reached,
    counting the nodes visited, and put the new node in that link.
   */
  method FindOrInsert(t: Tree, x: Ref) returns (found: Ref, t': Tree, entries: nat)
    ensures Find(t, x.key).Some? ==> found == Find(t, x.key).value && t' == t
    ensures Find(t, x.key).None? ==> found == x && t' == Link(t, x)
    ensures entries <= |Refs(t)| || !Ordered(t)
  {
    var p := t;
    var trail: seq<Turn> := [];
    entries := 0;
    while p.Node?
      invariant Rebuild(trail, p) == t
      invariant Rebuild(trail, Link(p, x)) == Link(t, x)
      invariant Find(t, x.key) == Find(p, x.key)
      invariant Ordered(t) ==> Ordered(p) && entries + |Refs(p)| <= |Refs(t)|
      decreases p
    {
      entries := entries + 1;
      var cmp := MemCmp(x.key, p.ref.key);
      ghost var before := p;
      if cmp < 0 {
        RebuildStep(trail, WentLeft(p.ref, p.right), p.left);
        RebuildStep(trail, WentLeft(p.ref, p.right), Link(p.left, x));
        trail := trail + [WentLeft(p.ref, p.right)];
        p := p.left;
      } else if cmp > 0 {
        RebuildStep(trail, WentRight(p.left, p.ref), p.right);
        RebuildStep(trail, WentRight(p.left, p.ref), Link(p.right, x));
        trail := trail + [WentRight(p.left, p.ref)];
        p := p.right;
      } else {
        if Ordered(t) {
          assert p.ref in Refs(p);
        }
        return p.ref, t, entries;
      }
      if Ordered(t) {
        NodeSize(before);
      }
    }
    return x, Rebuild(trail, Node(Leaf, x, Leaf)), entries;
  }

  lemma NodeSize(t: Tree)
    requires t.Node? && Ordered(t)
    ensures |Refs(t)| >= 1 + |Refs(t.left)| && |Refs(t)| >= 1 + |Refs(t.right)|
  {
    LessIsStrictTotalOrder(t.ref.key, t.ref.key, t.ref.key);
    assert t.ref !in Refs(t.left) && t.ref !in Refs(t.right);
    SubsetSize(Refs(t.left) + {t.ref}, Refs(t));
    SubsetSize(Refs(t.right) + {t.ref}, Refs(t));
  }

  lemma SubsetSize<T>(a: set<T>, b: set<T>)
    requires a <= b
    ensures |a| <= |b|
  {
    assert b == a + (b - a);
  }
}
