/**
  The list codecs of the MOUNT protocol (section 5.2 of RFC 1813): loops that walk linked nodes while the
  stream moves, and on decode build the nodes.  They are proved against the recursive optional-data
  encoding of section 4.19 of RFC 4506.
 */
module MountXdr {
  import opened Common
  import opened Xdr
  import opened XdrStream

  const MNTPATHLEN: uint32 := 1024
  const MNTNAMLEN: uint32 := 255

  // ---------------------------------------------------------------- linked nodes

  /** A group or a mount entry: its data and the next node. */
  class Node<T> {
    var item: T
    var next: Node?<T>

    constructor (v: T)
      ensures item == v && next == null
    {
      item, next := v, null;
    }
  }

  ghost function At<T>(nodes: seq<Node<T>>, i: nat): Node?<T> {
    if i < |nodes| then nodes[i] else null
  }

  /** The list that starts at first is made of nodes, in order, and holds vs. */
  ghost predicate ListOf<T>(first: Node?<T>, nodes: seq<Node<T>>, vs: seq<T>)
    reads nodes
  {
    && first == At(nodes, 0)
    && |nodes| == |vs|
    && forall i :: 0 <= i < |nodes| ==> nodes[i].item == vs[i] && nodes[i].next == At(nodes, i + 1)
  }

  // ---------------------------------------------------------------- the loops' invariants, on values

  /** Since start, the stream has taken the encoding of the first i elements; the rest is to come. */
  ghost predicate Emitted<T>(t: Codec<bool>, c: Codec<T>, vs: seq<T>, i: nat, start: Bytes, here: Bytes) {
    && i <= |vs|
    && match EncList(t, c, vs[i..])
       case None => EncList(t, c, vs).None?
       case Some(tail) => EncList(t, c, vs).Some? && start + EncList(t, c, vs).value == here + tail
  }

  lemma EmittedStart<T>(t: Codec<bool>, c: Codec<T>, vs: seq<T>, start: Bytes)
    ensures Emitted(t, c, vs, 0, start, start)
  {
    assert vs[0..] == vs;
  }

  lemma EmittedStep<T>(t: Codec<bool>, c: Codec<T>, vs: seq<T>, i: nat, start: Bytes, s0: Bytes, s1: Bytes, s2: Bytes)
    requires i < |vs| && Emitted(t, c, vs, i, start, s0)
    requires Wrote(t, true, s0, s1, true) && Wrote(c, vs[i], s1, s2, true)
    ensures Emitted(t, c, vs, i + 1, start, s2)
  {
    assert vs[i..][1..] == vs[i + 1..];
    var more, x := t.enc(true).value, c.enc(vs[i]).value;
    match EncList(t, c, vs[i + 1..])
    case None =>
    case Some(tail) => assert s2 + tail == s0 + ((more + x) + tail);
  }

  lemma EmittedFails<T>(t: Codec<bool>, c: Codec<T>, vs: seq<T>, i: nat, start: Bytes, s0: Bytes, s1: Bytes, s2: Bytes)
    requires i < |vs| && Emitted(t, c, vs, i, start, s0)
    requires Wrote(c, vs[i], s1, s2, false)
    ensures Wrote(List(t, c), vs, start, s2, false)
  {
  }

  lemma EmittedEnds<T>(t: Codec<bool>, c: Codec<T>, vs: seq<T>, start: Bytes, s0: Bytes, s1: Bytes)
    requires Emitted(t, c, vs, |vs|, start, s0) && Wrote(t, false, s0, s1, true)
    ensures Wrote(List(t, c), vs, start, s1, true)
  {
    assert vs[|vs|..] == [];
  }

  /** Decoding from the start is decoding from here, with the elements vs in front. */
  ghost predicate Decoded<T>(t: Codec<bool>, c: Codec<T>, start: Bytes, vs: seq<T>, here: Bytes) {
    match DecList(t, c, here)
    case None => DecList(t, c, start).None?
    case Some((tail, rest)) => DecList(t, c, start) == Some((vs + tail, rest))
  }

  lemma DecodedStart<T>(t: Codec<bool>, c: Codec<T>, start: Bytes)
    ensures Decoded(t, c, start, [], start)
  {
    match DecList(t, c, start)
    case None =>
    case Some((tail, _)) => assert [] + tail == tail;
  }

  lemma DecodedStep<T(!new)>(t: Codec<bool>, c: Codec<T>, start: Bytes, vs: seq<T>, s0: Bytes, s1: Bytes, v: T, s2: Bytes)
    requires Consuming(t) && Shrinking(c) && Decoded(t, c, start, vs, s0)
    requires Reads(t, s0, s1, Some(true)) && Reads(c, s1, s2, Some(v))
    ensures |s2| < |s0| && Decoded(t, c, start, vs + [v], s2)
  {
    match DecList(t, c, s2)
    case None =>
    case Some((tail, _)) => assert vs + [v] + tail == vs + ([v] + tail);
  }

  lemma DecodedFails<T>(t: Codec<bool>, c: Codec<T>, start: Bytes, vs: seq<T>, s0: Bytes, s1: Bytes, s2: Bytes)
    requires Decoded(t, c, start, vs, s0) && Reads(t, s0, s1, Some(true)) && Reads(c, s1, s2, None)
    ensures Reads(List(t, c), start, s2, None)
  {
  }

  lemma DecodedEnds<T>(t: Codec<bool>, c: Codec<T>, start: Bytes, vs: seq<T>, s0: Bytes, s1: Bytes, more: Option<bool>)
    requires Decoded(t, c, start, vs, s0) && Reads(t, s0, s1, more) && more != Some(true)
    ensures Reads(List(t, c), start, s1, if more.Some? then Some(vs) else None)
  {
    assert vs + [] == vs;
  }

  // ---------------------------------------------------------------- groups and mount entries

  /** xdr_groups and xdr_mountlist, encoding: c codes one node's data. */
  method EncodeNodes<T>(x: Stream, t: Codec<bool>, c: Codec<T>, first: Node?<T>, ghost nodes: seq<Node<T>>, ghost vs: seq<T>)
    returns (ok: bool)
    requires ListOf(first, nodes, vs) && t.enc(true).Some? && t.enc(false).Some?
    modifies x
    ensures Wrote(List(t, c), vs, old(x.data), x.data, ok)
  {
    var cur := first;
    ghost var i := 0;
    EmittedStart(t, c, vs, x.data);
    while true
      invariant 0 <= i <= |nodes| && cur == At(nodes, i)
      invariant Emitted(t, c, vs, i, old(x.data), x.data)
      decreases |nodes| - i
    {
      ghost var s0 := x.data;
      var more := cur != null;
      ok := x.Put(t, more);
      if !more {
        EmittedEnds(t, c, vs, old(x.data), s0, x.data);
        return;
      }
      ghost var s1 := x.data;
      ok := x.Put(c, cur.item);
      if !ok {
        EmittedFails(t, c, vs, i, old(x.data), s0, s1, x.data);
        return;
      }
      EmittedStep(t, c, vs, i, old(x.data), s0, s1, x.data);
      cur, i := cur.next, i + 1;
    }
  }

  /** Stores a new node through the link that ends the list. */
  method Append<T>(first: Node?<T>, last: Node?<T>, v: T, ghost nodes: seq<Node<T>>, ghost vs: seq<T>)
    returns (head: Node<T>, n: Node<T>)
    requires ListOf(first, nodes, vs) && last == (if nodes == [] then null else nodes[|nodes| - 1])
    modifies nodes
    ensures fresh(n) && ListOf(head, nodes + [n], vs + [v])
  {
    n := new Node(v);
    if last == null {
      head := n;
    } else {
      last.next := n;
      head := first;
    }
  }

  datatype Step<T> = More(v: T) | End | Fail

  /** One turn of the decoding loop, as far as the stream goes. */
  method DecodeNext<T(!new)>(x: Stream, t: Codec<bool>, c: Codec<T>, ghost start: Bytes, ghost vs: seq<T>) returns (r: Step<T>)
    requires Consuming(t) && Shrinking(c) && Decoded(t, c, start, vs, x.data)
    modifies x
    ensures r.More? ==> |x.data| < |old(x.data)| && Decoded(t, c, start, vs + [r.v], x.data)
    ensures r.End? ==> Reads(List(t, c), start, x.data, Some(vs))
    ensures r.Fail? ==> Reads(List(t, c), start, x.data, None)
  {
    var more := x.Get(t);
    if more != Some(true) {
      DecodedEnds(t, c, start, vs, old(x.data), x.data, more);
      return if more.None? then Fail else End;
    }
    ghost var s1 := x.data;
    var v := x.Get(c);
    if v.None? {
      DecodedFails(t, c, start, vs, old(x.data), s1, x.data);
      return Fail;
    }
    DecodedStep(t, c, start, vs, old(x.data), s1, v.value, x.data);
    return More(v.value);
  }

  /** xdr_groups and xdr_mountlist, decoding: the nodes are new and hold what the recursive decoder gives. */
  method DecodeNodes<T(!new)>(x: Stream, t: Codec<bool>, c: Codec<T>)
    returns (ok: bool, first: Node?<T>, ghost nodes: seq<Node<T>>, ghost vs: seq<T>)
    requires Consuming(t) && Shrinking(c)
    modifies x
    ensures fresh(nodes) && ListOf(first, nodes, vs)
    ensures Reads(List(t, c), old(x.data), x.data, if ok then Some(vs) else None)
  {
    first, nodes, vs := null, [], [];
    var last: Node?<T> := null;
    DecodedStart(t, c, x.data);
    while true
      invariant fresh(nodes) && ListOf(first, nodes, vs)
      invariant last == if nodes == [] then null else nodes[|nodes| - 1]
      invariant Decoded(t, c, old(x.data), vs, x.data)
      decreases |x.data|
    {
      var r := DecodeNext(x, t, c, old(x.data), vs);
      if !r.More? {
        return r.End?, first, nodes, vs;
      }
      first, last := Append(first, last, r.v, nodes, vs);
      nodes, vs := nodes + [last], vs + [r.v];
    }
  }

  // ---------------------------------------------------------------- exports, each with its groups

  class ExportNode {
    var dir: Bytes
    var groups: Node?<Bytes>
    var next: ExportNode?

    constructor (d: Bytes, g: Node?<Bytes>)
      ensures dir == d && groups == g && next == null
    {
      dir, groups, next := d, g, null;
    }
  }

  type Export = (Bytes, seq<Bytes>)

  ghost function ExportAt(nodes: seq<ExportNode>, i: nat): ExportNode? {
    if i < |nodes| then nodes[i] else null
  }

  /** The export n holds the directory and, in the nodes gs, the groups of v. */
  ghost predicate ExportOf(n: ExportNode, gs: seq<Node<Bytes>>, v: Export)
    reads n, gs
  {
    n.dir == v.0 && ListOf(n.groups, gs, v.1)
  }

  ghost function Members(gss: seq<seq<Node<Bytes>>>): set<Node<Bytes>> {
    set i, n | 0 <= i < |gss| && n in gss[i] :: n
  }

  lemma MembersAppend(gss: seq<seq<Node<Bytes>>>, gs: seq<Node<Bytes>>)
    ensures Members(gss + [gs]) == Members(gss) + set n | n in gs
  {
    var all := gss + [gs];
    forall n | n in Members(gss) + set m | m in gs
      ensures n in Members(all)
    {
      if n in gs {
        assert n in all[|gss|];
      } else {
        var i :| 0 <= i < |gss| && n in gss[i];
        assert n in all[i];
      }
    }
  }

  /** The export list that starts at first is made of nodes, whose groups are in gss, and holds vs. */
  ghost predicate ExportsOf(first: ExportNode?, nodes: seq<ExportNode>, gss: seq<seq<Node<Bytes>>>, vs: seq<Export>)
    reads nodes, Members(gss)
  {
    && first == ExportAt(nodes, 0)
    && |nodes| == |vs| == |gss|
    && forall i :: 0 <= i < |nodes| ==>
         && nodes[i].next == ExportAt(nodes, i + 1)
         && (forall n :: n in gss[i] ==> n in Members(gss))
         && ExportOf(nodes[i], gss[i], vs[i])
  }

  /** xdr_exportnode_x, encoding. */
  method EncodeExport(x: Stream, t: Codec<bool>, d: Codec<Bytes>, g: Codec<Bytes>, n: ExportNode,
                      ghost gs: seq<Node<Bytes>>, ghost v: Export)
    returns (ok: bool)
    requires ExportOf(n, gs, v) && t.enc(true).Some? && t.enc(false).Some?
    modifies x
    ensures Wrote(Pair(d, List(t, g)), v, old(x.data), x.data, ok)
  {
    ok := x.Put(d, n.dir);
    ghost var s1 := x.data;
    if !ok {
      WrotePairFails(d, List(t, g), v.0, v.1, old(x.data), s1);
      return;
    }
    ok := EncodeNodes(x, t, g, n.groups, gs, v.1);
    WrotePair(d, List(t, g), v.0, v.1, old(x.data), s1, x.data, ok);
  }

  /** xdr_exports, encoding. */
  method EncodeExports(x: Stream, t: Codec<bool>, d: Codec<Bytes>, g: Codec<Bytes>, first: ExportNode?,
                       ghost nodes: seq<ExportNode>, ghost gss: seq<seq<Node<Bytes>>>, ghost vs: seq<Export>)
    returns (ok: bool)
    requires ExportsOf(first, nodes, gss, vs) && t.enc(true).Some? && t.enc(false).Some?
    modifies x
    ensures Wrote(List(t, Pair(d, List(t, g))), vs, old(x.data), x.data, ok)
  {
    var cur := first;
    ghost var i, c := 0, Pair(d, List(t, g));
    EmittedStart(t, c, vs, x.data);
    while true
      invariant 0 <= i <= |nodes| && cur == ExportAt(nodes, i)
      invariant Emitted(t, c, vs, i, old(x.data), x.data)
      decreases |nodes| - i
    {
      ghost var s0 := x.data;
      var more := cur != null;
      ok := x.Put(t, more);
      if !more {
        EmittedEnds(t, c, vs, old(x.data), s0, x.data);
        return;
      }
      ghost var s1 := x.data;
      ok := EncodeExport(x, t, d, g, cur, gss[i], vs[i]);
      if !ok {
        EmittedFails(t, c, vs, i, old(x.data), s0, s1, x.data);
        return;
      }
      EmittedStep(t, c, vs, i, old(x.data), s0, s1, x.data);
      cur, i := cur.next, i + 1;
    }
  }

  /** xdr_exportnode_x, decoding into a new node. */
  method DecodeExport(x: Stream, t: Codec<bool>, d: Codec<Bytes>, g: Codec<Bytes>)
    returns (ok: bool, n: ExportNode, ghost gs: seq<Node<Bytes>>, ghost v: Export)
    requires Consuming(t) && Shrinking(g)
    modifies x
    ensures fresh(n) && fresh(gs) && n.next == null
    ensures ok ==> ExportOf(n, gs, v)
    ensures Reads(Pair(d, List(t, g)), old(x.data), x.data, if ok then Some(v) else None)
  {
    n := new ExportNode([], null);
    gs, v := [], ([], []);
    var dir := x.Get(d);
    ghost var s1 := x.data;
    if dir.None? {
      ReadPairFails(d, List(t, g), old(x.data), s1);
      return false, n, gs, v;
    }
    n.dir := dir.value;
    var groups;
    ghost var names;
    ok, groups, gs, names := DecodeNodes(x, t, g);
    n.groups := groups;
    v := (dir.value, names);
    ReadPair(d, List(t, g), dir.value, if ok then Some(names) else None, old(x.data), s1, x.data);
  }

  /** Stores a new export through the link that ends the list. */
  method AppendExport(first: ExportNode?, last: ExportNode?, n: ExportNode, ghost gs: seq<Node<Bytes>>, ghost v: Export,
                      ghost nodes: seq<ExportNode>, ghost gss: seq<seq<Node<Bytes>>>, ghost vs: seq<Export>)
    returns (head: ExportNode)
    requires ExportsOf(first, nodes, gss, vs) && last == (if nodes == [] then null else nodes[|nodes| - 1])
    requires ExportOf(n, gs, v) && n.next == null && n !in nodes
    modifies nodes
    ensures ExportsOf(head, nodes + [n], gss + [gs], vs + [v])
  {
    if last == null {
      head := n;
    } else {
      last.next := n;
      head := first;
    }
    ghost var all, alls := nodes + [n], gss + [gs];
    forall i | 0 <= i < |all|
      ensures forall m :: m in alls[i] ==> m in Members(alls)
      ensures all[i].next == ExportAt(all, i + 1) && ExportOf(all[i], alls[i], (vs + [v])[i])
    {
      if i < |nodes| {
        assert alls[i] == gss[i] && ExportOf(nodes[i], gss[i], vs[i]);
      }
    }
  }

  datatype ExportStep = NextExport(n: ExportNode) | LastExport | BadExport

  /** One turn of the decoding loop of xdr_exports, up to the link. */
  method DecodeNextExport(x: Stream, t: Codec<bool>, d: Codec<Bytes>, g: Codec<Bytes>,
                          ghost c: Codec<Export>, ghost start: Bytes, ghost vs: seq<Export>)
    returns (r: ExportStep, ghost gs: seq<Node<Bytes>>, ghost v: Export)
    requires Consuming(t) && Shrinking(g) && c == Pair(d, List(t, g)) && Shrinking(c)
    requires Decoded(t, c, start, vs, x.data)
    modifies x
    ensures r.NextExport? ==> fresh(r.n) && fresh(gs) && r.n.next == null && ExportOf(r.n, gs, v)
    ensures r.NextExport? ==> |x.data| < |old(x.data)| && Decoded(t, c, start, vs + [v], x.data)
    ensures r.LastExport? ==> Reads(List(t, c), start, x.data, Some(vs))
    ensures r.BadExport? ==> Reads(List(t, c), start, x.data, None)
  {
    gs, v := [], ([], []);
    var more := x.Get(t);
    if more != Some(true) {
      DecodedEnds(t, c, start, vs, old(x.data), x.data, more);
      r := if more.None? then BadExport else LastExport;
      return;
    }
    ghost var s1 := x.data;
    var ok, n;
    ok, n, gs, v := DecodeExport(x, t, d, g);
    if !ok {
      DecodedFails(t, c, start, vs, old(x.data), s1, x.data);
      r := BadExport;
      return;
    }
    DecodedStep(t, c, start, vs, old(x.data), s1, v, x.data);
    r := NextExport(n);
  }

  /** One turn of the decoding loop of xdr_exports: the export read is linked to the end of the list. */
  method DecodeTurn(x: Stream, t: Codec<bool>, d: Codec<Bytes>, g: Codec<Bytes>, first: ExportNode?, last: ExportNode?,
                    ghost c: Codec<Export>, ghost start: Bytes,
                    ghost nodes: seq<ExportNode>, ghost gss: seq<seq<Node<Bytes>>>, ghost vs: seq<Export>)
    returns (r: ExportStep, head: ExportNode?, ghost gs: seq<Node<Bytes>>, ghost v: Export)
    requires Consuming(t) && Shrinking(g) && c == Pair(d, List(t, g)) && Shrinking(c)
    requires Decoded(t, c, start, vs, x.data)
    requires ExportsOf(first, nodes, gss, vs) && last == (if nodes == [] then null else nodes[|nodes| - 1])
    modifies x, nodes
    ensures r.NextExport? ==> fresh(r.n) && fresh(gs) && ExportsOf(head, nodes + [r.n], gss + [gs], vs + [v])
    ensures r.NextExport? ==> |x.data| < |old(x.data)| && Decoded(t, c, start, vs + [v], x.data)
    ensures !r.NextExport? ==> ExportsOf(first, nodes, gss, vs)
    ensures !r.NextExport? ==> Reads(List(t, c), start, x.data, if r.LastExport? then Some(vs) else None)
  {
    head := first;
    r, gs, v := DecodeNextExport(x, t, d, g, c, start, vs);
    if r.NextExport? {
      head := AppendExport(first, last, r.n, gs, v, nodes, gss, vs);
    }
  }

  /** xdr_exports, decoding: new nodes that hold what the recursive decoder gives. */
  method DecodeExports(x: Stream, t: Codec<bool>, d: Codec<Bytes>, g: Codec<Bytes>)
    returns (ok: bool, first: ExportNode?,
             ghost nodes: seq<ExportNode>, ghost gss: seq<seq<Node<Bytes>>>, ghost vs: seq<Export>)
    requires Consuming(t) && Shrinking(g) && Shrinking(Pair(d, List(t, g)))
    modifies x
    ensures fresh(nodes) && fresh(Members(gss)) && ExportsOf(first, nodes, gss, vs)
    ensures Reads(List(t, Pair(d, List(t, g))), old(x.data), x.data, if ok then Some(vs) else None)
  {
    first, nodes, gss, vs := null, [], [], [];
    var last: ExportNode? := null;
    ghost var start, c := x.data, Pair(d, List(t, g));
    DecodedStart(t, c, start);
    while true
      invariant fresh(nodes) && fresh(Members(gss)) && ExportsOf(first, nodes, gss, vs)
      invariant last == if nodes == [] then null else nodes[|nodes| - 1]
      invariant Decoded(t, c, start, vs, x.data)
      decreases |x.data|
    {
      ghost var gs, v;
      var r, head;
      r, head, gs, v := DecodeTurn(x, t, d, g, first, last, c, start, nodes, gss, vs);
      if !r.NextExport? {
        ok := r.LastExport?;
        return;
      }
      MembersAppend(gss, gs);
      first, last := head, r.n;
      nodes, gss, vs := nodes + [r.n], gss + [gs], vs + [v];
    }
  }

  // ---------------------------------------------------------------- the codecs in use

  function GroupsCodec(): Codec<seq<Bytes>> {
    List(Bool(), String(MNTNAMLEN))
  }

  function ExportsCodec(): Codec<seq<Export>> {
    List(Bool(), Pair(String(MNTPATHLEN), GroupsCodec()))
  }

  function MountsCodec(): Codec<seq<(Bytes, Bytes)>> {
    List(Bool(), Pair(String(MNTNAMLEN), String(MNTPATHLEN)))
  }

  lemma ExportsLawful()
    ensures Lawful(ExportsCodec()) && Lawful(Pair(String(MNTPATHLEN), GroupsCodec()))
  {
    BoolLawful();
    BoolConsuming();
    StringLawful(MNTNAMLEN);
    StringLawful(MNTPATHLEN);
    ListLawful(Bool(), String(MNTNAMLEN));
    PairLawful(String(MNTPATHLEN), GroupsCodec());
    ListLawful(Bool(), Pair(String(MNTPATHLEN), GroupsCodec()));
  }

  lemma MountsLawful()
    ensures Lawful(MountsCodec()) && Lawful(Pair(String(MNTNAMLEN), String(MNTPATHLEN)))
  {
    BoolLawful();
    BoolConsuming();
    StringLawful(MNTNAMLEN);
    StringLawful(MNTPATHLEN);
    PairLawful(String(MNTNAMLEN), String(MNTPATHLEN));
    ListLawful(Bool(), Pair(String(MNTNAMLEN), String(MNTPATHLEN)));
  }

  predicate ExportFits(v: Export) {
    FitsString(v.0, 1024) && forall i :: 0 <= i < |v.1| ==> FitsString(v.1[i], 255)
  }

  lemma ExportAccepts(v: Export)
    ensures Pair(String(MNTPATHLEN), GroupsCodec()).enc(v).Some? <==> ExportFits(v)
  {
    StringAccepts(v.0, MNTPATHLEN);
    ListAccepts(Bool(), String(MNTNAMLEN), v.1);
    forall i | 0 <= i < |v.1|
      ensures String(MNTNAMLEN).enc(v.1[i]).Some? <==> FitsString(v.1[i], MNTNAMLEN)
    {
      StringAccepts(v.1[i], MNTNAMLEN);
    }
  }

  /** An export list is encodable exactly when every directory and group name in it fits. */
  lemma ExportsAccepts(vs: seq<Export>)
    ensures ExportsCodec().enc(vs).Some? <==> forall i :: 0 <= i < |vs| ==> ExportFits(vs[i])
  {
    ListAccepts(Bool(), Pair(String(MNTPATHLEN), GroupsCodec()), vs);
    forall i | 0 <= i < |vs|
      ensures Pair(String(MNTPATHLEN), GroupsCodec()).enc(vs[i]).Some? <==> ExportFits(vs[i])
    {
      ExportAccepts(vs[i]);
    }
  }

  lemma MountsAccepts(vs: seq<(Bytes, Bytes)>)
    ensures MountsCodec().enc(vs).Some? <==>
            forall i :: 0 <= i < |vs| ==> FitsString(vs[i].0, 255) && FitsString(vs[i].1, 1024)
  {
    var c := Pair(String(MNTNAMLEN), String(MNTPATHLEN));
    ListAccepts(Bool(), c, vs);
    forall i | 0 <= i < |vs|
      ensures c.enc(vs[i]).Some? <==> FitsString(vs[i].0, 255) && FitsString(vs[i].1, 1024)
    {
      StringAccepts(vs[i].0, MNTNAMLEN);
      StringAccepts(vs[i].1, MNTPATHLEN);
    }
  }

  /** What was written and then followed by anything is read back, up to what followed. */
  lemma WrittenIsRead<T(!new)>(c: Codec<T>, v: T, wire: Bytes, suffix: Bytes, after: Bytes, r: Option<T>)
    requires Lawful(c) && Wrote(c, v, [], wire, true) && Reads(c, wire + suffix, after, r)
    ensures r == Some(v) && after == suffix
  {
    assert [] + c.enc(v).value == c.enc(v).value;
  }

  /** The two loops of xdr_exports, one after the other. */
  method ExportsOverTheWire(first: ExportNode?, ghost nodes: seq<ExportNode>, ghost gss: seq<seq<Node<Bytes>>>,
                            ghost vs: seq<Export>, suffix: Bytes)
    returns (ok: bool, copy: ExportNode?, ghost copies: seq<ExportNode>, ghost copyGss: seq<seq<Node<Bytes>>>, left: Bytes)
    requires ExportsOf(first, nodes, gss, vs)
    ensures ok <==> forall i :: 0 <= i < |vs| ==> ExportFits(vs[i])
    ensures ok ==> fresh(copies) && fresh(Members(copyGss)) && ExportsOf(copy, copies, copyGss, vs) && left == suffix
  {
    copy, copies, copyGss, left := null, [], [], [];
    ExportsAccepts(vs);
    var x := new Stream([]);
    ok := EncodeExports(x, Bool(), String(MNTPATHLEN), String(MNTNAMLEN), first, nodes, gss, vs);
    if ok {
      ghost var wire := x.data;
      x.data := x.data + suffix;
      ExportsLawful();
      BoolConsuming();
      StringLawful(MNTNAMLEN);
      var decoded;
      ghost var ws;
      decoded, copy, copies, copyGss, ws := DecodeExports(x, Bool(), String(MNTPATHLEN), String(MNTNAMLEN));
      WrittenIsRead(ExportsCodec(), vs, wire, suffix, x.data, if decoded then Some(ws) else None);
      left := x.data;
    }
  }

  /** The two loops of xdr_mountlist, one after the other. */
  method MountsOverTheWire(first: Node?<(Bytes, Bytes)>, ghost nodes: seq<Node<(Bytes, Bytes)>>, ghost vs: seq<(Bytes, Bytes)>, suffix: Bytes)
    returns (ok: bool, copy: Node?<(Bytes, Bytes)>, ghost copies: seq<Node<(Bytes, Bytes)>>, left: Bytes)
    requires ListOf(first, nodes, vs)
    ensures ok <==> forall i :: 0 <= i < |vs| ==> FitsString(vs[i].0, 255) && FitsString(vs[i].1, 1024)
    ensures ok ==> fresh(copies) && ListOf(copy, copies, vs) && left == suffix
  {
    copy, copies, left := null, [], [];
    MountsAccepts(vs);
    var c := Pair(String(MNTNAMLEN), String(MNTPATHLEN));
    var x := new Stream([]);
    ok := EncodeNodes(x, Bool(), c, first, nodes, vs);
    if ok {
      ghost var wire := x.data;
      x.data := x.data + suffix;
      MountsLawful();
      BoolConsuming();
      var decoded;
      ghost var ws;
      decoded, copy, copies, ws := DecodeNodes(x, Bool(), c);
      WrittenIsRead(MountsCodec(), vs, wire, suffix, x.data, if decoded then Some(ws) else None);
      left := x.data;
    }
  }
}
