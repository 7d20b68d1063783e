/**
  The duplicate reply cache as a value: entries, buckets, the two global totals, and what each
  lock-protected section does to them.
 */
module ReplyCacheSpec {
  import opened Common
  import opened ReplyCacheKey
  import opened ReplyCacheTree

  // Replies of more than this many words are not cached.
  const MAX_REPLY_WORDS: nat := 256 / 4

  datatype RepState = Unused | InProg | Done

  // `Unknown` stands for a code outside the enumeration, which the source's switches let through.
  datatype CacheType = NoCache | ReplStat | ReplBuff | Unknown(code: nat)

  // The union c_u: not yet written, a status word, or a buffer.
  datatype Body = Unset | Stat(word: seq<byte>) | Vec(bytes: seq<byte>)

  datatype Rep = Rep(ref: Ref, state: RepState, ctype: CacheType, secure: bool, stamp: nat, body: Body)

  /** A bucket: the search tree, and the LRU list threaded through the entries, oldest first. */
  datatype Bucket = Bucket(tree: Tree, lru: seq<Rep>)

  datatype Cache = Cache(buckets: seq<Bucket>, num: int, mem: int, nextId: nat)

  /** What one locked section can see: its own bucket and the totals shared by all buckets. */
  datatype Section = Section(tree: Tree, lru: seq<Rep>, num: int, mem: int)

  /** The tunables and the hash, which is only known to stay within the table. */
  datatype Config = Config(size: nat, hash: seq<byte> -> nat, maxEntries: nat, expire: nat, repSize: nat)

  ghost predicate ValidConfig(cfg: Config) {
    forall xid :: cfg.hash(xid) < cfg.size
  }

  // ---------------------------------------------------------------- entries

  function BufferBytes(r: Rep): nat {
    if r.ctype == ReplBuff && r.body.Vec? then |r.body.bytes| else 0
  }

  function Weight(cfg: Config, r: Rep): nat {
    cfg.repSize + BufferBytes(r)
  }

  function MemOf(cfg: Config, lru: seq<Rep>): nat {
    if lru == [] then 0 else Weight(cfg, lru[0]) + MemOf(cfg, lru[1..])
  }

  predicate Expired(cfg: Config, now: nat, r: Rep) {
    now >= r.stamp + cfg.expire
  }

  function LruRefs(lru: seq<Rep>): set<Ref> {
    set r | r in lru :: r.ref
  }

  ghost predicate DistinctIds(lru: seq<Rep>) {
    forall i, j :: 0 <= i < j < |lru| ==> lru[i].ref.id != lru[j].ref.id
  }

  ghost predicate SortedStamps(lru: seq<Rep>) {
    forall i, j :: 0 <= i < j < |lru| ==> lru[i].stamp <= lru[j].stamp
  }

  predicate HasId(lru: seq<Rep>, id: nat) {
    exists i :: 0 <= i < |lru| && lru[i].ref.id == id
  }

  /** Where the entry with this identity stands in the list. */
  function Position(lru: seq<Rep>, id: nat): (i: nat)
    requires HasId(lru, id)
    ensures i < |lru| && lru[i].ref.id == id
    ensures forall j :: 0 <= j < i ==> lru[j].ref.id != id
  {
    if lru[0].ref.id == id then 0
    else
      assert HasId(lru[1..], id) by {
        var i :| 0 <= i < |lru| && lru[i].ref.id == id;
        assert lru[1..][i - 1] == lru[i];
      }
      1 + Position(lru[1..], id)
  }

  /** Takes out the i-th entry and puts a new version of it at the tail, as list_move_tail does. */
  function MoveTail(lru: seq<Rep>, i: nat, r: Rep): seq<Rep>
    requires i < |lru|
  {
    lru[..i] + lru[i + 1..] + [r]
  }

  function RemoveAt(lru: seq<Rep>, i: nat): seq<Rep>
    requires i < |lru|
  {
    lru[..i] + lru[i + 1..]
  }

  // ---------------------------------------------------------------- freeing and pruning

  /** nfsd_reply_cache_free_locked on an entry that is in the bucket. */
  function FreeAt(cfg: Config, s: Section, i: nat): Section
    requires i < |s.lru|
  {
    var r := s.lru[i];
    Section(Erase(s.tree, r.ref.key), RemoveAt(s.lru, i), s.num - 1, s.mem - BufferBytes(r) - cfg.repSize)
  }

  function CountDone(lru: seq<Rep>): nat {
    if lru == [] then 0 else (if lru[0].state == InProg then 0 else 1) + CountDone(lru[1..])
  }

  function CountExpired(cfg: Config, now: nat, lru: seq<Rep>): nat {
    if lru == [] then 0
    else (if lru[0].state != InProg && Expired(cfg, now, lru[0]) then 1 else 0) + CountExpired(cfg, now, lru[1..])
  }

  /** The oldest entry that is not in progress. */
  function FirstDone(lru: seq<Rep>): (i: nat)
    requires CountDone(lru) > 0
    ensures i < |lru| && lru[i].state != InProg
    ensures forall j :: 0 <= j < i ==> lru[j].state == InProg
  {
    if lru[0].state != InProg then 0 else 1 + FirstDone(lru[1..])
  }

  /** How many entries a prune of this bucket frees, in closed form. */
  function PruneCount(cfg: Config, now: nat, s: Section): nat {
    Min(CountDone(s.lru), Max(CountExpired(cfg, now, s.lru), Max(0, s.num - cfg.maxEntries)))
  }

  function FreeOldest(cfg: Config, s: Section, k: nat): Section
    requires k <= CountDone(s.lru)
    decreases k
  {
    if k == 0 then s
    else
      var i := FirstDone(s.lru);
      CountDoneAt(s.lru, i);
      FreeOldest(cfg, FreeAt(cfg, s, i), k - 1)
  }

  /** prune_bucket, said without its scan: free the oldest PruneCount finished entries. */
  function Prune(cfg: Config, now: nat, s: Section): Section {
    FreeOldest(cfg, s, PruneCount(cfg, now, s))
  }

  // ---------------------------------------------------------------- lookup

  /** What the requester gets back.  `Doit` carries the entry that will hold the reply, if any. */
  datatype Outcome = Doit(rep: Option<Ref>) | Dropit | Reply(head: seq<byte>)

  /** A request: its key image, cache type, whether its port is privileged, and its reply head so far. */
  datatype Request = Request(key: Key, ctype: CacheType, secure: bool, head: seq<byte>, gotMemory: bool)

  function Answer(r: Rep, rq: Request): Outcome {
    if r.state == InProg then Dropit
    else if !rq.secure && r.secure then Doit(None)
    else match r.ctype
      case NoCache => Doit(None)
      case ReplStat => if r.body.Stat? then Reply(rq.head + r.body.word) else Doit(None)
      case ReplBuff =>
        if !r.body.Vec? || |rq.head| + |r.body.bytes| > PAGE_SIZE then Doit(None)
        else Reply(rq.head + r.body.bytes)
      case Unknown(_) => Doit(None)
  }

  /** The section of nfsd_cache_lookup: find or insert, refresh, then answer or prune. */
  function Lookup(cfg: Config, now: nat, s: Section, x: Ref, rq: Request): (Section, Outcome) {
    match Find(s.tree, x.key)
    case Some(r) =>
      if HasId(s.lru, r.id) then
        var i := Position(s.lru, r.id);
        var hit := s.lru[i].(stamp := now);
        (s.(lru := MoveTail(s.lru, i, hit)), Answer(hit, rq))
      else (s, Dropit)
    case None =>
      (Prune(cfg, now, Added(cfg, now, s, x)), Doit(Some(x)))
  }

  /** The entry of a request that has just come in. */
  function NewRep(x: Ref, now: nat): Rep {
    Rep(x, InProg, NoCache, false, now, Unset)
  }

  /** The section right after a new entry was linked, marked in progress and counted. */
  function Added(cfg: Config, now: nat, s: Section, x: Ref): Section {
    Section(Link(s.tree, x), s.lru + [NewRep(x, now)], s.num + 1, s.mem + cfg.repSize)
  }

  // ---------------------------------------------------------------- update

  /**
    A finished request: the cache type, where the reply status starts in the reply (None for a null
    pointer), the reply bytes, whether the copy buffer could be allocated, and the secure flag.
   */
  datatype Finish = Finish(ctype: CacheType, statp: Option<nat>, res: seq<byte>, kmalloced: bool, secure: bool)

  ghost predicate ValidFinish(f: Finish) {
    f.statp.Some? ==>
      && f.statp.value <= |f.res|
      && (f.ctype == ReplStat ==> f.statp.value + 4 <= |f.res|)
  }

  function ReplyWords(f: Finish): nat
    requires f.statp.Some? && f.statp.value <= |f.res|
  {
    (|f.res| - f.statp.value) / 4
  }

  /** The body to keep, or None when the entry is dropped instead. */
  function Kept(f: Finish): Option<Body>
    requires ValidFinish(f)
  {
    if f.statp.None? || ReplyWords(f) > MAX_REPLY_WORDS then None
    else match f.ctype
      case NoCache => None
      case ReplStat => Some(Stat(f.res[f.statp.value..f.statp.value + 4]))
      case ReplBuff =>
        if f.kmalloced then Some(Vec(f.res[f.statp.value..f.statp.value + 4 * ReplyWords(f)])) else None
      case Unknown(_) => Some(Unset)
  }

  function Finished(now: nat, r: Rep, f: Finish): Rep
    requires ValidFinish(f) && Kept(f).Some?
  {
    r.(state := Done, ctype := f.ctype, secure := f.secure, stamp := now, body := Kept(f).value)
  }

  /** The section of nfsd_cache_update: drop the entry, or finish it and move it to the tail. */
  function Update(cfg: Config, now: nat, s: Section, id: nat, f: Finish): Section
    requires ValidFinish(f) && HasId(s.lru, id)
  {
    var i := Position(s.lru, id);
    if Kept(f).None? then FreeAt(cfg, s, i)
    else
      var r := Finished(now, s.lru[i], f);
      Section(s.tree, MoveTail(s.lru, i, r), s.num, s.mem + BufferBytes(r))
  }

  // ---------------------------------------------------------------- the whole table

  function Bkt(cfg: Config, k: Key): nat {
    cfg.hash(Xid(k))
  }

  function Open(c: Cache, i: nat): Section
    requires i < |c.buckets|
  {
    Section(c.buckets[i].tree, c.buckets[i].lru, c.num, c.mem)
  }

  function Close(c: Cache, i: nat, s: Section): Cache
    requires i < |c.buckets|
  {
    c.(buckets := c.buckets[i := Bucket(s.tree, s.lru)], num := s.num, mem := s.mem)
  }

  function TotalEntries(bs: seq<Bucket>): nat {
    if bs == [] then 0 else |bs[0].lru| + TotalEntries(bs[1..])
  }

  function TotalMem(cfg: Config, bs: seq<Bucket>): nat {
    if bs == [] then 0 else MemOf(cfg, bs[0].lru) + TotalMem(cfg, bs[1..])
  }

  ghost predicate RepInv(cfg: Config, i: nat, now: nat, nextId: nat, r: Rep) {
    && r.state != Unused
    && r.stamp <= now
    && r.ref.id < nextId
    && Bkt(cfg, r.ref.key) == i
    && (r.state == InProg <==> r.ctype == NoCache)
    && (r.ctype == ReplStat ==> r.body.Stat?)
    && (r.ctype == ReplBuff ==> r.body.Vec?)
  }

  /** Index agreement and order within one bucket. */
  ghost predicate BucketInv(cfg: Config, i: nat, now: nat, nextId: nat, tree: Tree, lru: seq<Rep>) {
    && Ordered(tree)
    && Refs(tree) == LruRefs(lru)
    && DistinctIds(lru)
    && SortedStamps(lru)
    && forall r :: r in lru ==> RepInv(cfg, i, now, nextId, r)
  }

  ghost predicate SectionInv(cfg: Config, i: nat, now: nat, nextId: nat, s: Section) {
    BucketInv(cfg, i, now, nextId, s.tree, s.lru)
  }

  ghost predicate CacheInv(cfg: Config, now: nat, c: Cache) {
    && |c.buckets| == cfg.size
    && (forall i :: 0 <= i < |c.buckets| ==>
          BucketInv(cfg, i, now, c.nextId, c.buckets[i].tree, c.buckets[i].lru))
    && c.num == TotalEntries(c.buckets)
    && c.mem == TotalMem(cfg, c.buckets)
  }

  /** A section keeps the books: it changes each total by what it changed in its own bucket. */
  ghost predicate Balanced(cfg: Config, s: Section, s': Section) {
    && s'.num - s.num == |s'.lru| - |s.lru|
    && s'.mem - s.mem == MemOf(cfg, s'.lru) - MemOf(cfg, s.lru)
  }

  // ---------------------------------------------------------------- lemmas on lists

  lemma {:induction false} CountDoneAt(lru: seq<Rep>, i: nat)
    requires i < |lru|
    ensures CountDone(RemoveAt(lru, i)) == CountDone(lru) - (if lru[i].state == InProg then 0 else 1)
  {
    if i > 0 {
      CountDoneAt(lru[1..], i - 1);
      assert RemoveAt(lru, i)[1..] == RemoveAt(lru[1..], i - 1);
    } else {
      assert RemoveAt(lru, 0) == lru[1..];
    }
  }

  lemma {:induction false} CountExpiredAt(cfg: Config, now: nat, lru: seq<Rep>, i: nat)
    requires i < |lru|
    ensures CountExpired(cfg, now, RemoveAt(lru, i))
         == CountExpired(cfg, now, lru) - (if lru[i].state != InProg && Expired(cfg, now, lru[i]) then 1 else 0)
  {
    if i > 0 {
      CountExpiredAt(cfg, now, lru[1..], i - 1);
      assert RemoveAt(lru, i)[1..] == RemoveAt(lru[1..], i - 1);
    } else {
      assert RemoveAt(lru, 0) == lru[1..];
    }
  }

  lemma {:induction false} MemOfConcat(cfg: Config, a: seq<Rep>, b: seq<Rep>)
    ensures MemOf(cfg, a + b) == MemOf(cfg, a) + MemOf(cfg, b)
  {
    if a == [] {
      assert a + b == b;
    } else {
      MemOfConcat(cfg, a[1..], b);
      assert (a + b)[1..] == a[1..] + b;
    }
  }

  lemma MemOfRemove(cfg: Config, lru: seq<Rep>, i: nat)
    requires i < |lru|
    ensures MemOf(cfg, RemoveAt(lru, i)) == MemOf(cfg, lru) - Weight(cfg, lru[i])
  {
    assert lru == lru[..i] + ([lru[i]] + lru[i + 1..]);
    MemOfConcat(cfg, lru[..i], [lru[i]] + lru[i + 1..]);
    MemOfConcat(cfg, lru[..i], lru[i + 1..]);
  }

  lemma MemOfMoveTail(cfg: Config, lru: seq<Rep>, i: nat, r: Rep)
    requires i < |lru|
    ensures MemOf(cfg, MoveTail(lru, i, r)) == MemOf(cfg, lru) - Weight(cfg, lru[i]) + Weight(cfg, r)
  {
    MemOfRemove(cfg, lru, i);
    MemOfConcat(cfg, RemoveAt(lru, i), [r]);
  }

  lemma {:induction false} NoneExpired(cfg: Config, now: nat, lru: seq<Rep>)
    requires forall r :: r in lru && r.state != InProg ==> !Expired(cfg, now, r)
    ensures CountExpired(cfg, now, lru) == 0
  {
    if lru != [] {
      NoneExpired(cfg, now, lru[1..]);
    }
  }

  lemma {:induction false} ExpiredIsDone(cfg: Config, now: nat, lru: seq<Rep>)
    ensures CountExpired(cfg, now, lru) <= CountDone(lru)
    ensures CountExpired(cfg, now, lru) == 0 ==>
              forall r :: r in lru && r.state != InProg ==> !Expired(cfg, now, r)
  {
    if lru != [] {
      ExpiredIsDone(cfg, now, lru[1..]);
    }
  }

  /** The early break loses nothing: on a sorted list, if the oldest finished entry is fresh, all are. */
  lemma EarlyBreakIsSafe(cfg: Config, now: nat, lru: seq<Rep>)
    requires SortedStamps(lru) && CountDone(lru) > 0
    ensures CountExpired(cfg, now, lru) == 0 <==> !Expired(cfg, now, lru[FirstDone(lru)])
  {
    var i := FirstDone(lru);
    if !Expired(cfg, now, lru[i]) {
      NoneExpired(cfg, now, lru);
    } else {
      ExpiredIsDone(cfg, now, lru);
    }
  }

  /** The closed form obeys the scan's own recurrence: stop exactly at the source's break. */
  lemma PruneUnrolls(cfg: Config, now: nat, s: Section)
    requires SortedStamps(s.lru)
    ensures CountDone(s.lru) == 0 ==> PruneCount(cfg, now, s) == 0
    ensures CountDone(s.lru) > 0 ==>
              var i := FirstDone(s.lru);
              var stop := s.num <= cfg.maxEntries && !Expired(cfg, now, s.lru[i]);
              && (stop ==> PruneCount(cfg, now, s) == 0)
              && (!stop ==> && PruneCount(cfg, now, s) == 1 + PruneCount(cfg, now, FreeAt(cfg, s, i))
                            && Prune(cfg, now, s) == Prune(cfg, now, FreeAt(cfg, s, i)))
  {
    if CountDone(s.lru) > 0 {
      var i := FirstDone(s.lru);
      EarlyBreakIsSafe(cfg, now, s.lru);
      CountDoneAt(s.lru, i);
      CountExpiredAt(cfg, now, s.lru, i);
    }
  }

  // ---------------------------------------------------------------- sections keep the bucket invariant

  lemma RefsRemove(lru: seq<Rep>, i: nat)
    requires i < |lru| && DistinctIds(lru)
    ensures LruRefs(RemoveAt(lru, i)) == LruRefs(lru) - {lru[i].ref}
  {
    var rest := RemoveAt(lru, i);
    forall x | x in LruRefs(lru) - {lru[i].ref}
      ensures x in LruRefs(rest)
    {
      var r :| r in lru && r.ref == x;
      var j :| 0 <= j < |lru| && lru[j] == r;
      assert j != i;
      assert r in rest by {
        assert rest[if j < i then j else j - 1] == r;
      }
    }
    forall x | x in LruRefs(rest)
      ensures x in LruRefs(lru) - {lru[i].ref}
    {
      var j :| 0 <= j < |rest| && rest[j].ref == x;
      var k := if j < i then j else j + 1;
      assert lru[k] == rest[j] && k != i;
      assert lru[k].ref.id != lru[i].ref.id;
    }
  }

  lemma RefsMoveTail(lru: seq<Rep>, i: nat, r: Rep)
    requires i < |lru| && DistinctIds(lru) && r.ref == lru[i].ref
    ensures LruRefs(MoveTail(lru, i, r)) == LruRefs(lru)
  {
    RefsRemove(lru, i);
    RefsAppend(RemoveAt(lru, i), r);
    assert lru[i] in lru;
  }

  lemma RefsAppend(lru: seq<Rep>, r: Rep)
    ensures LruRefs(lru + [r]) == LruRefs(lru) + {r.ref}
  {
    var l := lru + [r];
    forall x | x in LruRefs(lru) + {r.ref}
      ensures x in LruRefs(l)
    {
      if x == r.ref {
        assert r in l by {
          assert l[|lru|] == r;
        }
      } else {
        var y :| y in lru && y.ref == x;
        assert y in l;
      }
    }
  }

  lemma RemoveKeepsOrder(lru: seq<Rep>, i: nat)
    requires i < |lru| && DistinctIds(lru) && SortedStamps(lru)
    ensures DistinctIds(RemoveAt(lru, i)) && SortedStamps(RemoveAt(lru, i))
    ensures forall r :: r in RemoveAt(lru, i) ==> r in lru
  {
    var rest := RemoveAt(lru, i);
    assert forall j :: 0 <= j < |rest| ==> rest[j] == lru[if j < i then j else j + 1];
  }

  lemma FreeKeeps(cfg: Config, b: nat, now: nat, nextId: nat, s: Section, i: nat)
    requires SectionInv(cfg, b, now, nextId, s) && i < |s.lru|
    ensures SectionInv(cfg, b, now, nextId, FreeAt(cfg, s, i))
    ensures Balanced(cfg, s, FreeAt(cfg, s, i))
  {
    assert s.lru[i] in s.lru;
    EraseRemoves(s.tree, s.lru[i].ref);
    RefsRemove(s.lru, i);
    RemoveKeepsOrder(s.lru, i);
    MemOfRemove(cfg, s.lru, i);
  }

  lemma MoveTailKeeps(cfg: Config, b: nat, now: nat, nextId: nat, s: Section, i: nat, r: Rep)
    requires SectionInv(cfg, b, now, nextId, s) && i < |s.lru|
    requires r.ref == s.lru[i].ref && r.stamp == now && RepInv(cfg, b, now, nextId, r)
    ensures BucketInv(cfg, b, now, nextId, s.tree, MoveTail(s.lru, i, r))
  {
    RefsMoveTail(s.lru, i, r);
    RemoveKeepsOrder(s.lru, i);
    RefsRemove(s.lru, i);
    var rest := RemoveAt(s.lru, i);
    forall q | q in rest
      ensures q.stamp <= r.stamp && q.ref.id != r.ref.id
    {
      var j :| 0 <= j < |rest| && rest[j] == q;
      assert q == s.lru[if j < i then j else j + 1];
    }
    AppendKeepsOrder(rest, r);
  }

  lemma {:induction false} FreeOldestKeeps(cfg: Config, b: nat, now: nat, nextId: nat, s: Section, k: nat)
    requires SectionInv(cfg, b, now, nextId, s) && k <= CountDone(s.lru)
    ensures SectionInv(cfg, b, now, nextId, FreeOldest(cfg, s, k))
    ensures Balanced(cfg, s, FreeOldest(cfg, s, k))
    decreases k
  {
    if k > 0 {
      var i := FirstDone(s.lru);
      CountDoneAt(s.lru, i);
      FreeKeeps(cfg, b, now, nextId, s, i);
      FreeOldestKeeps(cfg, b, now, nextId, FreeAt(cfg, s, i), k - 1);
    }
  }

  // ---------------------------------------------------------------- what pruning means

  function DoneOnly(lru: seq<Rep>): seq<Rep> {
    if lru == [] then [] else (if lru[0].state == InProg then [] else [lru[0]]) + DoneOnly(lru[1..])
  }

  function InProgOnly(lru: seq<Rep>): seq<Rep> {
    if lru == [] then [] else (if lru[0].state == InProg then [lru[0]] else []) + InProgOnly(lru[1..])
  }

  lemma {:induction false} FirstDoneSplits(lru: seq<Rep>)
    requires CountDone(lru) > 0
    ensures var i := FirstDone(lru);
            && DoneOnly(lru) == [lru[i]] + DoneOnly(RemoveAt(lru, i))
            && InProgOnly(RemoveAt(lru, i)) == InProgOnly(lru)
  {
    var i := FirstDone(lru);
    if i == 0 {
      assert RemoveAt(lru, 0) == lru[1..];
    } else {
      FirstDoneSplits(lru[1..]);
      assert RemoveAt(lru, i)[1..] == RemoveAt(lru[1..], i - 1);
    }
  }

  lemma DropHead(a: seq<Rep>, x: Rep, b: seq<Rep>, k: nat)
    requires a == [x] + b && 0 < k <= |a|
    ensures a[k..] == b[k - 1..]
  {
  }

  lemma {:induction false} FreeOldestOrder(cfg: Config, s: Section, k: nat)
    requires k <= CountDone(s.lru)
    ensures k <= |DoneOnly(s.lru)|
    ensures InProgOnly(FreeOldest(cfg, s, k).lru) == InProgOnly(s.lru)
    ensures DoneOnly(FreeOldest(cfg, s, k).lru) == DoneOnly(s.lru)[k..]
    ensures FreeOldest(cfg, s, k).num == s.num - k
    decreases k
  {
    DoneOnlySize(s.lru);
    if k > 0 {
      var i := FirstDone(s.lru);
      CountDoneAt(s.lru, i);
      FirstDoneSplits(s.lru);
      var t := FreeAt(cfg, s, i);
      FreeOldestOrder(cfg, t, k - 1);
      assert FreeOldest(cfg, s, k) == FreeOldest(cfg, t, k - 1);
      DropHead(DoneOnly(s.lru), s.lru[i], DoneOnly(t.lru), k);
    }
  }

  lemma {:induction false} PruneExhausts(cfg: Config, now: nat, s: Section)
    requires SortedStamps(s.lru)
    ensures PruneCount(cfg, now, Prune(cfg, now, s)) == 0
    decreases PruneCount(cfg, now, s)
  {
    PruneUnrolls(cfg, now, s);
    if PruneCount(cfg, now, s) > 0 {
      PruneExhausts(cfg, now, FreeAt(cfg, s, FirstDone(s.lru)));
    }
  }

  /** The first entry to go, and what is left to prune after it. */
  lemma PruneNext(cfg: Config, now: nat, s: Section)
    requires SortedStamps(s.lru) && PruneCount(cfg, now, s) > 0
    ensures CountDone(s.lru) > 0
    ensures var i := FirstDone(s.lru);
            var t := FreeAt(cfg, s, i);
            && (Expired(cfg, now, s.lru[i]) || s.num > cfg.maxEntries)
            && SortedStamps(t.lru) && PruneCount(cfg, now, t) == PruneCount(cfg, now, s) - 1 && t.num == s.num - 1
            && DoneOnly(s.lru) == [s.lru[i]] + DoneOnly(t.lru)
  {
    PruneUnrolls(cfg, now, s);
    FirstDoneSplits(s.lru);
  }

  lemma {:induction false} PruneReason(cfg: Config, now: nat, s: Section, j: nat)
    requires SortedStamps(s.lru) && j < PruneCount(cfg, now, s)
    ensures j < |DoneOnly(s.lru)|
    ensures Expired(cfg, now, DoneOnly(s.lru)[j]) || s.num - j > cfg.maxEntries
    decreases j
  {
    PruneNext(cfg, now, s);
    if j > 0 {
      var t := FreeAt(cfg, s, FirstDone(s.lru));
      PruneReason(cfg, now, t, j - 1);
      assert DoneOnly(s.lru)[j] == DoneOnly(t.lru)[j - 1];
    }
  }

  /**
    Pruning in its own words.  Entries in progress are kept, in order.  Finished ones go oldest first.
    Each one that goes was expired or over the limit when its turn came.  On return no finished entry
    is left, or the count is within the maximum and none of those left is expired.
   */
  lemma PruneMeaning(cfg: Config, now: nat, s: Section)
    requires SortedStamps(s.lru)
    ensures var k, s' := PruneCount(cfg, now, s), Prune(cfg, now, s);
            && k <= |DoneOnly(s.lru)|
            && InProgOnly(s'.lru) == InProgOnly(s.lru)
            && DoneOnly(s'.lru) == DoneOnly(s.lru)[k..]
            && s'.num == s.num - k
            && (forall j :: 0 <= j < k ==> now >= DoneOnly(s.lru)[j].stamp + cfg.expire || s.num - j > cfg.maxEntries)
            && (|| DoneOnly(s'.lru) == []
                || (s'.num <= cfg.maxEntries && forall r :: r in DoneOnly(s'.lru) ==> now < r.stamp + cfg.expire))
  {
    var k, s' := PruneCount(cfg, now, s), Prune(cfg, now, s);
    FreeOldestOrder(cfg, s, k);
    PruneExhausts(cfg, now, s);
    ExpiredIsDone(cfg, now, s'.lru);
    DoneOnlyMeaning(s'.lru);
    DoneOnlySize(s'.lru);
    forall j | 0 <= j < k
      ensures Expired(cfg, now, DoneOnly(s.lru)[j]) || s.num - j > cfg.maxEntries
    {
      PruneReason(cfg, now, s, j);
    }
  }

  lemma {:induction false} DoneOnlySize(lru: seq<Rep>)
    ensures |DoneOnly(lru)| == CountDone(lru)
  {
    if lru != [] {
      DoneOnlySize(lru[1..]);
    }
  }

  lemma {:induction false} DoneOnlyMeaning(lru: seq<Rep>)
    ensures forall r :: r in DoneOnly(lru) <==> r in lru && r.state != InProg
    ensures forall r :: r in InProgOnly(lru) <==> r in lru && r.state == InProg
  {
    if lru != [] {
      DoneOnlyMeaning(lru[1..]);
    }
  }

  // ---------------------------------------------------------------- lookup and update keep the invariant

  lemma FoundIsListed(cfg: Config, b: nat, now: nat, nextId: nat, s: Section, k: Key)
    requires SectionInv(cfg, b, now, nextId, s)
    ensures Find(s.tree, k).Some? ==>
              && HasId(s.lru, Find(s.tree, k).value.id)
              && s.lru[Position(s.lru, Find(s.tree, k).value.id)].ref == Find(s.tree, k).value
    ensures Find(s.tree, k).None? ==> forall r :: r in s.lru ==> r.ref.key != k
  {
    FindIff(s.tree, k);
    if Find(s.tree, k).Some? {
      var x := Find(s.tree, k).value;
      assert x in LruRefs(s.lru);
      var i :| 0 <= i < |s.lru| && s.lru[i].ref == x;
      assert HasId(s.lru, x.id);
      assert Position(s.lru, x.id) == i;
    } else {
      forall r | r in s.lru
        ensures r.ref.key != k
      {
        assert r.ref in LruRefs(s.lru);
      }
    }
  }

  lemma AppendKeepsOrder(lru: seq<Rep>, r: Rep)
    requires DistinctIds(lru) && SortedStamps(lru)
    requires forall q :: q in lru ==> q.stamp <= r.stamp && q.ref.id != r.ref.id
    ensures DistinctIds(lru + [r]) && SortedStamps(lru + [r])
  {
    forall j | 0 <= j < |lru|
      ensures lru[j].stamp <= r.stamp && lru[j].ref.id != r.ref.id
    {
      assert lru[j] in lru;
    }
  }

  lemma AddKeeps(cfg: Config, now: nat, nextId: nat, s: Section, x: Ref)
    requires SectionInv(cfg, Bkt(cfg, x.key), now, nextId, s) && x.id == nextId && Find(s.tree, x.key).None?
    ensures BucketInv(cfg, Bkt(cfg, x.key), now, nextId + 1, Link(s.tree, x),
                      s.lru + [NewRep(x, now)])
  {
    var added := NewRep(x, now);
    LinkAdds(s.tree, x);
    RefsAppend(s.lru, added);
    AppendKeepsOrder(s.lru, added);
    BucketInvLater(cfg, Bkt(cfg, x.key), now, nextId, now, nextId + 1, s.tree, s.lru);
  }

  lemma HitKeeps(cfg: Config, b: nat, now: nat, nextId: nat, s: Section, i: nat)
    requires SectionInv(cfg, b, now, nextId, s) && i < |s.lru|
    ensures var s' := s.(lru := MoveTail(s.lru, i, s.lru[i].(stamp := now)));
            SectionInv(cfg, b, now, nextId, s') && Balanced(cfg, s, s')
  {
    assert s.lru[i] in s.lru;
    MoveTailKeeps(cfg, b, now, nextId, s, i, s.lru[i].(stamp := now));
    MemOfMoveTail(cfg, s.lru, i, s.lru[i].(stamp := now));
  }

  lemma MissKeeps(cfg: Config, now: nat, nextId: nat, s: Section, x: Ref)
    requires SectionInv(cfg, Bkt(cfg, x.key), now, nextId, s) && x.id == nextId && Find(s.tree, x.key).None?
    ensures var s1 := Added(cfg, now, s, x);
            && SectionInv(cfg, Bkt(cfg, x.key), now, nextId + 1, s1)
            && Balanced(cfg, s, s1)
            && SectionInv(cfg, Bkt(cfg, x.key), now, nextId + 1, Prune(cfg, now, s1))
            && Balanced(cfg, s, Prune(cfg, now, s1))
  {
    AddKeeps(cfg, now, nextId, s, x);
    MemOfConcat(cfg, s.lru, [NewRep(x, now)]);
    var s1 := Added(cfg, now, s, x);
    FreeOldestKeeps(cfg, Bkt(cfg, x.key), now, nextId + 1, s1, PruneCount(cfg, now, s1));
  }

  lemma LookupKeeps(cfg: Config, now: nat, nextId: nat, s: Section, x: Ref, rq: Request)
    requires SectionInv(cfg, Bkt(cfg, x.key), now, nextId, s) && x.id == nextId
    ensures SectionInv(cfg, Bkt(cfg, x.key), now, nextId + 1, Lookup(cfg, now, s, x, rq).0)
    ensures Balanced(cfg, s, Lookup(cfg, now, s, x, rq).0)
  {
    var b := Bkt(cfg, x.key);
    var s' := Lookup(cfg, now, s, x, rq).0;
    match Find(s.tree, x.key)
    case Some(r) =>
      FoundIsListed(cfg, b, now, nextId, s, x.key);
      HitKeeps(cfg, b, now, nextId, s, Position(s.lru, r.id));
      BucketInvLater(cfg, b, now, nextId, now, nextId + 1, s'.tree, s'.lru);
    case None =>
      MissKeeps(cfg, now, nextId, s, x);
  }

  lemma UpdateKeeps(cfg: Config, b: nat, now: nat, nextId: nat, s: Section, id: nat, f: Finish)
    requires SectionInv(cfg, b, now, nextId, s) && ValidFinish(f) && HasId(s.lru, id)
    requires s.lru[Position(s.lru, id)].state == InProg
    ensures SectionInv(cfg, b, now, nextId, Update(cfg, now, s, id, f))
    ensures Balanced(cfg, s, Update(cfg, now, s, id, f))
  {
    var i := Position(s.lru, id);
    assert s.lru[i] in s.lru;
    if Kept(f).None? {
      FreeKeeps(cfg, b, now, nextId, s, i);
    } else {
      var r := Finished(now, s.lru[i], f);
      MoveTailKeeps(cfg, b, now, nextId, s, i, r);
      MemOfMoveTail(cfg, s.lru, i, r);
    }
  }

  // ---------------------------------------------------------------- the totals

  lemma {:induction false} TotalsAt(cfg: Config, bs: seq<Bucket>, i: nat, b: Bucket)
    requires i < |bs|
    ensures TotalEntries(bs[i := b]) == TotalEntries(bs) - |bs[i].lru| + |b.lru|
    ensures TotalMem(cfg, bs[i := b]) == TotalMem(cfg, bs) - MemOf(cfg, bs[i].lru) + MemOf(cfg, b.lru)
  {
    if i == 0 {
      assert bs[i := b][1..] == bs[1..];
    } else {
      TotalsAt(cfg, bs[1..], i - 1, b);
      assert bs[i := b][1..] == bs[1..][i - 1 := b];
    }
  }

  lemma BucketInvLater(cfg: Config, i: nat, now: nat, nextId: nat, now': nat, nextId': nat, tree: Tree, lru: seq<Rep>)
    requires BucketInv(cfg, i, now, nextId, tree, lru) && now <= now' && nextId <= nextId'
    ensures BucketInv(cfg, i, now', nextId', tree, lru)
  {
  }

  /** Putting a balanced section back keeps the whole cache. */
  lemma CloseKeeps(cfg: Config, now: nat, c: Cache, i: nat, s: Section, nextId': nat)
    requires CacheInv(cfg, now, c) && i < |c.buckets| && c.nextId <= nextId'
    requires SectionInv(cfg, i, now, nextId', s) && Balanced(cfg, Open(c, i), s)
    ensures CacheInv(cfg, now, Close(c, i, s).(nextId := nextId'))
  {
    TotalsAt(cfg, c.buckets, i, Bucket(s.tree, s.lru));
    var c' := Close(c, i, s).(nextId := nextId');
    forall j | 0 <= j < |c'.buckets|
      ensures BucketInv(cfg, j, now, nextId', c'.buckets[j].tree, c'.buckets[j].lru)
    {
      if j != i {
        BucketInvLater(cfg, j, now, c.nextId, now, nextId', c.buckets[j].tree, c.buckets[j].lru);
      }
    }
  }

  /** With every bucket emptied, both totals are zero. */
  lemma {:induction false} EmptyTotals(cfg: Config, bs: seq<Bucket>)
    requires forall i :: 0 <= i < |bs| ==> bs[i].lru == []
    ensures TotalEntries(bs) == 0 && TotalMem(cfg, bs) == 0
  {
    if bs != [] {
      EmptyTotals(cfg, bs[1..]);
    }
  }

  // ---------------------------------------------------------------- the operations on the whole table

  /** nfsd_cache_lookup: requests that are not cached, or find no memory, run without an entry. */
  function LookupCache(cfg: Config, now: nat, c: Cache, rq: Request): (Cache, Outcome)
    requires Bkt(cfg, rq.key) < |c.buckets|
  {
    if rq.ctype == NoCache || !rq.gotMemory then (c, Doit(None))
    else
      var b := Bkt(cfg, rq.key);
      var (s, o) := Lookup(cfg, now, Open(c, b), Ref(c.nextId, rq.key), rq);
      (Close(c, b, s).(nextId := c.nextId + 1), o)
  }

  /** The entry a request holds is in its bucket and in progress. */
  ghost predicate Holds(cfg: Config, c: Cache, x: Ref) {
    && Bkt(cfg, x.key) < |c.buckets|
    && var lru := c.buckets[Bkt(cfg, x.key)].lru;
       HasId(lru, x.id) && lru[Position(lru, x.id)].ref == x && lru[Position(lru, x.id)].state == InProg
  }

  /** nfsd_cache_update: a request without an entry changes nothing. */
  function UpdateCache(cfg: Config, now: nat, c: Cache, rep: Option<Ref>, f: Finish): Cache
    requires ValidFinish(f)
    requires rep.Some? ==> Holds(cfg, c, rep.value)
  {
    if rep.None? then c
    else
      var b := Bkt(cfg, rep.value.key);
      Close(c, b, Update(cfg, now, Open(c, b), rep.value.id, f))
  }

  function PruneCache(cfg: Config, now: nat, c: Cache, b: nat): Cache
    requires b < |c.buckets|
  {
    Close(c, b, Prune(cfg, now, Open(c, b)))
  }

  lemma LookupCacheKeeps(cfg: Config, now: nat, c: Cache, rq: Request)
    requires ValidConfig(cfg) && CacheInv(cfg, now, c)
    ensures CacheInv(cfg, now, LookupCache(cfg, now, c, rq).0)
  {
    if rq.ctype != NoCache && rq.gotMemory {
      var b := Bkt(cfg, rq.key);
      var x := Ref(c.nextId, rq.key);
      LookupKeeps(cfg, now, c.nextId, Open(c, b), x, rq);
      CloseKeeps(cfg, now, c, b, Lookup(cfg, now, Open(c, b), x, rq).0, c.nextId + 1);
    }
  }

  lemma UpdateCacheKeeps(cfg: Config, now: nat, c: Cache, rep: Option<Ref>, f: Finish)
    requires ValidConfig(cfg) && CacheInv(cfg, now, c) && ValidFinish(f)
    requires rep.Some? ==> Holds(cfg, c, rep.value)
    ensures CacheInv(cfg, now, UpdateCache(cfg, now, c, rep, f))
  {
    if rep.Some? {
      var b := Bkt(cfg, rep.value.key);
      UpdateKeeps(cfg, b, now, c.nextId, Open(c, b), rep.value.id, f);
      CloseKeeps(cfg, now, c, b, Update(cfg, now, Open(c, b), rep.value.id, f), c.nextId);
    }
  }

  lemma PruneCacheKeeps(cfg: Config, now: nat, c: Cache, b: nat)
    requires CacheInv(cfg, now, c) && b < |c.buckets|
    ensures CacheInv(cfg, now, PruneCache(cfg, now, c, b))
  {
    var s := Open(c, b);
    FreeOldestKeeps(cfg, b, now, c.nextId, s, PruneCount(cfg, now, s));
    CloseKeeps(cfg, now, c, b, Prune(cfg, now, s), c.nextId);
  }
}
