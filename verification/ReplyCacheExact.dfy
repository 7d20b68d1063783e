/**
  What a lookup and an update of the reply cache do, said of the live entries and the bytes of the reply alone:
  when a request is executed, dropped or answered, with what, and which entries the cache holds afterwards.
 */
module ReplyCacheExact {
  import opened Common
  import opened ReplyCacheKey
  import opened ReplyCacheTree
  import opened ReplyCacheSpec

  /** r is an entry of the bucket that its key hashes to. */
  ghost predicate Listed(cfg: Config, c: Cache, r: Rep) {
    var b := cfg.hash(r.ref.key[..4]);
    b < |c.buckets| && r in c.buckets[b].lru
  }

  /** The request may use the cache: its procedure is cached and an entry could be allocated. */
  predicate Cacheable(rq: Request) {
    rq.ctype != NoCache && rq.gotMemory
  }

  ghost predicate KeyLive(cfg: Config, c: Cache, k: Key) {
    exists r :: Listed(cfg, c, r) && r.ref.key == k
  }

  ghost predicate KeyInProgress(cfg: Config, c: Cache, k: Key) {
    exists r :: Listed(cfg, c, r) && r.ref.key == k && r.state == InProg
  }

  /** What a finished entry gives a request: its reply, or nothing if it may not or cannot be used. */
  ghost predicate Answers(r: Rep, rq: Request, out: Outcome) {
    if r.secure && !rq.secure then out == Doit(None)
    else if r.ctype == ReplStat then r.body.Stat? && out == Reply(rq.head + r.body.word)
    else if r.ctype == ReplBuff && r.body.Vec? && |rq.head| + |r.body.bytes| <= 4096 then out == Reply(rq.head + r.body.bytes)
    else out == Doit(None)
  }

  /** The answer to a request, by the entries that are live when it comes. */
  ghost predicate RightAnswer(cfg: Config, c: Cache, rq: Request, out: Outcome) {
    && (!Cacheable(rq) ==> out == Doit(None))
    && (out == Dropit <==> Cacheable(rq) && KeyInProgress(cfg, c, rq.key))
    && (out.Doit? && out.rep.Some? <==> Cacheable(rq) && !KeyLive(cfg, c, rq.key))
    && (out.Doit? && out.rep.Some? ==>
          out.rep.value.key == rq.key && forall r :: Listed(cfg, c, r) ==> r.ref.id != out.rep.value.id)
    && (forall r :: Cacheable(rq) && Listed(cfg, c, r) && r.ref.key == rq.key && r.state != InProg ==> Answers(r, rq, out))
  }

  /** No finished entry of the key's bucket is left, or the cache is within its limit and they are all fresh. */
  ghost predicate Pruned(cfg: Config, now: nat, c: Cache, b: nat) {
    || (forall r :: Listed(cfg, c, r) && cfg.hash(r.ref.key[..4]) == b ==> r.state == InProg)
    || (c.num <= cfg.maxEntries &&
        forall r :: Listed(cfg, c, r) && cfg.hash(r.ref.key[..4]) == b && r.state != InProg ==> now < r.stamp + cfg.expire)
  }

  /** Of the finished entries of bucket b, none that goes was used after one that stays. */
  ghost predicate OldestGo(cfg: Config, c: Cache, c': Cache, b: nat) {
    forall q, r :: Listed(cfg, c, q) && !Listed(cfg, c', q) && Listed(cfg, c', r) && cfg.hash(r.ref.key[..4]) == b && r.state != InProg ==>
      q.stamp <= r.stamp
  }

  /** What pruning bucket b may do to the entries. */
  ghost predicate RightPrune(cfg: Config, now: nat, c: Cache, b: nat, c': Cache) {
    && (forall q :: Listed(cfg, c', q) ==> Listed(cfg, c, q))
    && (forall q :: Listed(cfg, c, q) && !Listed(cfg, c', q) ==>
          && q.state != InProg && cfg.hash(q.ref.key[..4]) == b
          && (now >= q.stamp + cfg.expire || c'.num >= cfg.maxEntries))
    && OldestGo(cfg, c, c', b)
    && Pruned(cfg, now, c', b)
  }

  /** What a lookup leaves in the cache. */
  ghost predicate RightLookup(cfg: Config, now: nat, c: Cache, rq: Request, out: Outcome, c': Cache) {
    if !Cacheable(rq) then c' == c
    else if KeyLive(cfg, c, rq.key) then
      && c'.num == c.num && c'.mem == c.mem
      && (forall q :: Listed(cfg, c', q) <==>
            || (exists r :: Listed(cfg, c, r) && r.ref.key == rq.key && q == r.(stamp := now))
            || (Listed(cfg, c, q) && q.ref.key != rq.key))
    else
      && out.Doit? && out.rep.Some? && out.rep.value.key == rq.key
      && Listed(cfg, c', Rep(out.rep.value, InProg, NoCache, false, now, Unset))
      && (forall q :: Listed(cfg, c', q) ==> q == Rep(out.rep.value, InProg, NoCache, false, now, Unset) || Listed(cfg, c, q))
      && (forall q :: Listed(cfg, c, q) && !Listed(cfg, c', q) ==>
            && q.state != InProg && cfg.hash(q.ref.key[..4]) == cfg.hash(rq.key[..4])
            && (now >= q.stamp + cfg.expire || c'.num >= cfg.maxEntries))
      && OldestGo(cfg, c, c', cfg.hash(rq.key[..4]))
      && Pruned(cfg, now, c', cfg.hash(rq.key[..4]))
  }

  // ---------------------------------------------------------------- update

  /** The reply is kept: it has a status, at most 64 words from there on, a type that is cached, and a buffer if it needs one. */
  predicate KeepsReply(f: Finish) {
    && f.statp.Some? && f.statp.value <= |f.res|
    && (|f.res| - f.statp.value) / 4 <= 64
    && f.ctype != NoCache
    && (f.ctype == ReplBuff ==> f.kmalloced)
  }

  /** The bytes of the reply from its status on, in whole words. */
  function WholeWords(f: Finish): seq<byte>
    requires f.statp.Some? && f.statp.value <= |f.res|
  {
    f.res[f.statp.value..][..(|f.res| - f.statp.value) / 4 * 4]
  }

  /** The entry holds what f handed in: its status, or its words. */
  ghost predicate Stores(q: Rep, f: Finish, now: nat)
    requires KeepsReply(f) && ValidFinish(f)
  {
    && q.state == Done && q.ctype == f.ctype && q.secure == f.secure && q.stamp == now
    && (f.ctype == ReplStat ==> q.body == Stat(f.res[f.statp.value..][..4]))
    && (f.ctype == ReplBuff ==> q.body == Vec(WholeWords(f)))
  }

  /** What an update of the entry x leaves in the cache. */
  ghost predicate RightUpdate(cfg: Config, now: nat, c: Cache, x: Ref, f: Finish, c': Cache)
    requires ValidFinish(f)
  {
    && (forall q: Rep :: q.ref != x ==> (Listed(cfg, c', q) <==> Listed(cfg, c, q)))
    && (KeepsReply(f) <==> exists q :: Listed(cfg, c', q) && q.ref == x)
    && (forall q :: Listed(cfg, c', q) && q.ref == x ==> Stores(q, f, now))
    && c'.num == c.num - (if KeepsReply(f) then 0 else 1)
    && c'.mem == if !KeepsReply(f) then c.mem - cfg.repSize else if f.ctype == ReplBuff then c.mem + |WholeWords(f)| else c.mem
  }

  // ---------------------------------------------------------------- what a section does to one entry

  lemma SameEntry(lru: seq<Rep>, a: Rep, b: Rep)
    requires DistinctIds(lru) && a in lru && b in lru && a.ref.id == b.ref.id
    ensures a == b
  {
  }

  lemma MoveTailMembers(lru: seq<Rep>, i: nat, n: Rep)
    requires i < |lru| && DistinctIds(lru)
    ensures forall r :: r in MoveTail(lru, i, n) <==> r == n || (r in lru && r != lru[i])
  {
    RemoveMembers(lru, i);
  }

  lemma RemoveMembers(lru: seq<Rep>, i: nat)
    requires i < |lru| && DistinctIds(lru)
    ensures forall r :: r in RemoveAt(lru, i) <==> r in lru && r != lru[i]
  {
    var rest := RemoveAt(lru, i);
    forall r | r in lru && r != lru[i]
      ensures r in rest
    {
      var j :| 0 <= j < |lru| && lru[j] == r;
      assert rest[if j < i then j else j - 1] == r;
    }
    forall r | r in rest
      ensures r in lru && r != lru[i]
    {
      var j :| 0 <= j < |rest| && rest[j] == r;
      var k := if j < i then j else j + 1;
      assert lru[k] == r && k != i;
    }
  }

  lemma PruneMembers(cfg: Config, now: nat, s: Section)
    requires SortedStamps(s.lru)
    ensures forall r :: r in Prune(cfg, now, s).lru ==> r in s.lru
    ensures forall r :: r in s.lru && r.state == InProg ==> r in Prune(cfg, now, s).lru
  {
    PruneMeaning(cfg, now, s);
    DoneOnlyMeaning(s.lru);
    DoneOnlyMeaning(Prune(cfg, now, s).lru);
  }

  lemma HitPosition(cfg: Config, b: nat, now: nat, nextId: nat, s: Section, r: Rep)
    requires SectionInv(cfg, b, now, nextId, s) && r in s.lru
    ensures Find(s.tree, r.ref.key) == Some(r.ref)
    ensures HasId(s.lru, r.ref.id) && s.lru[Position(s.lru, r.ref.id)] == r
  {
    assert r.ref in Refs(s.tree);
    FindComplete(s.tree, r.ref);
    var i :| 0 <= i < |s.lru| && s.lru[i] == r;
    assert HasId(s.lru, r.ref.id);
    SameEntry(s.lru, r, s.lru[Position(s.lru, r.ref.id)]);
  }

  lemma HitResult(cfg: Config, now: nat, s: Section, x: Ref, rq: Request, r: Rep)
    requires Find(s.tree, x.key) == Some(r.ref)
    requires HasId(s.lru, r.ref.id) && s.lru[Position(s.lru, r.ref.id)] == r
    ensures Lookup(cfg, now, s, x, rq).0.lru == MoveTail(s.lru, Position(s.lru, r.ref.id), r.(stamp := now))
    ensures Lookup(cfg, now, s, x, rq).1 == Answer(r, rq)
  {
  }

  /** A hit changes one stamp and nothing else; the entry with the key answers. */
  lemma HitEffect(cfg: Config, b: nat, now: nat, nextId: nat, s: Section, x: Ref, rq: Request, r: Rep)
    requires SectionInv(cfg, b, now, nextId, s)
    requires r in s.lru && r.ref.key == x.key
    ensures Lookup(cfg, now, s, x, rq).1 == Answer(r, rq)
    ensures forall q :: q in Lookup(cfg, now, s, x, rq).0.lru <==> q == r.(stamp := now) || (q in s.lru && q != r)
  {
    HitPosition(cfg, b, now, nextId, s, r);
    HitResult(cfg, now, s, x, rq, r);
    MoveTailMembers(s.lru, Position(s.lru, r.ref.id), r.(stamp := now));
  }

  /** A miss adds one entry in progress; pruning may take finished entries only. */
  lemma MissEffect(cfg: Config, now: nat, nextId: nat, s: Section, x: Ref, rq: Request)
    requires SectionInv(cfg, Bkt(cfg, x.key), now, nextId, s) && x.id == nextId
    requires forall r :: r in s.lru ==> r.ref.key != x.key
    ensures Lookup(cfg, now, s, x, rq).1 == Doit(Some(x))
    ensures NewRep(x, now) in Lookup(cfg, now, s, x, rq).0.lru
    ensures forall q :: q in Lookup(cfg, now, s, x, rq).0.lru ==> q == NewRep(x, now) || q in s.lru
    ensures forall q :: q in s.lru && q.state == InProg ==> q in Lookup(cfg, now, s, x, rq).0.lru
  {
    FindIff(s.tree, x.key);
    if Find(s.tree, x.key).Some? {
      FoundIsListed(cfg, Bkt(cfg, x.key), now, nextId, s, x.key);
    }
    MissKeeps(cfg, now, nextId, s, x);
    PruneMembers(cfg, now, Added(cfg, now, s, x));
    assert NewRep(x, now) in Added(cfg, now, s, x).lru;
  }

  /** An update drops the held entry, or finishes it; no other entry changes. */
  lemma UpdateEffect(cfg: Config, b: nat, now: nat, nextId: nat, s: Section, r: Rep, f: Finish)
    requires SectionInv(cfg, b, now, nextId, s) && ValidFinish(f) && r in s.lru && HasId(s.lru, r.ref.id)
    ensures Kept(f).None? ==>
              forall q :: q in Update(cfg, now, s, r.ref.id, f).lru <==> q in s.lru && q != r
    ensures Kept(f).Some? ==>
              forall q :: q in Update(cfg, now, s, r.ref.id, f).lru
                          <==> q == Finished(now, r, f) || (q in s.lru && q != r)
  {
    var i := Position(s.lru, r.ref.id);
    SameEntry(s.lru, r, s.lru[i]);
    RemoveMembers(s.lru, i);
    if Kept(f).Some? {
      MoveTailMembers(s.lru, i, Finished(now, r, f));
    }
  }

  // ---------------------------------------------------------------- lookup is as said

  lemma KeyUnique(cfg: Config, b: nat, now: nat, nextId: nat, s: Section, r: Rep, q: Rep)
    requires SectionInv(cfg, b, now, nextId, s) && r in s.lru && q in s.lru && r.ref.key == q.ref.key
    ensures r == q
  {
    HitPosition(cfg, b, now, nextId, s, r);
    HitPosition(cfg, b, now, nextId, s, q);
  }

  lemma TailHas(a: seq<Rep>, k: nat, j: nat)
    requires k <= j < |a|
    ensures a[j] in a[k..]
  {
    assert a[k..][j - k] == a[j];
  }

  lemma {:induction false} DoneOnlySorted(lru: seq<Rep>)
    requires SortedStamps(lru)
    ensures SortedStamps(DoneOnly(lru))
  {
    if lru != [] {
      DoneOnlySorted(lru[1..]);
      DoneOnlyMeaning(lru[1..]);
      forall r | r in lru[1..]
        ensures lru[0].stamp <= r.stamp
      {
      }
    }
  }

  /** An entry that goes while fresh leaves the cache at its limit or above. */
  lemma FreshGoesAtLimit(cfg: Config, now: nat, s: Section, j: nat)
    requires SortedStamps(s.lru) && j < PruneCount(cfg, now, s)
    ensures j < |DoneOnly(s.lru)|
    ensures now >= DoneOnly(s.lru)[j].stamp + cfg.expire || Prune(cfg, now, s).num >= cfg.maxEntries
  {
    var k := PruneCount(cfg, now, s);
    PruneMeaning(cfg, now, s);
    DoneOnlySorted(s.lru);
    assert DoneOnly(s.lru)[j].stamp <= DoneOnly(s.lru)[k - 1].stamp;
  }

  lemma PruneTakes(cfg: Config, now: nat, s: Section, q: Rep)
    requires SortedStamps(s.lru) && q in s.lru && q !in Prune(cfg, now, s).lru
    ensures now >= q.stamp + cfg.expire || Prune(cfg, now, s).num >= cfg.maxEntries
  {
    var k, s' := PruneCount(cfg, now, s), Prune(cfg, now, s);
    PruneMembers(cfg, now, s);
    PruneMeaning(cfg, now, s);
    DoneOnlyMeaning(s.lru);
    DoneOnlyMeaning(s'.lru);
    var j :| 0 <= j < |DoneOnly(s.lru)| && DoneOnly(s.lru)[j] == q;
    if j < k {
      FreshGoesAtLimit(cfg, now, s, j);
    } else {
      TailHas(DoneOnly(s.lru), k, j);
    }
  }

  lemma FrontIsOlder(a: seq<Rep>, k: nat, q: Rep, r: Rep)
    requires SortedStamps(a) && k <= |a| && q in a && q !in a[k..] && r in a[k..]
    ensures q.stamp <= r.stamp
  {
    var i :| 0 <= i < |a[k..]| && a[k..][i] == r;
    var j :| 0 <= j < |a| && a[j] == q;
    assert a[k + i] == r;
    assert forall m :: k <= m < |a| ==> a[k..][m - k] == a[m];
  }

  lemma PruneOldest(cfg: Config, now: nat, s: Section, q: Rep, r: Rep)
    requires SortedStamps(s.lru) && q in s.lru && q !in Prune(cfg, now, s).lru
    requires r in Prune(cfg, now, s).lru && r.state != InProg
    ensures q.stamp <= r.stamp
  {
    var k, s' := PruneCount(cfg, now, s), Prune(cfg, now, s);
    PruneMembers(cfg, now, s);
    PruneMeaning(cfg, now, s);
    DoneOnlyMeaning(s.lru);
    DoneOnlyMeaning(s'.lru);
    DoneOnlySorted(s.lru);
    FrontIsOlder(DoneOnly(s.lru), k, q, r);
  }

  lemma PruneLeaves(cfg: Config, now: nat, s: Section)
    requires SortedStamps(s.lru)
    ensures var s' := Prune(cfg, now, s);
            || (forall r :: r in s'.lru ==> r.state == InProg)
            || (s'.num <= cfg.maxEntries && forall r :: r in s'.lru && r.state != InProg ==> now < r.stamp + cfg.expire)
  {
    PruneMeaning(cfg, now, s);
    DoneOnlyMeaning(Prune(cfg, now, s).lru);
  }

  lemma MissIsPrune(cfg: Config, now: nat, nextId: nat, s: Section, x: Ref, rq: Request)
    requires SectionInv(cfg, Bkt(cfg, x.key), now, nextId, s) && x.id == nextId
    requires forall r :: r in s.lru ==> r.ref.key != x.key
    ensures Lookup(cfg, now, s, x, rq).0 == Prune(cfg, now, Added(cfg, now, s, x)) && SortedStamps(Added(cfg, now, s, x).lru)
  {
    FindIff(s.tree, x.key);
    if Find(s.tree, x.key).Some? {
      FoundIsListed(cfg, Bkt(cfg, x.key), now, nextId, s, x.key);
    }
    MissKeeps(cfg, now, nextId, s, x);
  }

  /** A miss in its bucket: what may go, and what it leaves. */
  lemma MissPrunes(cfg: Config, now: nat, nextId: nat, s: Section, x: Ref, rq: Request)
    requires SectionInv(cfg, Bkt(cfg, x.key), now, nextId, s) && x.id == nextId
    requires forall r :: r in s.lru ==> r.ref.key != x.key
    ensures var s' := Lookup(cfg, now, s, x, rq).0;
            && (forall q :: q in s.lru && q !in s'.lru ==> now >= q.stamp + cfg.expire || s'.num >= cfg.maxEntries)
            && (forall q, r :: q in s.lru && q !in s'.lru && r in s'.lru && r.state != InProg ==> q.stamp <= r.stamp)
            && (|| (forall r :: r in s'.lru ==> r.state == InProg)
                || (s'.num <= cfg.maxEntries && forall r :: r in s'.lru && r.state != InProg ==> now < r.stamp + cfg.expire))
  {
    MissIsPrune(cfg, now, nextId, s, x, rq);
    var a := Added(cfg, now, s, x);
    PruneLeaves(cfg, now, a);
    forall q | q in s.lru && q !in Prune(cfg, now, a).lru
      ensures now >= q.stamp + cfg.expire || Prune(cfg, now, a).num >= cfg.maxEntries
    {
      PruneTakes(cfg, now, a, q);
    }
    forall q, r | q in s.lru && q !in Prune(cfg, now, a).lru && r in Prune(cfg, now, a).lru && r.state != InProg
      ensures q.stamp <= r.stamp
    {
      PruneOldest(cfg, now, a, q, r);
    }
  }

  /** The entries after a section on bucket b. */
  lemma ListedAfter(cfg: Config, c: Cache, b: nat, s: Section, nextId: nat, q: Rep)
    requires b < |c.buckets|
    ensures Listed(cfg, Close(c, b, s).(nextId := nextId), q) <==>
              if Bkt(cfg, q.ref.key) == b then q in s.lru else Listed(cfg, c, q)
  {
  }

  lemma AnswerRight(r: Rep, rq: Request)
    requires r.state != InProg && (r.ctype == ReplStat ==> r.body.Stat?)
    ensures Answers(r, rq, Answer(r, rq)) && Answer(r, rq) != Dropit && !(Answer(r, rq).Doit? && Answer(r, rq).rep.Some?)
  {
  }

  /** The answer of a hit, by the one entry that has the key. */
  lemma HitAnswer(cfg: Config, now: nat, c: Cache, rq: Request, r: Rep)
    requires ValidConfig(cfg) && CacheInv(cfg, now, c) && Cacheable(rq) && Listed(cfg, c, r) && r.ref.key == rq.key
    ensures LookupCache(cfg, now, c, rq).1 == Answer(r, rq)
    ensures forall q :: Listed(cfg, c, q) && q.ref.key == rq.key ==> q == r
    ensures r.ctype == ReplStat ==> r.body.Stat?
  {
    var b := Bkt(cfg, rq.key);
    var s := Open(c, b);
    HitEffect(cfg, b, now, c.nextId, s, Ref(c.nextId, rq.key), rq, r);
    forall q | Listed(cfg, c, q) && q.ref.key == rq.key
      ensures q == r
    {
      KeyUnique(cfg, b, now, c.nextId, s, r, q);
    }
  }

  lemma HitRight(cfg: Config, now: nat, c: Cache, rq: Request, r: Rep)
    requires ValidConfig(cfg) && CacheInv(cfg, now, c) && Cacheable(rq) && Listed(cfg, c, r) && r.ref.key == rq.key
    ensures RightAnswer(cfg, c, rq, LookupCache(cfg, now, c, rq).1)
  {
    HitAnswer(cfg, now, c, rq, r);
    if r.state != InProg {
      AnswerRight(r, rq);
    }
  }

  lemma HitLeaves(cfg: Config, now: nat, c: Cache, rq: Request, r: Rep)
    requires ValidConfig(cfg) && CacheInv(cfg, now, c) && Cacheable(rq) && Listed(cfg, c, r) && r.ref.key == rq.key
    ensures RightLookup(cfg, now, c, rq, LookupCache(cfg, now, c, rq).1, LookupCache(cfg, now, c, rq).0)
  {
    var b, x := Bkt(cfg, rq.key), Ref(c.nextId, rq.key);
    var s := Open(c, b);
    HitAnswer(cfg, now, c, rq, r);
    HitEffect(cfg, b, now, c.nextId, s, x, rq, r);
    HitPosition(cfg, b, now, c.nextId, s, r);
    var c' := LookupCache(cfg, now, c, rq).0;
    forall q
      ensures Listed(cfg, c', q) <==> q == r.(stamp := now) || (Listed(cfg, c, q) && q != r)
    {
      ListedAfter(cfg, c, b, Lookup(cfg, now, s, x, rq).0, c.nextId + 1, q);
    }
  }

  lemma MissRight(cfg: Config, now: nat, c: Cache, rq: Request)
    requires ValidConfig(cfg) && CacheInv(cfg, now, c) && Cacheable(rq) && !KeyLive(cfg, c, rq.key)
    ensures LookupCache(cfg, now, c, rq).1 == Doit(Some(Ref(c.nextId, rq.key)))
    ensures RightAnswer(cfg, c, rq, LookupCache(cfg, now, c, rq).1)
  {
    MissSection(cfg, now, c, rq);
    MissEffect(cfg, now, c.nextId, Open(c, Bkt(cfg, rq.key)), Ref(c.nextId, rq.key), rq);
  }

  lemma MissSection(cfg: Config, now: nat, c: Cache, rq: Request)
    requires ValidConfig(cfg) && CacheInv(cfg, now, c) && !KeyLive(cfg, c, rq.key)
    ensures forall r :: r in c.buckets[Bkt(cfg, rq.key)].lru ==> r.ref.key != rq.key
  {
    forall r | r in c.buckets[Bkt(cfg, rq.key)].lru
      ensures r.ref.key != rq.key
    {
      assert Listed(cfg, c, r);
    }
  }

  lemma MissLeaves(cfg: Config, now: nat, c: Cache, rq: Request)
    requires ValidConfig(cfg) && CacheInv(cfg, now, c) && Cacheable(rq) && !KeyLive(cfg, c, rq.key)
    ensures RightLookup(cfg, now, c, rq, LookupCache(cfg, now, c, rq).1, LookupCache(cfg, now, c, rq).0)
  {
    var b, x := Bkt(cfg, rq.key), Ref(c.nextId, rq.key);
    var s := Open(c, b);
    MissRight(cfg, now, c, rq);
    MissSection(cfg, now, c, rq);
    MissEffect(cfg, now, c.nextId, s, x, rq);
    MissPrunes(cfg, now, c.nextId, s, x, rq);
    var s', c' := Lookup(cfg, now, s, x, rq).0, LookupCache(cfg, now, c, rq).0;
    forall q
      ensures Listed(cfg, c', q) <==> if Bkt(cfg, q.ref.key) == b then q in s'.lru else Listed(cfg, c, q)
    {
      ListedAfter(cfg, c, b, s', c.nextId + 1, q);
    }
  }

  /** A lookup answers rightly and leaves the right entries. */
  lemma LookupExact(cfg: Config, now: nat, c: Cache, rq: Request)
    requires ValidConfig(cfg) && CacheInv(cfg, now, c)
    ensures RightAnswer(cfg, c, rq, LookupCache(cfg, now, c, rq).1)
    ensures RightLookup(cfg, now, c, rq, LookupCache(cfg, now, c, rq).1, LookupCache(cfg, now, c, rq).0)
  {
    if Cacheable(rq) {
      if r :| Listed(cfg, c, r) && r.ref.key == rq.key {
        HitRight(cfg, now, c, rq, r);
        HitLeaves(cfg, now, c, rq, r);
      } else {
        MissRight(cfg, now, c, rq);
        MissLeaves(cfg, now, c, rq);
      }
    }
  }

  /** Pruning a bucket takes the oldest finished entries, and stops when it should. */
  lemma PruneExact(cfg: Config, now: nat, c: Cache, b: nat)
    requires ValidConfig(cfg) && CacheInv(cfg, now, c) && b < |c.buckets|
    ensures RightPrune(cfg, now, c, b, PruneCache(cfg, now, c, b))
  {
    var s := Open(c, b);
    var s', c' := Prune(cfg, now, s), PruneCache(cfg, now, c, b);
    PruneMembers(cfg, now, s);
    PruneLeaves(cfg, now, s);
    forall q
      ensures Listed(cfg, c', q) <==> if Bkt(cfg, q.ref.key) == b then q in s'.lru else Listed(cfg, c, q)
    {
      ListedAfter(cfg, c, b, s', c.nextId, q);
    }
    forall q | q in s.lru && q !in s'.lru
      ensures now >= q.stamp + cfg.expire || s'.num >= cfg.maxEntries
    {
      PruneTakes(cfg, now, s, q);
    }
    forall q, r | q in s.lru && q !in s'.lru && r in s'.lru && r.state != InProg
      ensures q.stamp <= r.stamp
    {
      PruneOldest(cfg, now, s, q, r);
    }
  }

  // ---------------------------------------------------------------- update is as said

  lemma KeptExact(f: Finish)
    requires ValidFinish(f)
    ensures Kept(f).Some? <==> KeepsReply(f)
    ensures KeepsReply(f) && f.ctype == ReplStat ==> Kept(f).value == Stat(f.res[f.statp.value..][..4])
    ensures KeepsReply(f) && f.ctype == ReplBuff ==> Kept(f).value == Vec(WholeWords(f))
  {
  }

  /** An update keeps the entry exactly when the reply is kept, with the reply's own bytes. */
  lemma UpdateExact(cfg: Config, now: nat, c: Cache, x: Ref, f: Finish)
    requires ValidConfig(cfg) && CacheInv(cfg, now, c) && ValidFinish(f) && Holds(cfg, c, x)
    ensures RightUpdate(cfg, now, c, x, f, UpdateCache(cfg, now, c, Some(x), f))
  {
    var b := Bkt(cfg, x.key);
    var s := Open(c, b);
    var r := s.lru[Position(s.lru, x.id)];
    var s', c' := Update(cfg, now, s, x.id, f), UpdateCache(cfg, now, c, Some(x), f);
    KeptExact(f);
    UpdateEffect(cfg, b, now, c.nextId, s, r, f);
    forall q
      ensures Listed(cfg, c', q) <==> if Bkt(cfg, q.ref.key) == b then q in s'.lru else Listed(cfg, c, q)
    {
      ListedAfter(cfg, c, b, s', c.nextId, q);
    }
    forall q | q in s.lru && q.ref == x
      ensures q == r
    {
      SameEntry(s.lru, q, r);
    }
    if KeepsReply(f) {
      assert Listed(cfg, c', Finished(now, r, f));
    }
  }

  // ---------------------------------------------------------------- the totals are as said

  /** The bytes of the buffers that entries of the list hold. */
  function Buffers(lru: seq<Rep>): nat {
    if lru == [] then 0
    else (if lru[0].ctype == ReplBuff && lru[0].body.Vec? then |lru[0].body.bytes| else 0) + Buffers(lru[1..])
  }

  function AllBuffers(bs: seq<Bucket>): nat {
    if bs == [] then 0 else Buffers(bs[0].lru) + AllBuffers(bs[1..])
  }

  lemma Spread(k: nat, m: nat, n: nat)
    ensures k * (m + n) == k * m + k * n
  {
  }

  lemma {:induction false} MemOfExact(cfg: Config, lru: seq<Rep>)
    ensures MemOf(cfg, lru) == cfg.repSize * |lru| + Buffers(lru)
  {
    if lru != [] {
      MemOfExact(cfg, lru[1..]);
      Spread(cfg.repSize, 1, |lru| - 1);
    }
  }

  /** The memory total is one entry's size for each entry, and the buffers. */
  lemma {:induction false} TotalMemExact(cfg: Config, bs: seq<Bucket>)
    ensures TotalMem(cfg, bs) == cfg.repSize * TotalEntries(bs) + AllBuffers(bs)
  {
    if bs != [] {
      MemOfExact(cfg, bs[0].lru);
      TotalMemExact(cfg, bs[1..]);
      Spread(cfg.repSize, |bs[0].lru|, TotalEntries(bs[1..]));
    }
  }
}
