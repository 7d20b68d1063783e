/**
  The reply cache as the source runs it: one object whose table and totals are updated in place.
  Each method that takes a bucket lock is proved to do what the section of the same name in
  ReplyCacheSpec says, and to keep the invariant of the whole cache.
 */
module ReplyCacheImpl {
  import opened Common
  import opened ReplyCacheKey
  import opened ReplyCacheTree
  import opened ReplyCacheSpec
  import opened ReplyCacheExact

  function PruneUnlessEmpty(cfg: Config, now: nat, c: Cache, b: nat): Cache
    requires b < |c.buckets|
  {
    if c.buckets[b].lru == [] then c else PruneCache(cfg, now, c, b)
  }

  /** The shrinker's walk: prune buckets 0 .. n-1 in turn, skipping empty ones. */
  function PruneUpTo(cfg: Config, now: nat, c: Cache, n: nat): (c': Cache)
    requires n <= |c.buckets|
    ensures |c'.buckets| == |c.buckets|
    decreases n
  {
    if n == 0 then c
    else
      PruneUnlessEmpty(cfg, now, PruneUpTo(cfg, now, c, n - 1), n - 1)
  }

  /** No finished entry of this bucket is past its time. */
  ghost predicate NothingStale(cfg: Config, now: nat, b: Bucket) {
    forall r :: r in b.lru && r.state != InProg ==> now < r.stamp + cfg.expire
  }

  class ReplyCache {
    const cfg: Config
    var buckets: seq<Bucket>
    var num: int
    var mem: int
    var nextId: nat

    ghost function View(): Cache
      reads this
    {
      Cache(buckets, num, mem, nextId)
    }

    ghost predicate Valid(now: nat)
      reads this
    {
      ValidConfig(cfg) && CacheInv(cfg, now, View())
    }

    /** nfsd_reply_cache_init: an empty table. */
    constructor (cfg: Config)
      requires ValidConfig(cfg)
      ensures this.cfg == cfg && Valid(0)
      ensures num == 0 && mem == 0 && |buckets| == cfg.size
    {
      this.cfg := cfg;
      buckets := seq(cfg.size, _ => Bucket(Leaf, []));
      num, mem, nextId := 0, 0, 0;
      new;
      EmptyTotals(cfg, buckets);
    }

    /** nfsd_reply_cache_free_locked.  An entry that never entered a bucket costs nothing. */
    method FreeLocked(b: Option<nat>, r: Rep)
      requires r.state != Unused ==> b.Some? && b.value < |buckets|
      requires r.state != Unused ==> HasId(buckets[b.value].lru, r.ref.id)
      requires r.state != Unused ==> buckets[b.value].lru[Position(buckets[b.value].lru, r.ref.id)] == r
      requires r.state == Unused ==> r.ctype == NoCache
      modifies this`buckets, this`num, this`mem
      ensures r.state == Unused ==> View() == old(View())
      ensures r.state != Unused ==>
                View() == Close(old(View()), b.value,
                                FreeAt(cfg, Open(old(View()), b.value), Position(old(buckets)[b.value].lru, r.ref.id)))
    {
      if r.ctype == ReplBuff && r.body.Vec? {
        mem := mem - |r.body.bytes|;
      }
      if r.state != Unused {
        var i := b.value;
        var pos := Position(buckets[i].lru, r.ref.id);
        buckets := buckets[i := Bucket(Erase(buckets[i].tree, r.ref.key), RemoveAt(buckets[i].lru, pos))];
        num := num - 1;
        mem := mem - cfg.repSize;
      }
    }

    /** prune_bucket: the scan with its skip and its early break. */
    method PruneBucket(b: nat, now: nat) returns (freed: nat)
      requires Valid(now) && b < |buckets|
      modifies this`buckets, this`num, this`mem
      ensures Valid(now)
      ensures View() == PruneCache(cfg, now, old(View()), b)
      ensures freed == PruneCount(cfg, now, Open(old(View()), b))
      ensures freed == old(num) - num && RightPrune(cfg, now, old(View()), b, View())
    {
      PruneExact(cfg, now, View(), b);
      PruneMeaning(cfg, now, Open(View(), b));
      freed := 0;
      var pos := 0;
      while pos < |buckets[b].lru|
        invariant Scanning(cfg, now, old(View()), View(), b, pos, freed)
        decreases |buckets[b].lru| - pos
      {
        var r := buckets[b].lru[pos];
        ScanStep(cfg, now, old(View()), View(), b, pos, freed);
        if r.state == InProg {
          pos := pos + 1;
          continue;
        }
        if num <= cfg.maxEntries && now < r.stamp + cfg.expire {
          return;
        }
        FreeLocked(Some(b), r);
        freed := freed + 1;
      }
      ScanEnd(cfg, now, old(View()), View(), b, pos, freed);
    }

    /** One bucket of the walk, which passes over an empty one. */
    method PruneNext(b: nat, now: nat) returns (freed: nat)
      requires Valid(now) && b < |buckets|
      modifies this`buckets, this`num, this`mem
      ensures Valid(now)
      ensures View() == PruneUnlessEmpty(cfg, now, old(View()), b) && freed == old(num) - num
    {
      freed := 0;
      if buckets[b].lru != [] {
        PruneLeavesNothingStale(cfg, now, Open(View(), b));
        freed := PruneBucket(b, now);
      }
    }

    /** prune_cache_entries, which is also the shrinker's scan. */
    method PruneCacheEntries(now: nat) returns (freed: nat)
      requires Valid(now)
      modifies this`buckets, this`num, this`mem
      ensures Valid(now)
      ensures View() == PruneUpTo(cfg, now, old(View()), |old(buckets)|)
      ensures num == old(num) - freed
      ensures forall i :: 0 <= i < |buckets| ==> NothingStale(cfg, now, buckets[i])
    {
      freed := 0;
      for i := 0 to |buckets|
        invariant Valid(now) && PrunedTo(cfg, now, old(View()), View(), i, freed)
      {
        PrunedMore(cfg, now, old(View()), View(), i, freed);
        var n := PruneNext(i, now);
        freed := freed + n;
      }
    }

    /** nfsd_cache_lookup. */
    method LookupRequest(rq: Request, now: nat) returns (out: Outcome)
      requires Valid(now)
      modifies this`buckets, this`num, this`mem, this`nextId
      ensures Valid(now)
      ensures View() == LookupCache(cfg, now, old(View()), rq).0
      ensures out == LookupCache(cfg, now, old(View()), rq).1
      ensures RightAnswer(cfg, old(View()), rq, out) && RightLookup(cfg, now, old(View()), rq, out, View())
    {
      LookupExact(cfg, now, View(), rq);
      if rq.ctype == NoCache || !rq.gotMemory {
        return Doit(None);
      }
      var b := Bkt(cfg, rq.key);
      var x := Ref(nextId, rq.key);
      FreshIsMissing(cfg, b, now, nextId, Open(View(), b), x);
      var found, tree, entries := FindOrInsert(buckets[b].tree, x);
      if found != x {
        out := AnswerFound(rq, now, found);
      } else {
        out := CountNew(rq, now, tree);
      }
    }

    /** The entry found is refreshed, and the preallocated one given back. */
    method RefreshFound(rq: Request, now: nat, found: Ref)
      requires Bkt(cfg, rq.key) < |buckets| && HasId(buckets[Bkt(cfg, rq.key)].lru, found.id)
      modifies this`buckets, this`num, this`mem, this`nextId
      ensures View() == WithHit(cfg, now, old(View()), rq.key, found)
    {
      var b := Bkt(cfg, rq.key);
      var pos := Position(buckets[b].lru, found.id);
      var hit := buckets[b].lru[pos].(stamp := now);
      buckets := buckets[b := Bucket(buckets[b].tree, MoveTail(buckets[b].lru, pos, hit))];
      FreeLocked(None, Rep(Ref(nextId, rq.key), Unused, NoCache, false, 0, Unset));
      nextId := nextId + 1;
    }

    /** The hit path: refresh the entry, give the preallocated one back, answer from the entry. */
    method AnswerFound(rq: Request, now: nat, found: Ref) returns (out: Outcome)
      requires Valid(now) && rq.ctype != NoCache && rq.gotMemory
      requires Find(buckets[Bkt(cfg, rq.key)].tree, rq.key) == Some(found)
      modifies this`buckets, this`num, this`mem, this`nextId
      ensures Valid(now)
      ensures View() == LookupCache(cfg, now, old(View()), rq).0
      ensures out == LookupCache(cfg, now, old(View()), rq).1
    {
      LookupCacheKeeps(cfg, now, View(), rq);
      LookupHit(cfg, now, View(), rq, found);
      var lru := buckets[Bkt(cfg, rq.key)].lru;
      out := Answer(lru[Position(lru, found.id)].(stamp := now), rq);
      RefreshFound(rq, now, found);
    }

    /** The new entry goes to the tail in progress, and is counted. */
    method LinkNew(rq: Request, now: nat, tree: Tree)
      requires Bkt(cfg, rq.key) < |buckets|
      requires tree == Link(buckets[Bkt(cfg, rq.key)].tree, Ref(nextId, rq.key))
      modifies this`buckets, this`num, this`mem, this`nextId
      ensures View() == WithNew(cfg, now, old(View()), rq.key)
    {
      var b := Bkt(cfg, rq.key);
      var x := Ref(nextId, rq.key);
      buckets := buckets[b := Bucket(tree, buckets[b].lru + [NewRep(x, now)])];
      nextId := nextId + 1;
      num := num + 1;
      mem := mem + cfg.repSize;
    }

    /** The miss path: a new entry, and then a prune of its bucket. */
    method CountNew(rq: Request, now: nat, tree: Tree) returns (out: Outcome)
      requires Valid(now) && rq.ctype != NoCache && rq.gotMemory
      requires Find(buckets[Bkt(cfg, rq.key)].tree, rq.key).None?
      requires tree == Link(buckets[Bkt(cfg, rq.key)].tree, Ref(nextId, rq.key))
      modifies this`buckets, this`num, this`mem, this`nextId
      ensures Valid(now)
      ensures View() == LookupCache(cfg, now, old(View()), rq).0
      ensures out == LookupCache(cfg, now, old(View()), rq).1
    {
      LookupMiss(cfg, now, View(), rq);
      out := Doit(Some(Ref(nextId, rq.key)));
      LinkNew(rq, now, tree);
      var _ := PruneBucket(Bkt(cfg, rq.key), now);
    }

    /** What nfsd_cache_update copies out of the reply; None on each of the paths that free the entry instead. */
    method Keep(f: Finish) returns (kept: Option<Body>, bufsize: nat)
      requires ValidFinish(f)
      ensures kept == Kept(f)
      ensures kept.Some? ==> bufsize == if kept.value.Vec? then |kept.value.bytes| else 0
    {
      bufsize := 0;
      if f.statp.None? || ReplyWords(f) > MAX_REPLY_WORDS {
        return None, 0;
      }
      match f.ctype {
        case ReplStat =>
          kept := Some(Stat(f.res[f.statp.value..f.statp.value + 4]));
        case ReplBuff =>
          bufsize := 4 * ReplyWords(f);
          if !f.kmalloced {
            return None, 0;
          }
          kept := Some(Vec(f.res[f.statp.value..f.statp.value + bufsize]));
        case NoCache =>
          kept := None;
        case Unknown(_) =>
          kept := Some(Unset);
      }
    }

    /** The finished entry goes to the tail, and its buffer is counted. */
    method Store(b: nat, pos: nat, done: Rep, bufsize: nat)
      requires b < |buckets| && pos < |buckets[b].lru|
      modifies this`buckets, this`mem
      ensures mem == old(mem) + bufsize
      ensures buckets == old(buckets)[b := Bucket(old(buckets)[b].tree, MoveTail(old(buckets)[b].lru, pos, done))]
    {
      mem := mem + bufsize;
      buckets := buckets[b := Bucket(buckets[b].tree, MoveTail(buckets[b].lru, pos, done))];
    }

    /** nfsd_cache_update for the entry the request holds. */
    method UpdateRequest(rep: Option<Ref>, f: Finish, now: nat)
      requires Valid(now) && ValidFinish(f)
      requires rep.Some? ==> Holds(cfg, View(), rep.value)
      modifies this`buckets, this`num, this`mem
      ensures Valid(now)
      ensures View() == UpdateCache(cfg, now, old(View()), rep, f)
      ensures if rep.None? then View() == old(View()) else RightUpdate(cfg, now, old(View()), rep.value, f, View())
    {
      if rep.Some? {
        UpdateExact(cfg, now, View(), rep.value, f);
      }
      UpdateCacheKeeps(cfg, now, View(), rep, f);
      if rep.None? {
        return;
      }
      var b := Bkt(cfg, rep.value.key);
      var pos := Position(buckets[b].lru, rep.value.id);
      var r := buckets[b].lru[pos];
      var kept, bufsize := Keep(f);
      if kept.None? {
        FreeLocked(Some(b), r);
      } else {
        Store(b, pos, r.(state := Done, ctype := f.ctype, secure := f.secure, stamp := now, body := kept.value), bufsize);
      }
    }

    /** nfsd_reply_cache_shutdown: free every list from its head; both totals come back to zero. */
    method Shutdown(now: nat)
      requires Valid(now)
      modifies this`buckets, this`num, this`mem
      ensures num == 0 && mem == 0 && buckets == []
    {
      for i := 0 to |buckets|
        invariant |buckets| == |old(buckets)|
        invariant Valid(now)
        invariant forall j :: 0 <= j < i ==> buckets[j].lru == []
      {
        while buckets[i].lru != []
          invariant |buckets| == |old(buckets)|
          invariant Valid(now)
          invariant forall j :: 0 <= j < i ==> buckets[j].lru == []
          decreases |buckets[i].lru|
        {
          FreeCacheKeeps(cfg, now, View(), i, 0);
          FreeLocked(Some(i), buckets[i].lru[0]);
        }
      }
      EmptyTotals(cfg, buckets);
      buckets := [];
    }
  }

  /** The walk, begun in c0, has done the buckets below i. */
  ghost predicate PrunedTo(cfg: Config, now: nat, c0: Cache, c: Cache, i: nat, freed: int) {
    && i <= |c.buckets| == |c0.buckets|
    && c == PruneUpTo(cfg, now, c0, i)
    && c.num == c0.num - freed
    && forall j :: 0 <= j < i ==> NothingStale(cfg, now, c.buckets[j])
  }

  lemma PrunedMore(cfg: Config, now: nat, c0: Cache, c: Cache, i: nat, freed: int)
    requires CacheInv(cfg, now, c) && PrunedTo(cfg, now, c0, c, i, freed) && i < |c.buckets|
    ensures var d := PruneUnlessEmpty(cfg, now, c, i);
            PrunedTo(cfg, now, c0, d, i + 1, freed + (c.num - d.num))
  {
    PruneLeavesNothingStale(cfg, now, Open(c, i));
  }

  lemma PruneLeavesNothingStale(cfg: Config, now: nat, s: Section)
    requires SortedStamps(s.lru)
    ensures NothingStale(cfg, now, Bucket(Prune(cfg, now, s).tree, Prune(cfg, now, s).lru))
    ensures Prune(cfg, now, s).num == s.num - PruneCount(cfg, now, s)
  {
    PruneMeaning(cfg, now, s);
    DoneOnlyMeaning(Prune(cfg, now, s).lru);
  }

  lemma FreeCacheKeeps(cfg: Config, now: nat, c: Cache, b: nat, pos: nat)
    requires CacheInv(cfg, now, c) && b < |c.buckets| && pos < |c.buckets[b].lru|
    ensures CacheInv(cfg, now, Close(c, b, FreeAt(cfg, Open(c, b), pos)))
    ensures var lru := c.buckets[b].lru;
            lru[pos].state != Unused && HasId(lru, lru[pos].ref.id) && Position(lru, lru[pos].ref.id) == pos
  {
    var s := Open(c, b);
    assert s.lru[pos] in s.lru;
    PositionIs(s.lru, pos);
    FreeKeeps(cfg, b, now, c.nextId, s, pos);
    CloseKeeps(cfg, now, c, b, FreeAt(cfg, s, pos), c.nextId);
  }

  /**
    A prune scan of bucket b, begun in c0, that has reached the cache c and position pos: only entries
    in progress lie behind it, and what it has freed and what is left to free make up the closed form.
   */
  ghost predicate Scanning(cfg: Config, now: nat, c0: Cache, c: Cache, b: nat, pos: nat, freed: nat) {
    && CacheInv(cfg, now, c) && |c.buckets| == |c0.buckets| && b < |c.buckets| && pos <= |c.buckets[b].lru|
    && c == Close(c0, b, Open(c, b))
    && (forall j :: 0 <= j < pos ==> c.buckets[b].lru[j].state == InProg)
    && freed + PruneCount(cfg, now, Open(c, b)) == PruneCount(cfg, now, Open(c0, b))
    && Prune(cfg, now, Open(c, b)) == Prune(cfg, now, Open(c0, b))
  }

  /** One entry of the scan: skip it, or stop where the closed form stops, or free it. */
  lemma ScanStep(cfg: Config, now: nat, c0: Cache, c: Cache, b: nat, pos: nat, freed: nat)
    requires Scanning(cfg, now, c0, c, b, pos, freed) && pos < |c.buckets[b].lru|
    ensures var lru := c.buckets[b].lru;
            lru[pos].state != Unused && HasId(lru, lru[pos].ref.id) && Position(lru, lru[pos].ref.id) == pos
    ensures c.buckets[b].lru[pos].state == InProg ==> Scanning(cfg, now, c0, c, b, pos + 1, freed)
    ensures c.buckets[b].lru[pos].state != InProg ==>
              if c.num <= cfg.maxEntries && now < c.buckets[b].lru[pos].stamp + cfg.expire then
                c == PruneCache(cfg, now, c0, b) && freed == PruneCount(cfg, now, Open(c0, b))
              else
                Scanning(cfg, now, c0, Close(c, b, FreeAt(cfg, Open(c, b), pos)), b, pos, freed + 1)
  {
    FreeCacheKeeps(cfg, now, c, b, pos);
    if c.buckets[b].lru[pos].state != InProg {
      var s := Open(c, b);
      FirstDoneIs(s.lru, pos);
      PruneUnrolls(cfg, now, s);
      CloseTwice(c0, b, s, FreeAt(cfg, s, pos), c.nextId);
    }
  }

  /** A scan that runs off the list has freed every finished entry, as the closed form says. */
  lemma ScanEnd(cfg: Config, now: nat, c0: Cache, c: Cache, b: nat, pos: nat, freed: nat)
    requires Scanning(cfg, now, c0, c, b, pos, freed) && pos == |c.buckets[b].lru|
    ensures c == PruneCache(cfg, now, c0, b) && freed == PruneCount(cfg, now, Open(c0, b))
  {
    NoneDone(c.buckets[b].lru);
  }

  lemma CloseTwice(c: Cache, b: nat, s: Section, s': Section, id: nat)
    requires b < |c.buckets|
    ensures Close(Close(c, b, s).(nextId := id), b, s') == Close(c, b, s').(nextId := id)
    ensures Open(Close(c, b, s).(nextId := id), b) == s
  {
  }

  lemma PositionIs(lru: seq<Rep>, pos: nat)
    requires pos < |lru| && DistinctIds(lru)
    ensures HasId(lru, lru[pos].ref.id) && Position(lru, lru[pos].ref.id) == pos
  {
    assert HasId(lru, lru[pos].ref.id);
  }

  lemma {:induction false} FirstDoneIs(lru: seq<Rep>, pos: nat)
    requires pos < |lru| && lru[pos].state != InProg
    requires forall j :: 0 <= j < pos ==> lru[j].state == InProg
    ensures CountDone(lru) > 0 && FirstDone(lru) == pos
  {
    if pos > 0 {
      FirstDoneIs(lru[1..], pos - 1);
    }
  }

  lemma {:induction false} NoneDone(lru: seq<Rep>)
    requires forall j :: 0 <= j < |lru| ==> lru[j].state == InProg
    ensures CountDone(lru) == 0
  {
    if lru != [] {
      NoneDone(lru[1..]);
    }
  }

  /** The identity of a fresh allocation is nowhere in the bucket, so getting it back means a miss. */
  lemma FreshIsMissing(cfg: Config, b: nat, now: nat, nextId: nat, s: Section, x: Ref)
    requires SectionInv(cfg, b, now, nextId, s) && x.id == nextId
    ensures Find(s.tree, x.key) != Some(x)
  {
    FindIff(s.tree, x.key);
    forall r | r in s.lru
      ensures r.ref != x
    {
    }
  }

  /** The cache with the entry found for k refreshed and one allocation spent. */
  function WithHit(cfg: Config, now: nat, c: Cache, k: Key, found: Ref): Cache
    requires Bkt(cfg, k) < |c.buckets| && HasId(c.buckets[Bkt(cfg, k)].lru, found.id)
  {
    var b := Bkt(cfg, k);
    var lru := c.buckets[b].lru;
    var pos := Position(lru, found.id);
    Cache(c.buckets[b := Bucket(c.buckets[b].tree, MoveTail(lru, pos, lru[pos].(stamp := now)))], c.num, c.mem, c.nextId + 1)
  }

  /** A lookup that finds an entry refreshes it in place and answers from it. */
  lemma LookupHit(cfg: Config, now: nat, c: Cache, rq: Request, found: Ref)
    requires ValidConfig(cfg) && CacheInv(cfg, now, c) && rq.ctype != NoCache && rq.gotMemory
    requires Find(c.buckets[Bkt(cfg, rq.key)].tree, rq.key) == Some(found)
    ensures HasId(c.buckets[Bkt(cfg, rq.key)].lru, found.id)
    ensures LookupCache(cfg, now, c, rq).0 == WithHit(cfg, now, c, rq.key, found)
    ensures var lru := c.buckets[Bkt(cfg, rq.key)].lru;
            LookupCache(cfg, now, c, rq).1 == Answer(lru[Position(lru, found.id)].(stamp := now), rq)
  {
    var b := Bkt(cfg, rq.key);
    FoundIsListed(cfg, b, now, c.nextId, Open(c, b), rq.key);
  }

  /** The cache between the insertion of a new entry and the prune that follows. */
  function WithNew(cfg: Config, now: nat, c: Cache, k: Key): Cache
    requires Bkt(cfg, k) < |c.buckets|
  {
    var b, x := Bkt(cfg, k), Ref(c.nextId, k);
    var lru := c.buckets[b].lru + [NewRep(x, now)];
    Cache(c.buckets[b := Bucket(Link(c.buckets[b].tree, x), lru)], c.num + 1, c.mem + cfg.repSize, c.nextId + 1)
  }

  /** A lookup that finds nothing adds an entry in progress and prunes the bucket. */
  lemma LookupMiss(cfg: Config, now: nat, c: Cache, rq: Request)
    requires ValidConfig(cfg) && CacheInv(cfg, now, c) && rq.ctype != NoCache && rq.gotMemory
    requires Find(c.buckets[Bkt(cfg, rq.key)].tree, rq.key).None?
    ensures CacheInv(cfg, now, WithNew(cfg, now, c, rq.key))
    ensures LookupCache(cfg, now, c, rq).0
         == PruneCache(cfg, now, WithNew(cfg, now, c, rq.key), Bkt(cfg, rq.key))
    ensures LookupCache(cfg, now, c, rq).1 == Doit(Some(Ref(c.nextId, rq.key)))
  {
    var b, x := Bkt(cfg, rq.key), Ref(c.nextId, rq.key);
    var s := Open(c, b);
    var added := Added(cfg, now, s, x);
    MissKeeps(cfg, now, c.nextId, s, x);
    CloseKeeps(cfg, now, c, b, added, c.nextId + 1);
    CloseTwice(c, b, added, Prune(cfg, now, added), c.nextId + 1);
    assert Close(c, b, added).(nextId := c.nextId + 1) == WithNew(cfg, now, c, rq.key);
  }
}
