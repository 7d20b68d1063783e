/**
  Whole runs of the reply cache: any number of requests look up, execute and update, buckets are
  pruned at any time, and the clock moves forward.  Each lock-protected section is one step.
 */
module ReplyCacheRuns {
  import opened Common
  import opened ReplyCacheKey
  import opened ReplyCacheTree
  import opened ReplyCacheSpec
  import opened ReplyCacheExact

  /** `held` maps each request being executed to the entry its rq_cacherep points at, if any. */
  datatype Sys = Sys(cache: Cache, now: nat, held: map<nat, Option<Ref>>)

  datatype Step = Look(rid: nat, rq: Request) | Upd(rid: nat, f: Finish) | Shrink(b: nat) | Tick(dt: nat)

  ghost predicate Enabled(cfg: Config, s: Sys, st: Step) {
    match st
    case Look(rid, rq) => rid !in s.held && Bkt(cfg, rq.key) < |s.cache.buckets|
    case Upd(rid, f) =>
      rid in s.held && ValidFinish(f) && (s.held[rid].Some? ==> Holds(cfg, s.cache, s.held[rid].value))
    case Shrink(b) => b < |s.cache.buckets|
    case Tick(_) => true
  }

  /** What a lookup step returns. */
  ghost function Out(cfg: Config, s: Sys, rq: Request): Outcome
    requires Bkt(cfg, rq.key) < |s.cache.buckets|
  {
    LookupCache(cfg, s.now, s.cache, rq).1
  }

  /** One step; a step that is not enabled changes nothing. */
  ghost function Next(cfg: Config, s: Sys, st: Step): Sys {
    if !Enabled(cfg, s, st) then s
    else match st
      case Look(rid, rq) =>
        var (c, o) := LookupCache(cfg, s.now, s.cache, rq);
        Sys(c, s.now, if o.Doit? then s.held[rid := o.rep] else s.held)
      case Upd(rid, f) => Sys(UpdateCache(cfg, s.now, s.cache, s.held[rid], f), s.now, s.held - {rid})
      case Shrink(b) => s.(cache := PruneCache(cfg, s.now, s.cache, b))
      case Tick(dt) => s.(now := s.now + dt)
  }

  ghost function Run(cfg: Config, s: Sys, steps: seq<Step>): Sys
    decreases |steps|
  {
    if steps == [] then s else Run(cfg, Next(cfg, s, steps[0]), steps[1..])
  }

  ghost function Init(cfg: Config): Sys {
    Sys(Cache(seq(cfg.size, _ => Bucket(Leaf, [])), 0, 0, 0), 0, map[])
  }

  /** r is the live entry that x points at. */
  ghost predicate Is(cfg: Config, c: Cache, x: Ref, r: Rep) {
    Bkt(cfg, x.key) < |c.buckets| && r in c.buckets[Bkt(cfg, x.key)].lru && r.ref == x
  }

  ghost predicate Live(cfg: Config, c: Cache, x: Ref) {
    exists r :: Is(cfg, c, x, r)
  }

  /** Every held entry is live and in progress, and no two requests hold the same one. */
  ghost predicate HeldInv(cfg: Config, s: Sys) {
    && (forall rid :: rid in s.held && s.held[rid].Some? ==> Holds(cfg, s.cache, s.held[rid].value))
    && (forall a, b :: a in s.held && b in s.held && a != b && s.held[a].Some? ==> s.held[a] != s.held[b])
  }

  /** Every entry in progress is held by some request. */
  ghost predicate OwnedInv(cfg: Config, s: Sys) {
    forall x, r :: Is(cfg, s.cache, x, r) && r.state == InProg ==> exists rid :: rid in s.held && s.held[rid] == Some(x)
  }

  ghost predicate SysInv(cfg: Config, s: Sys) {
    ValidConfig(cfg) && CacheInv(cfg, s.now, s.cache) && HeldInv(cfg, s) && OwnedInv(cfg, s)
  }

  // ---------------------------------------------------------------- what a section does to one entry

  lemma HoldsIff(cfg: Config, now: nat, c: Cache, x: Ref)
    requires ValidConfig(cfg) && CacheInv(cfg, now, c)
    ensures Holds(cfg, c, x) <==> exists r :: Is(cfg, c, x, r) && r.state == InProg
  {
    var lru := c.buckets[Bkt(cfg, x.key)].lru;
    if r :| Is(cfg, c, x, r) && r.state == InProg {
      var i :| 0 <= i < |lru| && lru[i] == r;
      assert HasId(lru, x.id);
      assert Position(lru, x.id) == i;
    }
    if Holds(cfg, c, x) {
      assert Is(cfg, c, x, lru[Position(lru, x.id)]);
    }
  }

  // ---------------------------------------------------------------- the fate of one entry in one step

  predicate SameButStamp(r: Rep, q: Rep) {
    q == r.(stamp := q.stamp)
  }

  predicate Caches(rq: Request) {
    rq.ctype != NoCache && rq.gotMemory
  }

  lemma LookFate(cfg: Config, s: Sys, rid: nat, rq: Request, x: Ref, q: Rep)
    requires SysInv(cfg, s) && Enabled(cfg, s, Look(rid, rq)) && Caches(rq)
    requires Is(cfg, Next(cfg, s, Look(rid, rq)).cache, x, q)
    ensures (exists r :: Is(cfg, s.cache, x, r) && SameButStamp(r, q))
         || (Out(cfg, s, rq) == Doit(Some(x)) && q == NewRep(x, s.now))
  {
    var b := Bkt(cfg, rq.key);
    var n := Ref(s.cache.nextId, rq.key);
    if Bkt(cfg, x.key) != b {
      assert Is(cfg, s.cache, x, q);
    } else {
      var sec := Open(s.cache, b);
      if r :| r in sec.lru && r.ref.key == rq.key {
        HitEffect(cfg, b, s.now, s.cache.nextId, sec, n, rq, r);
        if q == r.(stamp := s.now) {
          assert Is(cfg, s.cache, x, r);
        } else {
          assert Is(cfg, s.cache, x, q);
        }
      } else {
        MissEffect(cfg, s.now, s.cache.nextId, sec, n, rq);
        if q != NewRep(n, s.now) {
          assert Is(cfg, s.cache, x, q);
        }
      }
    }
  }

  lemma LookKeepsInProg(cfg: Config, s: Sys, rid: nat, rq: Request, x: Ref, r: Rep) returns (q: Rep)
    requires SysInv(cfg, s) && Enabled(cfg, s, Look(rid, rq)) && Caches(rq)
    requires Is(cfg, s.cache, x, r) && r.state == InProg
    ensures Is(cfg, Next(cfg, s, Look(rid, rq)).cache, x, q) && q.state == InProg
  {
    var b := Bkt(cfg, rq.key);
    var n := Ref(s.cache.nextId, rq.key);
    q := r;
    if Bkt(cfg, x.key) == b {
      var sec := Open(s.cache, b);
      if h :| h in sec.lru && h.ref.key == rq.key {
        HitEffect(cfg, b, s.now, s.cache.nextId, sec, n, rq, h);
        if h == r {
          q := r.(stamp := s.now);
        }
      } else {
        MissEffect(cfg, s.now, s.cache.nextId, sec, n, rq);
      }
    }
  }

  /** The live entry with the key, in progress or finished, answers the lookup. */
  lemma LookHits(cfg: Config, s: Sys, rid: nat, rq: Request, x: Ref, r: Rep)
    requires SysInv(cfg, s) && Enabled(cfg, s, Look(rid, rq)) && Caches(rq)
    requires Is(cfg, s.cache, x, r) && x.key == rq.key
    ensures Out(cfg, s, rq) == Answer(r, rq)
  {
    var b := Bkt(cfg, rq.key);
    HitEffect(cfg, b, s.now, s.cache.nextId, Open(s.cache, b), Ref(s.cache.nextId, rq.key), rq, r);
  }

  /** With no live entry for the key, the lookup makes one. */
  lemma LookMisses(cfg: Config, s: Sys, rid: nat, rq: Request)
    requires SysInv(cfg, s) && Enabled(cfg, s, Look(rid, rq)) && Caches(rq)
    requires forall x, r :: Is(cfg, s.cache, x, r) ==> x.key != rq.key
    ensures var n := Ref(s.cache.nextId, rq.key);
            && Out(cfg, s, rq) == Doit(Some(n))
            && Is(cfg, Next(cfg, s, Look(rid, rq)).cache, n, NewRep(n, s.now))
  {
    var b := Bkt(cfg, rq.key);
    var sec := Open(s.cache, b);
    forall r | r in sec.lru
      ensures r.ref.key != rq.key
    {
      assert Is(cfg, s.cache, r.ref, r);
    }
    MissEffect(cfg, s.now, s.cache.nextId, sec, Ref(s.cache.nextId, rq.key), rq);
  }

  /** Only a lookup that found no live entry for its key is told to execute and fill an entry. */
  lemma DoitMeansMiss(cfg: Config, s: Sys, rid: nat, rq: Request)
    requires SysInv(cfg, s) && Enabled(cfg, s, Look(rid, rq)) && Caches(rq)
    requires Out(cfg, s, rq).Doit? && Out(cfg, s, rq).rep.Some?
    ensures forall x, r :: Is(cfg, s.cache, x, r) ==> x.key != rq.key
  {
    forall x, r | Is(cfg, s.cache, x, r)
      ensures x.key != rq.key
    {
      if x.key == rq.key {
        LookHits(cfg, s, rid, rq, x, r);
      }
    }
  }

  lemma UpdFate(cfg: Config, s: Sys, rid: nat, f: Finish, y: Ref, r: Rep)
    requires SysInv(cfg, s) && Enabled(cfg, s, Upd(rid, f)) && s.held[rid] == Some(y) && Is(cfg, s.cache, y, r)
    ensures var c' := Next(cfg, s, Upd(rid, f)).cache;
            forall x, q :: Is(cfg, c', x, q) <==>
              || (x == y && Kept(f).Some? && q == Finished(s.now, r, f))
              || (x != y && Is(cfg, s.cache, x, q))
  {
    var b := Bkt(cfg, y.key);
    var sec := Open(s.cache, b);
    UpdateEffect(cfg, b, s.now, s.cache.nextId, sec, r, f);
    forall q | q in sec.lru && q.ref == y
      ensures q == r
    {
      SameEntry(sec.lru, q, r);
    }
  }

  lemma ShrinkFate(cfg: Config, s: Sys, b: nat)
    requires SysInv(cfg, s) && Enabled(cfg, s, Shrink(b))
    ensures var c' := Next(cfg, s, Shrink(b)).cache;
            && (forall x, q :: Is(cfg, c', x, q) ==> Is(cfg, s.cache, x, q))
            && (forall x, q :: Is(cfg, s.cache, x, q) && q.state == InProg ==> Is(cfg, c', x, q))
  {
    PruneMembers(cfg, s.now, Open(s.cache, b));
  }

  // ---------------------------------------------------------------- every step keeps the invariant

  lemma LookKeepsOneHeld(cfg: Config, s: Sys, rid: nat, rq: Request, x: Ref)
    requires SysInv(cfg, s) && Enabled(cfg, s, Look(rid, rq)) && Caches(rq) && Holds(cfg, s.cache, x)
    requires CacheInv(cfg, s.now, Next(cfg, s, Look(rid, rq)).cache)
    ensures Holds(cfg, Next(cfg, s, Look(rid, rq)).cache, x) && x.id < s.cache.nextId
  {
    HoldsIff(cfg, s.now, s.cache, x);
    var r :| Is(cfg, s.cache, x, r) && r.state == InProg;
    var q := LookKeepsInProg(cfg, s, rid, rq, x, r);
    HoldsIff(cfg, s.now, Next(cfg, s, Look(rid, rq)).cache, x);
  }

  lemma LookHoldsNew(cfg: Config, s: Sys, rid: nat, rq: Request)
    requires SysInv(cfg, s) && Enabled(cfg, s, Look(rid, rq)) && Caches(rq)
    requires CacheInv(cfg, s.now, Next(cfg, s, Look(rid, rq)).cache)
    requires Out(cfg, s, rq).Doit? && Out(cfg, s, rq).rep.Some?
    ensures Out(cfg, s, rq).rep.value == Ref(s.cache.nextId, rq.key)
    ensures Holds(cfg, Next(cfg, s, Look(rid, rq)).cache, Ref(s.cache.nextId, rq.key))
  {
    DoitMeansMiss(cfg, s, rid, rq);
    LookMisses(cfg, s, rid, rq);
    HoldsIff(cfg, s.now, Next(cfg, s, Look(rid, rq)).cache, Ref(s.cache.nextId, rq.key));
  }

  lemma LookKeepsHeld(cfg: Config, s: Sys, rid: nat, rq: Request)
    requires SysInv(cfg, s) && Enabled(cfg, s, Look(rid, rq)) && Caches(rq)
    requires CacheInv(cfg, s.now, Next(cfg, s, Look(rid, rq)).cache)
    ensures HeldInv(cfg, Next(cfg, s, Look(rid, rq)))
  {
    var s' := Next(cfg, s, Look(rid, rq));
    forall h | h in s.held && s.held[h].Some?
      ensures Holds(cfg, s'.cache, s.held[h].value)
      ensures s.held[h].value.id < s.cache.nextId
    {
      LookKeepsOneHeld(cfg, s, rid, rq, s.held[h].value);
    }
    if Out(cfg, s, rq).Doit? && Out(cfg, s, rq).rep.Some? {
      LookHoldsNew(cfg, s, rid, rq);
    }
  }

  lemma LookKeepsOwned(cfg: Config, s: Sys, rid: nat, rq: Request)
    requires SysInv(cfg, s) && Enabled(cfg, s, Look(rid, rq)) && Caches(rq)
    ensures OwnedInv(cfg, Next(cfg, s, Look(rid, rq)))
  {
    var s' := Next(cfg, s, Look(rid, rq));
    forall x, q | Is(cfg, s'.cache, x, q) && q.state == InProg
      ensures exists h :: h in s'.held && s'.held[h] == Some(x)
    {
      LookFate(cfg, s, rid, rq, x, q);
      if r :| Is(cfg, s.cache, x, r) && SameButStamp(r, q) {
        var h :| h in s.held && s.held[h] == Some(x);
        assert h in s'.held && s'.held[h] == Some(x);
      } else {
        assert rid in s'.held && s'.held[rid] == Some(x);
      }
    }
  }

  lemma UpdKeeps(cfg: Config, s: Sys, rid: nat, f: Finish)
    requires SysInv(cfg, s) && Enabled(cfg, s, Upd(rid, f)) && s.held[rid].Some?
    requires CacheInv(cfg, s.now, Next(cfg, s, Upd(rid, f)).cache)
    ensures HeldInv(cfg, Next(cfg, s, Upd(rid, f))) && OwnedInv(cfg, Next(cfg, s, Upd(rid, f)))
  {
    var s', y := Next(cfg, s, Upd(rid, f)), s.held[rid].value;
    HoldsIff(cfg, s.now, s.cache, y);
    var r :| Is(cfg, s.cache, y, r) && r.state == InProg;
    UpdFate(cfg, s, rid, f, y, r);
    forall h | h in s'.held && s'.held[h].Some?
      ensures Holds(cfg, s'.cache, s'.held[h].value)
    {
      var x := s'.held[h].value;
      HoldsIff(cfg, s.now, s.cache, x);
      var q :| Is(cfg, s.cache, x, q) && q.state == InProg;
      assert Is(cfg, s'.cache, x, q);
      HoldsIff(cfg, s.now, s'.cache, x);
    }
    forall x, q | Is(cfg, s'.cache, x, q) && q.state == InProg
      ensures exists h :: h in s'.held && s'.held[h] == Some(x)
    {
      assert x != y && Is(cfg, s.cache, x, q);
      var h :| h in s.held && s.held[h] == Some(x);
      assert h in s'.held && s'.held[h] == Some(x);
    }
  }

  lemma ShrinkKeeps(cfg: Config, s: Sys, b: nat)
    requires SysInv(cfg, s) && Enabled(cfg, s, Shrink(b))
    requires CacheInv(cfg, s.now, Next(cfg, s, Shrink(b)).cache)
    ensures HeldInv(cfg, Next(cfg, s, Shrink(b))) && OwnedInv(cfg, Next(cfg, s, Shrink(b)))
  {
    var s' := Next(cfg, s, Shrink(b));
    ShrinkFate(cfg, s, b);
    forall h | h in s'.held && s'.held[h].Some?
      ensures Holds(cfg, s'.cache, s'.held[h].value)
    {
      HoldsIff(cfg, s.now, s.cache, s.held[h].value);
      HoldsIff(cfg, s.now, s'.cache, s.held[h].value);
    }
  }

  lemma NextKeepsCache(cfg: Config, s: Sys, st: Step)
    requires SysInv(cfg, s) && Enabled(cfg, s, st)
    ensures CacheInv(cfg, Next(cfg, s, st).now, Next(cfg, s, st).cache)
  {
    match st
    case Look(rid, rq) => LookupCacheKeeps(cfg, s.now, s.cache, rq);
    case Upd(rid, f) => UpdateCacheKeeps(cfg, s.now, s.cache, s.held[rid], f);
    case Shrink(b) => PruneCacheKeeps(cfg, s.now, s.cache, b);
    case Tick(dt) =>
      forall i | 0 <= i < |s.cache.buckets|
        ensures BucketInv(cfg, i, s.now + dt, s.cache.nextId, s.cache.buckets[i].tree, s.cache.buckets[i].lru)
      {
        BucketInvLater(cfg, i, s.now, s.cache.nextId, s.now + dt, s.cache.nextId, s.cache.buckets[i].tree, s.cache.buckets[i].lru);
      }
  }

  /** Every step keeps index agreement, order, conservation and ownership. */
  lemma NextKeeps(cfg: Config, s: Sys, st: Step)
    requires SysInv(cfg, s)
    ensures SysInv(cfg, Next(cfg, s, st))
  {
    if Enabled(cfg, s, st) {
      NextKeepsCache(cfg, s, st);
      match st
      case Look(rid, rq) =>
        if Caches(rq) {
          LookKeepsHeld(cfg, s, rid, rq);
          LookKeepsOwned(cfg, s, rid, rq);
        } else {
          NoEntryKeeps(cfg, s, s.held[rid := None]);
        }
      case Upd(rid, f) =>
        if s.held[rid].Some? {
          UpdKeeps(cfg, s, rid, f);
        } else {
          NoEntryKeeps(cfg, s, s.held - {rid});
        }
      case Shrink(b) => ShrinkKeeps(cfg, s, b);
      case Tick(dt) =>
    }
  }

  /** Requests that hold no entry may come and go. */
  lemma NoEntryKeeps(cfg: Config, s: Sys, held: map<nat, Option<Ref>>)
    requires SysInv(cfg, s)
    requires forall h :: h in held && held[h].Some? ==> h in s.held && s.held[h] == held[h]
    requires forall h :: h in s.held && s.held[h].Some? ==> h in held && s.held[h] == held[h]
    ensures HeldInv(cfg, s.(held := held)) && OwnedInv(cfg, s.(held := held))
  {
    var s' := s.(held := held);
    forall x, q | Is(cfg, s'.cache, x, q) && q.state == InProg
      ensures exists h :: h in held && held[h] == Some(x)
    {
      var h :| h in s.held && s.held[h] == Some(x);
      assert h in held && held[h] == Some(x);
    }
  }

  lemma InitHolds(cfg: Config)
    requires ValidConfig(cfg)
    ensures SysInv(cfg, Init(cfg))
  {
    EmptyTotals(cfg, Init(cfg).cache.buckets);
  }

  lemma {:induction false} RunKeeps(cfg: Config, s: Sys, steps: seq<Step>)
    requires SysInv(cfg, s)
    ensures SysInv(cfg, Run(cfg, s, steps))
    decreases |steps|
  {
    if steps != [] {
      NextKeeps(cfg, s, steps[0]);
      RunKeeps(cfg, Next(cfg, s, steps[0]), steps[1..]);
    }
  }

  /**
    In every state of every run: each bucket's tree and list agree and are in order, both totals are
    exact, and an in-progress entry is held by exactly one request, whose pointer never dangles.
   */
  lemma EveryRunSafe(cfg: Config, steps: seq<Step>)
    requires ValidConfig(cfg)
    ensures var s := Run(cfg, Init(cfg), steps);
            && CacheInv(cfg, s.now, s.cache)
            && s.cache.mem == cfg.repSize * s.cache.num + AllBuffers(s.cache.buckets)
            && HeldInv(cfg, s) && OwnedInv(cfg, s)
            && (forall rid, f :: rid in s.held && ValidFinish(f) ==> Enabled(cfg, s, Upd(rid, f)))
  {
    InitHolds(cfg);
    RunKeeps(cfg, Init(cfg), steps);
    TotalMemExact(cfg, Run(cfg, Init(cfg), steps).cache.buckets);
  }

  // ---------------------------------------------------------------- at most one execution

  /** The first reply that request rid hands in during the steps. */
  ghost function FirstFinish(cfg: Config, s: Sys, rid: nat, steps: seq<Step>): Option<Finish>
    decreases |steps|
  {
    if steps == [] then None
    else if steps[0].Upd? && steps[0].rid == rid && Enabled(cfg, s, steps[0]) then Some(steps[0].f)
    else FirstFinish(cfg, Next(cfg, s, steps[0]), rid, steps[1..])
  }

  /**
    The answer owed to a repeat of a request that was finished with f: the status or the words handed in, or
    one of the outs (an insecure port asking for a secure reply, no room in the page, an unknown type).
   */
  ghost function Replay(f: Finish, rq: Request): Outcome
    requires ValidFinish(f)
  {
    if !rq.secure && f.secure then Doit(None)
    else if !KeepsReply(f) then Doit(None)
    else match f.ctype
      case ReplStat => Reply(rq.head + f.res[f.statp.value..][..4])
      case ReplBuff => if |rq.head| + |WholeWords(f)| > 4096 then Doit(None) else Reply(rq.head + WholeWords(f))
      case _ => Doit(None)
  }

  /** A buffered reply comes back whole exactly when it was a whole number of words. */
  lemma ReplayIsWhole(f: Finish, rq: Request)
    requires ValidFinish(f) && f.ctype == ReplBuff && KeepsReply(f) && (rq.secure || !f.secure)
    requires |rq.head| + |f.res| - f.statp.value <= 4096
    ensures Replay(f, rq) == Reply(rq.head + f.res[f.statp.value..]) <==> (|f.res| - f.statp.value) % 4 == 0
  {
    var n := |f.res| - f.statp.value;
    var kept := WholeWords(f);
    assert |rq.head + kept| == |rq.head| + 4 * (n / 4);
    if n % 4 == 0 {
      assert kept == f.res[f.statp.value..];
    } else {
      assert |rq.head + f.res[f.statp.value..]| != |rq.head + kept|;
    }
  }

  /** A reply of three bytes is stored as none of them, and comes back empty. */
  lemma ShortReplyIsCut()
    ensures var f := Finish(ReplBuff, Some(0), [1, 2, 3], true, false);
            && ValidFinish(f) && KeepsReply(f)
            && forall rq: Request :: |rq.head| <= 4096 ==> Replay(f, rq) == Reply(rq.head)
  {
    var f := Finish(ReplBuff, Some(0), [1, 2, 3], true, false);
    assert WholeWords(f) == [];
    forall rq: Request | |rq.head| <= 4096
      ensures Replay(f, rq) == Reply(rq.head)
    {
      assert rq.head + [] == rq.head;
    }
  }

  /** x stands for an execution that has not handed in its reply: in progress, held by rid. */
  ghost predicate Executing(cfg: Config, s: Sys, rid: nat, x: Ref) {
    rid in s.held && s.held[rid] == Some(x) && forall r :: Is(cfg, s.cache, x, r) ==> r.state == InProg
  }

  /** x, if still live, is finished with f. */
  ghost predicate Settled(cfg: Config, s: Sys, x: Ref, f: Finish) {
    && ValidFinish(f)
    && x.id < s.cache.nextId
    && (forall h :: h in s.held ==> s.held[h] != Some(x))
    && (forall r :: Is(cfg, s.cache, x, r) ==>
          r.state == Done && Kept(f) == Some(r.body) && r.ctype == f.ctype && r.secure == f.secure)
  }

  lemma StepExecuting(cfg: Config, s: Sys, rid: nat, x: Ref, st: Step)
    requires SysInv(cfg, s) && Executing(cfg, s, rid, x)
    ensures var s' := Next(cfg, s, st);
            if st.Upd? && st.rid == rid && Enabled(cfg, s, st) then Settled(cfg, s', x, st.f)
            else Executing(cfg, s', rid, x)
  {
    var s' := Next(cfg, s, st);
    HoldsIff(cfg, s.now, s.cache, x);
    var r :| Is(cfg, s.cache, x, r) && r.state == InProg;
    if Enabled(cfg, s, st) {
      match st
      case Look(h, rq) =>
        if Caches(rq) {
          forall q | Is(cfg, s'.cache, x, q)
            ensures q.state == InProg
          {
            LookFate(cfg, s, h, rq, x, q);
          }
        }
      case Upd(h, f) =>
        if s.held[h].Some? {
          var y := s.held[h].value;
          HoldsIff(cfg, s.now, s.cache, y);
          var z :| Is(cfg, s.cache, y, z) && z.state == InProg;
          UpdFate(cfg, s, h, f, y, z);
        }
      case Shrink(b) => ShrinkFate(cfg, s, b);
      case Tick(_) => assert forall q :: Is(cfg, s'.cache, x, q) ==> Is(cfg, s.cache, x, q);
    }
  }

  lemma StepSettled(cfg: Config, s: Sys, x: Ref, f: Finish, st: Step)
    requires SysInv(cfg, s) && Settled(cfg, s, x, f)
    ensures Settled(cfg, Next(cfg, s, st), x, f)
  {
    var s' := Next(cfg, s, st);
    if Enabled(cfg, s, st) {
      match st
      case Look(h, rq) =>
        if Caches(rq) {
          if Out(cfg, s, rq).Doit? && Out(cfg, s, rq).rep.Some? {
            DoitMeansMiss(cfg, s, h, rq);
            LookMisses(cfg, s, h, rq);
          }
          forall q | Is(cfg, s'.cache, x, q)
            ensures q.state == Done && Kept(f) == Some(q.body) && q.ctype == f.ctype && q.secure == f.secure
          {
            LookFate(cfg, s, h, rq, x, q);
          }
        }
      case Upd(h, g) =>
        if s.held[h].Some? {
          var y := s.held[h].value;
          HoldsIff(cfg, s.now, s.cache, y);
          var z :| Is(cfg, s.cache, y, z) && z.state == InProg;
          UpdFate(cfg, s, h, g, y, z);
        }
      case Shrink(b) => ShrinkFate(cfg, s, b);
      case Tick(_) => assert forall q :: Is(cfg, s'.cache, x, q) ==> Is(cfg, s.cache, x, q);
    }
  }

  lemma {:induction false} RunSettled(cfg: Config, s: Sys, x: Ref, f: Finish, steps: seq<Step>)
    requires SysInv(cfg, s) && Settled(cfg, s, x, f)
    ensures Settled(cfg, Run(cfg, s, steps), x, f)
    decreases |steps|
  {
    if steps != [] {
      StepSettled(cfg, s, x, f, steps[0]);
      NextKeeps(cfg, s, steps[0]);
      RunSettled(cfg, Next(cfg, s, steps[0]), x, f, steps[1..]);
    }
  }

  /** Where the request that made x stands: executing, or finished with f. */
  ghost predicate Fate(cfg: Config, s: Sys, rid: nat, x: Ref, finish: Option<Finish>) {
    match finish
    case None => Executing(cfg, s, rid, x)
    case Some(f) => Settled(cfg, s, x, f)
  }

  lemma {:induction false} RunExecuting(cfg: Config, s: Sys, rid: nat, x: Ref, steps: seq<Step>)
    requires SysInv(cfg, s) && Executing(cfg, s, rid, x)
    ensures Fate(cfg, Run(cfg, s, steps), rid, x, FirstFinish(cfg, s, rid, steps))
    decreases |steps|
  {
    if steps != [] {
      StepExecuting(cfg, s, rid, x, steps[0]);
      NextKeeps(cfg, s, steps[0]);
      var s' := Next(cfg, s, steps[0]);
      if steps[0].Upd? && steps[0].rid == rid && Enabled(cfg, s, steps[0]) {
        RunSettled(cfg, s', x, steps[0].f, steps[1..]);
      } else {
        RunExecuting(cfg, s', rid, x, steps[1..]);
      }
    }
  }

  /**
    At most one execution per cached key.  Take any run `before`, a lookup that is told to execute
    with entry x, and any further steps after which x is still live.  A lookup of the same key then is
    dropped while the first request has not handed in its reply, and afterwards gets exactly the reply
    that was handed in (or one of the outs that Replay lists).  It is never given an entry to execute with.
   */
  lemma AtMostOneExecution(cfg: Config, before: seq<Step>, rid: nat, rq: Request, x: Ref, steps: seq<Step>,
                           rid2: nat, rq2: Request)
    requires ValidConfig(cfg)
    requires var s := Run(cfg, Init(cfg), before);
             Enabled(cfg, s, Look(rid, rq)) && Out(cfg, s, rq) == Doit(Some(x))
    requires var t := Run(cfg, Next(cfg, Run(cfg, Init(cfg), before), Look(rid, rq)), steps);
             Live(cfg, t.cache, x) && Enabled(cfg, t, Look(rid2, rq2)) && rq2.key == x.key && Caches(rq2)
    ensures var s1 := Next(cfg, Run(cfg, Init(cfg), before), Look(rid, rq));
            Owed(FirstFinish(cfg, s1, rid, steps), Out(cfg, Run(cfg, s1, steps), rq2), rq2)
  {
    EveryRunSafe(cfg, before);
    var s := Run(cfg, Init(cfg), before);
    NextKeeps(cfg, s, Look(rid, rq));
    CreatorExecutes(cfg, s, rid, rq, x);
    LaterLookup(cfg, Next(cfg, s, Look(rid, rq)), rid, x, steps, rid2, rq2);
  }

  /** The answer to a repeat: dropped until the reply is handed in, then that reply; never an entry to execute with. */
  ghost predicate Owed(finish: Option<Finish>, out: Outcome, rq: Request) {
    && (match finish
        case None => out == Dropit
        case Some(f) => ValidFinish(f) && KeepsReply(f) && out == Replay(f, rq))
    && !(out.Doit? && out.rep.Some?)
  }

  /** While the request that made the entry executes, a lookup of its key is dropped. */
  lemma LookDropped(cfg: Config, t: Sys, rid: nat, x: Ref, rid2: nat, rq2: Request)
    requires SysInv(cfg, t) && Executing(cfg, t, rid, x) && Live(cfg, t.cache, x)
    requires Enabled(cfg, t, Look(rid2, rq2)) && rq2.key == x.key && Caches(rq2)
    ensures Out(cfg, t, rq2) == Dropit
  {
    var r :| Is(cfg, t.cache, x, r);
    LookHits(cfg, t, rid2, rq2, x, r);
  }

  /** Once it has handed in f, the lookup gets what f left. */
  lemma LookReplays(cfg: Config, t: Sys, x: Ref, f: Finish, rid2: nat, rq2: Request)
    requires SysInv(cfg, t) && Settled(cfg, t, x, f) && Live(cfg, t.cache, x)
    requires Enabled(cfg, t, Look(rid2, rq2)) && rq2.key == x.key && Caches(rq2)
    ensures KeepsReply(f) && Out(cfg, t, rq2) == Replay(f, rq2)
  {
    KeptExact(f);
    var r :| Is(cfg, t.cache, x, r);
    LookHits(cfg, t, rid2, rq2, x, r);
  }

  lemma LookAnswered(cfg: Config, t: Sys, rid: nat, x: Ref, finish: Option<Finish>, rid2: nat, rq2: Request)
    requires SysInv(cfg, t) && Fate(cfg, t, rid, x, finish) && Live(cfg, t.cache, x)
    requires Enabled(cfg, t, Look(rid2, rq2)) && rq2.key == x.key && Caches(rq2)
    ensures Owed(finish, Out(cfg, t, rq2), rq2)
  {
    match finish
    case None => LookDropped(cfg, t, rid, x, rid2, rq2);
    case Some(f) => LookReplays(cfg, t, x, f, rid2, rq2);
  }

  lemma LaterLookup(cfg: Config, s1: Sys, rid: nat, x: Ref, steps: seq<Step>, rid2: nat, rq2: Request)
    requires SysInv(cfg, s1) && Executing(cfg, s1, rid, x)
    requires var t := Run(cfg, s1, steps);
             Live(cfg, t.cache, x) && Enabled(cfg, t, Look(rid2, rq2)) && rq2.key == x.key && Caches(rq2)
    ensures Owed(FirstFinish(cfg, s1, rid, steps), Out(cfg, Run(cfg, s1, steps), rq2), rq2)
  {
    RunKeeps(cfg, s1, steps);
    RunExecuting(cfg, s1, rid, x, steps);
    LookAnswered(cfg, Run(cfg, s1, steps), rid, x, FirstFinish(cfg, s1, rid, steps), rid2, rq2);
  }

  lemma CreatorExecutes(cfg: Config, s: Sys, rid: nat, rq: Request, x: Ref)
    requires SysInv(cfg, s) && Enabled(cfg, s, Look(rid, rq)) && Out(cfg, s, rq) == Doit(Some(x))
    ensures Executing(cfg, Next(cfg, s, Look(rid, rq)), rid, x)
  {
    var s1 := Next(cfg, s, Look(rid, rq));
    DoitMeansMiss(cfg, s, rid, rq);
    LookMisses(cfg, s, rid, rq);
    forall q | Is(cfg, s1.cache, x, q)
      ensures q.state == InProg
    {
      LookFate(cfg, s, rid, rq, x, q);
    }
  }

  // ---------------------------------------------------------------- every answer and every update

  /** In every reachable state a lookup answers rightly and leaves the right entries. */
  lemma EveryAnswerRight(cfg: Config, steps: seq<Step>, rid: nat, rq: Request)
    requires ValidConfig(cfg) && Enabled(cfg, Run(cfg, Init(cfg), steps), Look(rid, rq))
    ensures var s := Run(cfg, Init(cfg), steps);
            var s', out := Next(cfg, s, Look(rid, rq)), Out(cfg, s, rq);
            && RightAnswer(cfg, s.cache, rq, out)
            && RightLookup(cfg, s.now, s.cache, rq, out, s'.cache)
            && s'.now == s.now && s'.held == if out.Doit? then s.held[rid := out.rep] else s.held
  {
    EveryRunSafe(cfg, steps);
    var s := Run(cfg, Init(cfg), steps);
    LookupExact(cfg, s.now, s.cache, rq);
  }

  /** In every reachable state an update keeps the entry of its request exactly when it keeps the reply. */
  lemma EveryUpdateRight(cfg: Config, steps: seq<Step>, rid: nat, f: Finish)
    requires ValidConfig(cfg) && Enabled(cfg, Run(cfg, Init(cfg), steps), Upd(rid, f))
    ensures var s := Run(cfg, Init(cfg), steps);
            var s' := Next(cfg, s, Upd(rid, f));
            && s'.now == s.now && s'.held == s.held - {rid}
            && if s.held[rid].None? then s'.cache == s.cache
               else RightUpdate(cfg, s.now, s.cache, s.held[rid].value, f, s'.cache)
  {
    EveryRunSafe(cfg, steps);
    var s := Run(cfg, Init(cfg), steps);
    if s.held[rid].Some? {
      UpdateExact(cfg, s.now, s.cache, s.held[rid].value, f);
    }
  }

  /** In every reachable state the shrinker takes the oldest finished entries of a bucket, and stops when it should. */
  lemma EveryPruneRight(cfg: Config, steps: seq<Step>, b: nat)
    requires ValidConfig(cfg) && Enabled(cfg, Run(cfg, Init(cfg), steps), Shrink(b))
    ensures var s := Run(cfg, Init(cfg), steps);
            var s' := Next(cfg, s, Shrink(b));
            s' == s.(cache := s'.cache) && RightPrune(cfg, s.now, s.cache, b, s'.cache)
  {
    EveryRunSafe(cfg, steps);
    PruneExact(cfg, Run(cfg, Init(cfg), steps).now, Run(cfg, Init(cfg), steps).cache, b);
  }

  function Ticked(steps: seq<Step>): nat {
    if steps == [] then 0 else (if steps[0].Tick? then steps[0].dt else 0) + Ticked(steps[1..])
  }

  /** Time is what has passed, whatever else was done. */
  lemma {:induction false} ClockIs(cfg: Config, s: Sys, steps: seq<Step>)
    ensures Run(cfg, s, steps).now == s.now + Ticked(steps)
    decreases |steps|
  {
    if steps != [] {
      ClockIs(cfg, Next(cfg, s, steps[0]), steps[1..]);
    }
  }
}
