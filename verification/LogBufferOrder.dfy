/**
  When a thread's messages come out in its own order, exactly: the times under each version of the attributes
  must be steady.  Where they are not, a run of the machine emits them in another order.
 */
module LogBufferOrder {
  import opened LogBuffer
  import opened LogBufferRuns
  import opened LogBufferImpl

  // ---------------------------------------------------------------- one sort

  lemma OfFive(a: seq<Entry>, u: Entry, b: seq<Entry>, v: Entry, c: seq<Entry>, t: nat)
    requires u.msg.thread == v.msg.thread == t
    ensures Of(a + [u] + b + [v] + c, t) == Of(a, t) + [u] + Of(b, t) + [v] + Of(c, t)
  {
    OfConcat(a + [u] + b + [v], c, t);
    OfConcat(a + [u] + b, [v], t);
    OfConcat(a + [u], b, t);
    OfConcat(a, [u], t);
    OfOne(u, t);
    OfOne(v, t);
  }

  /** Two entries of a thread change places, and the thread's order with them. */
  lemma SwapChanges(a: seq<Entry>, u: Entry, b: seq<Entry>, v: Entry, c: seq<Entry>, t: nat)
    requires u.msg.thread == v.msg.thread == t && u != v
    ensures Of(a + [v] + b + [u] + c, t) != Of(a + [u] + b + [v] + c, t)
  {
    OfFive(a, u, b, v, c, t);
    OfFive(a, v, b, u, c, t);
    var k := |Of(a, t)|;
    assert (Of(a, t) + [u] + Of(b, t) + [v] + Of(c, t))[k] == u;
    assert (Of(a, t) + [v] + Of(b, t) + [u] + Of(c, t))[k] == v;
  }

  lemma SwapSorted(a: seq<Entry>, u: Entry, b: seq<Entry>, v: Entry, c: seq<Entry>)
    requires Sorted(a + [u] + b + [v] + c) && u.msg.time == v.msg.time
    ensures Sorted(a + [v] + b + [u] + c)
  {
    var r, p := a + [u] + b + [v] + c, a + [v] + b + [u] + c;
    forall i | 0 <= i < |p|
      ensures p[i].msg.time == r[i].msg.time
    {
    }
  }

  lemma SwapPermutes(a: seq<Entry>, u: Entry, b: seq<Entry>, v: Entry, c: seq<Entry>)
    ensures multiset(a + [v] + b + [u] + c) == multiset(a + [u] + b + [v] + c)
  {
  }

  /** Two different entries of a thread at one time, wherever they are in a sorted list. */
  lemma SwapFive(a: seq<Entry>, u: Entry, b: seq<Entry>, v: Entry, c: seq<Entry>, t: nat) returns (p: seq<Entry>)
    requires var r := a + [u] + b + [v] + c; Sorted(r)
    requires u.msg.thread == v.msg.thread == t && u.msg.time == v.msg.time && u != v
    ensures var r := a + [u] + b + [v] + c;
            Sorted(p) && multiset(p) == multiset(r) && Of(p, t) != Of(r, t)
  {
    SwapSorted(a, u, b, v, c);
    SwapPermutes(a, u, b, v, c);
    SwapChanges(a, u, b, v, c, t);
    p := a + [v] + b + [u] + c;
  }

  lemma CutInFive(r: seq<Entry>, i: nat, j: nat)
    requires i < j < |r|
    ensures r == r[..i] + [r[i]] + r[i + 1..j] + [r[j]] + r[j + 1..]
  {
  }

  lemma SwapAt(r: seq<Entry>, i: nat, j: nat, t: nat) returns (p: seq<Entry>)
    requires i < j < |r| && Sorted(r) && r[i] != r[j]
    requires r[i].msg.thread == r[j].msg.thread == t && r[i].msg.time == r[j].msg.time
    ensures Sorted(p) && multiset(p) == multiset(r) && Of(p, t) != Of(r, t)
  {
    CutInFive(r, i, j);
    p := SwapFive(r[..i], r[i], r[i + 1..j], r[j], r[j + 1..], t);
  }

  /** A sorted list with two different entries of a thread at one time has another sort that swaps them. */
  lemma SwapTied(r: seq<Entry>, x: Entry, y: Entry, t: nat) returns (p: seq<Entry>)
    requires Sorted(r) && x in multiset(r) && y in multiset(r) && x != y
    requires x.msg.thread == y.msg.thread == t && x.msg.time == y.msg.time
    ensures Sorted(p) && multiset(p) == multiset(r) && Of(p, t) != Of(r, t)
  {
    var i := IndexOf(r, x);
    var j := IndexOf(r, y);
    if i < j {
      p := SwapAt(r, i, j, t);
    } else {
      p := SwapAt(r, j, i, t);
    }
  }

  lemma OfIsOf(es: seq<Entry>, t: nat, i: nat)
    requires i < |Of(es, t)|
    ensures Of(es, t)[i].msg.thread == t && Of(es, t)[i] in multiset(es)
  {
    var e := Of(es, t)[i];
    assert e in multiset(Of(es, t));
    OfMembers(es, t, e);
  }

  /** Times that are not steady leave a sort that changes the thread's order. */
  lemma SortThatChanges(q: seq<Entry>, t: nat) returns (p: seq<Entry>)
    requires !Steady(Of(q, t))
    ensures Sorted(p) && multiset(p) == multiset(q) && Of(p, t) != Of(q, t)
  {
    p := SortByTime(q);
    if Of(p, t) == Of(q, t) {
      OfSorted(p, t);
      var i, j :| 0 <= i < j < |Of(p, t)| && Of(p, t)[i].msg.time >= Of(p, t)[j].msg.time && Of(p, t)[i] != Of(p, t)[j];
      OfIsOf(p, t, i);
      OfIsOf(p, t, j);
      p := SwapTied(p, Of(p, t)[i], Of(p, t)[j], t);
    }
  }

  ghost predicate EverySortKeeps(q: seq<Entry>, t: nat) {
    forall p :: Sorted(p) && multiset(p) == multiset(q) ==> Of(p, t) == Of(q, t)
  }

  /** Every sort by time keeps a thread's order if and only if its times are steady. */
  lemma SortKeepsOrderIff(q: seq<Entry>, t: nat)
    ensures EverySortKeeps(q, t) <==> Steady(Of(q, t))
  {
    if Steady(Of(q, t)) {
      forall p | Sorted(p) && multiset(p) == multiset(q)
        ensures Of(p, t) == Of(q, t)
      {
        SortKeepsOrder(p, q, t);
      }
    } else {
      var p := SortThatChanges(q, t);
    }
  }

  // ---------------------------------------------------------------- runs that emit a thread's messages as sorted

  /** Nothing is buffered and nobody holds a lock. */
  ghost function Clean(config: nat, pass: nat, out: seq<Out>, added: seq<Entry>): State {
    State(seq(QUEUES, _ => []), [], Idle, Free, config, pass, out, added)
  }

  /** The queue of thread t holds es. */
  ghost function Queued(s: State, t: nat, es: seq<Entry>): State
    requires |s.queues| == QUEUES
  {
    s.(queues := s.queues[Hash(t) := es], added := s.added + es)
  }

  ghost predicate AllBy(es: seq<Entry>, t: nat) {
    forall i :: 0 <= i < |es| ==> es[i].msg.thread == t
  }

  lemma AddOne(s: State, t: nat, es: seq<Entry>, e: Entry)
    requires |s.queues| == QUEUES && s.lock.Free? && e.msg.thread == t && e.ver == s.config
    ensures Enabled(Queued(s, t, es), Add(e.msg)) && Do(Queued(s, t, es), Add(e.msg)) == Queued(s, t, es + [e])
  {
    assert s.queues[Hash(t) := es][Hash(t) := es + [e]] == s.queues[Hash(t) := es + [e]];
    assert s.added + es + [e] == s.added + (es + [e]);
  }

  lemma QueuedNone(s: State, t: nat)
    requires |s.queues| == QUEUES && s.queues[Hash(t)] == []
    ensures Queued(s, t, []) == s
  {
    assert s.queues[Hash(t) := []] == s.queues && s.added + [] == s.added;
  }

  lemma AddLast(s: State, t: nat, es: seq<Entry>)
    requires |s.queues| == QUEUES && s.lock.Free? && es != [] && AllBy(es, t) && AllOf(es, s.config)
    ensures var init, e := es[..|es| - 1], es[|es| - 1];
            && AllBy(init, t) && AllOf(init, s.config)
            && Enabled(Queued(s, t, init), Add(e.msg)) && Do(Queued(s, t, init), Add(e.msg)) == Queued(s, t, es)
  {
    AddOne(s, t, es[..|es| - 1], es[|es| - 1]);
    assert es[..|es| - 1] + [es[|es| - 1]] == es;
  }

  lemma {:induction false} AddAll(s0: State, steps: seq<Step>, s: State, t: nat, es: seq<Entry>) returns (more: seq<Step>)
    requires Leads(s0, steps, s) && |s.queues| == QUEUES && s.queues[Hash(t)] == [] && s.lock.Free?
    requires AllBy(es, t) && AllOf(es, s.config)
    ensures Leads(s0, more, Queued(s, t, es))
  {
    if es == [] {
      QueuedNone(s, t);
      more := steps;
    } else {
      AddLast(s, t, es);
      var mid := AddAll(s0, steps, s, t, es[..|es| - 1]);
      LeadsOn(s0, mid, Queued(s, t, es[..|es| - 1]), Add(es[|es| - 1].msg));
      more := mid + [Add(es[|es| - 1].msg)];
    }
  }

  /** A setter's flush of es, queued on top of the clean state s, after i of its drains. */
  ghost function Drained(s: State, t: nat, es: seq<Entry>, i: nat): State
    requires |s.queues| == QUEUES
  {
    s.(queues := if i <= Hash(t) then s.queues[Hash(t) := es] else s.queues, pending := if i <= Hash(t) then [] else es,
       phase := Draining(Setter, i), lock := Locked, added := s.added + es)
  }

  ghost predicate IsClean(s: State) {
    s == Clean(s.config, s.pass, s.out, s.added)
  }

  lemma DrainOne(s: State, t: nat, es: seq<Entry>, i: nat)
    requires IsClean(s) && i < QUEUES
    ensures Enabled(Drained(s, t, es, i), Drain) && Do(Drained(s, t, es, i), Drain) == Drained(s, t, es, i + 1)
  {
    var d := Drained(s, t, es, i);
    if i == Hash(t) {
      assert d.queues[i := []] == s.queues;
    } else {
      assert d.queues[i] == [];
      assert d.queues[i := []] == d.queues;
    }
    assert [] + es == es;
    assert d.pending + [] == d.pending;
  }

  lemma {:induction false} DrainAll(s0: State, steps: seq<Step>, s: State, t: nat, es: seq<Entry>, n: nat)
    returns (more: seq<Step>)
    requires IsClean(s) && Leads(s0, steps, Drained(s, t, es, 0)) && n <= QUEUES
    ensures Leads(s0, more, Drained(s, t, es, n))
  {
    if n == 0 {
      more := steps;
    } else {
      var mid := DrainAll(s0, steps, s, t, es, n - 1);
      DrainOne(s, t, es, n - 1);
      LeadsOn(s0, mid, Drained(s, t, es, n - 1), Drain);
      more := mid + [Drain];
    }
  }

  /** What emitting es leaves in the output. */
  ghost function Outs(es: seq<Entry>, config: nat, pass: nat): (out: seq<Out>)
    ensures |out| == |es| && forall i :: 0 <= i < |es| ==> out[i] == Out(es[i], config, pass)
  {
    seq(|es|, i requires 0 <= i < |es| => Out(es[i], config, pass))
  }

  /** The flush after the sort left p and k of p are out. */
  ghost function Emitted(s: State, es: seq<Entry>, p: seq<Entry>, k: nat): State
    requires k <= |p|
  {
    s.(pending := p, phase := Emitting(Setter, k), lock := Locked, added := s.added + es,
       out := s.out + Outs(p[..k], s.config, s.pass))
  }

  lemma EmitOne(s: State, es: seq<Entry>, p: seq<Entry>, k: nat)
    requires |s.queues| == QUEUES && k < |p|
    ensures Enabled(Emitted(s, es, p, k), Emit) && Do(Emitted(s, es, p, k), Emit) == Emitted(s, es, p, k + 1)
  {
    var o := Out(p[k], s.config, s.pass);
    assert Outs(p[..k], s.config, s.pass) + [o] == Outs(p[..k + 1], s.config, s.pass);
    assert s.out + Outs(p[..k], s.config, s.pass) + [o] == s.out + (Outs(p[..k], s.config, s.pass) + [o]);
  }

  lemma {:induction false} EmitAll(s0: State, steps: seq<Step>, s: State, es: seq<Entry>, p: seq<Entry>, k: nat)
    returns (more: seq<Step>)
    requires Leads(s0, steps, Emitted(s, es, p, 0)) && |s.queues| == QUEUES && k <= |p|
    ensures Leads(s0, more, Emitted(s, es, p, k))
  {
    if k == 0 {
      more := steps;
    } else {
      var mid := EmitAll(s0, steps, s, es, p, k - 1);
      EmitOne(s, es, p, k - 1);
      LeadsOn(s0, mid, Emitted(s, es, p, k - 1), Emit);
      more := mid + [Emit];
    }
  }

  lemma TakeAndBegin(s0: State, steps: seq<Step>, s: State, t: nat, es: seq<Entry>) returns (more: seq<Step>)
    requires IsClean(s) && Leads(s0, steps, Queued(s, t, es))
    ensures Leads(s0, more, Drained(s, t, es, 0))
  {
    var a := Queued(s, t, es);
    LeadsOn(s0, steps, a, Take);
    LeadsOn(s0, steps + [Take], Do(a, Take), Begin(Setter));
    more := steps + [Take] + [Begin(Setter)];
  }

  lemma SortOne(s0: State, steps: seq<Step>, s: State, t: nat, es: seq<Entry>, p: seq<Entry>) returns (more: seq<Step>)
    requires IsClean(s) && Leads(s0, steps, Drained(s, t, es, QUEUES)) && Sorted(p) && multiset(p) == multiset(es)
    ensures Leads(s0, more, Emitted(s, es, p, 0))
  {
    LeadsOn(s0, steps, Drained(s, t, es, QUEUES), Sort(p));
    assert s.out + Outs(p[..0], s.config, s.pass) == s.out;
    more := steps + [Sort(p)];
  }

  /** The clean state after the messages es went out as p and the attributes changed. */
  ghost function After(s: State, es: seq<Entry>, p: seq<Entry>): State {
    Clean(s.config + 1, s.pass + 1, s.out + Outs(p, s.config, s.pass), s.added + es)
  }

  lemma EndAndChange(s0: State, steps: seq<Step>, s: State, es: seq<Entry>, p: seq<Entry>) returns (more: seq<Step>)
    requires IsClean(s) && Leads(s0, steps, Emitted(s, es, p, |p|))
    ensures Leads(s0, more, After(s, es, p))
  {
    assert p[..|p|] == p;
    var a := Emitted(s, es, p, |p|);
    LeadsOn(s0, steps, a, End);
    var b := Do(a, End);
    LeadsOn(s0, steps + [End], b, Change);
    LeadsOn(s0, steps + [End] + [Change], Do(b, Change), Release);
    more := steps + [End] + [Change] + [Release];
  }

  /** A thread adds es and a setter flushes them, sorted as p. */
  lemma Round(s0: State, steps: seq<Step>, s: State, t: nat, es: seq<Entry>, p: seq<Entry>) returns (more: seq<Step>)
    requires Leads(s0, steps, s) && IsClean(s) && AllBy(es, t) && AllOf(es, s.config)
    requires Sorted(p) && multiset(p) == multiset(es)
    ensures Leads(s0, more, After(s, es, p))
  {
    more := AddAll(s0, steps, s, t, es);
    more := TakeAndBegin(s0, more, s, t, es);
    more := DrainAll(s0, more, s, t, es, QUEUES);
    more := SortOne(s0, more, s, t, es, p);
    more := EmitAll(s0, more, s, es, p, |p|);
    more := EndAndChange(s0, more, s, es, p);
  }

  // ---------------------------------------------------------------- the exact condition over all runs

  ghost predicate Follows(states: seq<State>, steps: seq<Step>) {
    && |states| == |steps| + 1
    && forall i :: 0 <= i < |steps| ==> Enabled(states[i], steps[i]) && states[i + 1] == Do(states[i], steps[i])
  }

  lemma FollowsOn(s: State, step: Step, states: seq<State>, steps: seq<Step>)
    requires Enabled(s, step) && Follows(states, steps) && states[0] == Do(s, step)
    ensures Follows([s] + states, [step] + steps)
  {
  }

  /** The states that steps in a row pass through. */
  lemma {:induction false} LeadsFollows(s: State, steps: seq<Step>, s': State) returns (states: seq<State>)
    requires Leads(s, steps, s')
    ensures Follows(states, steps) && states[0] == s && states[|steps|] == s'
    decreases |steps|
  {
    if steps == [] {
      states := [s];
    } else {
      var rest := LeadsFollows(Do(s, steps[0]), steps[1..], s');
      FollowsOn(s, steps[0], rest, steps[1..]);
      assert [steps[0]] + steps[1..] == steps;
      states := [s] + rest;
    }
  }

  /** Versions never go down. */
  ghost predicate InVersions(es: seq<Entry>) {
    forall i, j :: 0 <= i < j < |es| ==> es[i].ver <= es[j].ver
  }

  ghost predicate UpTo(es: seq<Entry>, ver: nat) {
    forall i :: 0 <= i < |es| ==> es[i].ver <= ver
  }

  lemma OneMoreVersion(es: seq<Entry>, e: Entry)
    requires InVersions(es) && UpTo(es, e.ver)
    ensures InVersions(es + [e]) && UpTo(es + [e], e.ver)
  {
  }

  lemma AddInVersions(added: seq<Entry>, e: Entry, t: nat)
    requires InVersions(Of(added, t)) && UpTo(Of(added, t), e.ver)
    ensures InVersions(Of(added + [e], t)) && UpTo(Of(added + [e], t), e.ver)
  {
    OfConcat(added, [e], t);
    OfOne(e, t);
    if e.msg.thread == t {
      OneMoreVersion(Of(added, t), e);
    } else {
      assert Of(added, t) + [] == Of(added, t);
    }
  }

  lemma StepInVersions(s: State, step: Step, t: nat)
    requires Enabled(s, step) && InVersions(Of(s.added, t)) && UpTo(Of(s.added, t), s.config)
    ensures var s' := Do(s, step); InVersions(Of(s'.added, t)) && UpTo(Of(s'.added, t), s'.config)
  {
    if step.Add? {
      AddInVersions(s.added, Entry(step.msg, s.config), t);
    }
  }

  /** A thread's messages are added under versions that never go down. */
  lemma {:induction false} AddedInVersions(states: seq<State>, steps: seq<Step>, n: nat, t: nat)
    requires Run(states, steps) && n < |states|
    ensures InVersions(Of(states[n].added, t)) && UpTo(Of(states[n].added, t), states[n].config)
  {
    if n > 0 {
      AddedInVersions(states, steps, n - 1, t);
      StepInVersions(states[n - 1], steps[n - 1], t);
      assert states[n - 1 + 1] == Do(states[n - 1], steps[n - 1]);
    }
  }

  lemma {:induction false} OfAll(es: seq<Entry>, t: nat)
    requires AllBy(es, t)
    ensures Of(es, t) == es
  {
    if es != [] {
      OfAll(es[..|es| - 1], t);
      assert es == es[..|es| - 1] + [es[|es| - 1]];
    }
  }

  lemma AllByPermuted(p: seq<Entry>, q: seq<Entry>, t: nat)
    requires multiset(p) == multiset(q) && AllBy(q, t)
    ensures AllBy(p, t) && |p| == |q|
  {
    SameLength(p, q);
    forall i | 0 <= i < |p|
      ensures p[i].msg.thread == t
    {
      assert p[i] in multiset(p);
      var j := IndexOf(q, p[i]);
    }
  }

  lemma SteadySorted(es: seq<Entry>)
    requires Steady(es)
    ensures Sorted(es)
  {
  }

  /** A sort of a thread's messages of one version: another order wherever there is one. */
  lemma WorstSort(es: seq<Entry>, t: nat) returns (p: seq<Entry>)
    requires AllBy(es, t)
    ensures Sorted(p) && multiset(p) == multiset(es) && AllBy(p, t) && |p| == |es|
    ensures p == es <==> Steady(es)
  {
    OfAll(es, t);
    if Steady(es) {
      SteadySorted(es);
      p := es;
    } else {
      p := SortThatChanges(es, t);
      AllByPermuted(p, es, t);
    }
  }

  /** How many entries at the front are of this version. */
  ghost function Front(es: seq<Entry>, ver: nat): (k: nat)
    ensures k <= |es| && AllOf(es[..k], ver) && (k < |es| ==> es[k].ver != ver)
  {
    if es == [] || es[0].ver != ver then 0
    else
      var k := Front(es[1..], ver);
      assert es[..k + 1] == [es[0]] + es[1..][..k];
      k + 1
  }

  ghost predicate From(es: seq<Entry>, ver: nat) {
    forall i :: 0 <= i < |es| ==> es[i].ver >= ver
  }

  lemma LaterFrom(es: seq<Entry>, k: nat, ver: nat)
    requires InVersions(es) && From(es, ver) && k <= |es| && (k < |es| ==> es[k].ver != ver)
    ensures From(es[k..], ver + 1)
  {
    forall i | k <= i < |es|
      ensures es[i].ver >= ver + 1
    {
      assert es[k].ver <= es[i].ver;
    }
  }

  lemma LaterInVersions(es: seq<Entry>, k: nat)
    requires InVersions(es) && k <= |es|
    ensures InVersions(es[k..])
  {
  }

  lemma CutBy(es: seq<Entry>, k: nat, t: nat)
    requires AllBy(es, t) && k <= |es|
    ensures AllBy(es[..k], t) && AllBy(es[k..], t)
  {
  }

  /** The entries of this version, and the later ones. */
  lemma FrontCut(es: seq<Entry>, ver: nat, t: nat) returns (a: seq<Entry>, b: seq<Entry>)
    requires InVersions(es) && From(es, ver) && AllBy(es, t)
    ensures es == a + b && AllOf(a, ver) && AllBy(a, t) && AllBy(b, t) && InVersions(b) && From(b, ver + 1)
  {
    var k := Front(es, ver);
    LaterFrom(es, k, ver);
    LaterInVersions(es, k);
    CutBy(es, k, t);
    a, b := es[..k], es[k..];
  }

  /** Steady in each version is: steady in the first, and in each of the rest. */
  lemma SteadyJoin(a: seq<Entry>, b: seq<Entry>, ver: nat)
    requires AllOf(a, ver) && From(b, ver + 1) && Steady(a) && SteadyEach(b)
    ensures SteadyEach(a + b)
  {
  }

  lemma EntriesOuts(out: seq<Out>, p: seq<Entry>, config: nat, pass: nat)
    ensures Entries(out + Outs(p, config, pass)) == Entries(out) + p
  {
  }

  lemma JoinThree(a: seq<Entry>, b: seq<Entry>, c: seq<Entry>)
    ensures (a + b) + c == a + (b + c)
  {
  }

  lemma JoinsDiffer(p: seq<Entry>, q: seq<Entry>, a: seq<Entry>, b: seq<Entry>)
    requires |p| == |a| && p + q == a + b
    ensures p == a && q == b
  {
    assert (p + q)[..|p|] == p && (a + b)[..|a|] == a;
    assert (p + q)[|p|..] == q && (a + b)[|a|..] == b;
  }

  /** A version that went out as p and the later ones that went out as q. */
  lemma WorstJoin(a: seq<Entry>, p: seq<Entry>, b: seq<Entry>, q: seq<Entry>, ver: nat, t: nat)
    requires AllOf(a, ver) && From(b, ver + 1) && |p| == |a| && |q| == |b| && AllBy(p, t) && AllBy(q, t)
    requires (p == a ==> Steady(a)) && (q == b ==> SteadyEach(b))
    ensures AllBy(p + q, t) && |p + q| == |a + b| && (p + q == a + b ==> SteadyEach(a + b))
  {
    if p + q == a + b {
      JoinsDiffer(p, q, a, b);
      SteadyJoin(a, b, ver);
    }
  }

  ghost function Gap(es: seq<Entry>, ver: nat): nat
    requires From(es, ver)
  {
    if es == [] then 0 else es[0].ver - ver
  }

  /** A thread's messages added version by version, each version flushed in the worst order. */
  lemma {:induction false} WorstRun(s0: State, steps: seq<Step>, s: State, t: nat, es: seq<Entry>)
    returns (more: seq<Step>, s': State, q: seq<Entry>)
    requires Leads(s0, steps, s) && IsClean(s) && AllBy(es, t) && InVersions(es) && From(es, s.config)
    ensures Leads(s0, more, s') && IsClean(s') && s'.added == s.added + es && Entries(s'.out) == Entries(s.out) + q
    ensures AllBy(q, t) && |q| == |es| && (q == es ==> SteadyEach(es))
    decreases |es|, Gap(es, s.config)
  {
    if es == [] {
      more, s', q := steps, s, [];
      assert s.added + es == s.added && Entries(s.out) + q == Entries(s.out);
    } else {
      var a, b := FrontCut(es, s.config, t);
      var p := WorstSort(a, t);
      more := Round(s0, steps, s, t, a, p);
      var rest;
      more, s', rest := WorstRun(s0, more, After(s, a, p), t, b);
      q := p + rest;
      EntriesOuts(s.out, p, s.config, s.pass);
      JoinThree(Entries(s.out), p, rest);
      JoinThree(s.added, a, b);
      WorstJoin(a, p, b, rest, s.config, t);
    }
  }

  lemma WorstRunFromStart(t: nat, es: seq<Entry>) returns (steps: seq<Step>, s: State, q: seq<Entry>)
    requires AllBy(es, t) && InVersions(es)
    ensures Leads(Initial(), steps, s) && s.added == es && Entries(s.out) == q
    ensures AllBy(q, t) && |q| == |es| && (q == es ==> SteadyEach(es))
  {
    steps, s, q := WorstRun(Initial(), [], Initial(), t, es);
    assert [] + es == es && Entries([]) + q == q;
  }

  /** Whatever the run and whoever else logs, the messages es of thread t go out in the order it added them. */
  ghost predicate AlwaysInOrder(es: seq<Entry>, t: nat) {
    forall states: seq<State>, steps: seq<Step> :: Run(states, steps) && Of(states[|steps|].added, t) == es ==>
      Of(Entries(states[|steps|].out), t) <= es
  }

  /** A run that adds es and emits all of it in another order. */
  lemma RunOutOfOrder(es: seq<Entry>, t: nat) returns (states: seq<State>, steps: seq<Step>)
    requires AllBy(es, t) && InVersions(es) && !SteadyEach(es)
    ensures Run(states, steps)
    ensures var s := states[|steps|];
            s.added == es && |s.out| == |es| && AllBy(Entries(s.out), t) && Entries(s.out) != es
  {
    var s', q;
    steps, s', q := WorstRunFromStart(t, es);
    states := LeadsFollows(Initial(), steps, s');
  }

  /**
    A thread's messages go out in its own order in every run if and only if, among those it added under the
    same attributes, a later one always has a later time or is the same message over again.
   */
  lemma ThreadOrderIff(es: seq<Entry>, t: nat)
    requires AllBy(es, t) && InVersions(es)
    ensures AlwaysInOrder(es, t) <==> SteadyEach(es)
  {
    if SteadyEach(es) {
      forall states: seq<State>, steps: seq<Step> | Run(states, steps) && Of(states[|steps|].added, t) == es
        ensures Of(Entries(states[|steps|].out), t) <= es
      {
        ThreadOrder(states, steps, |steps|, t);
      }
    } else {
      var states, steps := RunOutOfOrder(es, t);
      OfAll(es, t);
      OfAll(Entries(states[|steps|].out), t);
    }
  }

  lemma SwapTwo(x: Entry, y: Entry)
    requires y.msg.time <= x.msg.time
    ensures Sorted([y, x]) && multiset([y, x]) == multiset([x, y])
  {
    assert [y, x] == [y] + [x] && [x, y] == [x] + [y];
  }

  /** Two messages of a thread at one time, or with the clock set back between them, come out swapped in some run. */
  lemma TwoComeOutSwapped(a: Msg, b: Msg, t: nat) returns (states: seq<State>, steps: seq<Step>)
    requires a.thread == b.thread == t && b.time <= a.time && a != b
    ensures Run(states, steps)
    ensures states[|steps|].added == [Entry(a, 0), Entry(b, 0)] && Entries(states[|steps|].out) == [Entry(b, 0), Entry(a, 0)]
  {
    var x, y := Entry(a, 0), Entry(b, 0);
    SwapTwo(x, y);
    steps := Round(Initial(), [], Initial(), t, [x, y], [y, x]);
    states := LeadsFollows(Initial(), steps, After(Initial(), [x, y], [y, x]));
    EntriesOuts([], [y, x], 0, 0);
  }
}
