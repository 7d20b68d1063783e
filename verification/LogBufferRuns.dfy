/**
  What every run of the log buffer keeps: the barrier between attribute versions, passes sorted by time,
  and each thread's own order.
 */
module LogBufferRuns {
  import opened LogBuffer

  // ---------------------------------------------------------------- the configuration barrier

  ghost predicate AllOf(es: seq<Entry>, ver: nat) {
    forall i :: 0 <= i < |es| ==> es[i].ver == ver
  }

  ghost predicate EmptyBelow(queues: seq<seq<Entry>>, n: nat) {
    forall h :: 0 <= h < n && h < |queues| ==> queues[h] == []
  }

  /** Where a setter's flush has got to. */
  ghost predicate Progress(s: State) {
    && (s.phase.Draining? && s.phase.who.Setter? ==> s.lock.Locked? && EmptyBelow(s.queues, s.phase.i))
    && (s.phase.Emitting? && s.phase.who.Setter? ==> s.lock.Locked? && EmptyBelow(s.queues, QUEUES))
    && (s.lock.Flushed? ==> EmptyBelow(s.queues, QUEUES) && s.pending == [])
  }

  /** What is buffered was added under the attributes now in force; what is out, under those it went out with. */
  ghost predicate Barrier(s: State) {
    && (forall h :: 0 <= h < |s.queues| ==> AllOf(s.queues[h], s.config))
    && AllOf(Left(s), s.config)
    && forall i :: 0 <= i < |s.out| ==> s.out[i].entry.ver == s.out[i].ver
  }

  lemma StepProgress(s: State, step: Step)
    requires Shape(s) && Enabled(s, step) && Progress(s)
    ensures Progress(Do(s, step))
  {
    if step.Sort? && s.pending == [] {
      assert |multiset(step.sorted)| == |step.sorted|;
    }
  }

  lemma AllOfPermuted(p: seq<Entry>, q: seq<Entry>, ver: nat)
    requires multiset(p) == multiset(q) && AllOf(q, ver)
    ensures AllOf(p, ver)
  {
    forall i | 0 <= i < |p|
      ensures p[i].ver == ver
    {
      assert p[i] in multiset(p);
      assert p[i] in q;
    }
  }

  lemma EmitBarrier(s: State)
    requires Shape(s) && Enabled(s, Emit) && Barrier(s)
    ensures Barrier(Do(s, Emit))
  {
    assert s.pending[s.phase.k] == Left(s)[0];
    assert Left(Do(s, Emit)) == Left(s)[1..];
  }

  lemma DrainBarrier(s: State)
    requires Shape(s) && Enabled(s, Drain) && Barrier(s)
    ensures Barrier(Do(s, Drain))
  {
    assert AllOf(s.queues[s.phase.i], s.config) && AllOf(s.pending, s.config);
  }

  lemma StepBarrier(s: State, step: Step)
    requires Shape(s) && Enabled(s, step) && Progress(s) && Barrier(s)
    ensures Barrier(Do(s, step))
  {
    match step
    case Sort(p) => AllOfPermuted(p, s.pending, s.config);
    case Emit => EmitBarrier(s);
    case Drain => DrainBarrier(s);
    case _ =>
  }

  // ---------------------------------------------------------------- passes

  ghost predicate EarlierPass(out: seq<Out>, n: int, pass: nat) {
    forall i :: 0 <= i < n && i < |out| ==> out[i].pass < pass
  }

  /** Within one pass, times never go down. */
  ghost predicate SortedPasses(out: seq<Out>) {
    forall i, j :: 0 <= i < j < |out| && out[i].pass == out[j].pass ==> out[i].entry.msg.time <= out[j].entry.msg.time
  }

  /** The last k emitted are the first k of this pass. */
  ghost predicate Tail(out: seq<Out>, k: nat, pending: seq<Entry>, pass: nat) {
    && k <= |out| && k <= |pending|
    && forall j :: |out| - k <= j < |out| ==> out[j].pass == pass && out[j].entry == pending[j - (|out| - k)]
  }

  ghost predicate Passes(s: State) {
    && SortedPasses(s.out)
    && if s.phase.Emitting? then Tail(s.out, s.phase.k, s.pending, s.pass) && EarlierPass(s.out, |s.out| - s.phase.k, s.pass)
       else EarlierPass(s.out, |s.out|, s.pass)
  }

  lemma StepPasses(s: State, step: Step)
    requires Shape(s) && Enabled(s, step) && Passes(s)
    ensures Passes(Do(s, step))
  {
  }

  // ---------------------------------------------------------------- each thread's order

  function Of(es: seq<Entry>, t: nat): seq<Entry> {
    if es == [] then []
    else Of(es[..|es| - 1], t) + if es[|es| - 1].msg.thread == t then [es[|es| - 1]] else []
  }

  lemma {:induction false} OfConcat(a: seq<Entry>, b: seq<Entry>, t: nat)
    ensures Of(a + b, t) == Of(a, t) + Of(b, t)
  {
    if b == [] {
      assert a + b == a;
    } else {
      OfConcat(a, b[..|b| - 1], t);
      assert (a + b)[..|a + b| - 1] == a + b[..|b| - 1];
    }
  }

  lemma {:induction false} OfMembers(es: seq<Entry>, t: nat, e: Entry)
    ensures multiset(Of(es, t))[e] == if e.msg.thread == t then multiset(es)[e] else 0
  {
    if es != [] {
      var init, last := es[..|es| - 1], es[|es| - 1];
      OfMembers(init, t, e);
      assert es == init + [last];
      assert multiset(es) == multiset(init) + multiset([last]);
    }
  }

  lemma {:induction false} OfSorted(es: seq<Entry>, t: nat)
    requires Sorted(es)
    ensures Sorted(Of(es, t))
  {
    if es != [] {
      var init, last := es[..|es| - 1], es[|es| - 1];
      OfSorted(init, t);
      forall i | 0 <= i < |Of(init, t)|
        ensures Of(init, t)[i].msg.time <= last.msg.time
      {
        var e := Of(init, t)[i];
        assert e in multiset(Of(init, t));
        OfMembers(init, t, e);
        assert e in init;
      }
    }
  }

  /** Of two entries the later one has the later time, unless they are the same. */
  ghost predicate Steady(es: seq<Entry>) {
    forall i, j :: 0 <= i < j < |es| ==> es[i].msg.time < es[j].msg.time || es[i] == es[j]
  }

  /** Steady, as far as entries added under the same attributes go. */
  ghost predicate SteadyEach(es: seq<Entry>) {
    forall i, j :: 0 <= i < j < |es| && es[i].ver == es[j].ver ==> es[i].msg.time < es[j].msg.time || es[i] == es[j]
  }

  lemma IndexOf(es: seq<Entry>, e: Entry) returns (i: nat)
    requires e in multiset(es)
    ensures i < |es| && es[i] == e
  {
    assert e in es;
    i :| 0 <= i < |es| && es[i] == e;
  }

  lemma SameLast(a: seq<Entry>, b: seq<Entry>)
    requires Sorted(a) && Steady(b) && multiset(a) == multiset(b) && a != [] && b != []
    ensures a[|a| - 1] == b[|b| - 1]
  {
    var x, y := a[|a| - 1], b[|b| - 1];
    assert x in multiset(a) && y in multiset(b);
    var i := IndexOf(b, x);
    var j := IndexOf(a, y);
  }

  lemma SameLength(a: seq<Entry>, b: seq<Entry>)
    requires multiset(a) == multiset(b)
    ensures |a| == |b|
  {
    assert |a| == |multiset(a)| == |multiset(b)| == |b|;
  }

  lemma DropLast(a: seq<Entry>)
    requires a != []
    ensures a == a[..|a| - 1] + [a[|a| - 1]]
    ensures multiset(a[..|a| - 1]) == multiset(a) - multiset{a[|a| - 1]}
  {
    assert a == a[..|a| - 1] + [a[|a| - 1]];
  }

  lemma SameInit(a: seq<Entry>, b: seq<Entry>)
    requires Sorted(a) && Steady(b) && multiset(a) == multiset(b) && a != [] && b != []
    ensures multiset(a[..|a| - 1]) == multiset(b[..|b| - 1]) && a[|a| - 1] == b[|b| - 1]
  {
    SameLast(a, b);
    DropLast(a);
    DropLast(b);
  }

  /** Steady times leave a sort no choice. */
  lemma {:induction false} SortedIsSteady(a: seq<Entry>, b: seq<Entry>)
    requires Sorted(a) && Steady(b) && multiset(a) == multiset(b)
    ensures a == b
  {
    SameLength(a, b);
    if b != [] {
      SameInit(a, b);
      SortedIsSteady(a[..|a| - 1], b[..|b| - 1]);
      assert a == a[..|a| - 1] + [a[|a| - 1]];
    }
  }

  /** What a sort leaves of one thread. */
  lemma OfPermuted(p: seq<Entry>, q: seq<Entry>, t: nat)
    requires multiset(p) == multiset(q)
    ensures multiset(Of(p, t)) == multiset(Of(q, t))
  {
    forall e
      ensures multiset(Of(p, t))[e] == multiset(Of(q, t))[e]
    {
      OfMembers(p, t, e);
      OfMembers(q, t, e);
    }
  }

  lemma SortKeepsOrder(p: seq<Entry>, q: seq<Entry>, t: nat)
    requires Sorted(p) && multiset(p) == multiset(q) && Steady(Of(q, t))
    ensures Of(p, t) == Of(q, t)
  {
    OfSorted(p, t);
    OfPermuted(p, q, t);
    SortedIsSteady(Of(p, t), Of(q, t));
  }

  /** Emitted, then drained, then queued: together, what thread t added, in its order. */
  ghost predicate InOrder(s: State, t: nat) {
    |s.queues| == 10 && Of(Entries(s.out), t) + Of(Left(s), t) + Of(s.queues[t % 10], t) == Of(s.added, t)
  }

  lemma {:induction false} OfNone(es: seq<Entry>, t: nat)
    requires forall i :: 0 <= i < |es| ==> es[i].msg.thread != t
    ensures Of(es, t) == []
  {
    if es != [] {
      OfNone(es[..|es| - 1], t);
    }
  }

  lemma SteadyMiddle(a: seq<Entry>, b: seq<Entry>, c: seq<Entry>)
    requires SteadyEach(a + b + c)
    ensures SteadyEach(b)
  {
    forall i, j | 0 <= i < j < |b| && b[i].ver == b[j].ver
      ensures b[i].msg.time < b[j].msg.time || b[i] == b[j]
    {
      assert b[i] == (a + b + c)[|a| + i] && b[j] == (a + b + c)[|a| + j];
    }
  }

  /** Entries of one version among them are steady. */
  lemma SteadyPart(a: seq<Entry>, b: seq<Entry>, c: seq<Entry>, ver: nat)
    requires SteadyEach(a + b + c) && AllOf(b, ver)
    ensures Steady(b)
  {
    SteadyMiddle(a, b, c);
  }

  lemma AllOfThread(es: seq<Entry>, ver: nat, t: nat)
    requires AllOf(es, ver)
    ensures AllOf(Of(es, t), ver)
  {
    forall i | 0 <= i < |Of(es, t)|
      ensures Of(es, t)[i].ver == ver
    {
      var e := Of(es, t)[i];
      assert e in multiset(Of(es, t));
      OfMembers(es, t, e);
      var j := IndexOf(es, e);
    }
  }

  lemma Regroup(a: seq<Entry>, b: seq<Entry>, c: seq<Entry>, d: seq<Entry>)
    ensures a + b + (c + d) == a + b + c + d
    ensures a + (b + c) + d == a + b + c + d
    ensures a + (b + c) + [] == a + b + c
  {
  }

  lemma OfOne(e: Entry, t: nat)
    ensures Of([e], t) == if e.msg.thread == t then [e] else []
  {
    assert [e][..0] == [];
  }

  lemma QueueAdd(queues: seq<seq<Entry>>, e: Entry, t: nat)
    requires |queues| == QUEUES
    ensures var h := Hash(e.msg.thread);
            Of(queues[h := queues[h] + [e]][Hash(t)], t) == Of(queues[Hash(t)], t) + Of([e], t)
  {
    var h := Hash(e.msg.thread);
    OfConcat(queues[h], [e], t);
    OfOne(e, t);
  }

  lemma AddInOrder(s: State, m: Msg, t: nat)
    requires Shape(s) && Enabled(s, Add(m)) && InOrder(s, t)
    ensures InOrder(Do(s, Add(m)), t)
  {
    var e := Entry(m, s.config);
    QueueAdd(s.queues, e, t);
    OfConcat(s.added, [e], t);
    Regroup(Of(Entries(s.out), t), Of(Left(s), t), Of(s.queues[Hash(t)], t), Of([e], t));
  }

  lemma QueueDrain(queues: seq<seq<Entry>>, pending: seq<Entry>, i: nat, t: nat)
    requires |queues| == QUEUES && i < QUEUES
    requires forall j :: 0 <= j < |queues[i]| ==> Hash(queues[i][j].msg.thread) == i
    ensures Of(pending + queues[i], t) + Of(queues[i := []][Hash(t)], t) == Of(pending, t) + Of(queues[Hash(t)], t)
  {
    OfConcat(pending, queues[i], t);
    if i == Hash(t) {
      assert Of(pending, t) + Of(queues[i], t) + [] == Of(pending, t) + Of(queues[i], t);
    } else {
      OfNone(queues[i], t);
      assert Of(pending, t) + [] == Of(pending, t);
    }
  }

  lemma JoinSame(o: seq<Entry>, p: seq<Entry>, q: seq<Entry>, x: seq<Entry>, y: seq<Entry>)
    requires p + q == x + y
    ensures o + p + q == o + x + y
  {
    assert o + p + q == o + (p + q);
    assert o + x + y == o + (x + y);
  }

  lemma DrainInOrder(s: State, t: nat)
    requires Shape(s) && Enabled(s, Drain) && InOrder(s, t)
    ensures InOrder(Do(s, Drain), t)
  {
    var i := s.phase.i;
    QueueDrain(s.queues, s.pending, i, t);
    JoinSame(Of(Entries(s.out), t), Of(s.pending + s.queues[i], t), Of(s.queues[i := []][Hash(t)], t),
             Of(s.pending, t), Of(s.queues[Hash(t)], t));
  }

  /** Moving an entry from the front of what is left to the end of what is out. */
  lemma MoveOne(o: seq<Entry>, e: Entry, left: seq<Entry>, q: seq<Entry>, t: nat)
    ensures Of(o + [e], t) + Of(left, t) + Of(q, t) == Of(o, t) + Of([e] + left, t) + Of(q, t)
  {
    OfConcat([e], left, t);
    OfConcat(o, [e], t);
    Regroup(Of(o, t), Of([e], t), Of(left, t), Of(q, t));
  }

  lemma EntriesEmit(out: seq<Out>, o: Out)
    ensures Entries(out + [o]) == Entries(out) + [o.entry]
  {
  }

  lemma LeftEmit(s: State)
    requires Shape(s) && Enabled(s, Emit)
    ensures Left(s) == [s.pending[s.phase.k]] + Left(Do(s, Emit))
  {
  }

  lemma EmitInOrder(s: State, t: nat)
    requires Shape(s) && Enabled(s, Emit) && InOrder(s, t)
    ensures InOrder(Do(s, Emit), t)
  {
    var e := s.pending[s.phase.k];
    EntriesEmit(s.out, Out(e, s.config, s.pass));
    LeftEmit(s);
    MoveOne(Entries(s.out), e, Left(Do(s, Emit)), s.queues[Hash(t)], t);
  }

  lemma SortInOrder(s: State, p: seq<Entry>, t: nat)
    requires Shape(s) && Enabled(s, Sort(p)) && Barrier(s) && InOrder(s, t) && SteadyEach(Of(s.added, t))
    ensures InOrder(Do(s, Sort(p)), t)
  {
    AllOfThread(s.pending, s.config, t);
    SteadyPart(Of(Entries(s.out), t), Of(s.pending, t), Of(s.queues[Hash(t)], t), s.config);
    SortKeepsOrder(p, s.pending, t);
    assert p[0..] == p;
  }

  lemma StepInOrder(s: State, step: Step, t: nat)
    requires Shape(s) && Enabled(s, step) && Barrier(s) && InOrder(s, t) && SteadyEach(Of(s.added, t))
    ensures InOrder(Do(s, step), t)
  {
    match step
    case Add(m) => AddInOrder(s, m, t);
    case Drain => DrainInOrder(s, t);
    case Sort(p) => SortInOrder(s, p, t);
    case Emit => EmitInOrder(s, t);
    case End => assert s.pending[s.phase.k..] == [];
    case _ =>
  }

  // ---------------------------------------------------------------- over whole runs

  ghost predicate Inv(s: State) {
    Shape(s) && Conserved(s) && Progress(s) && Barrier(s) && Passes(s)
  }

  lemma InitialInv()
    ensures Inv(Initial()) && forall t :: InOrder(Initial(), t)
  {
    EmptyHeld(Initial().queues);
  }

  lemma {:induction false} EmptyHeld(queues: seq<seq<Entry>>)
    requires forall h :: 0 <= h < |queues| ==> queues[h] == []
    ensures Held(queues) == multiset{}
  {
    if queues != [] {
      EmptyHeld(queues[..|queues| - 1]);
    }
  }

  lemma StepInv(s: State, step: Step)
    requires Inv(s) && Enabled(s, step)
    ensures Inv(Do(s, step))
  {
    StepShape(s, step);
    StepConserves(s, step);
    StepProgress(s, step);
    StepBarrier(s, step);
    StepPasses(s, step);
  }

  /** In every reachable state: nothing is lost or repeated, passes are sorted, and the barrier holds. */
  lemma {:induction false} EveryRun(states: seq<State>, steps: seq<Step>, n: nat)
    requires Run(states, steps) && n < |states|
    ensures Inv(states[n])
  {
    if n == 0 {
      InitialInv();
    } else {
      EveryRun(states, steps, n - 1);
      StepInv(states[n - 1], steps[n - 1]);
      assert states[n - 1 + 1] == Do(states[n - 1], steps[n - 1]);
    }
  }

  lemma SteadyBefore(s: State, step: Step, t: nat)
    requires Enabled(s, step) && SteadyEach(Of(Do(s, step).added, t))
    ensures SteadyEach(Of(s.added, t))
  {
    if step.Add? {
      var e := Entry(step.msg, s.config);
      OfConcat(s.added, [e], t);
      assert [] + Of(s.added, t) + Of([e], t) == Of(s.added, t) + Of([e], t);
      SteadyMiddle([], Of(s.added, t), Of([e], t));
    }
  }

  /**
    In every reachable state a thread whose times are steady under each version of the attributes has its
    messages emitted in its own order.
   */
  lemma {:induction false} ThreadOrder(states: seq<State>, steps: seq<Step>, n: nat, t: nat)
    requires Run(states, steps) && n < |states| && SteadyEach(Of(states[n].added, t))
    ensures InOrder(states[n], t) && Of(Entries(states[n].out), t) <= Of(states[n].added, t)
  {
    if n == 0 {
      InitialInv();
    } else {
      var s, step := states[n - 1], steps[n - 1];
      assert states[n - 1 + 1] == Do(s, step);
      EveryRun(states, steps, n - 1);
      SteadyBefore(s, step, t);
      ThreadOrder(states, steps, n - 1, t);
      StepInOrder(s, step, t);
    }
  }

  /** Once a setter's flush is over, the queues and the drained list are empty until it lets go. */
  lemma FlushedIsEmpty(states: seq<State>, steps: seq<Step>, n: nat)
    requires Run(states, steps) && n < |states| && states[n].lock.Flushed?
    ensures states[n].pending == [] && forall h :: 0 <= h < |states[n].queues| ==> states[n].queues[h] == []
    ensures multiset(Entries(states[n].out)) == multiset(states[n].added)
  {
    EveryRun(states, steps, n);
    EmptyHeld(states[n].queues);
  }
}
