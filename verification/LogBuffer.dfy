/**
  The log buffer as interleaved steps.  Threads add to ten hashed queues under buffer_mtx; whoever holds
  flush_mtx drains the queues one by one, sorts what it drained and emits it; a setter takes buffer_mtx,
  flushes, and only then changes the attributes that emission uses.  Each step is one critical section.
 */
module LogBuffer {

  const QUEUES: nat := 10

  datatype Msg = Msg(thread: nat, time: int, text: string)

  /** A buffered message with the version of the attributes in force when it was added. */
  datatype Entry = Entry(msg: Msg, ver: nat)

  /** An emitted message, the version it was emitted under, and the pass that emitted it. */
  datatype Out = Out(entry: Entry, ver: nat, pass: nat)

  /** Who flushes: a setter that holds buffer_mtx, or the output thread or any other caller. */
  datatype Who = Setter | Other

  /** Where the holder of flush_mtx is in its pass. */
  datatype Phase = Idle | Draining(who: Who, i: nat) | Emitting(who: Who, k: nat)

  /** buffer_mtx in a setter's hands, before and after its flush. */
  datatype Lock = Free | Locked | Flushed

  datatype State = State(
    queues: seq<seq<Entry>>, pending: seq<Entry>, phase: Phase, lock: Lock, config: nat, pass: nat,
    out: seq<Out>, added: seq<Entry>)

  datatype Step = Add(msg: Msg) | Begin(who: Who) | Drain | Sort(sorted: seq<Entry>) | Emit | End | Take | Change | Release

  function Initial(): State {
    State(seq(QUEUES, _ => []), [], Idle, Free, 0, 0, [], [])
  }

  function Hash(t: nat): nat {
    t % QUEUES
  }

  ghost predicate Sorted(es: seq<Entry>) {
    forall i, j :: 0 <= i < j < |es| ==> es[i].msg.time <= es[j].msg.time
  }

  ghost predicate Enabled(s: State, step: Step) {
    && |s.queues| == QUEUES
    && match step
       case Add(_) => s.lock.Free?
       case Begin(who) => s.phase.Idle? && (who.Setter? ==> s.lock.Locked?)
       case Drain => s.phase.Draining? && s.phase.i < QUEUES
       case Sort(p) => s.phase.Draining? && s.phase.i == QUEUES && Sorted(p) && multiset(p) == multiset(s.pending)
       case Emit => s.phase.Emitting? && s.phase.k < |s.pending|
       case End => s.phase.Emitting? && s.phase.k == |s.pending|
       case Take => s.lock.Free?
       case Change => s.lock.Flushed?
       case Release => s.lock.Flushed?
  }

  ghost function Do(s: State, step: Step): State
    requires Enabled(s, step)
  {
    match step
    case Add(m) =>
      var e, h := Entry(m, s.config), Hash(m.thread);
      s.(queues := s.queues[h := s.queues[h] + [e]], added := s.added + [e])
    case Begin(who) => s.(phase := Draining(who, 0))
    case Drain =>
      s.(queues := s.queues[s.phase.i := []], pending := s.pending + s.queues[s.phase.i],
         phase := Draining(s.phase.who, s.phase.i + 1))
    case Sort(p) => s.(pending := p, phase := Emitting(s.phase.who, 0))
    case Emit =>
      s.(out := s.out + [Out(s.pending[s.phase.k], s.config, s.pass)], phase := Emitting(s.phase.who, s.phase.k + 1))
    case End =>
      s.(pending := [], phase := Idle, pass := s.pass + 1, lock := if s.phase.who.Setter? then Flushed else s.lock)
    case Take => s.(lock := Locked)
    case Change => s.(config := s.config + 1)
    case Release => s.(lock := Free)
  }

  /** The states a run passes through, from the initial one. */
  ghost predicate Run(states: seq<State>, steps: seq<Step>) {
    && |states| == |steps| + 1
    && states[0] == Initial()
    && forall i :: 0 <= i < |steps| ==> Enabled(states[i], steps[i]) && states[i + 1] == Do(states[i], steps[i])
  }

  /** The drained messages that are still to be emitted. */
  function Left(s: State): seq<Entry> {
    if s.phase.Emitting? && s.phase.k <= |s.pending| then s.pending[s.phase.k..] else s.pending
  }

  // ---------------------------------------------------------------- shape of a reachable state

  ghost predicate Shape(s: State) {
    && |s.queues| == 10
    && (forall h, i :: 0 <= h < 10 && 0 <= i < |s.queues[h]| ==> s.queues[h][i].msg.thread % 10 == h)
    && match s.phase
       case Idle => s.pending == []
       case Draining(_, i) => i <= QUEUES
       case Emitting(_, k) => k <= |s.pending| && Sorted(s.pending)
  }

  lemma StepShape(s: State, step: Step)
    requires Shape(s) && Enabled(s, step)
    ensures Shape(Do(s, step))
  {
  }

  // ---------------------------------------------------------------- conservation

  function Held(queues: seq<seq<Entry>>): multiset<Entry> {
    if queues == [] then multiset{} else Held(queues[..|queues| - 1]) + multiset(queues[|queues| - 1])
  }

  lemma AddBoth(a: multiset<Entry>, b: multiset<Entry>, c: multiset<Entry>, d: multiset<Entry>, x: multiset<Entry>)
    requires a + b == c + d
    ensures (a + x) + b == (c + x) + d
  {
    assert (a + x) + b == (a + b) + x;
    assert (c + x) + d == (c + d) + x;
  }

  lemma {:induction false} HeldUpdate(queues: seq<seq<Entry>>, h: nat, q: seq<Entry>)
    requires h < |queues|
    ensures Held(queues[h := q]) + multiset(queues[h]) == Held(queues) + multiset(q)
  {
    var n := |queues| - 1;
    if h < n {
      HeldUpdate(queues[..n], h, q);
      assert queues[h := q][..n] == queues[..n][h := q];
      AddBoth(Held(queues[..n][h := q]), multiset(queues[h]), Held(queues[..n]), multiset(q), multiset(queues[n]));
    } else {
      assert queues[h := q][..n] == queues[..n];
    }
  }

  function Entries(out: seq<Out>): (es: seq<Entry>)
    ensures |es| == |out| && forall i :: 0 <= i < |out| ==> es[i] == out[i].entry
  {
    seq(|out|, i requires 0 <= i < |out| => out[i].entry)
  }

  /** Every added message is emitted, drained or queued, and as often as it was added. */
  ghost predicate Conserved(s: State) {
    multiset(Entries(s.out)) + multiset(Left(s)) + Held(s.queues) == multiset(s.added)
  }

  /** The sum of what is emitted, left and held, whatever the step does to each. */
  lemma Rebalance(o: multiset<Entry>, l: multiset<Entry>, h: multiset<Entry>, a: multiset<Entry>, q: multiset<Entry>, h': multiset<Entry>)
    requires o + l + h == a && h' + q == h
    ensures o + (l + q) + h' == a
  {
    assert o + (l + q) + h' == o + l + (h' + q);
  }

  lemma Cancel(a: multiset<Entry>, b: multiset<Entry>, x: multiset<Entry>)
    requires a + x == b + x
    ensures a == b
  {
    forall e
      ensures a[e] == b[e]
    {
      assert (a + x)[e] == (b + x)[e];
    }
  }

  lemma HeldAdd(queues: seq<seq<Entry>>, h: nat, e: Entry)
    requires h < |queues|
    ensures Held(queues[h := queues[h] + [e]]) == Held(queues) + multiset{e}
  {
    var q := queues[h];
    HeldUpdate(queues, h, q + [e]);
    assert multiset(q + [e]) == multiset(q) + multiset{e};
    assert Held(queues) + (multiset(q) + multiset{e}) == (Held(queues) + multiset{e}) + multiset(q);
    Cancel(Held(queues[h := q + [e]]), Held(queues) + multiset{e}, multiset(q));
  }

  lemma AddConserves(s: State, m: Msg)
    requires Shape(s) && Enabled(s, Add(m)) && Conserved(s)
    ensures Conserved(Do(s, Add(m)))
  {
    var e := Entry(m, s.config);
    HeldAdd(s.queues, Hash(m.thread), e);
    var rest := multiset(Entries(s.out)) + multiset(Left(s));
    assert rest + (Held(s.queues) + multiset{e}) == (rest + Held(s.queues)) + multiset{e};
    assert multiset(s.added + [e]) == multiset(s.added) + multiset{e};
  }

  lemma HeldDrain(queues: seq<seq<Entry>>, i: nat)
    requires i < |queues|
    ensures Held(queues[i := []]) + multiset(queues[i]) == Held(queues)
  {
    HeldUpdate(queues, i, []);
  }

  lemma DrainConserves(s: State)
    requires Shape(s) && Enabled(s, Drain) && Conserved(s)
    ensures Conserved(Do(s, Drain))
  {
    var i := s.phase.i;
    HeldDrain(s.queues, i);
    Rebalance(multiset(Entries(s.out)), multiset(s.pending), Held(s.queues), multiset(s.added), multiset(s.queues[i]),
              Held(s.queues[i := []]));
    assert multiset(s.pending + s.queues[i]) == multiset(s.pending) + multiset(s.queues[i]);
  }

  lemma EmitConserves(s: State)
    requires Shape(s) && Enabled(s, Emit) && Conserved(s)
    ensures Conserved(Do(s, Emit))
  {
    var k := s.phase.k;
    var e := s.pending[k];
    assert s.pending[k..] == [e] + s.pending[k + 1..];
    assert Entries(Do(s, Emit).out) == Entries(s.out) + [e];
    assert multiset(Entries(s.out) + [e]) + multiset(s.pending[k + 1..]) == multiset(Entries(s.out)) + multiset([e] + s.pending[k + 1..]);
  }

  lemma StepConserves(s: State, step: Step)
    requires Shape(s) && Enabled(s, step) && Conserved(s)
    ensures Conserved(Do(s, step))
  {
    match step
    case Add(m) => AddConserves(s, m);
    case Drain => DrainConserves(s);
    case Sort(p) => assert p[0..] == p;
    case Emit => EmitConserves(s);
    case End => assert s.pending[s.phase.k..] == [];
    case _ =>
  }
}
