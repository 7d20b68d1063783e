/**
  The log buffer's own code: the queues and the pending list as they are changed in place, and the drain and
  emit loops.  Each loop turn is one step of the machine in LogBuffer, so what its runs keep holds of the code.
 */
module LogBufferImpl {
  import opened LogBuffer

  // ---------------------------------------------------------------- steps in a row

  ghost predicate Leads(s: State, steps: seq<Step>, s': State)
    decreases |steps|
  {
    if steps == [] then s == s'
    else Enabled(s, steps[0]) && Leads(Do(s, steps[0]), steps[1..], s')
  }

  lemma {:induction false} LeadsOn(s: State, steps: seq<Step>, s': State, step: Step)
    requires Leads(s, steps, s') && Enabled(s', step)
    ensures Leads(s, steps + [step], Do(s', step))
    decreases |steps|
  {
    if steps == [] {
      assert ([] + [step])[1..] == [];
    } else {
      LeadsOn(Do(s, steps[0]), steps[1..], s', step);
      assert (steps + [step])[1..] == steps[1..] + [step];
    }
  }

  // ---------------------------------------------------------------- sort

  lemma InsertBefore(init: seq<Entry>, was: seq<Entry>, e: Entry, last: Entry)
    requires Sorted(init) && Sorted(was + [last]) && multiset(init) == multiset(was) + multiset{e}
    requires e.msg.time <= last.msg.time
    ensures Sorted(init + [last]) && multiset(init + [last]) == multiset(was + [last]) + multiset{e}
  {
    forall i | 0 <= i < |init|
      ensures init[i].msg.time <= last.msg.time
    {
      assert init[i] in multiset(init);
      if init[i] != e {
        assert init[i] in was;
        var j :| 0 <= j < |was| && was[j] == init[i];
        assert (was + [last])[j] == was[j] && (was + [last])[|was|] == last;
      }
    }
  }

  function Insert(e: Entry, es: seq<Entry>): (r: seq<Entry>)
    requires Sorted(es)
    ensures Sorted(r) && multiset(r) == multiset(es) + multiset{e}
  {
    if es == [] then [e]
    else
      var was, last := es[..|es| - 1], es[|es| - 1];
      assert es == was + [last];
      if last.msg.time <= e.msg.time then es + [e]
      else
        var init := Insert(e, was);
        InsertBefore(init, was, e, last);
        init + [last]
  }

  /** A stand-in for std::sort, which promises no more than this contract. */
  function SortByTime(es: seq<Entry>): (r: seq<Entry>)
    ensures Sorted(r) && multiset(r) == multiset(es)
  {
    if es == [] then []
    else
      assert es == es[..|es| - 1] + [es[|es| - 1]];
      Insert(es[|es| - 1], SortByTime(es[..|es| - 1]))
  }

  // ---------------------------------------------------------------- the buffer

  class Buffer {
    const queues: array<seq<Entry>>
    var pending: seq<Entry>
    /** What has been written so far, and the number of the pass that writes. */
    var out: seq<Out>
    var pass: nat
    var config: nat
    ghost var phase: Phase
    ghost var lock: Lock
    ghost var added: seq<Entry>

    ghost predicate Valid()
      reads this
    {
      queues.Length == QUEUES
    }

    ghost function View(): State
      reads this, queues
    {
      State(queues[..], pending, phase, lock, config, pass, out, added)
    }

    constructor ()
      ensures Valid() && fresh(queues) && View() == Initial()
    {
      queues := new seq<Entry>[QUEUES](_ => []);
      pending, out, pass, config := [], [], 0, 0;
      phase, lock, added := Idle, Free, [];
      new;
      assert queues[..] == seq(QUEUES, _ => []);
    }

    /** add_log_buffer: the push, under buffer_mtx and the queue's own lock. */
    method AddLogBuffer(m: Msg)
      requires Valid() && lock.Free?
      modifies this, queues
      ensures Valid() && View() == Do(old(View()), Add(m))
      ensures queues[m.thread % 10] == old(queues[m.thread % 10]) + [Entry(m, config)]
      ensures forall h :: 0 <= h < 10 && h != m.thread % 10 ==> queues[h] == old(queues[h])
      ensures pending == old(pending) && out == old(out) && config == old(config) && added == old(added) + [Entry(m, config)]
    {
      var e, h := Entry(m, config), Hash(m.thread);
      queues[h] := queues[h] + [e];
      added := added + [e];
    }

    /** The drain loop of out. */
    method DrainQueues(who: Who) returns (ghost steps: seq<Step>)
      requires Valid() && phase == Draining(who, 0)
      modifies this, queues
      ensures Valid() && Leads(old(View()), steps, View()) && phase == Draining(who, QUEUES)
      ensures lock == old(lock) && config == old(config) && out == old(out) && forall h :: 0 <= h < QUEUES ==> queues[h] == []
    {
      steps := [];
      var i := 0;
      while i < QUEUES
        invariant 0 <= i <= QUEUES && phase == Draining(who, i) && lock == old(lock) && config == old(config) && out == old(out)
        invariant Leads(old(View()), steps, View())
        invariant forall h :: 0 <= h < i ==> queues[h] == []
      {
        ghost var before := View();
        pending := pending + queues[i];
        queues[i] := [];
        phase := Draining(who, i + 1);
        assert View() == Do(before, Drain);
        LeadsOn(old(View()), steps, before, Drain);
        steps, i := steps + [Drain], i + 1;
      }
    }

    /** The emit loop of out. */
    method EmitPending(who: Who) returns (ghost steps: seq<Step>)
      requires Valid() && phase == Emitting(who, 0)
      modifies this
      ensures Valid() && Leads(old(View()), steps, View()) && phase == Emitting(who, |pending|)
      ensures pending == old(pending) && lock == old(lock) && config == old(config)
      ensures |out| == |old(out)| + |pending| && out[..|old(out)|] == old(out)
      ensures forall k :: 0 <= k < |pending| ==> out[|old(out)| + k].entry == pending[k]
    {
      steps := [];
      var k := 0;
      while k < |pending|
        invariant 0 <= k <= |pending| && phase == Emitting(who, k) && pending == old(pending) && lock == old(lock) && config == old(config)
        invariant Leads(old(View()), steps, View())
        invariant |out| == |old(out)| + k && out[..|old(out)|] == old(out)
        invariant forall j :: 0 <= j < k ==> out[|old(out)| + j].entry == pending[j]
      {
        ghost var before := View();
        out := out + [Out(pending[k], config, pass)];
        phase := Emitting(who, k + 1);
        assert View() == Do(before, Emit);
        LeadsOn(old(View()), steps, before, Emit);
        steps, k := steps + [Emit], k + 1;
      }
    }

    /** The sort of out, with its drained messages. */
    method SortPending(who: Who)
      requires Valid() && phase == Draining(who, QUEUES)
      modifies this
      ensures Enabled(old(View()), Sort(pending)) && View() == Do(old(View()), Sort(pending))
    {
      pending := SortByTime(pending);
      phase := Emitting(who, 0);
    }

    /** The end of out, and the release of flush_mtx. */
    method EndPass(who: Who)
      requires Valid() && phase == Emitting(who, |pending|)
      modifies this
      ensures View() == Do(old(View()), End)
    {
      pending, pass := [], pass + 1;
      phase, lock := Idle, if who.Setter? then Flushed else lock;
    }

    /** flush: a whole pass under flush_mtx. */
    method Flush(who: Who) returns (ghost steps: seq<Step>)
      requires Valid() && phase.Idle? && (who.Setter? ==> lock.Locked?)
      modifies this, queues
      ensures Valid() && Leads(old(View()), steps, View())
      ensures phase.Idle? && pending == [] && forall h :: 0 <= h < QUEUES ==> queues[h] == []
      ensures lock == (if who.Setter? then Flushed else old(lock)) && config == old(config)
    {
      phase := Draining(who, 0);
      ghost var s1 := View();
      ghost var drains := DrainQueues(who);
      ghost var s2 := View();
      SortPending(who);
      ghost var sort, s3 := Sort(pending), View();
      ghost var emits := EmitPending(who);
      ghost var s4 := View();
      EndPass(who);
      steps := PassLeads(old(View()), who, s1, drains, s2, sort, s3, emits, s4);
    }

    /** The setters: take buffer_mtx, flush, change the attributes, let go. */
    method SetAttributes() returns (ghost steps: seq<Step>)
      requires Valid() && phase.Idle? && lock.Free?
      modifies this, queues
      ensures Valid() && Leads(old(View()), steps, View())
      ensures config == old(config) + 1 && lock.Free? && phase.Idle?
      ensures pending == [] && forall h :: 0 <= h < QUEUES ==> queues[h] == []
    {
      ghost var s0 := View();
      lock := Locked;
      ghost var s1 := View();
      ghost var flush := Flush(Setter);
      ghost var s2 := View();
      config := config + 1;
      ghost var s3 := View();
      lock := Free;
      assert [Take][1..] == [];
      LeadsJoin(s0, [Take], s1, flush, s2);
      LeadsOn(s0, [Take] + flush, s2, Change);
      LeadsOn(s0, [Take] + flush + [Change], s3, Release);
      steps := [Take] + flush + [Change] + [Release];
    }
  }

  lemma {:induction false} LeadsJoin(s: State, a: seq<Step>, t: State, b: seq<Step>, u: State)
    requires Leads(s, a, t) && Leads(t, b, u)
    ensures Leads(s, a + b, u)
    decreases |a|
  {
    if a == [] {
      assert a + b == b;
    } else {
      LeadsJoin(Do(s, a[0]), a[1..], t, b, u);
      assert (a + b)[1..] == a[1..] + b;
    }
  }

  /** The parts of a pass put together. */
  lemma PassLeads(s0: State, who: Who, s1: State, drains: seq<Step>, s2: State, sort: Step, s3: State, emits: seq<Step>, s4: State)
    returns (steps: seq<Step>)
    requires Enabled(s0, Begin(who)) && s1 == Do(s0, Begin(who)) && Leads(s1, drains, s2)
    requires Enabled(s2, sort) && s3 == Do(s2, sort) && Leads(s3, emits, s4) && Enabled(s4, End)
    ensures steps == [Begin(who)] + drains + [sort] + emits + [End] && Leads(s0, steps, Do(s4, End))
  {
    assert Leads(s0, [Begin(who)], s1) by {
      LeadsOn(s0, [], s0, Begin(who));
      assert [] + [Begin(who)] == [Begin(who)];
    }
    LeadsJoin(s0, [Begin(who)], s1, drains, s2);
    LeadsOn(s0, [Begin(who)] + drains, s2, sort);
    LeadsJoin(s0, [Begin(who)] + drains + [sort], s3, emits, s4);
    LeadsOn(s0, [Begin(who)] + drains + [sort] + emits, s4, End);
    steps := [Begin(who)] + drains + [sort] + emits + [End];
  }
}
