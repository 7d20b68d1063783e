/**
  Counting I/O in flight on a file handle.  Any number of threads run the WRITE and COMMIT handlers,
  interleaved at single atomic operations and lock operations, with arbitrary I/O outcomes.
 */
module IoWork {
  import opened Common
  import opened ShareReservation

  datatype Op = WriteOp | CommitOp

  /** Where a thread stands; each constructor is the next thing it will do. */
  datatype Pc =
    | Idle
    | WantShare                    // WRITE: take handle_rwlock_lock for the share check
    | CheckShare                   // check_share_conflict_and_update, lock held
    | ShareGranted                 // unlock after taking the reservation
    | ShareDenied                  // unlock after the refusal
    | ShareDeniedAgain             // the conflict exit's own unlock of the lock just released
    | Start(op: Op)                // atomic increment of io_work
    | Transfer                     // pwritev
    | Sync(op: Op)                 // fsync
    | Fetch(op: Op)                // atomic_add_unless: load io_work
    | Attempt(op: Op, cur: int)    // compare with one, then compare-exchange
    | WantMutex(op: Op)            // io_work looked like one: take work_mutex
    | Subtract(op: Op)             // atomic decrement, mutex held
    | GotZero(op: Op)              // dec-and-lock returned true; unlock
    | NotZero(op: Op)              // not zero after all; unlock, return false
    | WantRelease                  // WRITE: take the lock to give the reservation back
    | ReleaseShare                 // update_share_counters(WRITE, CLOSED), lock held
    | Released                     // unlock

  /** The fields of the handle. */
  datatype Handle = Handle(ioWork: int, shares: Counters, rwlock: Option<nat>, mutex: Option<nat>)

  datatype Io = Io(h: Handle, pcs: seq<Pc>)

  /** io_work is an int32_t: what a count becomes in it. */
  function Wrap32(n: int): int {
    (n + 0x8000_0000) % UINT_RANGE - 0x8000_0000
  }

  function AfterComplete(op: Op): Pc {
    if op == WriteOp then WantRelease else Idle
  }

  /**
    One atomic action of thread t, which stands at pc.  `yes` settles what the thread cannot know: which
    request arrives and whether a transfer is to be stable; `fails` is the outcome of the system call.
   */
  function Act(h: Handle, pc: Pc, t: nat, yes: bool, fails: bool): (Handle, Pc) {
    match pc
    case Idle => (h, if yes then WantShare else Start(CommitOp))
    case WantShare => if h.rwlock.Some? then (h, pc) else (h.(rwlock := Some(t)), CheckShare)
    case CheckShare =>
      if Conflict(h.shares, FSAL_O_WRITE, false) then (h, ShareDenied)
      else (h.(shares := Shift(h.shares, FSAL_O_CLOSED, FSAL_O_WRITE)), ShareGranted)
    case ShareGranted => (h.(rwlock := None), Start(WriteOp))
    case ShareDenied => (h.(rwlock := None), ShareDeniedAgain)
    case ShareDeniedAgain => (h.(rwlock := None), Idle)
    case Start(op) => (h.(ioWork := Wrap32(h.ioWork + 1)), if op == WriteOp then Transfer else Sync(CommitOp))
    case Transfer =>
      if fails then (h, Idle) else (h, if yes then Sync(WriteOp) else Fetch(WriteOp))
    case Sync(op) =>
      if fails then (h, Idle) else (h, Fetch(op))
    case Fetch(op) => (h, Attempt(op, h.ioWork))
    case Attempt(op, cur) =>
      if cur == 1 then (h, WantMutex(op))
      else if h.ioWork == cur then (h.(ioWork := Wrap32(cur - 1)), AfterComplete(op))
      else (h, Attempt(op, h.ioWork))
    case WantMutex(op) => if h.mutex.Some? then (h, pc) else (h.(mutex := Some(t)), Subtract(op))
    case Subtract(op) => (h.(ioWork := Wrap32(h.ioWork - 1)), if Wrap32(h.ioWork - 1) == 0 then GotZero(op) else NotZero(op))
    case GotZero(op) => (h.(mutex := None), AfterComplete(op))
    case NotZero(op) => (h.(mutex := None), AfterComplete(op))
    case WantRelease => if h.rwlock.Some? then (h, pc) else (h.(rwlock := Some(t)), ReleaseShare)
    case ReleaseShare => (h.(shares := Shift(h.shares, FSAL_O_WRITE, FSAL_O_CLOSED)), Released)
    case Released => (h.(rwlock := None), Idle)
  }

  function Step(s: Io, t: nat, yes: bool, fails: bool): Io {
    if t >= |s.pcs| then s
    else
      var (h, pc) := Act(s.h, s.pcs[t], t, yes, fails);
      Io(h, s.pcs[t := pc])
  }

  datatype Move = Move(thread: nat, yes: bool, fails: bool)

  function Run(s: Io, moves: seq<Move>): Io
    decreases |moves|
  {
    if moves == [] then s else Run(Step(s, moves[0].thread, moves[0].yes, moves[0].fails), moves[1..])
  }

  /** The move is a pwritev or fsync that fails, for this kind of operation. */
  predicate FailsAt(s: Io, m: Move, op: Op) {
    && m.thread < |s.pcs| && m.fails
    && (s.pcs[m.thread] == Sync(op) || (op == WriteOp && s.pcs[m.thread] == Transfer))
  }

  /** How many operations of this kind failed during the run. */
  function Failed(s: Io, moves: seq<Move>, op: Op): nat
    decreases |moves|
  {
    if moves == [] then 0
    else One(FailsAt(s, moves[0], op)) + Failed(Step(s, moves[0].thread, moves[0].yes, moves[0].fails), moves[1..], op)
  }

  /** All threads idle on a file whose share counters are these. */
  function InitWith(threads: nat, c: Counters): Io {
    Io(Handle(0, c, None, None), seq(threads, _ => Idle))
  }

  function Init(threads: nat): Io {
    InitWith(threads, NO_SHARES)
  }

  /** Counters that an unsigned int can hold. */
  predicate InRange(c: Counters) {
    && 0 <= c.accessRead < UINT_RANGE && 0 <= c.accessWrite < UINT_RANGE && 0 <= c.denyRead < UINT_RANGE
    && 0 <= c.denyWrite < UINT_RANGE && 0 <= c.denyWriteMand < UINT_RANGE
  }

  /** No holder denies writing, as far as the counters can tell. */
  predicate WritesAllowed(c: Counters) {
    c.denyWrite == 0 && c.denyWriteMand == 0
  }

  // ---------------------------------------------------------------- what the counters should say

  /** The thread's operation was counted into io_work and not yet counted out. */
  predicate InFlight(pc: Pc) {
    pc.Transfer? || pc.Sync? || pc.Fetch? || pc.Attempt? || pc.WantMutex? || pc.Subtract?
  }

  function OpOf(pc: Pc): Op {
    match pc
    case Start(op) => op
    case Sync(op) => op
    case Fetch(op) => op
    case Attempt(op, _) => op
    case WantMutex(op) => op
    case Subtract(op) => op
    case GotZero(op) => op
    case NotZero(op) => op
    case _ => WriteOp
  }

  /** The thread has a write reservation on the file. */
  predicate HasShare(pc: Pc) {
    && !pc.Idle? && !pc.WantShare? && !pc.CheckShare? && !pc.ShareDenied? && !pc.ShareDeniedAgain? && !pc.Released?
    && OpOf(pc) == WriteOp
  }

  predicate InRwlock(pc: Pc) {
    pc.CheckShare? || pc.ShareGranted? || pc.ShareDenied? || pc.ReleaseShare? || pc.Released?
  }

  predicate InMutex(pc: Pc) {
    pc.Subtract? || pc.GotZero? || pc.NotZero?
  }

  function Count(p: Pc -> bool, pcs: seq<Pc>): nat {
    if pcs == [] then 0 else (if p(pcs[0]) then 1 else 0) + Count(p, pcs[1..])
  }

  ghost predicate LocksInv(s: Io) {
    && (forall t :: 0 <= t < |s.pcs| ==> (InRwlock(s.pcs[t]) <==> s.h.rwlock == Some(t)))
    && (forall t :: 0 <= t < |s.pcs| ==> (InMutex(s.pcs[t]) <==> s.h.mutex == Some(t)))
  }

  /** No thread is on its way out of a conflict. */
  ghost predicate NoDenial(s: Io) {
    forall t :: 0 <= t < |s.pcs| ==> !s.pcs[t].ShareDenied? && !s.pcs[t].ShareDeniedAgain?
  }

  /** What started from the counters c keeps, when this many WRITEs and COMMITs have failed. */
  ghost predicate Inv(s: Io, c: Counters, writes: nat, commits: nat) {
    && InRange(c) && WritesAllowed(c)
    && LocksInv(s)
    && NoDenial(s)
    && s.h.ioWork == Wrap32(Count(InFlight, s.pcs) + writes + commits)
    && s.h.shares == c.(accessWrite := (c.accessWrite + Count(HasShare, s.pcs) + writes) % UINT_RANGE)
  }

  lemma {:induction false} CountSet(p: Pc -> bool, pcs: seq<Pc>, t: nat, pc: Pc)
    requires t < |pcs|
    ensures Count(p, pcs[t := pc]) == Count(p, pcs) - One(p(pcs[t])) + One(p(pc))
    ensures p(pcs[t]) ==> Count(p, pcs) >= 1
  {
    if t == 0 {
      assert pcs[0 := pc][1..] == pcs[1..];
    } else {
      CountSet(p, pcs[1..], t - 1, pc);
      assert pcs[t := pc][1..] == pcs[1..][t - 1 := pc];
    }
  }

  lemma WrapStep(n: int, d: int)
    ensures Wrap32(Wrap32(n) + d) == Wrap32(n + d)
  {
  }

  /** Whether an action is a failure of an operation of this kind. */
  predicate Failing(pc: Pc, fails: bool, op: Op) {
    fails && (pc == Sync(op) || (op == WriteOp && pc == Transfer))
  }

  /** What an action does to io_work, in terms of the thread alone. */
  lemma ActCounts(h: Handle, pc: Pc, t: nat, yes: bool, fails: bool)
    requires h.ioWork == Wrap32(h.ioWork)
    ensures var (h', pc') := Act(h, pc, t, yes, fails);
            h'.ioWork == Wrap32(h.ioWork + One(InFlight(pc')) - One(InFlight(pc))
                                + One(Failing(pc, fails, WriteOp)) + One(Failing(pc, fails, CommitOp)))
  {
  }

  /** What an action does to a lock that the thread holds exactly when it is inside: it leaves others' alone. */
  predicate Minds(t: nat, before: Option<nat>, after: Option<nat>, inside: bool) {
    && (inside <==> after == Some(t))
    && (before.Some? && before != Some(t) ==> after == before)
    && (before.None? || before == Some(t) ==> after.None? || after == Some(t))
  }

  lemma ActLocks(h: Handle, pc: Pc, t: nat, yes: bool, fails: bool)
    requires InRwlock(pc) <==> h.rwlock == Some(t)
    requires InMutex(pc) <==> h.mutex == Some(t)
    requires !pc.ShareDeniedAgain?
    ensures var (h', pc') := Act(h, pc, t, yes, fails);
            Minds(t, h.rwlock, h'.rwlock, InRwlock(pc')) && Minds(t, h.mutex, h'.mutex, InMutex(pc'))
  {
  }

  /** What an action does to the reservations: it takes one, gives one back, or loses it. */
  lemma ActShares(h: Handle, pc: Pc, t: nat, yes: bool, fails: bool)
    requires WritesAllowed(h.shares)
    ensures var (h', pc') := Act(h, pc, t, yes, fails);
            && !pc'.ShareDenied?
            && (if pc.CheckShare? then h'.shares == Shift(h.shares, FSAL_O_CLOSED, FSAL_O_WRITE)
                else if pc.ReleaseShare? then h'.shares == Shift(h.shares, FSAL_O_WRITE, FSAL_O_CLOSED)
                else h'.shares == h.shares)
            && (One(HasShare(pc')) - One(HasShare(pc)) + One(Failing(pc, fails, WriteOp))
                == if pc.CheckShare? then 1 else if pc.ReleaseShare? then -1 else 0)
  {
  }

  lemma StepKeepsLocks(s: Io, t: nat, yes: bool, fails: bool)
    requires LocksInv(s) && NoDenial(s) && t < |s.pcs|
    ensures LocksInv(Step(s, t, yes, fails))
  {
    ActLocks(s.h, s.pcs[t], t, yes, fails);
  }

  lemma StepKeepsNoDenial(s: Io, t: nat, yes: bool, fails: bool)
    requires NoDenial(s) && WritesAllowed(s.h.shares) && t < |s.pcs|
    ensures NoDenial(Step(s, t, yes, fails))
  {
    ActShares(s.h, s.pcs[t], t, yes, fails);
    assert !Act(s.h, s.pcs[t], t, yes, fails).1.ShareDeniedAgain?;
  }

  lemma StepKeepsIoWork(s: Io, lost: nat, t: nat, yes: bool, fails: bool)
    requires s.h.ioWork == Wrap32(Count(InFlight, s.pcs) + lost) && t < |s.pcs|
    ensures var s' := Step(s, t, yes, fails);
            var more := One(Failing(s.pcs[t], fails, WriteOp)) + One(Failing(s.pcs[t], fails, CommitOp));
            s'.h.ioWork == Wrap32(Count(InFlight, s'.pcs) + (lost + more))
  {
    var n := Count(InFlight, s.pcs) + lost;
    var (h', pc') := Act(s.h, s.pcs[t], t, yes, fails);
    WrapStep(n, 0);
    ActCounts(s.h, s.pcs[t], t, yes, fails);
    CountSet(InFlight, s.pcs, t, pc');
    WrapStep(n, One(InFlight(pc')) - One(InFlight(s.pcs[t]))
                + One(Failing(s.pcs[t], fails, WriteOp)) + One(Failing(s.pcs[t], fails, CommitOp)));
  }

  /** Taking and giving back a write reservation moves one counter, modulo 2^32. */
  lemma TakeAndGive(c: Counters, n: int)
    requires InRange(c)
    ensures Shift(c.(accessWrite := n % UINT_RANGE), FSAL_O_CLOSED, FSAL_O_WRITE) == c.(accessWrite := (n + 1) % UINT_RANGE)
    ensures Shift(c.(accessWrite := n % UINT_RANGE), FSAL_O_WRITE, FSAL_O_CLOSED) == c.(accessWrite := (n - 1) % UINT_RANGE)
  {
    WrapPlus(n, 1);
    WrapPlus(n, -1);
  }

  lemma StepKeepsShares(s: Io, c: Counters, writes: nat, commits: nat, t: nat, yes: bool, fails: bool)
    requires Inv(s, c, writes, commits) && t < |s.pcs|
    ensures var s' := Step(s, t, yes, fails);
            var more := One(Failing(s.pcs[t], fails, WriteOp));
            s'.h.shares == c.(accessWrite := (c.accessWrite + Count(HasShare, s'.pcs) + (writes + more)) % UINT_RANGE)
  {
    ActShares(s.h, s.pcs[t], t, yes, fails);
    CountSet(HasShare, s.pcs, t, Act(s.h, s.pcs[t], t, yes, fails).1);
    TakeAndGive(c, c.accessWrite + Count(HasShare, s.pcs) + writes);
  }

  lemma StepKeeps(s: Io, c: Counters, writes: nat, commits: nat, m: Move)
    requires Inv(s, c, writes, commits)
    ensures Inv(Step(s, m.thread, m.yes, m.fails), c,
                writes + One(FailsAt(s, m, WriteOp)), commits + One(FailsAt(s, m, CommitOp)))
  {
    if m.thread < |s.pcs| {
      StepKeepsLocks(s, m.thread, m.yes, m.fails);
      StepKeepsNoDenial(s, m.thread, m.yes, m.fails);
      StepKeepsIoWork(s, writes + commits, m.thread, m.yes, m.fails);
      StepKeepsShares(s, c, writes, commits, m.thread, m.yes, m.fails);
    }
  }

  ghost predicate Closed(inv: (Io, nat, nat) -> bool) {
    forall s: Io, w: nat, k: nat, m: Move :: inv(s, w, k) ==>
      inv(Step(s, m.thread, m.yes, m.fails), w + One(FailsAt(s, m, WriteOp)), k + One(FailsAt(s, m, CommitOp)))
  }

  lemma {:induction false} RunClosed(inv: (Io, nat, nat) -> bool, s: Io, w: nat, k: nat, moves: seq<Move>)
    requires Closed(inv) && inv(s, w, k)
    ensures inv(Run(s, moves), w + Failed(s, moves, WriteOp), k + Failed(s, moves, CommitOp))
    decreases |moves|
  {
    if moves != [] {
      var m := moves[0];
      var w', k' := w + One(FailsAt(s, m, WriteOp)), k + One(FailsAt(s, m, CommitOp));
      assert inv(Step(s, m.thread, m.yes, m.fails), w', k');
      RunClosed(inv, Step(s, m.thread, m.yes, m.fails), w', k', moves[1..]);
    }
  }

  ghost function InvWith(c: Counters): (Io, nat, nat) -> bool {
    (s: Io, w: nat, k: nat) => Inv(s, c, w, k)
  }

  lemma InvClosed(c: Counters)
    ensures Closed(InvWith(c))
  {
    var inv := InvWith(c);
    forall s: Io, w: nat, k: nat, m: Move | inv(s, w, k)
      ensures inv(Step(s, m.thread, m.yes, m.fails), w + One(FailsAt(s, m, WriteOp)), k + One(FailsAt(s, m, CommitOp)))
    {
      StepKeeps(s, c, w, k, m);
    }
  }

  lemma RunKeeps(s: Io, c: Counters, writes: nat, commits: nat, moves: seq<Move>)
    requires Inv(s, c, writes, commits)
    ensures Inv(Run(s, moves), c, writes + Failed(s, moves, WriteOp), commits + Failed(s, moves, CommitOp))
  {
    InvClosed(c);
    RunClosed(InvWith(c), s, writes, commits, moves);
  }

  lemma {:induction false} NobodyCounts(p: Pc -> bool, pcs: seq<Pc>)
    requires forall t :: 0 <= t < |pcs| ==> !p(pcs[t])
    ensures Count(p, pcs) == 0
  {
    if pcs != [] {
      NobodyCounts(p, pcs[1..]);
    }
  }

  lemma InitInv(threads: nat, c: Counters)
    requires InRange(c) && WritesAllowed(c)
    ensures Inv(InitWith(threads, c), c, 0, 0)
  {
    NobodyCounts(InFlight, InitWith(threads, c).pcs);
    NobodyCounts(HasShare, InitWith(threads, c).pcs);
  }

  lemma InvMeans(s: Io, writes: nat, commits: nat)
    requires Inv(s, NO_SHARES, writes, commits)
    ensures var n := Count(InFlight, s.pcs) + writes + commits;
            && s.h.ioWork == Wrap32(n)
            && (s.h.ioWork >= 0 <==> n % UINT_RANGE < 0x8000_0000)
            && s.h.shares == Counters(0, (Count(HasShare, s.pcs) + writes) % UINT_RANGE, 0, 0, 0)
            && NoDenial(s)
            && LocksInv(s)
  {
  }

  /**
    Handler accounting over every interleaving.  io_work is, as an int32_t, the operations in flight plus the
    WRITEs and COMMITs whose pwritev or fsync failed during the run, and is negative exactly when that sum modulo
    2^32 is at least 2^31; the write share counter is the writes that hold a reservation plus the WRITEs that
    failed, modulo 2^32; no other share counter moves, so no thread ever reaches the conflict exit.
   */
  lemma HandlerAccounting(threads: nat, moves: seq<Move>)
    ensures var s := Run(Init(threads), moves);
            var writes, commits := Failed(Init(threads), moves, WriteOp), Failed(Init(threads), moves, CommitOp);
            var n := Count(InFlight, s.pcs) + writes + commits;
            && s.h.ioWork == Wrap32(n)
            && (s.h.ioWork >= 0 <==> n % UINT_RANGE < 0x8000_0000)
            && s.h.shares == Counters(0, (Count(HasShare, s.pcs) + writes) % UINT_RANGE, 0, 0, 0)
            && NoDenial(s)
            && LocksInv(s)
  {
    InitInv(threads, NO_SHARES);
    RunKeeps(Init(threads), NO_SHARES, 0, 0, moves);
    InvMeans(Run(Init(threads), moves), Failed(Init(threads), moves, WriteOp), Failed(Init(threads), moves, CommitOp));
  }

  /** With every handler back, what remains counted is exactly the operations that failed. */
  lemma Quiescent(threads: nat, moves: seq<Move>)
    requires var s := Run(Init(threads), moves);
             forall t :: 0 <= t < |s.pcs| ==> s.pcs[t].Idle?
    ensures var s := Run(Init(threads), moves);
            var writes, commits := Failed(Init(threads), moves, WriteOp), Failed(Init(threads), moves, CommitOp);
            s.h.ioWork == Wrap32(writes + commits) && s.h.shares.accessWrite == writes % UINT_RANGE
  {
    HandlerAccounting(threads, moves);
    var s := Run(Init(threads), moves);
    NobodyCounts(InFlight, s.pcs);
    NobodyCounts(HasShare, s.pcs);
  }

  /**
    The dec-and-lock routine.  In any reachable state, a step takes io_work from one to zero exactly when it
    is the step by which dec-and-lock decides to return true to its thread, and that thread then holds
    work_mutex.  The only other way to zero is up from -1, which takes a sum of 2^32 - 1.
   */
  lemma ZeroOnlyUnderMutex(threads: nat, moves: seq<Move>, t: nat, yes: bool, fails: bool)
    requires t < threads
    ensures var s := Run(Init(threads), moves);
            var s' := Step(s, t, yes, fails);
            && |s.pcs| == |s'.pcs| == threads
            && (s.h.ioWork == 1 && s'.h.ioWork == 0 <==> !s.pcs[t].GotZero? && s'.pcs[t].GotZero?)
            && (s.h.ioWork == 1 && s'.h.ioWork == 0 ==> s.h.mutex == Some(t) && s'.h.mutex == Some(t))
            && (s.h.ioWork !in {0, 1} && s'.h.ioWork == 0 ==>
                  && s.pcs[t].Start?
                  && (Count(InFlight, s.pcs) + Failed(Init(threads), moves, WriteOp) + Failed(Init(threads), moves, CommitOp))
                     % UINT_RANGE == UINT_RANGE - 1)
  {
    HandlerAccounting(threads, moves);
    ThreadsStay(Init(threads), moves);
    var s := Run(Init(threads), moves);
    var n := Count(InFlight, s.pcs) + Failed(Init(threads), moves, WriteOp) + Failed(Init(threads), moves, CommitOp);
    ZeroStep(s, n, t, yes, fails);
  }

  lemma ZeroStep(s: Io, n: nat, t: nat, yes: bool, fails: bool)
    requires t < |s.pcs| && s.h.ioWork == Wrap32(n) && LocksInv(s)
    ensures var s' := Step(s, t, yes, fails);
            && |s.pcs| == |s'.pcs|
            && (s.h.ioWork == 1 && s'.h.ioWork == 0 <==> !s.pcs[t].GotZero? && s'.pcs[t].GotZero?)
            && (s.h.ioWork == 1 && s'.h.ioWork == 0 ==> s.h.mutex == Some(t) && s'.h.mutex == Some(t))
            && (s.h.ioWork !in {0, 1} && s'.h.ioWork == 0 ==> s.pcs[t].Start? && n % UINT_RANGE == UINT_RANGE - 1)
  {
    ZeroByAct(s.h, s.pcs[t], t, yes, fails);
  }

  lemma ZeroByAct(h: Handle, pc: Pc, t: nat, yes: bool, fails: bool)
    requires h.ioWork == Wrap32(h.ioWork)
    ensures var (h', pc') := Act(h, pc, t, yes, fails);
            && (h.ioWork == 1 && h'.ioWork == 0 <==> pc.Subtract? && pc'.GotZero?)
            && (pc'.GotZero? ==> pc.Subtract?)
            && (pc.Subtract? ==> h'.mutex == h.mutex)
            && (h.ioWork !in {0, 1} && h'.ioWork == 0 ==> pc.Start? && h.ioWork == -1)
  {
  }

  lemma {:induction false} ThreadsStay(s: Io, moves: seq<Move>)
    ensures |Run(s, moves).pcs| == |s.pcs|
    decreases |moves|
  {
    if moves != [] {
      ThreadsStay(Step(s, moves[0].thread, moves[0].yes, moves[0].fails), moves[1..]);
    }
  }

  // ---------------------------------------------------------------- a run that takes io_work negative

  lemma {:induction false} RunJoin(s: Io, a: seq<Move>, b: seq<Move>)
    ensures Run(s, a + b) == Run(Run(s, a), b)
    decreases |a|
  {
    if a == [] {
      assert a + b == b;
    } else {
      RunJoin(Step(s, a[0].thread, a[0].yes, a[0].fails), a[1..], b);
      assert (a + b)[1..] == a[1..] + b;
    }
  }

  /** A COMMIT whose fsync fails: it arrives, is counted, and leaves by the error exit. */
  const FAILED_COMMIT := [Move(0, false, false), Move(0, false, false), Move(0, false, true)]

  function FailedCommits(n: nat): seq<Move> {
    if n == 0 then [] else FailedCommits(n - 1) + FAILED_COMMIT
  }

  function Leaked(n: nat): Io {
    Io(Handle(Wrap32(n), NO_SHARES, None, None), [Idle])
  }

  lemma OneFailedCommit(n: nat)
    ensures Run(Leaked(n), FAILED_COMMIT) == Leaked(n + 1)
  {
    var s0, m := Leaked(n), FAILED_COMMIT;
    var s1 := Step(s0, 0, false, false);
    var s2 := Step(s1, 0, false, false);
    WrapStep(n, 1);
    assert s1.pcs == [Start(CommitOp)] && s2.pcs == [Sync(CommitOp)];
    assert Step(s2, 0, false, true) == Leaked(n + 1);
    assert m[1..] == [Move(0, false, false), Move(0, false, true)] && m[1..][1..] == [Move(0, false, true)];
    assert m[1..][1..][1..] == [];
    assert Run(s2, m[1..][1..]) == Run(Step(s2, 0, false, true), m[1..][1..][1..]);
    assert Run(s1, m[1..]) == Run(s2, m[1..][1..]);
  }

  /** Every failed COMMIT leaves io_work one higher, for good. */
  lemma {:induction false} Leaks(n: nat)
    ensures Run(Init(1), FailedCommits(n)) == Leaked(n)
  {
    if n == 0 {
      assert Init(1).pcs == [Idle];
    } else {
      Leaks(n - 1);
      RunJoin(Init(1), FailedCommits(n - 1), FAILED_COMMIT);
      OneFailedCommit(n - 1);
    }
  }

  /** After 2^31 of them, with nothing in flight, io_work is negative. */
  lemma NegativeAfterFailures()
    ensures Run(Init(1), FailedCommits(0x8000_0000)).h.ioWork == -0x8000_0000
    ensures Run(Init(1), FailedCommits(0x8000_0000)).pcs == [Idle]
  {
    Leaks(0x8000_0000);
  }

  // ---------------------------------------------------------------- the conflict exit's second unlock

  /** Each state follows from the one before by a move. */
  ghost predicate Trail(states: seq<Io>, moves: seq<Move>) {
    && |states| == |moves| + 1
    && forall i :: 0 <= i < |moves| ==> states[i + 1] == Step(states[i], moves[i].thread, moves[i].yes, moves[i].fails)
  }

  lemma {:induction false} TrailRuns(states: seq<Io>, moves: seq<Move>)
    requires Trail(states, moves)
    ensures Run(states[0], moves) == states[|moves|]
    decreases |moves|
  {
    if moves != [] {
      TrailRuns(states[1..], moves[1..]);
    }
  }

  /** Thread 0 asks, takes the lock, is refused, and unlocks. */
  const REFUSED := [Move(0, true, false), Move(0, true, false), Move(0, true, false), Move(0, true, false)]

  /** Thread 1 asks and takes the lock; thread 0 unlocks again; it asks once more and takes the lock too. */
  const TAKEN_TWICE := [
    Move(1, true, false), Move(1, true, false), Move(0, true, false), Move(0, true, false), Move(0, true, false)]

  function Two(threads: nat, c: Counters, lock: Option<nat>, a: Pc, b: Pc): Io
    requires threads >= 2
  {
    Io(Handle(0, c, lock, None), seq(threads, _ => Idle)[0 := a][1 := b])
  }

  lemma Moved(threads: nat, c: Counters, lock: Option<nat>, a: Pc, b: Pc, lock': Option<nat>, a': Pc)
    requires threads >= 2
    ensures Act(Two(threads, c, lock, a, b).h, a, 0, true, false) == (Two(threads, c, lock', a', b).h, a') ==>
              Step(Two(threads, c, lock, a, b), 0, true, false) == Two(threads, c, lock', a', b)
    ensures Act(Two(threads, c, lock, b, a).h, a, 1, true, false) == (Two(threads, c, lock', b, a').h, a') ==>
              Step(Two(threads, c, lock, b, a), 1, true, false) == Two(threads, c, lock', b, a')
  {
  }

  lemma RunRefused(threads: nat, c: Counters)
    requires threads >= 2 && InRange(c) && !WritesAllowed(c)
    ensures Run(InitWith(threads, c), REFUSED) == Two(threads, c, None, ShareDeniedAgain, Idle)
  {
    var i := Idle;
    assert Conflict(c, FSAL_O_WRITE, false);
    var states := [
      Two(threads, c, None, i, i), Two(threads, c, None, WantShare, i), Two(threads, c, Some(0), CheckShare, i),
      Two(threads, c, Some(0), ShareDenied, i), Two(threads, c, None, ShareDeniedAgain, i)];
    Moved(threads, c, None, i, i, None, WantShare);
    Moved(threads, c, None, WantShare, i, Some(0), CheckShare);
    Moved(threads, c, Some(0), CheckShare, i, Some(0), ShareDenied);
    Moved(threads, c, Some(0), ShareDenied, i, None, ShareDeniedAgain);
    TrailRuns(states, REFUSED);
    assert InitWith(threads, c) == states[0];
  }

  lemma RunTakenTwice(threads: nat, c: Counters)
    requires threads >= 2
    ensures Run(Two(threads, c, None, ShareDeniedAgain, Idle), TAKEN_TWICE) == Two(threads, c, Some(0), CheckShare, CheckShare)
  {
    var i, again := Idle, ShareDeniedAgain;
    var states := [
      Two(threads, c, None, again, i), Two(threads, c, None, again, WantShare), Two(threads, c, Some(1), again, CheckShare),
      Two(threads, c, None, i, CheckShare), Two(threads, c, None, WantShare, CheckShare),
      Two(threads, c, Some(0), CheckShare, CheckShare)];
    Moved(threads, c, None, i, again, None, WantShare);
    Moved(threads, c, None, WantShare, again, Some(1), CheckShare);
    Moved(threads, c, Some(1), again, CheckShare, None, i);
    Moved(threads, c, None, i, CheckShare, None, WantShare);
    Moved(threads, c, None, WantShare, CheckShare, Some(0), CheckShare);
    TrailRuns(states, TAKEN_TWICE);
  }

  /** If any holder denies writing, the second unlock frees another thread's lock: two are in the section at once. */
  lemma SecondUnlockFreesAnother(threads: nat, c: Counters)
    requires threads >= 2 && InRange(c) && !WritesAllowed(c)
    ensures var s := Run(InitWith(threads, c), REFUSED + TAKEN_TWICE);
            |s.pcs| == threads && s.pcs[0] == s.pcs[1] == CheckShare
  {
    RunRefused(threads, c);
    RunTakenTwice(threads, c);
    RunJoin(InitWith(threads, c), REFUSED, TAKEN_TWICE);
  }

  /** The locks keep threads apart on every run if and only if no holder denies writing. */
  lemma LocksKeptIff(threads: nat, c: Counters)
    requires threads >= 2 && InRange(c)
    ensures (forall moves :: LocksInv(Run(InitWith(threads, c), moves))) <==> WritesAllowed(c)
  {
    if WritesAllowed(c) {
      forall moves
        ensures LocksInv(Run(InitWith(threads, c), moves))
      {
        InitInv(threads, c);
        RunKeeps(InitWith(threads, c), c, 0, 0, moves);
      }
    } else {
      SecondUnlockFreesAnother(threads, c);
      assert !LocksInv(Run(InitWith(threads, c), REFUSED + TAKEN_TWICE));
    }
  }

  // ---------------------------------------------------------------- what a handler does, from start to end

  /** Until it moves, a thread stands where it stood. */
  lemma OthersStay(states: seq<Io>, moves: seq<Move>, i: nat, t: nat)
    requires Trail(states, moves) && i < |moves| && t < |states[i].pcs|
    ensures |states[i + 1].pcs| == |states[i].pcs|
    ensures moves[i].thread != t ==> states[i + 1].pcs[t] == states[i].pcs[t]
  {
  }

  /**
    A WRITE that is to be stable completes only after an fsync of its own that succeeded: between its pwritev
    and the completion it stands at the fsync, and makes that call.
   */
  lemma {:induction false} StableWriteSyncs(states: seq<Io>, moves: seq<Move>, t: nat, i: nat, j: nat)
    requires Trail(states, moves) && i < j <= |moves| && t < |states[i].pcs| && t < |states[j].pcs|
    requires moves[i].thread == t && states[i].pcs[t] == Transfer && moves[i].yes && !moves[i].fails
    requires forall k :: i < k <= j && t < |states[k].pcs| ==> !states[k].pcs[t].Idle?
    ensures || states[j].pcs[t] == Sync(WriteOp)
            || exists k :: i < k < j && moves[k].thread == t && t < |states[k].pcs|
                           && states[k].pcs[t] == Sync(WriteOp) && !moves[k].fails
    decreases j
  {
    OthersStay(states, moves, j - 1, t);
    if j - 1 > i {
      StableWriteSyncs(states, moves, t, i, j - 1);
    }
  }

  /** A COMMIT completes only after an fsync of its own that succeeded. */
  lemma {:induction false} CommitSyncs(states: seq<Io>, moves: seq<Move>, t: nat, i: nat, j: nat)
    requires Trail(states, moves) && i < j <= |moves| && t < |states[i].pcs| && t < |states[j].pcs|
    requires moves[i].thread == t && states[i].pcs[t] == Start(CommitOp)
    requires forall k :: i < k <= j && t < |states[k].pcs| ==> !states[k].pcs[t].Idle?
    ensures || states[j].pcs[t] == Sync(CommitOp)
            || exists k :: i < k < j && moves[k].thread == t && t < |states[k].pcs|
                           && states[k].pcs[t] == Sync(CommitOp) && !moves[k].fails
    decreases j
  {
    OthersStay(states, moves, j - 1, t);
    if j - 1 > i {
      CommitSyncs(states, moves, t, i, j - 1);
    }
  }

  /** One thread alone on a file that nobody else uses. */
  function Alone(io: int, writes: int, lock: Option<nat>, mutex: Option<nat>, pc: Pc): Io {
    Io(Handle(io, Counters(0, writes, 0, 0, 0), lock, mutex), [pc])
  }

  lemma AloneStep(io: int, writes: int, lock: Option<nat>, mutex: Option<nat>, pc: Pc,
                  io': int, writes': int, lock': Option<nat>, mutex': Option<nat>, pc': Pc, yes: bool, fails: bool)
    requires Act(Alone(io, writes, lock, mutex, pc).h, pc, 0, yes, fails) == (Alone(io', writes', lock', mutex', pc').h, pc')
    ensures Step(Alone(io, writes, lock, mutex, pc), 0, yes, fails) == Alone(io', writes', lock', mutex', pc')
  {
    assert [pc][0 := pc'] == [pc'];
  }

  function Calm(n: nat): seq<Move> {
    seq(n, _ => Move(0, true, false))
  }

  /** A WRITE up to its pwritev: it checks and takes the reservation under the lock, and is counted. */
  lemma WriteBegins()
    ensures Trail([Alone(0, 0, None, None, Idle), Alone(0, 0, None, None, WantShare),
                   Alone(0, 0, Some(0), None, CheckShare), Alone(0, 1, Some(0), None, ShareGranted),
                   Alone(0, 1, None, None, Start(WriteOp)), Alone(1, 1, None, None, Transfer)], Calm(5))
  {
    AloneStep(0, 0, None, None, Idle, 0, 0, None, None, WantShare, true, false);
    AloneStep(0, 0, None, None, WantShare, 0, 0, Some(0), None, CheckShare, true, false);
    AloneStep(0, 0, Some(0), None, CheckShare, 0, 1, Some(0), None, ShareGranted, true, false);
    AloneStep(0, 1, Some(0), None, ShareGranted, 0, 1, None, None, Start(WriteOp), true, false);
    AloneStep(0, 1, None, None, Start(WriteOp), 1, 1, None, None, Transfer, true, false);
  }

  /** Its calls: a failure ends it with both counters still up; a stable one goes on to the fsync. */
  lemma WriteGoesOn(stable: bool, fails: bool)
    ensures Step(Alone(1, 1, None, None, Transfer), 0, stable, fails) ==
              Alone(1, 1, None, None, if fails then Idle else if stable then Sync(WriteOp) else Fetch(WriteOp))
    ensures Step(Alone(1, 1, None, None, Sync(WriteOp)), 0, stable, fails) ==
              Alone(1, 1, None, None, if fails then Idle else Fetch(WriteOp))
  {
    assert [Transfer][0 := Idle] == [Idle] && [Sync(WriteOp)][0 := Idle] == [Idle];
    assert [Transfer][0 := Sync(WriteOp)] == [Sync(WriteOp)] && [Transfer][0 := Fetch(WriteOp)] == [Fetch(WriteOp)];
    assert [Sync(WriteOp)][0 := Fetch(WriteOp)] == [Fetch(WriteOp)];
  }

  /** Completion: the last operation is counted out under the mutex. */
  lemma CountsOut(op: Op, writes: int)
    ensures Trail([Alone(1, writes, None, None, Fetch(op)), Alone(1, writes, None, None, Attempt(op, 1)),
                   Alone(1, writes, None, None, WantMutex(op)), Alone(1, writes, None, Some(0), Subtract(op)),
                   Alone(0, writes, None, Some(0), GotZero(op)),
                   Alone(0, writes, None, None, if op == WriteOp then WantRelease else Idle)], Calm(5))
  {
    AloneStep(1, writes, None, None, Fetch(op), 1, writes, None, None, Attempt(op, 1), true, false);
    AloneStep(1, writes, None, None, Attempt(op, 1), 1, writes, None, None, WantMutex(op), true, false);
    AloneStep(1, writes, None, None, WantMutex(op), 1, writes, None, Some(0), Subtract(op), true, false);
    AloneStep(1, writes, None, Some(0), Subtract(op), 0, writes, None, Some(0), GotZero(op), true, false);
    AloneStep(0, writes, None, Some(0), GotZero(op),
              0, writes, None, None, if op == WriteOp then WantRelease else Idle, true, false);
  }

  /** Completion of any other: one compare-exchange without the mutex, tried again if the count has moved. */
  lemma CountsOutEarly(op: Op, io: int, cur: int, writes: int)
    requires -0x8000_0000 < io < 0x8000_0000 && cur != 1
    ensures io != 1 ==>
              Trail([Alone(io, writes, None, None, Fetch(op)), Alone(io, writes, None, None, Attempt(op, io)),
                     Alone(io - 1, writes, None, None, if op == WriteOp then WantRelease else Idle)], Calm(2))
    ensures cur != io ==>
              Step(Alone(io, writes, None, None, Attempt(op, cur)), 0, true, false) == Alone(io, writes, None, None, Attempt(op, io))
  {
    AloneStep(io, writes, None, None, Fetch(op), io, writes, None, None, Attempt(op, io), true, false);
    if io != 1 {
      AloneStep(io, writes, None, None, Attempt(op, io),
                io - 1, writes, None, None, if op == WriteOp then WantRelease else Idle, true, false);
    }
    if cur != io {
      AloneStep(io, writes, None, None, Attempt(op, cur), io, writes, None, None, Attempt(op, io), true, false);
    }
  }

  /** The count was one when loaded, and others came in before the mutex was had: it goes down and stays above zero. */
  lemma CountsOutLate(op: Op, io: int, writes: int)
    requires 1 < io < 0x8000_0000
    ensures Trail([Alone(io, writes, None, None, WantMutex(op)), Alone(io, writes, None, Some(0), Subtract(op)),
                   Alone(io - 1, writes, None, Some(0), NotZero(op)),
                   Alone(io - 1, writes, None, None, if op == WriteOp then WantRelease else Idle)], Calm(3))
  {
    AloneStep(io, writes, None, None, WantMutex(op), io, writes, None, Some(0), Subtract(op), true, false);
    AloneStep(io, writes, None, Some(0), Subtract(op), io - 1, writes, None, Some(0), NotZero(op), true, false);
    AloneStep(io - 1, writes, None, Some(0), NotZero(op),
              io - 1, writes, None, None, if op == WriteOp then WantRelease else Idle, true, false);
  }

  /** The end of a WRITE: the reservation is given back under the lock. */
  lemma WriteEnds()
    ensures Trail([Alone(0, 1, None, None, WantRelease), Alone(0, 1, Some(0), None, ReleaseShare),
                   Alone(0, 0, Some(0), None, Released), Alone(0, 0, None, None, Idle)], Calm(3))
  {
    AloneStep(0, 1, None, None, WantRelease, 0, 1, Some(0), None, ReleaseShare, true, false);
    AloneStep(0, 1, Some(0), None, ReleaseShare, 0, 0, Some(0), None, Released, true, false);
    AloneStep(0, 0, Some(0), None, Released, 0, 0, None, None, Idle, true, false);
  }

  /** A COMMIT up to its completion: counted and synced, or left counted if the fsync fails. */
  lemma CommitBegins(fails: bool)
    ensures Step(Alone(0, 0, None, None, Idle), 0, false, false) == Alone(0, 0, None, None, Start(CommitOp))
    ensures Step(Alone(0, 0, None, None, Start(CommitOp)), 0, false, false) == Alone(1, 0, None, None, Sync(CommitOp))
    ensures Step(Alone(1, 0, None, None, Sync(CommitOp)), 0, false, fails) ==
              Alone(1, 0, None, None, if fails then Idle else Fetch(CommitOp))
  {
    AloneStep(0, 0, None, None, Idle, 0, 0, None, None, Start(CommitOp), false, false);
    AloneStep(0, 0, None, None, Start(CommitOp), 1, 0, None, None, Sync(CommitOp), false, false);
    AloneStep(1, 0, None, None, Sync(CommitOp), 1, 0, None, None, if fails then Idle else Fetch(CommitOp), false, fails);
  }
}
