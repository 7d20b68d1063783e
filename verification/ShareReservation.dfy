/**
  Share reservations on a file: five unsigned counters that stand for the open modes of all current
  holders, a bypass flag, and mandatory write denial.
 */
module ShareReservation {
  import opened Common

  type Flags = bv16

  const FSAL_O_CLOSED: Flags := 0x0000
  const FSAL_O_READ: Flags := 0x0001
  const FSAL_O_WRITE: Flags := 0x0002
  const FSAL_O_DENY_READ: Flags := 0x0100
  const FSAL_O_DENY_WRITE: Flags := 0x0200
  const FSAL_O_DENY_WRITE_MAND: Flags := 0x0400

  const UINT_RANGE: int := 0x1_0000_0000

  predicate Reads(f: Flags) {
    f & FSAL_O_READ != 0
  }

  predicate Writes(f: Flags) {
    f & FSAL_O_WRITE != 0
  }

  predicate DeniesRead(f: Flags) {
    f & FSAL_O_DENY_READ != 0
  }

  predicate DeniesWrite(f: Flags) {
    f & FSAL_O_DENY_WRITE != 0
  }

  predicate DeniesWriteMand(f: Flags) {
    f & FSAL_O_DENY_WRITE_MAND != 0
  }

  function One(b: bool): int {
    if b then 1 else 0
  }

  /** Unsigned 32-bit addition, with its wrap-around. */
  function Plus(c: int, inc: int): int {
    (c + inc) % UINT_RANGE
  }

  datatype Counters = Counters(accessRead: int, accessWrite: int, denyRead: int, denyWrite: int, denyWriteMand: int)

  const NO_SHARES := Counters(0, 0, 0, 0, 0)

  /** update_share_counters. */
  function Shift(c: Counters, was: Flags, now: Flags): Counters {
    var mand := One(DeniesWriteMand(now)) - One(DeniesWriteMand(was));
    Counters(
      Plus(c.accessRead, One(Reads(now)) - One(Reads(was))),
      Plus(c.accessWrite, One(Writes(now)) - One(Writes(was))),
      Plus(c.denyRead, One(DeniesRead(now)) - One(DeniesRead(was))),
      Plus(c.denyWrite, One(DeniesWrite(now)) - One(DeniesWrite(was)) + mand),
      Plus(c.denyWriteMand, mand))
  }

  /** Which counters each open flag counts in: a mandatory write denial in both of the last two. */
  lemma KnownModes()
    ensures Shift(NO_SHARES, 0, 0x001) == Counters(1, 0, 0, 0, 0)
    ensures Shift(NO_SHARES, 0, 0x002) == Counters(0, 1, 0, 0, 0)
    ensures Shift(NO_SHARES, 0, 0x100) == Counters(0, 0, 1, 0, 0)
    ensures Shift(NO_SHARES, 0, 0x200) == Counters(0, 0, 0, 1, 0)
    ensures Shift(NO_SHARES, 0, 0x400) == Counters(0, 0, 0, 1, 1)
    ensures Shift(NO_SHARES, 0, 0xf8fc) == NO_SHARES
  {
    assert Plus(0, 0) == 0 && Plus(0, 1) == 1;
  }

  /** check_share_conflict. */
  predicate Conflict(c: Counters, f: Flags, bypass: bool) {
    || (Reads(f) && c.denyRead > 0 && !bypass)
    || (Writes(f) && (c.denyWriteMand > 0 || (!bypass && c.denyWrite > 0)))
    || (DeniesRead(f) && c.accessRead > 0)
    || ((DeniesWrite(f) || DeniesWriteMand(f)) && c.accessWrite > 0)
  }

  /** The counters as the object the source updates in place. */
  class Share {
    var accessRead: int
    var accessWrite: int
    var denyRead: int
    var denyWrite: int
    var denyWriteMand: int

    ghost function View(): Counters
      reads this
    {
      Counters(accessRead, accessWrite, denyRead, denyWrite, denyWriteMand)
    }

    constructor ()
      ensures View() == NO_SHARES
    {
      accessRead, accessWrite, denyRead, denyWrite, denyWriteMand := 0, 0, 0, 0, 0;
    }

    method UpdateShareCounters(was: Flags, now: Flags)
      modifies this
      ensures View() == Shift(old(View()), was, now)
    {
      var accessReadInc := One(Reads(now)) - One(Reads(was));
      var accessWriteInc := One(Writes(now)) - One(Writes(was));
      var denyReadInc := One(DeniesRead(now)) - One(DeniesRead(was));
      var denyWriteInc := One(DeniesWrite(now)) - One(DeniesWrite(was))
                        + One(DeniesWriteMand(now)) - One(DeniesWriteMand(was));
      var denyWriteMandInc := One(DeniesWriteMand(now)) - One(DeniesWriteMand(was));
      accessRead := Plus(accessRead, accessReadInc);
      accessWrite := Plus(accessWrite, accessWriteInc);
      denyRead := Plus(denyRead, denyReadInc);
      denyWrite := Plus(denyWrite, denyWriteInc);
      denyWriteMand := Plus(denyWriteMand, denyWriteMandInc);
    }

    method CheckShareConflict(f: Flags, bypass: bool) returns (denied: bool)
      ensures denied <==> Conflict(View(), f, bypass)
    {
      if Reads(f) && denyRead > 0 && !bypass {
        return true;
      }
      if Writes(f) && (denyWriteMand > 0 || (!bypass && denyWrite > 0)) {
        return true;
      }
      if DeniesRead(f) && accessRead > 0 {
        return true;
      }
      if (DeniesWrite(f) || DeniesWriteMand(f)) && accessWrite > 0 {
        return true;
      }
      return false;
    }

    /** check_share_conflict_and_update: the reservation is taken exactly when nothing conflicts. */
    method CheckShareConflictAndUpdate(was: Flags, now: Flags, bypass: bool) returns (denied: bool)
      modifies this
      ensures denied <==> Conflict(old(View()), now, bypass)
      ensures View() == if denied then old(View()) else Shift(old(View()), was, now)
    {
      denied := CheckShareConflict(now, bypass);
      if !denied {
        UpdateShareCounters(was, now);
      }
    }
  }

  // ---------------------------------------------------------------- the holders the counters stand for

  /** A current holder: its mode, whether the mode was taken with bypass, and when. */
  datatype Holder = Holder(flags: Flags, bypass: bool, since: nat)

  type Holders = map<nat, Holder>

  function Having(hs: Holders, p: Flags -> bool): set<nat> {
    set h | h in hs && p(hs[h].flags)
  }

  /** The per-flag sums over all holders, as unsigned counters would hold them. */
  function Sums(hs: Holders): Counters {
    Counters(
      |Having(hs, Reads)| % UINT_RANGE,
      |Having(hs, Writes)| % UINT_RANGE,
      |Having(hs, DeniesRead)| % UINT_RANGE,
      (|Having(hs, DeniesWrite)| + |Having(hs, DeniesWriteMand)|) % UINT_RANGE,
      |Having(hs, DeniesWriteMand)| % UINT_RANGE)
  }

  /** No more holders of any one kind than a 32-bit counter can count. */
  predicate Fits(hs: Holders) {
    && |Having(hs, Reads)| < UINT_RANGE
    && |Having(hs, Writes)| < UINT_RANGE
    && |Having(hs, DeniesRead)| < UINT_RANGE
    && |Having(hs, DeniesWrite)| + |Having(hs, DeniesWriteMand)| < UINT_RANGE
  }

  lemma HavingIff(hs: Holders, p: Flags -> bool, h: nat)
    ensures h in Having(hs, p) <==> h in hs && p(hs[h].flags)
  {
  }

  lemma HavingElsewhere(hs: Holders, h: nat, x: Holder, p: Flags -> bool)
    ensures Having(hs, p) - {h} == Having(hs[h := x], p) - {h}
  {
    forall k
      ensures k in Having(hs, p) - {h} <==> k in Having(hs[h := x], p) - {h}
    {
      HavingIff(hs, p, k);
      HavingIff(hs[h := x], p, k);
    }
  }

  lemma HavingSet(hs: Holders, h: nat, x: Holder, p: Flags -> bool)
    ensures |Having(hs[h := x], p)| == |Having(hs, p)| - One(h in hs && p(hs[h].flags)) + One(p(x.flags))
  {
    HavingElsewhere(hs, h, x, p);
    HavingIff(hs, p, h);
    HavingIff(hs[h := x], p, h);
    SizeWithout(Having(hs, p), h);
    SizeWithout(Having(hs[h := x], p), h);
  }

  lemma HavingDropped(hs: Holders, h: nat, p: Flags -> bool)
    requires h in hs
    ensures |Having(hs - {h}, p)| == |Having(hs, p)| - One(p(hs[h].flags))
  {
    assert Having(hs - {h}, p) == Having(hs, p) - {h};
    SizeWithout(Having(hs, p), h);
  }

  lemma SizeWithout(a: set<nat>, h: nat)
    ensures |a - {h}| == |a| - One(h in a)
  {
    if h !in a {
      assert a - {h} == a;
    }
  }

  lemma HavingSize(hs: Holders, p: Flags -> bool)
    ensures |Having(hs, p)| > 0 <==> exists h :: h in hs && p(hs[h].flags)
  {
    if h :| h in hs && p(hs[h].flags) {
      assert h in Having(hs, p);
    }
    if |Having(hs, p)| > 0 {
      var h :| h in Having(hs, p);
    }
  }

  lemma WrapPlus(n: int, inc: int)
    ensures Plus(n % UINT_RANGE, inc) == (n + inc) % UINT_RANGE
  {
  }

  /** Taking or changing a mode keeps the counters equal to the sums. */
  lemma SumsShift(hs: Holders, h: nat, x: Holder)
    ensures Sums(hs[h := x]) == Shift(Sums(hs), ModeOf(hs, h), x.flags)
  {
    AccessShift(hs, h, x);
    CountShift(hs, h, x, DeniesRead);
    CountShift(hs, h, x, DeniesWriteMand);
    DenyWriteShift(hs, h, x);
  }

  lemma AccessShift(hs: Holders, h: nat, x: Holder)
    ensures Sums(hs[h := x]).accessRead == Shift(Sums(hs), ModeOf(hs, h), x.flags).accessRead
    ensures Sums(hs[h := x]).accessWrite == Shift(Sums(hs), ModeOf(hs, h), x.flags).accessWrite
  {
    CountShift(hs, h, x, Reads);
    CountShift(hs, h, x, Writes);
  }

  lemma DenyWriteShift(hs: Holders, h: nat, x: Holder)
    ensures Sums(hs[h := x]).denyWrite == Shift(Sums(hs), ModeOf(hs, h), x.flags).denyWrite
  {
    CountShift(hs, h, x, DeniesWrite);
    CountShift(hs, h, x, DeniesWriteMand);
    var both := |Having(hs, DeniesWrite)| + |Having(hs, DeniesWriteMand)|;
    WrapPlus(both, One(DeniesWrite(x.flags)) - One(DeniesWrite(ModeOf(hs, h)))
                   + (One(DeniesWriteMand(x.flags)) - One(DeniesWriteMand(ModeOf(hs, h)))));
  }

  lemma CountShift(hs: Holders, h: nat, x: Holder, p: Flags -> bool)
    requires !p(FSAL_O_CLOSED)
    ensures |Having(hs[h := x], p)| == |Having(hs, p)| + (One(p(x.flags)) - One(p(ModeOf(hs, h))))
    ensures |Having(hs[h := x], p)| % UINT_RANGE
         == Plus(|Having(hs, p)| % UINT_RANGE, One(p(x.flags)) - One(p(ModeOf(hs, h))))
  {
    HavingSet(hs, h, x, p);
    WrapPlus(|Having(hs, p)|, One(p(x.flags)) - One(p(ModeOf(hs, h))));
  }

  /** Closing gives back exactly what the holder had. */
  lemma SumsDrop(hs: Holders, h: nat)
    requires h in hs
    ensures Sums(hs - {h}) == Shift(Sums(hs), hs[h].flags, FSAL_O_CLOSED)
  {
    CountDrop(hs, h, Reads);
    CountDrop(hs, h, Writes);
    CountDrop(hs, h, DeniesRead);
    CountDrop(hs, h, DeniesWrite);
    CountDrop(hs, h, DeniesWriteMand);
    var both := |Having(hs, DeniesWrite)| + |Having(hs, DeniesWriteMand)|;
    WrapPlus(both, -One(DeniesWrite(hs[h].flags)) - One(DeniesWriteMand(hs[h].flags)));
  }

  lemma CountDrop(hs: Holders, h: nat, p: Flags -> bool)
    requires h in hs && !p(FSAL_O_CLOSED)
    ensures |Having(hs - {h}, p)| == |Having(hs, p)| - One(p(hs[h].flags))
    ensures |Having(hs - {h}, p)| % UINT_RANGE == Plus(|Having(hs, p)| % UINT_RANGE, -One(p(hs[h].flags)))
  {
    HavingDropped(hs, h, p);
    WrapPlus(|Having(hs, p)|, -One(p(hs[h].flags)));
  }

  lemma SmallStays(n: int)
    requires 0 <= n
    ensures n % UINT_RANGE == n <==> n < UINT_RANGE
  {
  }

  /** The counters are the plain sums exactly while the holders fit. */
  lemma SumsExact(hs: Holders)
    ensures Sums(hs) == Counters(|Having(hs, Reads)|, |Having(hs, Writes)|, |Having(hs, DeniesRead)|,
                                 |Having(hs, DeniesWrite)| + |Having(hs, DeniesWriteMand)|, |Having(hs, DeniesWriteMand)|)
            <==> Fits(hs)
  {
    SmallStays(|Having(hs, Reads)|);
    SmallStays(|Having(hs, Writes)|);
    SmallStays(|Having(hs, DeniesRead)|);
    SmallStays(|Having(hs, DeniesWrite)| + |Having(hs, DeniesWriteMand)|);
    SmallStays(|Having(hs, DeniesWriteMand)|);
  }

  /** What a share conflict means between a request and one holder, without counters. */
  predicate Clashes(f: Flags, bypass: bool, h: Holder) {
    || (Reads(f) && DeniesRead(h.flags) && !bypass)
    || (Writes(f) && DeniesWriteMand(h.flags))
    || (Writes(f) && DeniesWrite(h.flags) && !bypass)
    || (DeniesRead(f) && Reads(h.flags))
    || ((DeniesWrite(f) || DeniesWriteMand(f)) && Writes(h.flags))
  }

  /** Some holder has the property. */
  ghost predicate Someone(hs: Holders, p: Flags -> bool) {
    exists h :: h in hs && p(hs[h].flags)
  }

  /** The request clashes with some current holder. */
  ghost predicate ClashesAny(hs: Holders, f: Flags, bypass: bool) {
    exists h :: h in hs && Clashes(f, bypass, hs[h])
  }

  lemma ClashesBySome(hs: Holders, f: Flags, bypass: bool)
    ensures ClashesAny(hs, f, bypass) <==>
              || (Reads(f) && Someone(hs, DeniesRead) && !bypass)
              || (Writes(f) && Someone(hs, DeniesWriteMand))
              || (Writes(f) && Someone(hs, DeniesWrite) && !bypass)
              || (DeniesRead(f) && Someone(hs, Reads))
              || ((DeniesWrite(f) || DeniesWriteMand(f)) && Someone(hs, Writes))
  {
  }

  /** A 32-bit counter of n tells none from some. */
  predicate Seen(n: nat) {
    n == 0 || n % UINT_RANGE != 0
  }

  /** No kind of holder is so numerous that its counter reads zero. */
  predicate Countable(hs: Holders) {
    && Seen(|Having(hs, Reads)|)
    && Seen(|Having(hs, Writes)|)
    && Seen(|Having(hs, DeniesRead)|)
    && Seen(|Having(hs, DeniesWriteMand)|)
    && (|Having(hs, DeniesWriteMand)| == 0 ==> Seen(|Having(hs, DeniesWrite)|))
  }

  lemma HavingSizes(hs: Holders)
    ensures |Having(hs, Reads)| > 0 <==> Someone(hs, Reads)
    ensures |Having(hs, Writes)| > 0 <==> Someone(hs, Writes)
    ensures |Having(hs, DeniesRead)| > 0 <==> Someone(hs, DeniesRead)
    ensures |Having(hs, DeniesWrite)| > 0 <==> Someone(hs, DeniesWrite)
    ensures |Having(hs, DeniesWriteMand)| > 0 <==> Someone(hs, DeniesWriteMand)
  {
    HavingSize(hs, Reads);
    HavingSize(hs, Writes);
    HavingSize(hs, DeniesRead);
    HavingSize(hs, DeniesWrite);
    HavingSize(hs, DeniesWriteMand);
  }

  /** The counters never refuse without a clash. */
  lemma ConflictIsReal(hs: Holders, f: Flags, bypass: bool)
    ensures Conflict(Sums(hs), f, bypass) ==> ClashesAny(hs, f, bypass)
  {
    HavingSizes(hs);
    ClashesBySome(hs, f, bypass);
  }

  lemma ClashIsSeen(hs: Holders, f: Flags, bypass: bool)
    requires Countable(hs)
    ensures ClashesAny(hs, f, bypass) ==> Conflict(Sums(hs), f, bypass)
  {
    HavingSizes(hs);
    ClashesBySome(hs, f, bypass);
  }

  lemma UnseenReaders(hs: Holders)
    requires !Seen(|Having(hs, Reads)|)
    ensures !Conflict(Sums(hs), FSAL_O_DENY_READ, false) && ClashesAny(hs, FSAL_O_DENY_READ, false)
  {
    HavingSize(hs, Reads);
    ClashesBySome(hs, FSAL_O_DENY_READ, false);
  }

  lemma UnseenWriters(hs: Holders)
    requires !Seen(|Having(hs, Writes)|)
    ensures !Conflict(Sums(hs), FSAL_O_DENY_WRITE, false) && ClashesAny(hs, FSAL_O_DENY_WRITE, false)
  {
    HavingSize(hs, Writes);
    ClashesBySome(hs, FSAL_O_DENY_WRITE, false);
  }

  lemma UnseenReadDenials(hs: Holders)
    requires !Seen(|Having(hs, DeniesRead)|)
    ensures !Conflict(Sums(hs), FSAL_O_READ, false) && ClashesAny(hs, FSAL_O_READ, false)
  {
    HavingSize(hs, DeniesRead);
    ClashesBySome(hs, FSAL_O_READ, false);
  }

  lemma UnseenMandatory(hs: Holders)
    requires !Seen(|Having(hs, DeniesWriteMand)|)
    ensures !Conflict(Sums(hs), FSAL_O_WRITE, true) && ClashesAny(hs, FSAL_O_WRITE, true)
    ensures Someone(hs, DeniesWriteMand)
  {
    HavingSize(hs, DeniesWriteMand);
    ClashesBySome(hs, FSAL_O_WRITE, true);
  }

  lemma UnseenWriteDenials(hs: Holders)
    requires |Having(hs, DeniesWriteMand)| == 0 && !Seen(|Having(hs, DeniesWrite)|)
    ensures !Conflict(Sums(hs), FSAL_O_WRITE, false) && ClashesAny(hs, FSAL_O_WRITE, false)
  {
    HavingSize(hs, DeniesWrite);
    ClashesBySome(hs, FSAL_O_WRITE, false);
  }

  /** A clash that the counters do not see, for holders that wrap one of them to zero. */
  lemma UnseenClash(hs: Holders) returns (f: Flags, bypass: bool)
    requires !Countable(hs)
    ensures !Conflict(Sums(hs), f, bypass) && ClashesAny(hs, f, bypass)
    ensures f == FSAL_O_DENY_READ || f == FSAL_O_DENY_WRITE || f == FSAL_O_READ || f == FSAL_O_WRITE
    ensures bypass ==> f == FSAL_O_WRITE && Someone(hs, DeniesWriteMand)
  {
    if !Seen(|Having(hs, Reads)|) {
      f, bypass := FSAL_O_DENY_READ, false;
      UnseenReaders(hs);
    } else if !Seen(|Having(hs, Writes)|) {
      f, bypass := FSAL_O_DENY_WRITE, false;
      UnseenWriters(hs);
    } else if !Seen(|Having(hs, DeniesRead)|) {
      f, bypass := FSAL_O_READ, false;
      UnseenReadDenials(hs);
    } else if !Seen(|Having(hs, DeniesWriteMand)|) {
      f, bypass := FSAL_O_WRITE, true;
      UnseenMandatory(hs);
    } else {
      f, bypass := FSAL_O_WRITE, false;
      UnseenWriteDenials(hs);
    }
  }

  /** The counters refuse exactly the requests that clash with some holder, if and only if the holders are countable. */
  lemma ConflictIsClash(hs: Holders)
    ensures (forall f, bypass :: Conflict(Sums(hs), f, bypass) <==> ClashesAny(hs, f, bypass)) <==> Countable(hs)
  {
    if Countable(hs) {
      forall f, bypass
        ensures Conflict(Sums(hs), f, bypass) <==> ClashesAny(hs, f, bypass)
      {
        ConflictIsReal(hs, f, bypass);
        ClashIsSeen(hs, f, bypass);
      }
    } else {
      var f, bypass := UnseenClash(hs);
    }
  }

  // ---------------------------------------------------------------- runs

  datatype ShareState = ShareState(counters: Counters, holders: Holders, clock: nat)

  datatype ShareStep =
    | Take(h: nat, flags: Flags, bypass: bool)    // open, or change the mode of an existing holder
    | Release(h: nat)

  const START := ShareState(NO_SHARES, map[], 1)

  function ModeOf(hs: Holders, h: nat): Flags {
    if h in hs then hs[h].flags else FSAL_O_CLOSED
  }

  /** One step.  A refused request changes nothing; releasing what is not held does not happen. */
  function Step(s: ShareState, st: ShareStep): ShareState {
    match st
    case Take(h, f, bypass) =>
      if Conflict(s.counters, f, bypass) then s
      else ShareState(Shift(s.counters, ModeOf(s.holders, h), f), s.holders[h := Holder(f, bypass, s.clock)], s.clock + 1)
    case Release(h) =>
      if h !in s.holders then s
      else ShareState(Shift(s.counters, s.holders[h].flags, FSAL_O_CLOSED), s.holders - {h}, s.clock + 1)
  }

  function RunShares(s: ShareState, steps: seq<ShareStep>): ShareState
    decreases |steps|
  {
    if steps == [] then s else RunShares(Step(s, steps[0]), steps[1..])
  }

  /** In no state that the run leaves does a counter read zero for holders it has. */
  predicate CountableThroughout(s: ShareState, steps: seq<ShareStep>)
    decreases |steps|
  {
    steps == [] || (Countable(s.holders) && CountableThroughout(Step(s, steps[0]), steps[1..]))
  }

  /** a has an access that b denies. */
  predicate AccessDenied(a: Holder, b: Holder) {
    || (Reads(a.flags) && DeniesRead(b.flags))
    || (Writes(a.flags) && (DeniesWrite(b.flags) || DeniesWriteMand(b.flags)))
  }

  /** a does not write against a mandatory deny of b; any other access that b denies is a later bypass. */
  predicate SafePair(a: Holder, b: Holder) {
    && !(Writes(a.flags) && DeniesWriteMand(b.flags))
    && (AccessDenied(a, b) ==> a.bypass && a.since > b.since)
  }

  /** Every two distinct holders are safe against each other. */
  ghost predicate Safe(hs: Holders, clock: nat) {
    && (forall h :: h in hs ==> hs[h].since < clock)
    && (forall a, b :: a in hs && b in hs && a != b ==> SafePair(hs[a], hs[b]))
  }

  lemma {:induction false} CountersAreSums(s: ShareState, steps: seq<ShareStep>)
    requires s.counters == Sums(s.holders)
    ensures var t := RunShares(s, steps);
            t.counters == Sums(t.holders)
    decreases |steps|
  {
    if steps != [] {
      match steps[0] {
        case Take(h, f, bypass) => SumsShift(s.holders, h, Holder(f, bypass, s.clock));
        case Release(h) => if h in s.holders { SumsDrop(s.holders, h); }
      }
      CountersAreSums(Step(s, steps[0]), steps[1..]);
    }
  }

  lemma NewcomerSafe(x: Holder, b: Holder)
    requires !Clashes(x.flags, x.bypass, b) && x.since > b.since
    ensures SafePair(x, b) && SafePair(b, x)
  {
  }

  lemma TakeSafe(hs: Holders, clock: nat, h: nat, x: Holder)
    requires Safe(hs, clock) && !ClashesAny(hs, x.flags, x.bypass) && x.since == clock
    ensures Safe(hs[h := x], clock + 1)
  {
    forall b | b in hs
      ensures SafePair(x, hs[b]) && SafePair(hs[b], x)
    {
      NewcomerSafe(x, hs[b]);
    }
  }

  lemma StepSafe(s: ShareState, st: ShareStep)
    requires s.counters == Sums(s.holders) && Countable(s.holders) && Safe(s.holders, s.clock)
    ensures Safe(Step(s, st).holders, Step(s, st).clock)
  {
    if st.Take? && !Conflict(s.counters, st.flags, st.bypass) {
      ClashIsSeen(s.holders, st.flags, st.bypass);
      TakeSafe(s.holders, s.clock, st.h, Holder(st.flags, st.bypass, s.clock));
    }
  }

  lemma {:induction false} AboveAll(ks: set<nat>) returns (n: nat)
    ensures forall k :: k in ks ==> k < n
  {
    if ks == {} {
      n := 0;
    } else {
      var k :| k in ks;
      var m := AboveAll(ks - {k});
      n := Max(m, k + 1);
      assert forall j :: j in ks ==> j == k || j in ks - {k};
    }
  }

  /** A new holder that takes what the counters do not see clash makes the holders unsafe. */
  lemma UnseenTakeIsUnsafe(s: ShareState) returns (st: ShareStep)
    requires s.counters == Sums(s.holders) && !Countable(s.holders)
    ensures Safe(s.holders, s.clock) ==> !Safe(Step(s, st).holders, Step(s, st).clock)
  {
    var f, bypass := UnseenClash(s.holders);
    var n := AboveAll(s.holders.Keys);
    assert n !in s.holders.Keys;
    st := Take(n, f, bypass);
    var h :| h in s.holders && if bypass then DeniesWriteMand(s.holders[h].flags) else Clashes(f, bypass, s.holders[h]);
    var hs' := Step(s, st).holders;
    assert hs'[n] == Holder(f, bypass, s.clock) && hs'[h] == s.holders[h] && h != n;
    assert !bypass ==> AccessDenied(hs'[n], hs'[h]) || AccessDenied(hs'[h], hs'[n]);
  }

  /** From a safe state every step is safe if and only if the holders are countable. */
  lemma EveryStepSafeIff(s: ShareState)
    requires s.counters == Sums(s.holders) && Safe(s.holders, s.clock)
    ensures (forall st :: Safe(Step(s, st).holders, Step(s, st).clock)) <==> Countable(s.holders)
  {
    if Countable(s.holders) {
      forall st
        ensures Safe(Step(s, st).holders, Step(s, st).clock)
      {
        StepSafe(s, st);
      }
    } else {
      var st := UnseenTakeIsUnsafe(s);
    }
  }

  lemma {:induction false} RunSafe(s: ShareState, steps: seq<ShareStep>)
    requires s.counters == Sums(s.holders) && Safe(s.holders, s.clock) && CountableThroughout(s, steps)
    ensures Safe(RunShares(s, steps).holders, RunShares(s, steps).clock)
    decreases |steps|
  {
    if steps != [] {
      CountersAreSums(s, [steps[0]]);
      assert RunShares(s, [steps[0]]) == RunShares(Step(s, steps[0]), []);
      StepSafe(s, steps[0]);
      RunSafe(Step(s, steps[0]), steps[1..]);
    }
  }

  /**
    Over every run of opens, mode changes and closes from a fresh file: the five counters are the per-flag
    sums over the current holders modulo 2^32 (so, while the holders fit, none underflows and denyWrite covers
    denyWriteMand), and the holders are safe against each other as long as the run leaves no state whose
    holders a counter cannot see.
   */
  lemma EveryRunSafe(steps: seq<ShareStep>)
    ensures var s := RunShares(START, steps);
            && s.counters == Sums(s.holders)
            && (Fits(s.holders) ==>
                  && s.counters.accessRead == |Having(s.holders, Reads)|
                  && s.counters.accessWrite == |Having(s.holders, Writes)|
                  && s.counters.denyRead == |Having(s.holders, DeniesRead)|
                  && s.counters.denyWrite == |Having(s.holders, DeniesWrite)| + |Having(s.holders, DeniesWriteMand)|
                  && s.counters.denyWriteMand == |Having(s.holders, DeniesWriteMand)|)
            && (CountableThroughout(START, steps) ==> Safe(s.holders, s.clock))
  {
    EmptySums();
    CountersAreSums(START, steps);
    if CountableThroughout(START, steps) {
      RunSafe(START, steps);
    }
    SumsExact(RunShares(START, steps).holders);
  }

  lemma EmptySums()
    ensures Sums(map[]) == NO_SHARES
  {
    var none: Holders := map[];
    assert forall p :: Having(none, p) == {};
    SumsExact(none);
  }

  ghost predicate NeverBypassed(steps: seq<ShareStep>) {
    forall i :: 0 <= i < |steps| && steps[i].Take? ==> !steps[i].bypass
  }

  lemma {:induction false} HoldersNotBypassed(s: ShareState, steps: seq<ShareStep>)
    requires NeverBypassed(steps) && forall h :: h in s.holders ==> !s.holders[h].bypass
    ensures forall h :: h in RunShares(s, steps).holders ==> !RunShares(s, steps).holders[h].bypass
    decreases |steps|
  {
    if steps != [] {
      HoldersNotBypassed(Step(s, steps[0]), steps[1..]);
    }
  }

  /** Without bypass, no holder ever has an access that another holder denies. */
  lemma NoBypassNoClash(steps: seq<ShareStep>)
    requires CountableThroughout(START, steps) && NeverBypassed(steps)
    ensures var hs := RunShares(START, steps).holders;
            forall a, b :: a in hs && b in hs && a != b ==> !AccessDenied(hs[a], hs[b])
  {
    EveryRunSafe(steps);
    HoldersNotBypassed(START, steps);
  }

  /** With bypass the ordinary denials can be overridden, as this run shows. */
  lemma BypassCanClash()
    ensures var steps := [Take(0, FSAL_O_DENY_READ, false), Take(1, FSAL_O_READ, true)];
            var hs := RunShares(START, steps).holders;
            0 in hs && 1 in hs && AccessDenied(hs[1], hs[0])
  {
    var st0, st1 := Take(0, FSAL_O_DENY_READ, false), Take(1, FSAL_O_READ, true);
    var s1 := Step(START, st0);
    assert s1.counters == Counters(0, 0, 1, 0, 0);
    var s2 := Step(s1, st1);
    assert [st0, st1][1..] == [st1];
    assert RunShares(s1, [st1]) == RunShares(s2, []);
  }

  // ---------------------------------------------------------------- a run past the counters

  lemma {:induction false} RunJoin(s: ShareState, a: seq<ShareStep>, b: seq<ShareStep>)
    ensures RunShares(s, a + b) == RunShares(RunShares(s, a), b)
    decreases |a|
  {
    if a == [] {
      assert a + b == b;
    } else {
      RunJoin(Step(s, a[0]), a[1..], b);
      assert (a + b)[1..] == a[1..] + b;
    }
  }

  /** n openers, one after the other, that deny writing mandatorily. */
  function Denials(n: nat): seq<ShareStep> {
    if n == 0 then [] else Denials(n - 1) + [Take(n - 1, FSAL_O_DENY_WRITE_MAND, false)]
  }

  function Deniers(n: nat): Holders {
    if n == 0 then map[] else Deniers(n - 1)[n - 1 := Holder(FSAL_O_DENY_WRITE_MAND, false, n)]
  }

  lemma {:induction false} DenierIn(n: nat, k: nat)
    ensures k in Deniers(n) <==> k < n
    ensures k < n ==> DeniesWriteMand(Deniers(n)[k].flags)
  {
    if n > 0 {
      DenierIn(n - 1, k);
    }
  }

  function Denied(n: nat): ShareState {
    ShareState(Counters(0, 0, 0, n % UINT_RANGE, n % UINT_RANGE), Deniers(n), n + 1)
  }

  lemma OneMore(n: nat)
    ensures Step(Denied(n), Take(n, FSAL_O_DENY_WRITE_MAND, false)) == Denied(n + 1)
  {
    DenierIn(n, n);
    WrapPlus(n, 1);
  }

  /** All of them are granted, however many: the counters wrap and nobody is refused. */
  lemma {:induction false} DenialsGranted(n: nat)
    ensures RunShares(START, Denials(n)) == Denied(n)
  {
    if n > 0 {
      DenialsGranted(n - 1);
      OneMore(n - 1);
      AndThen(START, Denials(n - 1), Take(n - 1, FSAL_O_DENY_WRITE_MAND, false));
    }
  }

  lemma AndThen(s: ShareState, a: seq<ShareStep>, st: ShareStep)
    ensures RunShares(s, a + [st]) == Step(RunShares(s, a), st)
  {
    RunJoin(s, a, [st]);
    assert RunShares(RunShares(s, a), [st]) == RunShares(Step(RunShares(s, a), st), []);
  }

  /** After 2^32 of them the counters read zero, and a writer is let in against all of them. */
  lemma WrappedCounterLetsWriterIn()
    ensures var s := RunShares(START, Denials(UINT_RANGE) + [Take(UINT_RANGE, FSAL_O_WRITE, false)]);
            && UINT_RANGE in s.holders && Writes(s.holders[UINT_RANGE].flags)
            && 0 in s.holders && DeniesWriteMand(s.holders[0].flags)
            && !Safe(s.holders, s.clock)
  {
    DenialsGranted(UINT_RANGE);
    DenierIn(UINT_RANGE, 0);
    DenierIn(UINT_RANGE, UINT_RANGE);
    var s, st := RunShares(START, Denials(UINT_RANGE)), Take(UINT_RANGE, FSAL_O_WRITE, false);
    AndThen(START, Denials(UINT_RANGE), st);
    var s' := Step(s, st);
    assert 0 in s.holders && s'.holders[0] == s.holders[0] && s'.holders[UINT_RANGE].flags == FSAL_O_WRITE;
  }
}
