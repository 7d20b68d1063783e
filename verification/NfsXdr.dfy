/**
  The NFSv3 codecs (data types of section 2.5 of RFC 1813): attributes, weak cache consistency data,
  settable attributes, the CREATE arguments and results, and the READDIRPLUS directory list.
 */
module NfsXdr {
  import opened Common
  import opened Xdr

  const NFS3_FHSIZE: uint32 := 64
  const XDR_STRING_MAXLEN: uint32 := 8 * 1024

  const SET_TO_CLIENT_TIME: uint32 := 2

  // ---------------------------------------------------------------- times and attributes

  datatype NfsTime3 = NfsTime3(sec: uint32, nsec: uint32)

  function ToTime(p: (uint32, uint32)): NfsTime3 {
    NfsTime3(p.0, p.1)
  }

  function OfTime(t: NfsTime3): Option<(uint32, uint32)> {
    Some((t.sec, t.nsec))
  }

  function TimeCodec(): Codec<NfsTime3> {
    Conv(Pair(U32(), U32()), ToTime, OfTime)
  }

  lemma TimeLawful()
    ensures Lawful(TimeCodec())
  {
    U32Lawful();
    PairLawful(U32(), U32());
    ConvLawful(Pair(U32(), U32()), ToTime, OfTime);
  }

  function Twice<A>(c: Codec<A>): Codec<(A, A)> {
    Pair(c, c)
  }

  datatype Owner = Owner(ftype: uint32, mode: uint32, nlink: uint32, uid: uint32, gid: uint32)

  datatype Extent = Extent(size: uint64, used: uint64, rdev1: uint32, rdev2: uint32, fsid: uint64, fileid: uint64)

  datatype Times = Times(atime: NfsTime3, mtime: NfsTime3, ctime: NfsTime3)

  /** fattr3; its thirteen fields, in order, are those of the three parts. */
  datatype Fattr3 = Fattr3(owner: Owner, extent: Extent, times: Times)

  type OwnerFields = ((uint32, uint32), ((uint32, uint32), uint32))

  function ToOwner(p: OwnerFields): Owner {
    Owner(p.0.0, p.0.1, p.1.0.0, p.1.0.1, p.1.1)
  }

  function OfOwner(a: Owner): Option<OwnerFields> {
    Some(((a.ftype, a.mode), ((a.nlink, a.uid), a.gid)))
  }

  function OwnerCodec(): Codec<Owner> {
    Conv(Pair(Twice(U32()), Pair(Twice(U32()), U32())), ToOwner, OfOwner)
  }

  lemma OwnerLawful()
    ensures Lawful(OwnerCodec())
  {
    U32Lawful();
    PairLawful(U32(), U32());
    PairLawful(Twice(U32()), U32());
    PairLawful(Twice(U32()), Pair(Twice(U32()), U32()));
    ConvLawful(Pair(Twice(U32()), Pair(Twice(U32()), U32())), ToOwner, OfOwner);
  }

  type ExtentFields = ((uint64, uint64), ((uint32, uint32), (uint64, uint64)))

  function ToExtent(p: ExtentFields): Extent {
    Extent(p.0.0, p.0.1, p.1.0.0, p.1.0.1, p.1.1.0, p.1.1.1)
  }

  function OfExtent(a: Extent): Option<ExtentFields> {
    Some(((a.size, a.used), ((a.rdev1, a.rdev2), (a.fsid, a.fileid))))
  }

  function ExtentCodec(): Codec<Extent> {
    Conv(Pair(Twice(U64()), Pair(Twice(U32()), Twice(U64()))), ToExtent, OfExtent)
  }

  lemma ExtentLawful()
    ensures Lawful(ExtentCodec())
  {
    U32Lawful();
    U64Lawful();
    PairLawful(U32(), U32());
    PairLawful(U64(), U64());
    PairLawful(Twice(U32()), Twice(U64()));
    PairLawful(Twice(U64()), Pair(Twice(U32()), Twice(U64())));
    ConvLawful(Pair(Twice(U64()), Pair(Twice(U32()), Twice(U64()))), ToExtent, OfExtent);
  }

  function ToTimes(p: (NfsTime3, (NfsTime3, NfsTime3))): Times {
    Times(p.0, p.1.0, p.1.1)
  }

  function OfTimes(t: Times): Option<(NfsTime3, (NfsTime3, NfsTime3))> {
    Some((t.atime, (t.mtime, t.ctime)))
  }

  function TimesCodec(): Codec<Times> {
    Conv(Pair(TimeCodec(), Twice(TimeCodec())), ToTimes, OfTimes)
  }

  lemma TimesLawful()
    ensures Lawful(TimesCodec())
  {
    TimeLawful();
    PairLawful(TimeCodec(), TimeCodec());
    PairLawful(TimeCodec(), Twice(TimeCodec()));
    ConvLawful(Pair(TimeCodec(), Twice(TimeCodec())), ToTimes, OfTimes);
  }

  function ToFattr3(p: (Owner, (Extent, Times))): Fattr3 {
    Fattr3(p.0, p.1.0, p.1.1)
  }

  function OfFattr3(a: Fattr3): Option<(Owner, (Extent, Times))> {
    Some((a.owner, (a.extent, a.times)))
  }

  function Fattr3Codec(): Codec<Fattr3> {
    Conv(Pair(OwnerCodec(), Pair(ExtentCodec(), TimesCodec())), ToFattr3, OfFattr3)
  }

  lemma Fattr3Lawful()
    ensures Lawful(Fattr3Codec())
  {
    OwnerLawful();
    ExtentLawful();
    TimesLawful();
    PairLawful(ExtentCodec(), TimesCodec());
    PairLawful(OwnerCodec(), Pair(ExtentCodec(), TimesCodec()));
    ConvLawful(Pair(OwnerCodec(), Pair(ExtentCodec(), TimesCodec())), ToFattr3, OfFattr3);
  }

  function PostOpAttrCodec(): Codec<Option<Fattr3>> {
    Optional(Bool(), Fattr3Codec())
  }

  lemma PostOpAttrLawful()
    ensures Lawful(PostOpAttrCodec())
  {
    BoolLawful();
    Fattr3Lawful();
    OptionalLawful(Bool(), Fattr3Codec());
  }

  datatype WccAttr = WccAttr(size: uint64, mtime: NfsTime3, ctime: NfsTime3)

  function ToWccAttr(p: (uint64, (NfsTime3, NfsTime3))): WccAttr {
    WccAttr(p.0, p.1.0, p.1.1)
  }

  function OfWccAttr(a: WccAttr): Option<(uint64, (NfsTime3, NfsTime3))> {
    Some((a.size, (a.mtime, a.ctime)))
  }

  function WccAttrCodec(): Codec<WccAttr> {
    Conv(Pair(U64(), Twice(TimeCodec())), ToWccAttr, OfWccAttr)
  }

  lemma WccAttrLawful()
    ensures Lawful(WccAttrCodec())
  {
    U64Lawful();
    TimeLawful();
    PairLawful(TimeCodec(), TimeCodec());
    PairLawful(U64(), Twice(TimeCodec()));
    ConvLawful(Pair(U64(), Twice(TimeCodec())), ToWccAttr, OfWccAttr);
  }

  /** wcc_data: the attributes before, if known, and after, if known. */
  function WccDataCodec(): Codec<(Option<WccAttr>, Option<Fattr3>)> {
    Pair(Optional(Bool(), WccAttrCodec()), PostOpAttrCodec())
  }

  lemma WccDataLawful()
    ensures Lawful(WccDataCodec())
  {
    BoolLawful();
    WccAttrLawful();
    OptionalLawful(Bool(), WccAttrCodec());
    PostOpAttrLawful();
    PairLawful(Optional(Bool(), WccAttrCodec()), PostOpAttrCodec());
  }

  lemma TimeReads(b: Bytes)
    ensures TimeCodec().dec(b).Some? <==> |b| >= 8
    ensures |b| >= 8 ==> TimeCodec().dec(b) == Some((NfsTime3(Word(b[0], b[1], b[2], b[3]),
                                                              Word(b[4], b[5], b[6], b[7])), b[8..]))
  {
    U32Reads(b);
    if |b| >= 4 {
      U32Reads(b[4..]);
      assert |b| >= 8 ==> b[4..][4..] == b[8..];
    }
  }

  // ---------------------------------------------------------------- settable attributes

  /** set_atime and set_mtime: a client time, or a code that carries no time (any other code decodes). */
  datatype SetTime = ClientTime(time: NfsTime3) | ByCode(how: uint32)

  function SetTimeTag(t: SetTime): uint32 {
    if t.ClientTime? then SET_TO_CLIENT_TIME else t.how
  }

  function ToClientTime(t: NfsTime3): SetTime {
    ClientTime(t)
  }

  function OfClientTime(t: SetTime): Option<NfsTime3> {
    if t.ClientTime? then Some(t.time) else None
  }

  function CodeOnly(w: uint32): Codec<SetTime> {
    Conv(Nothing(), _ => ByCode(w), (t: SetTime) => if t == ByCode(w) then Some(Void) else None)
  }

  lemma CodeOnlyLawful(w: uint32)
    ensures Lawful(CodeOnly(w))
  {
    NothingLawful();
  }

  function SetTimeArm(w: uint32): Codec<SetTime> {
    if w == SET_TO_CLIENT_TIME then Conv(TimeCodec(), ToClientTime, OfClientTime) else CodeOnly(w)
  }

  function SetTimeCodec(): Codec<SetTime> {
    Switch(U32(), SetTimeTag, SetTimeArm)
  }

  lemma SetTimeArmLawful(w: uint32)
    ensures LawfulArm(SetTimeTag, w, SetTimeArm(w))
  {
    if w == SET_TO_CLIENT_TIME {
      TimeLawful();
      ConvLawful(TimeCodec(), ToClientTime, OfClientTime);
    } else {
      CodeOnlyLawful(w);
    }
  }

  lemma SetTimeLawful()
    ensures Lawful(SetTimeCodec())
  {
    U32Lawful();
    forall w
      ensures LawfulArm(SetTimeTag, w, SetTimeArm(w))
    {
      SetTimeArmLawful(w);
    }
    SwitchLawful(U32(), SetTimeTag, SetTimeArm);
  }

  /** The encoder accepts every settable time but the code that promises a time and has none. */
  lemma SetTimeAccepts(t: SetTime)
    ensures SetTimeCodec().enc(t).Some? <==> t != ByCode(2)
  {
  }

  /** Only the code 2 has a time after it, and any other code is taken as it is. */
  lemma SetTimeReads(b: Bytes)
    ensures |b| < 4 ==> SetTimeCodec().dec(b).None?
    ensures |b| >= 4 ==> var w := Word(b[0], b[1], b[2], b[3]);
                         SetTimeCodec().dec(b) ==
                         if w != 2 then Some((ByCode(w), b[4..]))
                         else if |b| < 12 then None
                         else Some((ClientTime(NfsTime3(Word(b[4], b[5], b[6], b[7]),
                                                        Word(b[8], b[9], b[10], b[11]))), b[12..]))
  {
    U32Reads(b);
    if |b| >= 4 {
      TimeReads(b[4..]);
      assert |b| >= 12 ==> b[4..][8..] == b[12..];
    }
  }

  datatype Sattr3 = Sattr3(
    mode: Option<uint32>, uid: Option<uint32>, gid: Option<uint32>, size: Option<uint64>, atime: SetTime, mtime: SetTime)

  type SattrFields = ((Option<uint32>, Option<uint32>), ((Option<uint32>, Option<uint64>), (SetTime, SetTime)))

  function ToSattr3(p: SattrFields): Sattr3 {
    Sattr3(p.0.0, p.0.1, p.1.0.0, p.1.0.1, p.1.1.0, p.1.1.1)
  }

  function OfSattr3(a: Sattr3): Option<SattrFields> {
    Some(((a.mode, a.uid), ((a.gid, a.size), (a.atime, a.mtime))))
  }

  /** set_mode3, set_uid3 and set_gid3: a word that may be absent. */
  function Set32Codec(): Codec<Option<uint32>> {
    Optional(Bool(), U32())
  }

  function SetSizeCodec(): Codec<Option<uint64>> {
    Optional(Bool(), U64())
  }

  function Sattr3Codec(): Codec<Sattr3> {
    Conv(Pair(Twice(Set32Codec()), Pair(Pair(Set32Codec(), SetSizeCodec()), Twice(SetTimeCodec()))), ToSattr3, OfSattr3)
  }

  lemma Sattr3Lawful()
    ensures Lawful(Sattr3Codec())
  {
    BoolLawful();
    U32Lawful();
    U64Lawful();
    OptionalLawful(Bool(), U32());
    OptionalLawful(Bool(), U64());
    SetTimeLawful();
    PairLawful(SetTimeCodec(), SetTimeCodec());
    PairLawful(Set32Codec(), SetSizeCodec());
    PairLawful(Set32Codec(), Set32Codec());
    var tail := Pair(Pair(Set32Codec(), SetSizeCodec()), Twice(SetTimeCodec()));
    PairLawful(Pair(Set32Codec(), SetSizeCodec()), Twice(SetTimeCodec()));
    PairLawful(Twice(Set32Codec()), tail);
    ConvLawful(Pair(Twice(Set32Codec()), tail), ToSattr3, OfSattr3);
  }

  // ---------------------------------------------------------------- file handles

  function HandleCodec(): Codec<Bytes> {
    Counted(U32(), NFS3_FHSIZE)
  }

  lemma HandleLawful()
    ensures Lawful(HandleCodec())
  {
    U32Lawful();
    CountedLawful(U32(), NFS3_FHSIZE);
  }

  function PostOpFhCodec(): Codec<Option<Bytes>> {
    Optional(Bool(), HandleCodec())
  }

  lemma PostOpFhLawful()
    ensures Lawful(PostOpFhCodec())
  {
    BoolLawful();
    HandleLawful();
    OptionalLawful(Bool(), HandleCodec());
  }

  // ---------------------------------------------------------------- CREATE

  /** createhow3: unchecked and guarded carry attributes, exclusive an eight-byte verifier. */
  datatype CreateHow = Unchecked(attr: Sattr3) | Guarded(attr: Sattr3) | Exclusive(verf: Bytes)

  function HowTag(h: CreateHow): uint32 {
    match h
    case Unchecked(_) => 0
    case Guarded(_) => 1
    case Exclusive(_) => 2
  }

  function ToUnchecked(a: Sattr3): CreateHow { Unchecked(a) }

  function OfUnchecked(h: CreateHow): Option<Sattr3> {
    if h.Unchecked? then Some(h.attr) else None
  }

  function ToGuarded(a: Sattr3): CreateHow { Guarded(a) }

  function OfGuarded(h: CreateHow): Option<Sattr3> {
    if h.Guarded? then Some(h.attr) else None
  }

  function ToExclusive(v: Bytes): CreateHow { Exclusive(v) }

  function OfExclusive(h: CreateHow): Option<Bytes> {
    if h.Exclusive? then Some(h.verf) else None
  }

  function HowArm(w: uint32): Codec<CreateHow> {
    if w == 0 then Conv(Sattr3Codec(), ToUnchecked, OfUnchecked)
    else if w == 1 then Conv(Sattr3Codec(), ToGuarded, OfGuarded)
    else if w == 2 then Conv(Opaque(8), ToExclusive, OfExclusive)
    else Refuse()
  }

  lemma UncheckedLawful(c: Codec<Sattr3>)
    requires Lawful(c)
    ensures LawfulArm(HowTag, 0, Conv(c, ToUnchecked, OfUnchecked))
  {
    ConvLawful(c, ToUnchecked, OfUnchecked);
  }

  lemma GuardedLawful(c: Codec<Sattr3>)
    requires Lawful(c)
    ensures LawfulArm(HowTag, 1, Conv(c, ToGuarded, OfGuarded))
  {
    ConvLawful(c, ToGuarded, OfGuarded);
  }

  lemma ExclusiveLawful(c: Codec<Bytes>)
    requires Lawful(c)
    ensures LawfulArm(HowTag, 2, Conv(c, ToExclusive, OfExclusive))
  {
    ConvLawful(c, ToExclusive, OfExclusive);
  }

  lemma HowArmLawful(w: uint32)
    ensures LawfulArm(HowTag, w, HowArm(w))
  {
    if w < 2 {
      Sattr3Lawful();
      UncheckedLawful(Sattr3Codec());
      GuardedLawful(Sattr3Codec());
    } else if w == 2 {
      OpaqueLawful(8);
      ExclusiveLawful(Opaque(8));
    } else {
      RefuseLawful<CreateHow>();
    }
  }

  function HowCodec(): Codec<CreateHow> {
    Switch(U32(), HowTag, HowArm)
  }

  lemma HowLawful()
    ensures Lawful(HowCodec())
  {
    U32Lawful();
    forall w
      ensures LawfulArm(HowTag, w, HowArm(w))
    {
      HowArmLawful(w);
    }
    SwitchLawful(U32(), HowTag, HowArm);
  }

  /** How to create: 0 and 1 have attributes after them, 2 a verifier of eight bytes, and no other code is taken. */
  lemma HowReads(b: Bytes)
    ensures |b| < 4 ==> HowCodec().dec(b).None?
    ensures |b| >= 4 ==>
              var w, attr := Word(b[0], b[1], b[2], b[3]), Sattr3Codec().dec(b[4..]);
              HowCodec().dec(b) ==
              if w == 0 && attr.Some? then Some((Unchecked(attr.value.0), attr.value.1))
              else if w == 1 && attr.Some? then Some((Guarded(attr.value.0), attr.value.1))
              else if w == 2 && |b| >= 12 then Some((Exclusive(b[4..12]), b[12..]))
              else None
  {
    U32Reads(b);
    if |b| >= 4 {
      var w := Word(b[0], b[1], b[2], b[3]);
      assert HowCodec().dec(b) == HowArm(w).dec(b[4..]);
      OpaqueReads(b[4..], 8);
      if |b| >= 12 {
        assert b[4..][..8] == b[4..12] && b[4..][8..] == b[12..];
      }
    }
  }

  datatype CreateArgs = CreateArgs(dir: Bytes, name: Bytes, how: CreateHow)

  function ToCreateArgs(p: ((Bytes, Bytes), CreateHow)): CreateArgs {
    CreateArgs(p.0.0, p.0.1, p.1)
  }

  function OfCreateArgs(a: CreateArgs): Option<((Bytes, Bytes), CreateHow)> {
    Some(((a.dir, a.name), a.how))
  }

  function CreateArgsCodec(): Codec<CreateArgs> {
    Conv(Pair(Pair(HandleCodec(), String(XDR_STRING_MAXLEN)), HowCodec()), ToCreateArgs, OfCreateArgs)
  }

  /** CREATE3args: what is encoded decodes to itself, whatever follows, in whole units. */
  lemma CreateArgsLawful()
    ensures Lawful(CreateArgsCodec())
  {
    HandleLawful();
    StringLawful(XDR_STRING_MAXLEN);
    PairLawful(HandleCodec(), String(XDR_STRING_MAXLEN));
    HowLawful();
    PairLawful(Pair(HandleCodec(), String(XDR_STRING_MAXLEN)), HowCodec());
    ConvLawful(Pair(Pair(HandleCodec(), String(XDR_STRING_MAXLEN)), HowCodec()), ToCreateArgs, OfCreateArgs);
  }

  type Wcc = (Option<WccAttr>, Option<Fattr3>)

  datatype CreateRes =
    | CreateOk(obj: Option<Bytes>, attr: Option<Fattr3>, dirWcc: Wcc)
    | CreateFail(status: uint32, dirWcc: Wcc)

  function ResTag(r: CreateRes): uint32 {
    if r.CreateOk? then 0 else r.status
  }

  function ToCreateOk(p: ((Option<Bytes>, Option<Fattr3>), Wcc)): CreateRes {
    CreateOk(p.0.0, p.0.1, p.1)
  }

  function OfCreateOk(r: CreateRes): Option<((Option<Bytes>, Option<Fattr3>), Wcc)> {
    if r.CreateOk? then Some(((r.obj, r.attr), r.dirWcc)) else None
  }

  function OkCodec(): Codec<CreateRes> {
    Conv(Pair(Pair(PostOpFhCodec(), PostOpAttrCodec()), WccDataCodec()), ToCreateOk, OfCreateOk)
  }

  lemma OkLawful()
    ensures Lawful(OkCodec())
  {
    PostOpFhLawful();
    PostOpAttrLawful();
    WccDataLawful();
    PairLawful(PostOpFhCodec(), PostOpAttrCodec());
    PairLawful(Pair(PostOpFhCodec(), PostOpAttrCodec()), WccDataCodec());
    ConvLawful(Pair(Pair(PostOpFhCodec(), PostOpAttrCodec()), WccDataCodec()), ToCreateOk, OfCreateOk);
  }

  /** A failed result, whose status is the discriminant already read or written. */
  function FailCodec(c: Codec<Wcc>, status: uint32): Codec<CreateRes> {
    Conv(c, w => CreateFail(status, w), (r: CreateRes) => if r.CreateFail? && r.status == status then Some(r.dirWcc) else None)
  }

  lemma FailLawful(c: Codec<Wcc>, status: uint32)
    requires Lawful(c)
    ensures Lawful(FailCodec(c, status))
  {
  }

  function ResArm(w: uint32): Codec<CreateRes> {
    if w == 0 then OkCodec() else FailCodec(WccDataCodec(), w)
  }

  lemma ResArmLawful(w: uint32)
    ensures LawfulArm(ResTag, w, ResArm(w))
  {
    OkLawful();
    WccDataLawful();
    FailLawful(WccDataCodec(), w);
  }

  function CreateResCodec(): Codec<CreateRes> {
    Switch(U32(), ResTag, ResArm)
  }

  /** A status of 0 has a success after it, and any other a failure with that status. */
  lemma CreateResReads(b: Bytes)
    ensures |b| < 4 ==> CreateResCodec().dec(b).None?
    ensures |b| >= 4 ==>
              var w := Word(b[0], b[1], b[2], b[3]);
              var ok := Pair(Pair(PostOpFhCodec(), PostOpAttrCodec()), WccDataCodec()).dec(b[4..]);
              var fail := WccDataCodec().dec(b[4..]);
              CreateResCodec().dec(b) ==
              if w == 0 && ok.Some? then Some((CreateOk(ok.value.0.0.0, ok.value.0.0.1, ok.value.0.1), ok.value.1))
              else if w != 0 && fail.Some? then Some((CreateFail(w, fail.value.0), fail.value.1))
              else None
  {
    U32Reads(b);
    if |b| >= 4 {
      var w := Word(b[0], b[1], b[2], b[3]);
      assert CreateResCodec().dec(b) == ResArm(w).dec(b[4..]);
    }
  }

  /** CREATE3res: what is encoded decodes to itself, whatever follows, in whole units. */
  lemma CreateResLawful()
    ensures Lawful(CreateResCodec())
  {
    U32Lawful();
    forall w
      ensures LawfulArm(ResTag, w, ResArm(w))
    {
      ResArmLawful(w);
    }
    SwitchLawful(U32(), ResTag, ResArm);
  }

  // ---------------------------------------------------------------- the READDIRPLUS directory list

  datatype Entry = Entry(fileid: uint64, name: Bytes, cookie: uint64, attr: Option<Fattr3>, handle: Option<Bytes>)

  type EntryFields = ((uint64, Bytes), (uint64, (Option<Fattr3>, Option<Bytes>)))

  function ToEntry(p: EntryFields): Entry {
    Entry(p.0.0, p.0.1, p.1.0, p.1.1.0, p.1.1.1)
  }

  function OfEntry(e: Entry): Option<EntryFields> {
    Some(((e.fileid, e.name), (e.cookie, (e.attr, e.handle))))
  }

  function EntryTailCodec(): Codec<(uint64, (Option<Fattr3>, Option<Bytes>))> {
    Pair(U64(), Pair(PostOpAttrCodec(), PostOpFhCodec()))
  }

  function EntryCodec(): Codec<Entry> {
    Conv(Pair(Pair(U64(), String(XDR_STRING_MAXLEN)), EntryTailCodec()), ToEntry, OfEntry)
  }

  lemma EntryLawful()
    ensures Lawful(EntryCodec())
  {
    U64Lawful();
    StringLawful(XDR_STRING_MAXLEN);
    PostOpAttrLawful();
    PostOpFhLawful();
    PairLawful(PostOpAttrCodec(), PostOpFhCodec());
    PairLawful(U64(), Pair(PostOpAttrCodec(), PostOpFhCodec()));
    PairLawful(U64(), String(XDR_STRING_MAXLEN));
    PairLawful(Pair(U64(), String(XDR_STRING_MAXLEN)), EntryTailCodec());
    ConvLawful(Pair(Pair(U64(), String(XDR_STRING_MAXLEN)), EntryTailCodec()), ToEntry, OfEntry);
  }

  /** dirlistplus3: the entries chained by xdr_pointer, then the end-of-directory flag. */
  function DirListCodec(): Codec<(seq<Entry>, bool)> {
    Pair(List(Bool(), EntryCodec()), Bool())
  }

  /** A page of any length: what is encoded decodes to itself, whatever follows, in whole units. */
  lemma DirListLawful()
    ensures Lawful(DirListCodec())
  {
    BoolLawful();
    BoolConsuming();
    EntryLawful();
    ListLawful(Bool(), EntryCodec());
    PairLawful(List(Bool(), EntryCodec()), Bool());
  }

  // ---------------------------------------------------------------- which values can be encoded

  lemma Set32Accepts(v: Option<uint32>)
    ensures Accepts(Set32Codec(), v)
  {
    OptionalAccepts(Bool(), U32(), v);
  }

  lemma SetSizeAccepts(v: Option<uint64>)
    ensures Accepts(SetSizeCodec(), v)
  {
    OptionalAccepts(Bool(), U64(), v);
  }

  predicate TimesFit(a: Sattr3) {
    a.atime != ByCode(2) && a.mtime != ByCode(2)
  }

  lemma Sattr3Accepts(a: Sattr3)
    ensures Accepts(Sattr3Codec(), a) <==> TimesFit(a)
  {
    var v, set32, size, time := OfSattr3(a).value, Set32Codec(), SetSizeCodec(), SetTimeCodec();
    Set32Accepts(a.mode);
    Set32Accepts(a.uid);
    Set32Accepts(a.gid);
    SetSizeAccepts(a.size);
    SetTimeAccepts(a.atime);
    SetTimeAccepts(a.mtime);
    SattrParts(set32, size, time, v);
    ConvAccepts(Pair(Twice(set32), Pair(Pair(set32, size), Twice(time))), ToSattr3, OfSattr3, a);
  }

  lemma SattrParts(c: Codec<Option<uint32>>, d: Codec<Option<uint64>>, e: Codec<SetTime>, v: SattrFields)
    ensures Accepts(Pair(Twice(c), Pair(Pair(c, d), Twice(e))), v) <==>
              && Accepts(c, v.0.0) && Accepts(c, v.0.1) && Accepts(c, v.1.0.0) && Accepts(d, v.1.0.1)
              && Accepts(e, v.1.1.0) && Accepts(e, v.1.1.1)
  {
  }

  predicate HowFits(h: CreateHow) {
    match h
    case Unchecked(a) => TimesFit(a)
    case Guarded(a) => TimesFit(a)
    case Exclusive(verf) => |verf| == 8
  }

  lemma HowAccepts(h: CreateHow)
    ensures Accepts(HowCodec(), h) <==> HowFits(h)
  {
    SwitchAccepts(U32(), HowTag, HowArm, h);
    match h
    case Unchecked(a) =>
      Sattr3Accepts(a);
      ConvAccepts(Sattr3Codec(), ToUnchecked, OfUnchecked, h);
    case Guarded(a) =>
      Sattr3Accepts(a);
      ConvAccepts(Sattr3Codec(), ToGuarded, OfGuarded, h);
    case Exclusive(_) =>
      ConvAccepts(Opaque(8), ToExclusive, OfExclusive, h);
  }

  predicate NameFits(v: Bytes) {
    0 !in v && |v| <= 8192
  }

  /** CREATE3args encodes exactly when handle, name and verifier fit and no time is promised and missing. */
  lemma CreateArgsAccepts(a: CreateArgs)
    ensures Accepts(CreateArgsCodec(), a) <==> |a.dir| <= 64 && NameFits(a.name) && HowFits(a.how)
  {
    var where := Pair(HandleCodec(), String(XDR_STRING_MAXLEN));
    ConvAccepts(Pair(where, HowCodec()), ToCreateArgs, OfCreateArgs, a);
    PairAccepts(where, HowCodec(), ((a.dir, a.name), a.how));
    PairAccepts(HandleCodec(), String(XDR_STRING_MAXLEN), (a.dir, a.name));
    StringAccepts(a.name, XDR_STRING_MAXLEN);
    HowAccepts(a.how);
  }

  lemma PostOpAttrAccepts(a: Option<Fattr3>)
    ensures Accepts(PostOpAttrCodec(), a)
  {
    PostOpAttrLayout(a);
  }

  lemma WccDataAccepts(w: Wcc)
    ensures Accepts(WccDataCodec(), w)
  {
    WccDataLayout(w);
  }

  predicate HandleFits(h: Option<Bytes>) {
    h.None? || |h.value| <= 64
  }

  lemma PostOpFhAccepts(h: Option<Bytes>)
    ensures Accepts(PostOpFhCodec(), h) <==> HandleFits(h)
  {
    OptionalAccepts(Bool(), HandleCodec(), h);
  }

  /** CREATE3res encodes exactly when a success carries a handle that fits and a failure a failing status. */
  lemma CreateResAccepts(r: CreateRes)
    ensures Accepts(CreateResCodec(), r) <==> if r.CreateOk? then HandleFits(r.obj) else r.status != 0
  {
    SwitchAccepts(U32(), ResTag, ResArm, r);
    WccDataAccepts(r.dirWcc);
    if r.CreateOk? {
      var v := OfCreateOk(r).value;
      ConvAccepts(Pair(Pair(PostOpFhCodec(), PostOpAttrCodec()), WccDataCodec()), ToCreateOk, OfCreateOk, r);
      PairAccepts(Pair(PostOpFhCodec(), PostOpAttrCodec()), WccDataCodec(), v);
      PairAccepts(PostOpFhCodec(), PostOpAttrCodec(), v.0);
      PostOpFhAccepts(r.obj);
      PostOpAttrAccepts(r.attr);
    }
  }

  lemma EntryAccepts(e: Entry)
    ensures Accepts(EntryCodec(), e) <==> EntryFits(e)
  {
    var v := OfEntry(e).value;
    ConvAccepts(Pair(Pair(U64(), String(XDR_STRING_MAXLEN)), EntryTailCodec()), ToEntry, OfEntry, e);
    PairAccepts(Pair(U64(), String(XDR_STRING_MAXLEN)), EntryTailCodec(), v);
    PairAccepts(U64(), String(XDR_STRING_MAXLEN), v.0);
    PairAccepts(U64(), Pair(PostOpAttrCodec(), PostOpFhCodec()), v.1);
    PairAccepts(PostOpAttrCodec(), PostOpFhCodec(), v.1.1);
    StringAccepts(e.name, XDR_STRING_MAXLEN);
    PostOpAttrAccepts(e.attr);
    PostOpFhAccepts(e.handle);
  }

  /** A page encodes exactly when each entry's name and handle fit. */
  lemma DirListAccepts(es: seq<Entry>, eof: bool)
    ensures Accepts(DirListCodec(), (es, eof)) <==>
            EntriesFit(es)
  {
    PairAccepts(List(Bool(), EntryCodec()), Bool(), (es, eof));
    ListAccepts(Bool(), EntryCodec(), es);
    forall i | 0 <= i < |es|
      ensures EntryCodec().enc(es[i]).Some? <==> EntryFits(es[i])
    {
      EntryAccepts(es[i]);
    }
  }

  // ---------------------------------------------------------------- what is on the wire

  function Spread(unit: uint32 -> Bytes, ws: seq<uint32>): Bytes {
    if ws == [] then [] else unit(ws[0]) + Spread(unit, ws[1..])
  }

  lemma {:induction false} SpreadConcat(unit: uint32 -> Bytes, a: seq<uint32>, b: seq<uint32>)
    ensures Spread(unit, a + b) == Spread(unit, a) + Spread(unit, b)
  {
    if a == [] {
      assert a + b == b;
    } else {
      SpreadConcat(unit, a[1..], b);
      assert (a + b)[0] == a[0] && (a + b)[1..] == a[1..] + b;
      assert unit(a[0]) + (Spread(unit, a[1..]) + Spread(unit, b)) == Spread(unit, a) + Spread(unit, b);
    }
  }

  /** Most significant byte first. */
  function Unit(w: uint32): Bytes {
    [w / 0x100_0000, w / 0x1_0000 % 256, w / 0x100 % 256, w % 256]
  }

  function Words(ws: seq<uint32>): Bytes {
    Spread(Unit, ws)
  }

  lemma WordsConcat(a: seq<uint32>, b: seq<uint32>)
    ensures Words(a + b) == Words(a) + Words(b)
  {
    SpreadConcat(Unit, a, b);
  }

  lemma {:induction false} WordsLength(ws: seq<uint32>)
    ensures |Words(ws)| == 4 * |ws|
  {
    if ws != [] {
      WordsLength(ws[1..]);
    }
  }

  function Hi(v: uint64): uint32 {
    v / 0x1_0000_0000
  }

  function Lo(v: uint64): uint32 {
    v % 0x1_0000_0000
  }

  /** The codec puts v on the wire as b. */
  ghost predicate Spells<T>(c: Codec<T>, v: T, b: Bytes) {
    c.enc(v) == Some(b)
  }

  /** The codec puts v on the wire as the words ws. */
  ghost predicate Layout<T>(c: Codec<T>, v: T, ws: seq<uint32>) {
    Spells(c, v, Words(ws))
  }

  lemma PairSpells<A, B>(a: Codec<A>, b: Codec<B>, v: (A, B), x: Bytes, y: Bytes)
    requires Spells(a, v.0, x) && Spells(b, v.1, y)
    ensures Spells(Pair(a, b), v, x + y)
  {
  }

  lemma PairLayout<A, B>(a: Codec<A>, b: Codec<B>, v: (A, B), ws: seq<uint32>, xs: seq<uint32>)
    requires Layout(a, v.0, ws) && Layout(b, v.1, xs)
    ensures Layout(Pair(a, b), v, ws + xs)
  {
    WordsConcat(ws, xs);
  }

  lemma U32Layout(v: uint32)
    ensures Layout(U32(), v, [v])
  {
    assert [v][1..] == [];
    assert Spread(Unit, [v]) == Unit(v) + [];
    assert Unit(v) + [] == Unit(v);
  }

  function BoolWord(v: bool): uint32 {
    if v then 1 else 0
  }

  lemma BoolLayout(v: bool)
    ensures Layout(Bool(), v, [BoolWord(v)])
  {
    U32Layout(BoolWord(v));
  }

  lemma U64Layout(v: uint64)
    ensures Layout(U64(), v, [Hi(v), Lo(v)])
  {
    U32Layout(Hi(v));
    U32Layout(Lo(v));
    PairLayout(U32(), U32(), (Hi(v), Lo(v)), [Hi(v)], [Lo(v)]);
  }

  function TimeWords(t: NfsTime3): seq<uint32> {
    [t.sec, t.nsec]
  }

  lemma TimeLayout(t: NfsTime3)
    ensures Layout(TimeCodec(), t, TimeWords(t))
  {
    U32Layout(t.sec);
    U32Layout(t.nsec);
    PairLayout(U32(), U32(), (t.sec, t.nsec), [t.sec], [t.nsec]);
  }

  function OwnerWords(a: Owner): (ws: seq<uint32>)
    ensures |ws| == 5
  {
    [a.ftype, a.mode, a.nlink, a.uid, a.gid]
  }

  lemma OwnerLayout(a: Owner)
    ensures Layout(OwnerCodec(), a, OwnerWords(a))
  {
    U32Layout(a.ftype);
    U32Layout(a.mode);
    U32Layout(a.nlink);
    U32Layout(a.uid);
    U32Layout(a.gid);
    PairLayout(U32(), U32(), (a.ftype, a.mode), [a.ftype], [a.mode]);
    PairLayout(U32(), U32(), (a.nlink, a.uid), [a.nlink], [a.uid]);
    PairLayout(Twice(U32()), U32(), ((a.nlink, a.uid), a.gid), [a.nlink, a.uid], [a.gid]);
    PairLayout(Twice(U32()), Pair(Twice(U32()), U32()), OfOwner(a).value, [a.ftype, a.mode], [a.nlink, a.uid] + [a.gid]);
    assert [a.ftype, a.mode] + ([a.nlink, a.uid] + [a.gid]) == OwnerWords(a);
  }

  function Words64(a: uint64, b: uint64): seq<uint32> {
    [Hi(a), Lo(a), Hi(b), Lo(b)]
  }

  lemma Twice64Layout(a: uint64, b: uint64)
    ensures Layout(Twice(U64()), (a, b), Words64(a, b))
  {
    U64Layout(a);
    U64Layout(b);
    PairLayout(U64(), U64(), (a, b), [Hi(a), Lo(a)], [Hi(b), Lo(b)]);
    assert [Hi(a), Lo(a)] + [Hi(b), Lo(b)] == Words64(a, b);
  }

  function ExtentWords(a: Extent): (ws: seq<uint32>)
    ensures |ws| == 10
  {
    Words64(a.size, a.used) + ([a.rdev1, a.rdev2] + Words64(a.fsid, a.fileid))
  }

  lemma ExtentLayout(a: Extent)
    ensures Layout(ExtentCodec(), a, ExtentWords(a))
  {
    Twice64Layout(a.size, a.used);
    Twice64Layout(a.fsid, a.fileid);
    U32Layout(a.rdev1);
    U32Layout(a.rdev2);
    PairLayout(U32(), U32(), (a.rdev1, a.rdev2), [a.rdev1], [a.rdev2]);
    PairLayout(Twice(U32()), Twice(U64()), OfExtent(a).value.1, [a.rdev1, a.rdev2], Words64(a.fsid, a.fileid));
    PairLayout(Twice(U64()), Pair(Twice(U32()), Twice(U64())), OfExtent(a).value,
               Words64(a.size, a.used), [a.rdev1, a.rdev2] + Words64(a.fsid, a.fileid));
  }

  function TimesWords(t: Times): (ws: seq<uint32>)
    ensures |ws| == 6
  {
    TimeWords(t.atime) + (TimeWords(t.mtime) + TimeWords(t.ctime))
  }

  lemma TimesLayout(t: Times)
    ensures Layout(TimesCodec(), t, TimesWords(t))
  {
    TimeLayout(t.atime);
    TimeLayout(t.mtime);
    TimeLayout(t.ctime);
    PairLayout(TimeCodec(), TimeCodec(), (t.mtime, t.ctime), TimeWords(t.mtime), TimeWords(t.ctime));
    PairLayout(TimeCodec(), Twice(TimeCodec()), OfTimes(t).value, TimeWords(t.atime), TimeWords(t.mtime) + TimeWords(t.ctime));
  }

  /** The 21 words of fattr3 in the order of section 2.5 of RFC 1813. */
  function FattrWords(a: Fattr3): (ws: seq<uint32>)
    ensures |ws| == 21
  {
    OwnerWords(a.owner) + (ExtentWords(a.extent) + TimesWords(a.times))
  }

  /** fattr3 always encodes, field by field in that order. */
  lemma Fattr3Layout(a: Fattr3)
    ensures Layout(Fattr3Codec(), a, FattrWords(a))
  {
    OwnerLayout(a.owner);
    ExtentLayout(a.extent);
    TimesLayout(a.times);
    PairLayout(ExtentCodec(), TimesCodec(), (a.extent, a.times), ExtentWords(a.extent), TimesWords(a.times));
    PairLayout(OwnerCodec(), Pair(ExtentCodec(), TimesCodec()), OfFattr3(a).value,
               OwnerWords(a.owner), ExtentWords(a.extent) + TimesWords(a.times));
  }

  lemma OptionalLayout<A>(c: Codec<A>, v: Option<A>, ws: seq<uint32>)
    requires v.Some? ==> Layout(c, v.value, ws)
    ensures Layout(Optional(Bool(), c), v, if v.None? then [0] else [1] + ws)
  {
    BoolLayout(false);
    BoolLayout(true);
    WordsConcat([1], ws);
  }

  function PostOpAttrWords(a: Option<Fattr3>): (ws: seq<uint32>)
    ensures |ws| == if a.None? then 1 else 22
  {
    if a.None? then [0] else [1] + FattrWords(a.value)
  }

  lemma PostOpAttrLayout(a: Option<Fattr3>)
    ensures Layout(PostOpAttrCodec(), a, PostOpAttrWords(a))
  {
    if a.Some? {
      Fattr3Layout(a.value);
      OptionalLayout(Fattr3Codec(), a, FattrWords(a.value));
    } else {
      OptionalLayout(Fattr3Codec(), a, []);
    }
  }

  function WccAttrWords(a: WccAttr): seq<uint32> {
    [Hi(a.size), Lo(a.size)] + (TimeWords(a.mtime) + TimeWords(a.ctime))
  }

  lemma WccAttrLayout(a: WccAttr)
    ensures Layout(WccAttrCodec(), a, WccAttrWords(a))
  {
    U64Layout(a.size);
    TimeLayout(a.mtime);
    TimeLayout(a.ctime);
    PairLayout(TimeCodec(), TimeCodec(), (a.mtime, a.ctime), TimeWords(a.mtime), TimeWords(a.ctime));
    PairLayout(U64(), Twice(TimeCodec()), OfWccAttr(a).value, [Hi(a.size), Lo(a.size)], TimeWords(a.mtime) + TimeWords(a.ctime));
  }

  function WccWords(w: Wcc): seq<uint32> {
    (if w.0.None? then [0] else [1] + WccAttrWords(w.0.value)) + PostOpAttrWords(w.1)
  }

  /** wcc_data: what was before, then what is after. */
  lemma WccDataLayout(w: Wcc)
    ensures Layout(WccDataCodec(), w, WccWords(w))
  {
    if w.0.Some? {
      WccAttrLayout(w.0.value);
    }
    OptionalLayout(WccAttrCodec(), w.0, if w.0.None? then [] else WccAttrWords(w.0.value));
    PostOpAttrLayout(w.1);
    PairLayout(Optional(Bool(), WccAttrCodec()), PostOpAttrCodec(), w,
               if w.0.None? then [0] else [1] + WccAttrWords(w.0.value), PostOpAttrWords(w.1));
  }

  // ---------------------------------------------------------------- settable attributes on the wire

  function Set32Words(v: Option<uint32>): seq<uint32> {
    if v.None? then [0] else [1] + [v.value]
  }

  lemma Set32Layout(v: Option<uint32>)
    ensures Layout(Set32Codec(), v, Set32Words(v))
  {
    if v.Some? {
      U32Layout(v.value);
    }
    OptionalLayout(U32(), v, if v.None? then [] else [v.value]);
  }

  function SetSizeWords(v: Option<uint64>): seq<uint32> {
    if v.None? then [0] else [1] + [Hi(v.value), Lo(v.value)]
  }

  lemma SetSizeLayout(v: Option<uint64>)
    ensures Layout(SetSizeCodec(), v, SetSizeWords(v))
  {
    if v.Some? {
      U64Layout(v.value);
    }
    OptionalLayout(U64(), v, if v.None? then [] else [Hi(v.value), Lo(v.value)]);
  }

  function SetTimeWords(t: SetTime): seq<uint32> {
    match t
    case ClientTime(c) => [2] + TimeWords(c)
    case ByCode(how) => [how]
  }

  lemma SetTimeLayout(t: SetTime)
    requires t != ByCode(2)
    ensures Layout(SetTimeCodec(), t, SetTimeWords(t))
  {
    U32Layout(SetTimeTag(t));
    if t.ClientTime? {
      TimeLayout(t.time);
      WordsConcat([2], TimeWords(t.time));
    } else {
      assert SetTimeCodec().enc(t) == Some(EncU32(t.how).value + []);
      assert EncU32(t.how).value + [] == EncU32(t.how).value;
    }
  }

  function SattrWords(a: Sattr3): seq<uint32> {
    (Set32Words(a.mode) + Set32Words(a.uid)) +
    ((Set32Words(a.gid) + SetSizeWords(a.size)) + (SetTimeWords(a.atime) + SetTimeWords(a.mtime)))
  }

  /** sattr3: mode, uid, gid, size, atime, mtime. */
  lemma Sattr3Layout(a: Sattr3)
    requires TimesFit(a)
    ensures Layout(Sattr3Codec(), a, SattrWords(a))
  {
    Set32Layout(a.mode);
    Set32Layout(a.uid);
    Set32Layout(a.gid);
    SetSizeLayout(a.size);
    SetTimeLayout(a.atime);
    SetTimeLayout(a.mtime);
    SattrJoin(Set32Codec(), SetSizeCodec(), SetTimeCodec(), OfSattr3(a).value,
              Set32Words(a.mode), Set32Words(a.uid), Set32Words(a.gid), SetSizeWords(a.size),
              SetTimeWords(a.atime), SetTimeWords(a.mtime));
  }

  lemma SattrJoin(c: Codec<Option<uint32>>, d: Codec<Option<uint64>>, e: Codec<SetTime>, v: SattrFields,
                  m: seq<uint32>, u: seq<uint32>, g: seq<uint32>, s: seq<uint32>, at: seq<uint32>, mt: seq<uint32>)
    requires Layout(c, v.0.0, m) && Layout(c, v.0.1, u) && Layout(c, v.1.0.0, g) && Layout(d, v.1.0.1, s)
    requires Layout(e, v.1.1.0, at) && Layout(e, v.1.1.1, mt)
    ensures Layout(Pair(Twice(c), Pair(Pair(c, d), Twice(e))), v, (m + u) + ((g + s) + (at + mt)))
  {
    PairLayout(c, c, v.0, m, u);
    PairLayout(c, d, v.1.0, g, s);
    PairLayout(e, e, v.1.1, at, mt);
    PairLayout(Pair(c, d), Twice(e), v.1, g + s, at + mt);
    PairLayout(Twice(c), Pair(Pair(c, d), Twice(e)), v, m + u, (g + s) + (at + mt));
  }

  // ---------------------------------------------------------------- CREATE and the entry list on the wire

  /** The bytes, and zeros up to a whole unit. */
  function Filled(v: Bytes): (b: Bytes)
    ensures |b| == |v| + (4 - |v| % 4) % 4
  {
    v + seq((4 - |v| % 4) % 4, _ => 0)
  }

  /** A count, the bytes, and zero padding. */
  function CountedWire(v: Bytes): (b: Bytes)
    requires |v| < 0x1_0000_0000
    ensures |b| == 4 + |v| + (4 - |v| % 4) % 4
  {
    WordsLength([|v|]);
    Words([|v|]) + Filled(v)
  }

  lemma CountedSpells(v: Bytes, max: uint32)
    requires |v| <= max
    ensures Spells(Counted(U32(), max), v, CountedWire(v))
  {
    U32Layout(|v|);
  }

  lemma StringSpells(v: Bytes, max: uint32)
    requires FitsString(v, max)
    ensures Spells(String(max), v, CountedWire(v))
  {
    CountedSpells(v, max);
  }

  function HowWire(h: CreateHow): Bytes {
    match h
    case Unchecked(a) => Words([0]) + Words(SattrWords(a))
    case Guarded(a) => Words([1]) + Words(SattrWords(a))
    case Exclusive(verf) => Words([2]) + Filled(verf)
  }

  lemma HowSpells(h: CreateHow)
    requires HowFits(h)
    ensures Spells(HowCodec(), h, HowWire(h))
  {
    U32Layout(HowTag(h));
    if !h.Exclusive? {
      Sattr3Layout(h.attr);
    }
  }

  /** CREATE3args: directory handle, name, and how to create. */
  lemma CreateArgsSpells(a: CreateArgs)
    requires |a.dir| <= 64 && NameFits(a.name) && HowFits(a.how)
    ensures Spells(CreateArgsCodec(), a, CountedWire(a.dir) + CountedWire(a.name) + HowWire(a.how))
  {
    CountedSpells(a.dir, NFS3_FHSIZE);
    StringSpells(a.name, XDR_STRING_MAXLEN);
    HowSpells(a.how);
    PairSpells(HandleCodec(), String(XDR_STRING_MAXLEN), (a.dir, a.name), CountedWire(a.dir), CountedWire(a.name));
    PairSpells(Pair(HandleCodec(), String(XDR_STRING_MAXLEN)), HowCodec(), OfCreateArgs(a).value,
               CountedWire(a.dir) + CountedWire(a.name), HowWire(a.how));
  }

  function HandleWire(h: Option<Bytes>): (b: Bytes)
    requires HandleFits(h)
    ensures |b| == if h.None? then 4 else 8 + |h.value| + (4 - |h.value| % 4) % 4
  {
    WordsLength([0]);
    WordsLength([1]);
    if h.None? then Words([0]) else Words([1]) + CountedWire(h.value)
  }

  lemma PostOpFhSpells(h: Option<Bytes>)
    requires HandleFits(h)
    ensures Spells(PostOpFhCodec(), h, HandleWire(h))
  {
    BoolLayout(false);
    BoolLayout(true);
    if h.Some? {
      CountedSpells(h.value, NFS3_FHSIZE);
    }
  }

  function CreateResWire(r: CreateRes): Bytes
    requires r.CreateOk? ==> HandleFits(r.obj)
  {
    match r
    case CreateOk(obj, attr, wcc) => Words([0]) + (HandleWire(obj) + Words(PostOpAttrWords(attr)) + Words(WccWords(wcc)))
    case CreateFail(status, wcc) => Words([status]) + Words(WccWords(wcc))
  }

  /** CREATE3res: status, then handle, attributes and directory data, or directory data alone. */
  lemma CreateResSpells(r: CreateRes)
    requires if r.CreateOk? then HandleFits(r.obj) else r.status != 0
    ensures Spells(CreateResCodec(), r, CreateResWire(r))
  {
    U32Layout(ResTag(r));
    WccDataLayout(r.dirWcc);
    if r.CreateOk? {
      PostOpFhSpells(r.obj);
      PostOpAttrLayout(r.attr);
      var h, a := HandleWire(r.obj), Words(PostOpAttrWords(r.attr));
      PairSpells(PostOpFhCodec(), PostOpAttrCodec(), (r.obj, r.attr), h, a);
      PairSpells(Pair(PostOpFhCodec(), PostOpAttrCodec()), WccDataCodec(), OfCreateOk(r).value, h + a, Words(WccWords(r.dirWcc)));
    }
  }

  predicate EntryFits(e: Entry) {
    NameFits(e.name) && HandleFits(e.handle)
  }

  function EntryWire(e: Entry): (b: Bytes)
    requires EntryFits(e)
  {
    (Words([Hi(e.fileid), Lo(e.fileid)]) + CountedWire(e.name)) +
    (Words([Hi(e.cookie), Lo(e.cookie)]) + (Words(PostOpAttrWords(e.attr)) + HandleWire(e.handle)))
  }

  /** entryplus3: file id, name, cookie, attributes, handle. */
  lemma EntrySpells(e: Entry)
    requires EntryFits(e)
    ensures Spells(EntryCodec(), e, EntryWire(e))
  {
    var v := OfEntry(e).value;
    var i, c := Words([Hi(e.fileid), Lo(e.fileid)]), Words([Hi(e.cookie), Lo(e.cookie)]);
    var a, h := Words(PostOpAttrWords(e.attr)), HandleWire(e.handle);
    U64Layout(e.fileid);
    U64Layout(e.cookie);
    StringSpells(e.name, XDR_STRING_MAXLEN);
    PostOpAttrLayout(e.attr);
    PostOpFhSpells(e.handle);
    PairSpells(U64(), String(XDR_STRING_MAXLEN), v.0, i, CountedWire(e.name));
    PairSpells(PostOpAttrCodec(), PostOpFhCodec(), v.1.1, a, h);
    PairSpells(U64(), Pair(PostOpAttrCodec(), PostOpFhCodec()), v.1, c, a + h);
    PairSpells(Pair(U64(), String(XDR_STRING_MAXLEN)), EntryTailCodec(), v, i + CountedWire(e.name), c + (a + h));
  }

  predicate EntriesFit(es: seq<Entry>) {
    forall i :: 0 <= i < |es| ==> EntryFits(es[i])
  }

  function EntriesWire(es: seq<Entry>): Bytes
    requires EntriesFit(es)
  {
    if es == [] then Words([0]) else Words([1]) + EntryWire(es[0]) + EntriesWire(es[1..])
  }

  lemma ListSpells(t: Codec<bool>, c: Codec<Entry>, es: seq<Entry>, one: Bytes, x: Bytes, xs: Bytes)
    requires es != [] && Spells(t, true, one) && Spells(c, es[0], x) && EncList(t, c, es[1..]) == Some(xs)
    ensures EncList(t, c, es) == Some(one + x + xs)
  {
  }

  lemma {:induction false} EntriesSpell(es: seq<Entry>)
    requires EntriesFit(es)
    ensures EncList(Bool(), EntryCodec(), es) == Some(EntriesWire(es))
  {
    BoolLayout(false);
    BoolLayout(true);
    if es != [] {
      EntriesSpell(es[1..]);
      EntrySpells(es[0]);
      ListSpells(Bool(), EntryCodec(), es, Words([1]), EntryWire(es[0]), EntriesWire(es[1..]));
    }
  }

  /** dirlistplus3: the chained entries, and then the end-of-directory flag. */
  lemma DirListSpells(es: seq<Entry>, eof: bool)
    requires EntriesFit(es)
    ensures Spells(DirListCodec(), (es, eof), EntriesWire(es) + Words([BoolWord(eof)]))
  {
    EntriesSpell(es);
    BoolLayout(eof);
    PairSpells(List(Bool(), EntryCodec()), Bool(), (es, eof), EntriesWire(es), Words([BoolWord(eof)]));
  }
}
