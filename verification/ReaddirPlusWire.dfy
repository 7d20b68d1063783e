/**
  The READDIRPLUS reply on the wire against the size its caller asked for.  The server charges each entry the
  size of a pointer; what an entry takes in the reply depends on its name, attributes and handle.
 */
module ReaddirPlusWire {
  import opened Common
  import opened Xdr
  import opened NfsXdr
  import opened ReaddirPlus

  const SLASH: byte := 47
  const UINT64_RANGE: nat := 0x1_0000_0000_0000_0000

  predicate IsDot(d: Dirent) {
    d.name == DOT || d.name == DOTDOT
  }

  /** The entry for a record of the directory whose handle is path: "." and ".." go without attributes and handle. */
  function EntryOf(path: Bytes, stat: Dirent -> Fattr3, d: Dirent): Entry {
    Entry(d.ino % UINT64_RANGE, d.name, d.off % UINT64_RANGE,
          if IsDot(d) then None else Some(stat(d)),
          if IsDot(d) then None else Some(path + [SLASH] + d.name))
  }

  function EntriesOf(path: Bytes, stat: Dirent -> Fattr3, ds: seq<Dirent>): (es: seq<Entry>)
    ensures |es| == |ds| && forall i :: 0 <= i < |ds| ==> es[i] == EntryOf(path, stat, ds[i])
  {
    seq(|ds|, i requires 0 <= i < |ds| => EntryOf(path, stat, ds[i]))
  }

  type ResOk = (Option<Fattr3>, (Bytes, (seq<Entry>, bool)))

  /** READDIRPLUS3resok: the directory's attributes, the verifier, and the list. */
  function ResOkCodec(): Codec<ResOk> {
    Pair(PostOpAttrCodec(), Pair(Opaque(8), DirListCodec()))
  }

  lemma ResOkLawful()
    ensures Lawful(ResOkCodec())
  {
    PostOpAttrLawful();
    OpaqueLawful(8);
    DirListLawful();
    PairLawful(Opaque(8), DirListCodec());
    PairLawful(PostOpAttrCodec(), Pair(Opaque(8), DirListCodec()));
  }

  /** The reply that carries a page. */
  function ReplyOf(path: Bytes, stat: Dirent -> Fattr3, attr: Fattr3, p: Res): ResOk
    requires p.Page?
  {
    (Some(attr), (p.verf, (EntriesOf(path, stat, p.entries), p.eof)))
  }

  // ---------------------------------------------------------------- sizes

  /** n bytes and their padding. */
  function Room(n: nat): nat {
    n + Padding(n)
  }

  lemma RoomGrows(m: nat, n: nat)
    requires m <= n
    ensures Room(m) <= Room(n)
  {
  }

  /** What a record takes in the list of a directory whose handle is pathLen bytes long. */
  function Taken(pathLen: nat, d: Dirent): nat {
    4 + 8 + (4 + Room(|d.name|)) + 8 + (if IsDot(d) then 4 + 4 else 88 + (8 + Room(pathLen + 1 + |d.name|)))
  }

  function Sum(cost: Dirent -> nat, ds: seq<Dirent>): nat {
    if ds == [] then 0 else cost(ds[0]) + Sum(cost, ds[1..])
  }

  lemma {:induction false} SumAtMost(cost: Dirent -> nat, ds: seq<Dirent>, k: nat)
    requires forall i :: 0 <= i < |ds| ==> cost(ds[i]) <= k
    ensures Sum(cost, ds) <= |ds| * k
  {
    if ds != [] {
      SumAtMost(cost, ds[1..], k);
      OneMoreOf(|ds| - 1, k);
    }
  }

  lemma {:induction false} SumSame(cost: Dirent -> nat, ds: seq<Dirent>, k: nat)
    requires forall i :: 0 <= i < |ds| ==> cost(ds[i]) == k
    ensures Sum(cost, ds) == |ds| * k
  {
    if ds != [] {
      SumSame(cost, ds[1..], k);
      OneMoreOf(|ds| - 1, k);
    }
  }

  lemma OneMoreOf(n: nat, k: nat)
    ensures (n + 1) * k == n * k + k
  {
  }

  function Cost(pathLen: nat): Dirent -> nat {
    (d: Dirent) => Taken(pathLen, d)
  }

  /** What the records take together. */
  function TakenAll(pathLen: nat, ds: seq<Dirent>): nat {
    Sum(Cost(pathLen), ds)
  }

  lemma EntryTakes(path: Bytes, stat: Dirent -> Fattr3, d: Dirent)
    requires EntryFits(EntryOf(path, stat, d))
    ensures 4 + |EntryWire(EntryOf(path, stat, d))| == Taken(|path|, d)
  {
    var e := EntryOf(path, stat, d);
    WordsLength([Hi(e.fileid), Lo(e.fileid)]);
    WordsLength([Hi(e.cookie), Lo(e.cookie)]);
    WordsLength(PostOpAttrWords(e.attr));
    assert |path + [SLASH] + d.name| == |path| + 1 + |d.name|;
  }

  lemma {:induction false} EntriesTake(path: Bytes, stat: Dirent -> Fattr3, ds: seq<Dirent>)
    requires EntriesFit(EntriesOf(path, stat, ds))
    ensures |EntriesWire(EntriesOf(path, stat, ds))| == 4 + TakenAll(|path|, ds)
  {
    var es := EntriesOf(path, stat, ds);
    WordsLength([0]);
    WordsLength([1]);
    if ds != [] {
      assert es[1..] == EntriesOf(path, stat, ds[1..]);
      EntriesTake(path, stat, ds[1..]);
      EntryTakes(path, stat, ds[0]);
    }
  }

  /** How long the encoding of v is, if it has one. */
  function Length<T>(c: Codec<T>, v: T): Option<nat> {
    var b :- c.enc(v);
    Some(|b|)
  }

  /** What the reply that carries the page takes: nothing if some name or handle does not fit. */
  function Expected(path: Bytes, stat: Dirent -> Fattr3, p: Res): Option<nat>
    requires p.Page?
  {
    if EntriesFit(EntriesOf(path, stat, p.entries)) then Some(104 + TakenAll(|path|, p.entries)) else None
  }

  /** What a reply with these entries takes. */
  function Needed(es: seq<Entry>): Option<nat> {
    if EntriesFit(es) then Some(100 + |EntriesWire(es)|) else None
  }

  lemma ReplyAccepts(attr: Fattr3, verf: Bytes, es: seq<Entry>, eof: bool)
    requires |verf| == 8
    ensures Accepts(ResOkCodec(), (Some(attr), (verf, (es, eof)))) <==> EntriesFit(es)
  {
    DirListAccepts(es, eof);
    PostOpAttrAccepts(Some(attr));
    PairAccepts(Opaque(8), DirListCodec(), (verf, (es, eof)));
    PairAccepts(PostOpAttrCodec(), Pair(Opaque(8), DirListCodec()), (Some(attr), (verf, (es, eof))));
  }

  lemma ReplyLength(attr: Fattr3, verf: Bytes, es: seq<Entry>, eof: bool)
    requires |verf| == 8
    ensures Length(ResOkCodec(), (Some(attr), (verf, (es, eof)))) == Needed(es)
  {
    var v := (Some(attr), (verf, (es, eof)));
    ReplyAccepts(attr, verf, es, eof);
    if EntriesFit(es) {
      ReplySpells(attr, verf, es, eof);
      SpellsLength(ResOkCodec(), v, ReplyWire(attr, verf, es, eof));
    } else {
      RefusedLength(ResOkCodec(), v);
    }
  }

  lemma RefusedLength<T>(c: Codec<T>, v: T)
    requires !Accepts(c, v)
    ensures Length(c, v) == None
  {
  }

  lemma SpellsLength<T>(c: Codec<T>, v: T, b: Bytes)
    requires Spells(c, v, b)
    ensures Length(c, v) == Some(|b|)
  {
  }

  /** c writes replies of that length, and exactly those whose entries fit. */
  ghost predicate Sized(c: Codec<ResOk>) {
    forall v: ResOk :: v.0.Some? && |v.1.0| == 8 ==> Length(c, v) == Needed(v.1.1.0)
  }

  lemma ResOkSized()
    ensures Sized(ResOkCodec())
  {
    forall v: ResOk | v.0.Some? && |v.1.0| == 8
      ensures Length(ResOkCodec(), v) == Needed(v.1.1.0)
    {
      ReplyLength(v.0.value, v.1.0, v.1.1.0, v.1.1.1);
    }
  }

  lemma NeededIsExpected(path: Bytes, stat: Dirent -> Fattr3, p: Res)
    requires p.Page?
    ensures Needed(EntriesOf(path, stat, p.entries)) == Expected(path, stat, p)
  {
    if EntriesFit(EntriesOf(path, stat, p.entries)) {
      EntriesTake(path, stat, p.entries);
    }
  }

  lemma PageTakes(c: Codec<ResOk>, path: Bytes, stat: Dirent -> Fattr3, attr: Fattr3, p: Res)
    requires Sized(c) && p.Page? && |p.verf| == 8
    ensures Length(c, ReplyOf(path, stat, attr, p)) == Expected(path, stat, p)
  {
    NeededIsExpected(path, stat, p);
  }

  /**
    A page encodes exactly when each name fits and each handle, the directory's path, a slash and the name,
    is at most 64 bytes long; its reply then takes 104 bytes and what its entries take.
   */
  lemma ReplySize(path: Bytes, stat: Dirent -> Fattr3, attr: Fattr3, p: Res)
    requires p.Page? && |p.verf| == 8
    ensures Length(ResOkCodec(), ReplyOf(path, stat, attr, p)) == Expected(path, stat, p)
  {
    ResOkSized();
    PageTakes(ResOkCodec(), path, stat, attr, p);
  }

  lemma TripleSpells<A, B, C>(a: Codec<A>, b: Codec<B>, c: Codec<C>, v: (A, (B, C)), x: Bytes, y: Bytes, z: Bytes)
    requires Spells(a, v.0, x) && Spells(b, v.1.0, y) && Spells(c, v.1.1, z)
    ensures Spells(Pair(a, Pair(b, c)), v, x + (y + z))
  {
    PairSpells(b, c, v.1, y, z);
    PairSpells(a, Pair(b, c), v, x, y + z);
  }

  function ReplyWire(attr: Fattr3, verf: Bytes, es: seq<Entry>, eof: bool): (b: Bytes)
    requires |verf| == 8 && EntriesFit(es)
    ensures |b| == 100 + |EntriesWire(es)|
  {
    WordsLength(PostOpAttrWords(Some(attr)));
    WordsLength([BoolWord(eof)]);
    Words(PostOpAttrWords(Some(attr))) + (Filled(verf) + (EntriesWire(es) + Words([BoolWord(eof)])))
  }

  lemma VerifierSpells(verf: Bytes)
    requires |verf| == 8
    ensures Spells(Opaque(8), verf, Filled(verf))
  {
  }

  lemma ReplySpells(attr: Fattr3, verf: Bytes, es: seq<Entry>, eof: bool)
    requires |verf| == 8 && EntriesFit(es)
    ensures Spells(ResOkCodec(), (Some(attr), (verf, (es, eof))), ReplyWire(attr, verf, es, eof))
  {
    PostOpAttrLayout(Some(attr));
    VerifierSpells(verf);
    DirListSpells(es, eof);
    TripleSpells(PostOpAttrCodec(), Opaque(8), DirListCodec(), (Some(attr), (verf, (es, eof))),
                 Words(PostOpAttrWords(Some(attr))), Filled(verf), EntriesWire(es) + Words([BoolWord(eof)]));
  }

  // ---------------------------------------------------------------- does the reply fit what the caller asked for?

  /** The most that an entry with a name of at most n bytes takes. */
  function MostTaken(pathLen: nat, n: nat): nat {
    120 + Room(n) + Room(pathLen + 1 + n)
  }

  /** Every name in the directory is a C string of at most n bytes. */
  ghost predicate Named(ds: seq<Dirent>, n: nat) {
    forall i :: 0 <= i < |ds| ==> 0 !in ds[i].name && |ds[i].name| <= n
  }

  lemma TakenBound(pathLen: nat, d: Dirent, n: nat)
    requires |d.name| <= n
    ensures Taken(pathLen, d) <= MostTaken(pathLen, n)
  {
    RoomGrows(|d.name|, n);
    RoomGrows(pathLen + 1 + |d.name|, pathLen + 1 + n);
  }

  lemma TakenAllBound(pathLen: nat, ds: seq<Dirent>, n: nat)
    requires Named(ds, n)
    ensures TakenAll(pathLen, ds) <= |ds| * MostTaken(pathLen, n)
  {
    forall i | 0 <= i < |ds|
      ensures Cost(pathLen)(ds[i]) <= MostTaken(pathLen, n)
    {
      TakenBound(pathLen, ds[i], n);
    }
    SumAtMost(Cost(pathLen), ds, MostTaken(pathLen, n));
  }

  /** The reply that carries the page encodes within the size the caller asked for. */
  ghost predicate Within(c: Codec<ResOk>, path: Bytes, stat: Dirent -> Fattr3, attr: Fattr3, p: Res, maxcount: nat) {
    p.Page? && Length(c, ReplyOf(path, stat, attr, p)).Some? && Length(c, ReplyOf(path, stat, attr, p)).value <= maxcount
  }

  lemma NamedFits(path: Bytes, stat: Dirent -> Fattr3, ds: seq<Dirent>, n: nat)
    requires |path| + 1 + n <= 64 && Named(ds, n)
    ensures EntriesFit(EntriesOf(path, stat, ds))
  {
    var es := EntriesOf(path, stat, ds);
    forall i | 0 <= i < |es|
      ensures EntryFits(es[i])
    {
      assert es[i].name == ds[i].name;
    }
  }

  lemma PageWithin(c: Codec<ResOk>, path: Bytes, stat: Dirent -> Fattr3, attr: Fattr3, p: Res, n: nat, k: nat, maxcount: nat)
    requires Sized(c) && p.Page? && |p.verf| == 8 && |p.entries| <= k && Named(p.entries, n)
    requires |path| + 1 + n <= 64 && 104 + k * MostTaken(|path|, n) <= maxcount
    ensures Within(c, path, stat, attr, p, maxcount)
  {
    PageTakes(c, path, stat, attr, p);
    NamedFits(path, stat, p.entries, n);
    TakenAllBound(|path|, p.entries, n);
    Times(|p.entries|, k, MostTaken(|path|, n));
  }

  /** A listable directory that this handle leads to, with names of at most n bytes. */
  ghost predicate Served(vol: Volume, path: Bytes, n: nat) {
    Listable(vol) && vol.handleLen == |path| && Named(vol.dir, n)
  }

  /** A page of such a directory, from its start. */
  lemma FirstPage(vol: Volume, args: Args, lim: Limits)
    requires Listable(vol) && args.cookie == 0
    ensures var p, n := Serve(vol, args, lim), PageSize(args, lim);
            p.Page? && |p.verf| == 8 && p.entries == if |vol.dir| < n then vol.dir else vol.dir[..n]
  {
    SkipBelow(vol.dir, 0);
    assert vol.dir[0..] == vol.dir;
  }

  /** A page from anywhere in the directory. */
  lemma AnyPage(vol: Volume, args: Args, lim: Limits, n: nat)
    requires Serve(vol, args, lim).Page? && Named(vol.dir, n)
    ensures var p := Serve(vol, args, lim);
            |p.verf| == 8 && |p.entries| <= PageSize(args, lim) && Named(p.entries, n)
  {
    var i := Skip(vol.dir, StartPos(args.cookie));
    var p := Serve(vol, args, lim);
    assert p == PageFrom(vol.dir, vol.broken, i, PageSize(args, lim), Verifier(vol.attr.value));
    forall j | 0 <= j < |p.entries|
      ensures p.entries[j] == vol.dir[i + j]
    {
    }
  }

  lemma ShortEnough(c: Codec<ResOk>, vol: Volume, path: Bytes, stat: Dirent -> Fattr3, attr: Fattr3, n: nat, args: Args, lim: Limits)
    requires Sized(c) && |path| + 1 + n <= 64 && Named(vol.dir, n) && Serve(vol, args, lim).Page?
    requires 104 + PageSize(args, lim) * MostTaken(|path|, n) <= args.maxcount
    ensures Within(c, path, stat, attr, Serve(vol, args, lim), args.maxcount)
  {
    AnyPage(vol, args, lim, n);
    PageWithin(c, path, stat, attr, Serve(vol, args, lim), n, PageSize(args, lim), args.maxcount);
  }

  /** Within that bound every reply is within maxcount, whatever the directory and wherever the page starts. */
  lemma EveryReplyWithin(vol: Volume, path: Bytes, stat: Dirent -> Fattr3, attr: Fattr3, n: nat, args: Args, lim: Limits)
    requires |path| + 1 + n <= 64 && Named(vol.dir, n) && Serve(vol, args, lim).Page?
    requires 104 + PageSize(args, lim) * MostTaken(|path|, n) <= args.maxcount
    ensures Within(ResOkCodec(), path, stat, attr, Serve(vol, args, lim), args.maxcount)
  {
    ResOkSized();
    ShortEnough(ResOkCodec(), vol, path, stat, attr, n, args, lim);
  }

  lemma Times(a: nat, b: nat, k: nat)
    requires a <= b
    ensures a * k <= b * k
  {
  }

  /** k records with names of n bytes. */
  function Crowd(k: nat, n: nat): seq<Dirent> {
    seq(k, (i: nat) => Dirent(i, 3 + i, 24, Letters(n), true))
  }

  function Letters(n: nat): (b: Bytes)
    ensures |b| == n && 0 !in b && (n > 0 ==> b != DOT && b != DOTDOT)
  {
    var b := seq(n, _ => 97);
    assert n > 0 ==> b[0] == 97;
    b
  }

  function Crowded(k: nat, n: nat, handleLen: nat): Volume {
    Volume(handleLen, Some(Attr(true, 0, 0)), true, Crowd(k, n), false)
  }

  lemma CrowdedServed(k: nat, n: nat, path: Bytes)
    requires 1 <= n && path != [] && 3 + k <= LONG_MAX
    ensures Served(Crowded(k, n, |path|), path, n)
  {
  }

  lemma CrowdTakes(k: nat, n: nat, pathLen: nat)
    requires 1 <= n
    ensures TakenAll(pathLen, Crowd(k, n)) == k * MostTaken(pathLen, n)
  {
    var ds := Crowd(k, n);
    forall i | 0 <= i < |ds|
      ensures Cost(pathLen)(ds[i]) == MostTaken(pathLen, n)
    {
      assert ds[i].name == Letters(n);
    }
    SumSame(Cost(pathLen), ds, MostTaken(pathLen, n));
  }

  lemma CrowdPage(k: nat, n: nat, path: Bytes, args: Args, lim: Limits)
    requires 1 <= n && path != [] && args.cookie == 0 && k == PageSize(args, lim) && 3 + k <= LONG_MAX
    ensures var p := Serve(Crowded(k, n, |path|), args, lim);
            p.Page? && |p.verf| == 8 && p.entries == Crowd(k, n)
  {
    CrowdedServed(k, n, path);
    FirstPage(Crowded(k, n, |path|), args, lim);
    assert Crowd(k, n)[..k] == Crowd(k, n);
  }

  lemma CrowdExpected(k: nat, n: nat, path: Bytes, stat: Dirent -> Fattr3, p: Res)
    requires 1 <= n && |path| + 1 + n <= 64 && p.Page? && p.entries == Crowd(k, n)
    ensures Expected(path, stat, p) == Some(104 + k * MostTaken(|path|, n))
  {
    NamedFits(path, stat, Crowd(k, n), n);
    CrowdTakes(k, n, |path|);
  }

  /** A full page of the largest entries, to the byte. */
  lemma CrowdReply(c: Codec<ResOk>, k: nat, n: nat, path: Bytes, stat: Dirent -> Fattr3, attr: Fattr3, args: Args, lim: Limits)
    requires Sized(c) && 1 <= n && path != [] && |path| + 1 + n <= 64 && args.cookie == 0
    requires k == PageSize(args, lim) && 3 + k <= LONG_MAX
    ensures var p := Serve(Crowded(k, n, |path|), args, lim);
            p.Page? && Length(c, ReplyOf(path, stat, attr, p)) == Some(104 + k * MostTaken(|path|, n))
  {
    CrowdPage(k, n, path, args, lim);
    CrowdExpected(k, n, path, stat, Serve(Crowded(k, n, |path|), args, lim));
    PageTakes(c, path, stat, attr, Serve(Crowded(k, n, |path|), args, lim));
  }

  /** Pages are short enough for the offsets of a crowd. */
  lemma PageSizeSmall(args: Args, lim: Limits)
    ensures 3 + PageSize(args, lim) <= LONG_MAX
  {
  }

  lemma WithinIff(c: Codec<ResOk>, path: Bytes, stat: Dirent -> Fattr3, attr: Fattr3, n: nat, args: Args, lim: Limits)
    requires Sized(c) && path != [] && 1 <= n && |path| + 1 + n <= 64 && args.cookie == 0
    ensures (forall vol :: Served(vol, path, n) ==> Within(c, path, stat, attr, Serve(vol, args, lim), args.maxcount)) <==>
              104 + PageSize(args, lim) * MostTaken(|path|, n) <= args.maxcount
  {
    if 104 + PageSize(args, lim) * MostTaken(|path|, n) <= args.maxcount {
      forall vol | Served(vol, path, n)
        ensures Within(c, path, stat, attr, Serve(vol, args, lim), args.maxcount)
      {
        FirstPage(vol, args, lim);
        ShortEnough(c, vol, path, stat, attr, n, args, lim);
      }
    } else {
      var k := PageSize(args, lim);
      PageSizeSmall(args, lim);
      CrowdedServed(k, n, path);
      CrowdReply(c, k, n, path, stat, attr, args, lim);
    }
  }

  /**
    For a directory handle and names of at most n bytes whose handles fit: the first reply is within maxcount
    for every such directory if and only if 104 bytes and a full page of the largest entries are.
   */
  lemma ReplyWithinIff(path: Bytes, stat: Dirent -> Fattr3, attr: Fattr3, n: nat, args: Args, lim: Limits)
    requires path != [] && 1 <= n && |path| + 1 + n <= 64 && args.cookie == 0
    ensures (forall vol :: Served(vol, path, n) ==>
               Within(ResOkCodec(), path, stat, attr, Serve(vol, args, lim), args.maxcount)) <==>
              104 + PageSize(args, lim) * MostTaken(|path|, n) <= args.maxcount
  {
    ResOkSized();
    WithinIff(ResOkCodec(), path, stat, attr, n, args, lim);
  }

  /** A page of 112 files with names of one letter under "/" takes 14440 bytes. */
  lemma PageOf112(c: Codec<ResOk>, stat: Dirent -> Fattr3, attr: Fattr3, args: Args, lim: Limits)
    requires Sized(c) && args.cookie == 0 && PageSize(args, lim) == 112
    ensures var p := Serve(Crowded(112, 1, |[SLASH]|), args, lim);
            p.Page? && Length(c, ReplyOf([SLASH], stat, attr, p)) == Some(14440)
  {
    assert MostTaken(|[SLASH]|, 1) == 128;
    CrowdReply(c, 112, 1, [SLASH], stat, attr, args, lim);
  }

  /** Asked for at most 1000 bytes, under the default limits, the server fills pages of 112 entries. */
  lemma ThousandBytesExceeded(stat: Dirent -> Fattr3, attr: Fattr3)
    ensures var args := Args(0, [], 1000, 1000);
            var p := Serve(Crowded(112, 1, |[SLASH]|), args, DEFAULTS);
            PageSize(args, DEFAULTS) == 112 && p.Page? && Length(ResOkCodec(), ReplyOf([SLASH], stat, attr, p)) == Some(14440)
  {
    ResOkSized();
    PageOf112(ResOkCodec(), stat, attr, Args(0, [], 1000, 1000), DEFAULTS);
  }
}
