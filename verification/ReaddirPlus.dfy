/**
  READDIRPLUS paging (section 3.3.17 of RFC 1813): the server's nested loop over chunks of directory
  records, and the client that follows the cookies.
 */
module ReaddirPlus {
  import opened Common

  const BUF_SIZE: nat := 1024
  const LONG_MAX: nat := 0x7FFF_FFFF_FFFF_FFFF
  const WRITE_READ_MAX: int := 64 * 1024 * 1024
  const UINT32: int := 0x1_0000_0000
  const UINT64: int := 0x1_0000_0000_0000_0000
  const NS_PER_SEC: nat := 1_000_000_000
  const BYTES_PER_XDR_UNIT: int := 4
  const SIZEOF_FATTR3: int := 88
  const SIZEOF_COOKIEVERF3: int := 8
  const SIZEOF_POINTER: nat := 8

  /** A directory record as getdents64 gives it; `statOk` is whether its attributes can be read. */
  datatype Dirent = Dirent(ino: nat, off: nat, reclen: nat, name: seq<byte>, statOk: bool)

  const DOT: seq<byte> := [46]
  const DOTDOT: seq<byte> := [46, 46]

  /** Record offsets grow strictly and every record fits the read buffer. */
  ghost predicate ValidDir(dir: seq<Dirent>) {
    && (forall i :: 0 <= i < |dir| ==> 0 < dir[i].off <= LONG_MAX && 0 < dir[i].reclen <= BUF_SIZE)
    && (forall i, j :: 0 <= i < j < |dir| ==> dir[i].off < dir[j].off)
  }

  datatype Attr = Attr(isDir: bool, ctimeSec: nat, ctimeNsec: nat)

  /**
    What the handle leads to; None for attributes that cannot be read.  dir holds the records that can be read;
    in a broken directory a read after the last of them fails.
   */
  datatype Volume = Volume(handleLen: nat, attr: Option<Attr>, opens: bool, dir: seq<Dirent>, broken: bool)

  datatype Args = Args(cookie: nat, verf: seq<byte>, dircount: nat, maxcount: nat)

  datatype Limits = Limits(resSize: nat, maxCount: nat)

  datatype Res =
    | Page(entries: seq<Dirent>, eof: bool, verf: seq<byte>)
    | BadCookie | NotDir | BadHandle
    | ReqError    // the request fails as a whole

  // ---------------------------------------------------------------- limits

  /** mem_avail, with the unsigned arithmetic of the source: 32 bits, then 64. */
  function MemAvail(args: Args, lim: Limits): int {
    var size := if lim.resSize < args.maxcount then lim.resSize else args.maxcount;
    var units := (size - BYTES_PER_XDR_UNIT - BYTES_PER_XDR_UNIT) % UINT32;
    Min(WRITE_READ_MAX, (units - SIZEOF_FATTR3 - SIZEOF_COOKIEVERF3) % UINT64)
  }

  function MaxEntries(args: Args, lim: Limits): nat {
    if args.dircount < lim.maxCount then args.dircount else lim.maxCount
  }

  /** The test that closes a page after n entries: one of the two limits is met. */
  predicate PageFull(maxEntries: nat, memAvail: int, n: nat) {
    n >= maxEntries || n * SIZEOF_POINTER + BYTES_PER_XDR_UNIT >= memAvail
  }

  /** How many entries fill a page, in closed form. */
  function FillSize(maxEntries: nat, memAvail: int): (n: nat)
    ensures n >= 1
  {
    Max(1, Min(maxEntries, (memAvail + 3) / 8))
  }

  function PageSize(args: Args, lim: Limits): (n: nat)
    ensures n >= 1
  {
    FillSize(MaxEntries(args, lim), MemAvail(args, lim))
  }

  /** The closed form is the first count at which the source closes the page. */
  lemma PageFullIff(maxEntries: nat, memAvail: int, n: nat)
    requires n >= 1
    ensures PageFull(maxEntries, memAvail, n) <==> n >= FillSize(maxEntries, memAvail)
  {
  }

  /** A page never has more than max(1, dircount) entries. */
  lemma PageSizeBound(args: Args, lim: Limits)
    ensures 1 <= PageSize(args, lim) <= Max(1, args.dircount)
  {
  }

  // ---------------------------------------------------------------- the verifier

  /** Eight bytes, least significant first, as memcpy of a uint64_t leaves them. */
  function LittleEndian(v: nat, n: nat): (b: seq<byte>)
    ensures |b| == n
  {
    if n == 0 then [] else [v % 256] + LittleEndian(v / 256, n - 1)
  }

  /** Attributes carry 32-bit seconds and nanoseconds; the verifier is their nanosecond count. */
  function Verifier(a: Attr): (b: seq<byte>)
    ensures |b| == 8
  {
    LittleEndian(Nanoseconds(a), 8)
  }

  function Nanoseconds(a: Attr): nat {
    (a.ctimeSec % UINT32) * NS_PER_SEC + a.ctimeNsec % UINT32
  }

  function Power256(n: nat): nat {
    if n == 0 then 1 else 256 * Power256(n - 1)
  }

  lemma {:induction false} LittleEndianInjective(a: nat, b: nat, n: nat)
    requires a < Power256(n) && b < Power256(n) && LittleEndian(a, n) == LittleEndian(b, n)
    ensures a == b
  {
    if n > 0 {
      var x, y := LittleEndian(a, n), LittleEndian(b, n);
      assert x[0] == a % 256 && y[0] == b % 256;
      assert x[1..] == LittleEndian(a / 256, n - 1) && y[1..] == LittleEndian(b / 256, n - 1);
      LittleEndianInjective(a / 256, b / 256, n - 1);
    }
  }

  lemma Power8()
    ensures Power256(8) == 0x1_0000_0000_0000_0000
  {
    assert Power256(4) == 0x1_0000_0000;
    assert Power256(6) == 0x1_0000_0000_0000;
  }

  /** The number whose bytes these are, the least significant first. */
  function Value(b: seq<byte>): nat {
    if b == [] then 0 else b[0] + 256 * Value(b[1..])
  }

  lemma {:induction false} LittleEndianValue(v: nat, n: nat)
    requires v < Power256(n)
    ensures Value(LittleEndian(v, n)) == v
  {
    if n > 0 {
      assert LittleEndian(v, n)[1..] == LittleEndian(v / 256, n - 1);
      LittleEndianValue(v / 256, n - 1);
    }
  }

  /** The verifier is the 32 bits of seconds times a thousand million, and the nanoseconds, in one 64-bit number. */
  lemma VerifierIs(a: Attr)
    ensures |Verifier(a)| == 8
    ensures Value(Verifier(a)) == a.ctimeSec % 4294967296 * 1000000000 + a.ctimeNsec % 4294967296
  {
    Power8();
    LittleEndianValue(Nanoseconds(a), 8);
  }

  /** The 64-bit product cannot wrap, and seconds and nanoseconds can be read back from it. */
  lemma NanosecondsIff(a: Attr, b: Attr)
    requires a.ctimeNsec < NS_PER_SEC && b.ctimeNsec < NS_PER_SEC
    ensures Nanoseconds(a) < 0x1_0000_0000_0000_0000
    ensures Nanoseconds(a) == Nanoseconds(b) <==> a.ctimeNsec == b.ctimeNsec && a.ctimeSec % UINT32 == b.ctimeSec % UINT32
  {
  }

  lemma LittleEndianIff(x: nat, y: nat, n: nat)
    requires x < Power256(n) && y < Power256(n)
    ensures LittleEndian(x, n) == LittleEndian(y, n) <==> x == y
  {
    if LittleEndian(x, n) == LittleEndian(y, n) {
      LittleEndianInjective(x, y, n);
    }
  }

  /**
    A changed ctime changes the verifier, and nothing else does: it is the same exactly when the
    nanoseconds are the same and the seconds agree in the 32 bits the attributes carry.
   */
  lemma VerifierIff(a: Attr, b: Attr)
    requires a.ctimeNsec < NS_PER_SEC && b.ctimeNsec < NS_PER_SEC
    ensures Verifier(a) == Verifier(b) <==>
              a.ctimeNsec == b.ctimeNsec && a.ctimeSec % UINT32 == b.ctimeSec % UINT32
  {
    NanosecondsIff(a, b);
    NanosecondsIff(b, a);
    Power8();
    LittleEndianIff(Nanoseconds(a), Nanoseconds(b), 8);
  }

  // ---------------------------------------------------------------- one call, specified

  /** How many records lie at or before this position: where reading resumes after a seek. */
  function Skip(dir: seq<Dirent>, pos: nat): (i: nat)
    ensures i <= |dir|
  {
    if dir == [] || dir[0].off > pos then 0 else 1 + Skip(dir[1..], pos)
  }

  predicate Describable(d: Dirent) {
    d.name == DOT || d.name == DOTDOT || d.statOk
  }

  predicate AllDescribable(ds: seq<Dirent>) {
    forall i :: 0 <= i < |ds| ==> Describable(ds[i])
  }

  /** The page for the records from index i on: the first n of them, and eof or a failed read if that reaches the end. */
  function PageFrom(dir: seq<Dirent>, broken: bool, i: nat, n: nat, verf: seq<byte>): Res
    requires i <= |dir| && n >= 1
  {
    var rest := dir[i..];
    var shown := if |rest| < n then rest else rest[..n];
    if !AllDescribable(shown) then ReqError
    else if |rest| >= n && rest[n - 1].off != LONG_MAX then Page(shown, false, verf)
    else if broken then BadHandle
    else Page(shown, true, verf)
  }

  function StartPos(cookie: nat): nat {
    if cookie > 2 then cookie else 0
  }

  /** A directory whose current verifier is v answers with pages of n entries. */
  function ServePage(vol: Volume, v: seq<byte>, cookie: nat, verf: seq<byte>, n: nat): Res
    requires n >= 1
  {
    if cookie != 0 && verf != v then BadCookie
    else if !vol.opens || StartPos(cookie) > LONG_MAX then BadHandle
    else PageFrom(vol.dir, vol.broken, Skip(vol.dir, StartPos(cookie)), n, v)
  }

  /** nfs3_readdirplus, said without chunks. */
  function Serve(vol: Volume, args: Args, lim: Limits): Res {
    if vol.handleLen == 0 || vol.attr.None? then ReqError
    else if !vol.attr.value.isDir then NotDir
    else ServePage(vol, Verifier(vol.attr.value), args.cookie, args.verf, PageSize(args, lim))
  }

  // ---------------------------------------------------------------- one call, as it runs

  function Bytes(ds: seq<Dirent>): nat {
    if ds == [] then 0 else ds[0].reclen + Bytes(ds[1..])
  }

  /** getdents64: some whole records from the current position, at least one while any remain; None is a failure. */
  method ReadEntries(dir: seq<Dirent>, broken: bool, pos: nat) returns (chunk: Option<seq<Dirent>>)
    requires ValidDir(dir) && pos <= |dir|
    ensures chunk.None? <==> broken && pos == |dir|
    ensures chunk.Some? ==> |chunk.value| <= |dir| - pos && chunk.value == dir[pos..pos + |chunk.value|]
    ensures chunk.Some? ==> (chunk.value == [] <==> pos == |dir|)
    ensures chunk.Some? ==> Bytes(chunk.value) <= BUF_SIZE
  {
    if pos == |dir| {
      return if broken then None else Some([]);
    }
    assert dir[pos..pos + 1] == [dir[pos]];
    assert Bytes([dir[pos]]) == dir[pos].reclen;
    var k :| 1 <= k <= |dir| - pos && Bytes(dir[pos..pos + k]) <= BUF_SIZE;
    chunk := Some(dir[pos..pos + k]);
  }

  /** The reply does not depend on how the kernel cuts the directory into chunks. */
  method Readdirplus(vol: Volume, args: Args, lim: Limits) returns (res: Res)
    requires ValidDir(vol.dir)
    ensures res == Serve(vol, args, lim)
    ensures lim.resSize < 0x1_0000_0000 && args.maxcount < 0x1_0000_0000 ==> RightServe(vol, args, lim, res)
  {
    if lim.resSize < 0x1_0000_0000 && args.maxcount < 0x1_0000_0000 {
      ServeExact(vol, args, lim);
    }
    if vol.handleLen == 0 || vol.attr.None? {
      return ReqError;
    }
    if !vol.attr.value.isDir {
      return NotDir;
    }
    var verf := Verifier(vol.attr.value);
    if args.cookie != 0 && args.verf != verf {
      return BadCookie;
    }
    var cookie := if args.cookie > 2 then args.cookie else 0;
    if !vol.opens || cookie > LONG_MAX {
      return BadHandle;
    }
    res := FillPage(vol.dir, vol.broken, Skip(vol.dir, cookie), MaxEntries(args, lim), MemAvail(args, lim), verf);
  }

  /** The page so far may go on: it is not full, or it is, with the largest offset at the end of the directory. */
  ghost predicate GoesOn(dir: seq<Dirent>, start: nat, pos: nat, entries: seq<Dirent>, n: nat) {
    Filling(dir, start, pos, entries) && (|entries| < n || (|entries| == n >= 1 && pos == |dir| && dir[pos - 1].off == LONG_MAX))
  }

  /** The outer loop: read a chunk and walk its records, until a page is closed or nothing is left. */
  method FillPage(dir: seq<Dirent>, broken: bool, start: nat, maxEntries: nat, memAvail: int, verf: seq<byte>)
    returns (res: Res)
    requires ValidDir(dir) && start <= |dir|
    ensures res == PageFrom(dir, broken, start, FillSize(maxEntries, memAvail), verf)
  {
    var pos := start;
    var entries: seq<Dirent> := [];
    ghost var n := FillSize(maxEntries, memAvail);
    while true
      invariant start <= pos && GoesOn(dir, start, pos, entries, n)
      decreases |dir| - pos
    {
      var got := ReadEntries(dir, broken, pos);
      if got.None? {
        LastPage(dir, broken, start, pos, entries, n, verf);
        return BadHandle;
      }
      if got.value == [] {
        break;
      }
      var closed;
      closed, entries := WalkChunk(dir, broken, start, pos, got.value, entries, maxEntries, memAvail, verf);
      if closed.Some? {
        return closed.value;
      }
      pos := pos + |got.value|;
    }
    LastPage(dir, broken, start, pos, entries, n, verf);
    return Page(entries, true, verf);
  }

  /** The inner loop over the records of one chunk, read at pos; None where the outer loop goes on. */
  method WalkChunk(ghost dir: seq<Dirent>, ghost broken: bool, ghost start: nat, ghost pos: nat, chunk: seq<Dirent>,
                   entries0: seq<Dirent>, maxEntries: nat, memAvail: int, verf: seq<byte>)
    returns (closed: Option<Res>, entries: seq<Dirent>)
    requires ValidDir(dir) && pos + |chunk| <= |dir| && chunk == dir[pos..pos + |chunk|] && chunk != []
    requires GoesOn(dir, start, pos, entries0, FillSize(maxEntries, memAvail))
    ensures closed.Some? ==> closed.value == PageFrom(dir, broken, start, FillSize(maxEntries, memAvail), verf)
    ensures closed.None? ==> GoesOn(dir, start, pos + |chunk|, entries, FillSize(maxEntries, memAvail))
  {
    entries := entries0;
    ghost var n := FillSize(maxEntries, memAvail);
    var b := 0;
    while b < |chunk|
      invariant 0 <= b <= |chunk| && Filling(dir, start, pos + b, entries) && |entries| < n
    {
      var d := chunk[b];
      assert d == dir[pos + b];
      if !Describable(d) {
        NotDescribable(dir, broken, start, pos + b, n, verf);
        return Some(ReqError), entries;
      }
      FillingGrows(dir, start, pos + b, entries);
      entries := entries + [d];
      PageFullIff(maxEntries, memAvail, |entries|);
      if PageFull(maxEntries, memAvail, |entries|) {
        if d.off == LONG_MAX {
          LastOffset(dir);
          break;
        }
        FullPage(dir, broken, start, pos + b + 1, entries, n, verf);
        return Some(Page(entries, false, verf)), entries;
      }
      b := b + 1;
    }
    return None, entries;
  }

  /** The entries gathered so far are the describable records from start up to pos. */
  ghost predicate Filling(dir: seq<Dirent>, start: nat, pos: nat, entries: seq<Dirent>) {
    start <= pos <= |dir| && entries == dir[start..pos] && AllDescribable(entries)
  }

  lemma FillingGrows(dir: seq<Dirent>, start: nat, pos: nat, entries: seq<Dirent>)
    requires Filling(dir, start, pos, entries) && pos < |dir| && Describable(dir[pos])
    ensures Filling(dir, start, pos + 1, entries + [dir[pos]])
  {
  }

  lemma FullPage(dir: seq<Dirent>, broken: bool, start: nat, pos: nat, entries: seq<Dirent>, n: nat, verf: seq<byte>)
    requires Filling(dir, start, pos, entries) && |entries| == n >= 1 && dir[pos - 1].off != LONG_MAX
    ensures PageFrom(dir, broken, start, n, verf) == Page(entries, false, verf)
  {
    assert dir[start..][..n] == entries;
  }

  lemma LastPage(dir: seq<Dirent>, broken: bool, start: nat, pos: nat, entries: seq<Dirent>, n: nat, verf: seq<byte>)
    requires Filling(dir, start, pos, entries) && pos == |dir| && n >= 1
    requires |entries| < n || (|entries| == n && dir[pos - 1].off == LONG_MAX)
    ensures PageFrom(dir, broken, start, n, verf) == if broken then BadHandle else Page(entries, true, verf)
  {
    assert dir[start..] == entries;
    if |entries| == n {
      assert dir[start..][..n] == entries;
    }
  }

  lemma NotDescribable(dir: seq<Dirent>, broken: bool, start: nat, pos: nat, n: nat, verf: seq<byte>)
    requires start <= pos < |dir| && pos - start < n && !Describable(dir[pos])
    ensures PageFrom(dir, broken, start, n, verf) == ReqError
  {
    var rest := dir[start..];
    var shown := if |rest| < n then rest else rest[..n];
    assert shown[pos - start] == dir[pos];
  }

  /** Only the last record can carry the largest offset. */
  lemma LastOffset(dir: seq<Dirent>)
    requires ValidDir(dir)
    ensures forall i :: 0 <= i < |dir| - 1 ==> dir[i].off < LONG_MAX
  {
    forall i | 0 <= i < |dir| - 1
      ensures dir[i].off < LONG_MAX
    {
      assert dir[i].off < dir[i + 1].off;
    }
  }

  // ---------------------------------------------------------------- the client

  /** What a client has gathered after at most `calls` calls, and whether it has seen eof. */
  datatype Harvest = Harvest(entries: seq<Dirent>, complete: bool)

  /**
    A client of a server that answers cookies and verifiers with pages: it follows the cookie of each page's
    last entry and hands back each verifier.
   */
  function Collect(serve: (nat, seq<byte>) -> Res, cookie: nat, verf: seq<byte>, calls: nat): Harvest
    decreases calls
  {
    if calls == 0 then Harvest([], false)
    else match serve(cookie, verf)
      case Page(es, eof, got) =>
        if eof || es == [] then Harvest(es, eof)
        else
          var rest := Collect(serve, es[|es| - 1].off, got, calls - 1);
          Harvest(es + rest.entries, rest.complete)
      case _ => Harvest([], false)
  }

  /** The directory with verifier v, asked for pages of n entries. */
  function Server(vol: Volume, v: seq<byte>, n: nat): (nat, seq<byte>) -> Res
    requires n >= 1
  {
    (cookie: nat, verf: seq<byte>) => ServePage(vol, v, cookie, verf, n)
  }

  /** The directory as the limits of args have it served. */
  function ServerFor(vol: Volume, args: Args, lim: Limits): (nat, seq<byte>) -> Res
    requires vol.attr.Some?
  {
    Server(vol, Verifier(vol.attr.value), PageSize(args, lim))
  }

  /** A directory that can be listed: all attributes and records readable, offsets in order. */
  ghost predicate Listable(vol: Volume) {
    && vol.handleLen > 0 && vol.attr.Some? && vol.attr.value.isDir && vol.opens && !vol.broken
    && ValidDir(vol.dir) && AllDescribable(vol.dir)
  }

  lemma {:induction false} SkipAt(dir: seq<Dirent>, i: nat)
    requires ValidDir(dir) && i < |dir|
    ensures Skip(dir, dir[i].off) == i + 1
  {
    if i == 0 {
      SkipBelow(dir[1..], dir[0].off);
    } else {
      SkipAt(dir[1..], i - 1);
    }
  }

  lemma SkipBelow(dir: seq<Dirent>, pos: nat)
    requires forall i :: 0 <= i < |dir| ==> dir[i].off > pos
    ensures Skip(dir, pos) == 0
  {
  }

  /** The chain has reached index i: this cookie and verifier resume there. */
  ghost predicate Resumes(vol: Volume, v: seq<byte>, cookie: nat, verf: seq<byte>, i: nat) {
    && Listable(vol) && i <= |vol.dir|
    && (cookie != 0 ==> verf == v)
    && StartPos(cookie) <= LONG_MAX && Skip(vol.dir, StartPos(cookie)) == i
  }

  /** A full page that is not the end, or the rest of the directory with eof. */
  function PageFor(dir: seq<Dirent>, i: nat, n: nat, v: seq<byte>): Res
    requires n >= 1 && i <= |dir|
  {
    if i + n <= |dir| && dir[i + n - 1].off != LONG_MAX then Page(dir[i..i + n], false, v) else Page(dir[i..], true, v)
  }

  /** One call of the chain. */
  lemma ServeAt(vol: Volume, v: seq<byte>, cookie: nat, verf: seq<byte>, n: nat, i: nat)
    requires Resumes(vol, v, cookie, verf, i) && n >= 1
    ensures ServePage(vol, v, cookie, verf, n) == PageFor(vol.dir, i, n, v)
  {
    LastOffset(vol.dir);
    PageAt(vol.dir, i, n, v);
  }

  /** The server answers every resumption with the page for it. */
  ghost predicate Answers(serve: (nat, seq<byte>) -> Res, vol: Volume, v: seq<byte>, n: nat)
    requires n >= 1
  {
    forall cookie, verf, i :: Resumes(vol, v, cookie, verf, i) ==> serve(cookie, verf) == PageFor(vol.dir, i, n, v)
  }

  lemma ServerAnswers(vol: Volume, v: seq<byte>, n: nat)
    requires n >= 1
    ensures Answers(Server(vol, v, n), vol, v, n)
  {
    forall cookie, verf, i | Resumes(vol, v, cookie, verf, i)
      ensures Server(vol, v, n)(cookie, verf) == PageFor(vol.dir, i, n, v)
    {
      ServeAt(vol, v, cookie, verf, n, i);
    }
  }

  lemma PageAt(dir: seq<Dirent>, i: nat, n: nat, v: seq<byte>)
    requires n >= 1 && i <= |dir| && AllDescribable(dir)
    requires i + n <= |dir| && dir[i + n - 1].off == LONG_MAX ==> i + n == |dir|
    ensures PageFrom(dir, false, i, n, v) == PageFor(dir, i, n, v)
  {
    var rest := dir[i..];
    if i + n <= |dir| {
      assert rest[..n] == dir[i..i + n];
    }
  }

  lemma CollectStep(serve: (nat, seq<byte>) -> Res, cookie: nat, verf: seq<byte>, calls: nat, es: seq<Dirent>, v: seq<byte>)
    requires calls > 0 && es != [] && serve(cookie, verf) == Page(es, false, v)
    ensures var rest := Collect(serve, es[|es| - 1].off, v, calls - 1);
            Collect(serve, cookie, verf, calls) == Harvest(es + rest.entries, rest.complete)
  {
  }

  lemma CollectEnd(serve: (nat, seq<byte>) -> Res, cookie: nat, verf: seq<byte>, calls: nat, es: seq<Dirent>, v: seq<byte>)
    requires calls > 0 && serve(cookie, verf) == Page(es, true, v)
    ensures Collect(serve, cookie, verf, calls) == Harvest(es, true)
  {
  }

  lemma Rejoin(dir: seq<Dirent>, i: nat, n: nat)
    requires n >= 1 && i + n <= |dir|
    ensures dir[i..i + n] + dir[i + n..] == dir[i..]
    ensures dir[i..i + n][n - 1] == dir[i + n - 1]
  {
  }

  lemma NextResumes(vol: Volume, v: seq<byte>, cookie: nat, verf: seq<byte>, n: nat, i: nat)
    requires Resumes(vol, v, cookie, verf, i) && n >= 1 && i + n <= |vol.dir|
    requires 2 < vol.dir[i + n - 1].off
    ensures Resumes(vol, v, vol.dir[i + n - 1].off, v, i + n)
    ensures i + n + n <= |vol.dir| ==> vol.dir[i + n + n - 1].off > 2
  {
    SkipAt(vol.dir, i + n - 1);
    assert i + n + n <= |vol.dir| ==> vol.dir[i + n - 1].off < vol.dir[i + n + n - 1].off;
  }

  lemma CollectMore(serve: (nat, seq<byte>) -> Res, dir: seq<Dirent>, v: seq<byte>, n: nat, cookie: nat, verf: seq<byte>,
                    i: nat, calls: nat)
    requires n >= 1 && calls > 0 && i + n <= |dir| && serve(cookie, verf) == Page(dir[i..i + n], false, v)
    requires Collect(serve, dir[i + n - 1].off, v, calls - 1) == Harvest(dir[i + n..], true)
    ensures Collect(serve, cookie, verf, calls) == Harvest(dir[i..], true)
  {
    Rejoin(dir, i, n);
    CollectStep(serve, cookie, verf, calls, dir[i..i + n], v);
  }

  /** From index i on, with cookies above 2, the chain returns the rest of the directory exactly. */
  lemma {:induction false} CollectFrom(serve: (nat, seq<byte>) -> Res, vol: Volume, v: seq<byte>, n: nat,
                                       cookie: nat, verf: seq<byte>, i: nat, calls: nat)
    requires n >= 1 && Answers(serve, vol, v, n) && Resumes(vol, v, cookie, verf, i)
    requires i + n <= |vol.dir| ==> vol.dir[i + n - 1].off > 2
    requires calls > |vol.dir| - i
    ensures Collect(serve, cookie, verf, calls) == Harvest(vol.dir[i..], true)
    decreases calls
  {
    if i + n <= |vol.dir| && vol.dir[i + n - 1].off != LONG_MAX {
      NextResumes(vol, v, cookie, verf, n, i);
      CollectFrom(serve, vol, v, n, vol.dir[i + n - 1].off, v, i + n, calls - 1);
      CollectMore(serve, vol.dir, v, n, cookie, verf, i, calls);
    } else {
      CollectEnd(serve, cookie, verf, calls, vol.dir[i..], v);
    }
  }

  /** The first page ends on a cookie that the server would take for a fresh start. */
  predicate RestartsForever(dir: seq<Dirent>, n: nat)
    requires n >= 1
  {
    n <= |dir| && dir[n - 1].off <= 2
  }

  lemma {:induction false} CollectLoops(serve: (nat, seq<byte>) -> Res, vol: Volume, v: seq<byte>, n: nat,
                                        cookie: nat, verf: seq<byte>, calls: nat)
    requires n >= 1 && Answers(serve, vol, v, n) && Resumes(vol, v, cookie, verf, 0) && RestartsForever(vol.dir, n)
    ensures !Collect(serve, cookie, verf, calls).complete
    decreases calls
  {
    if calls > 0 {
      SkipBelow(vol.dir, 0);
      Rejoin(vol.dir, 0, n);
      CollectStep(serve, cookie, verf, calls, vol.dir[0..n], v);
      CollectLoops(serve, vol, v, n, vol.dir[n - 1].off, v, calls - 1);
    }
  }

  /**
    Paging is exact: a client that starts from cookie 0 gets every record of an unchanged directory
    exactly once, in order, and then eof, within |dir| + 1 calls.  It does so if and only if the first
    page does not end on a cookie of 1 or 2, which the server treats as cookie 0; otherwise the chain
    never completes.
   */
  lemma PagingExact(vol: Volume, lim: Limits, args: Args)
    requires Listable(vol) && args.cookie == 0
    ensures var n, serve := PageSize(args, lim), ServerFor(vol, args, lim);
            && (!RestartsForever(vol.dir, n) ==>
                  forall calls: nat :: calls > |vol.dir| ==> Collect(serve, 0, args.verf, calls) == Harvest(vol.dir, true))
            && (RestartsForever(vol.dir, n) ==> forall calls: nat :: !Collect(serve, 0, args.verf, calls).complete)
  {
    var n, v, serve := PageSize(args, lim), Verifier(vol.attr.value), ServerFor(vol, args, lim);
    SkipBelow(vol.dir, 0);
    ServerAnswers(vol, v, n);
    if RestartsForever(vol.dir, n) {
      forall calls: nat
        ensures !Collect(serve, 0, args.verf, calls).complete
      {
        CollectLoops(serve, vol, v, n, 0, args.verf, calls);
      }
    } else {
      forall calls: nat | calls > |vol.dir|
        ensures Collect(serve, 0, args.verf, calls) == Harvest(vol.dir, true)
      {
        CollectFrom(serve, vol, v, n, 0, args.verf, 0, calls);
        assert vol.dir[0..] == vol.dir;
      }
    }
  }

  /** The listing of a broken directory is never taken for complete. */
  lemma {:induction false} BrokenNeverComplete(vol: Volume, args: Args, lim: Limits, cookie: nat, verf: seq<byte>, calls: nat)
    requires vol.broken && vol.attr.Some?
    ensures !Collect(ServerFor(vol, args, lim), cookie, verf, calls).complete
    decreases calls
  {
    var serve := ServerFor(vol, args, lim);
    if calls > 0 {
      match serve(cookie, verf)
      case Page(es, eof, got) =>
        if !eof && es != [] {
          BrokenNeverComplete(vol, args, lim, es[|es| - 1].off, got, calls - 1);
        }
      case _ =>
    }
  }

  /** With all offsets above 2 there is nothing to fear, whatever the limits. */
  lemma PagingExactAboveTwo(vol: Volume, lim: Limits, args: Args)
    requires Listable(vol) && args.cookie == 0
    requires forall i :: 0 <= i < |vol.dir| ==> vol.dir[i].off > 2
    ensures Collect(ServerFor(vol, args, lim), 0, args.verf, |vol.dir| + 1) == Harvest(vol.dir, true)
  {
    PagingExact(vol, lim, args);
  }

  /** The server of the client's calls is the server: each call is answered as by one with that cookie and verifier. */
  lemma ServerIsServe(vol: Volume, args: Args, lim: Limits, cookie: nat, verf: seq<byte>)
    requires vol.handleLen > 0 && vol.attr.Some? && vol.attr.value.isDir
    ensures ServerFor(vol, args, lim)(cookie, verf) == Serve(vol, args.(cookie := cookie, verf := verf), lim)
  {
    assert PageSize(args.(cookie := cookie, verf := verf), lim) == PageSize(args, lim);
  }

  /** A page is never empty before the end, never above the limit, and eof comes with the last record. */
  lemma PageShape(vol: Volume, lim: Limits, args: Args, i: nat)
    requires Listable(vol) && Resumes(vol, Verifier(vol.attr.value), args.cookie, args.verf, i)
    ensures var p, n := Serve(vol, args, lim), PageSize(args, lim);
            && p.Page?
            && |p.entries| <= Max(1, args.dircount)
            && (!p.eof ==> |p.entries| == n >= 1)
            && (p.eof ==> p.entries == vol.dir[i..])
            && (p.eof <==> |vol.dir| - i < n || (|vol.dir| - i == n && vol.dir[|vol.dir| - 1].off == LONG_MAX))
  {
    PageSizeBound(args, lim);
    ServeAt(vol, Verifier(vol.attr.value), args.cookie, args.verf, PageSize(args, lim), i);
    LastOffset(vol.dir);
  }

  /** After a change of ctime, a continued listing is refused; without one it never is. */
  lemma ChangeIsDetected(vol: Volume, vol': Volume, lim: Limits, args: Args)
    requires Listable(vol) && Listable(vol') && args.cookie != 0 && args.verf == Verifier(vol.attr.value)
    requires vol.attr.value.ctimeNsec < NS_PER_SEC && vol'.attr.value.ctimeNsec < NS_PER_SEC
    ensures Serve(vol', args, lim) == BadCookie <==>
              || vol.attr.value.ctimeNsec != vol'.attr.value.ctimeNsec
              || vol.attr.value.ctimeSec % UINT32 != vol'.attr.value.ctimeSec % UINT32
  {
    VerifierIff(vol.attr.value, vol'.attr.value);
  }

  /** A directory of ".", ".." and "a" at offsets 1, 2 and 3, changed at this second. */
  function Small(sec: nat): Volume {
    Volume(1, Some(Attr(true, sec, 0)), true,
           [Dirent(10, 1, 24, DOT, true), Dirent(11, 2, 24, DOTDOT, true), Dirent(12, 3, 24, [97], true)], false)
  }

  const DEFAULTS := Limits(64 * 1024 * 1024, 1024 * 1024)

  /** Listed one entry at a time, it is never done. */
  lemma SmallRestarts()
    ensures var args := Args(0, [], 1, 4096);
            && Listable(Small(0)) && PageSize(args, DEFAULTS) == 1
            && forall calls: nat :: !Collect(ServerFor(Small(0), args, DEFAULTS), 0, args.verf, calls).complete
  {
    assert RestartsForever(Small(0).dir, 1);
    PagingExact(Small(0), DEFAULTS, Args(0, [], 1, 4096));
  }

  /** A change 2^32 seconds later is not seen by a listing that is continued. */
  lemma UnseenChange()
    ensures var args := Args(3, Verifier(Small(0).attr.value), 1, 4096);
            Small(0) != Small(0x1_0000_0000) && Serve(Small(0x1_0000_0000), args, DEFAULTS) != BadCookie
  {
    SmallListable(0);
    SmallListable(0x1_0000_0000);
    UnseenBy(Small(0), Small(0x1_0000_0000), DEFAULTS, Args(3, Verifier(Small(0).attr.value), 1, 4096));
  }

  lemma SmallListable(sec: nat)
    ensures Listable(Small(sec)) && Small(sec).attr == Some(Attr(true, sec, 0))
  {
  }

  lemma UnseenBy(vol: Volume, vol': Volume, lim: Limits, args: Args)
    requires Listable(vol) && Listable(vol') && args.cookie != 0 && args.verf == Verifier(vol.attr.value)
    requires vol.attr.value.ctimeNsec == vol'.attr.value.ctimeNsec < NS_PER_SEC
    requires vol.attr.value.ctimeSec % UINT32 == vol'.attr.value.ctimeSec % UINT32
    ensures Serve(vol', args, lim) != BadCookie
  {
    ChangeIsDetected(vol, vol', lim, args);
  }

  /** The size that the limits leave for the reply: the smaller of the two. */
  function ResSize(args: Args, lim: Limits): nat {
    Min(lim.resSize, args.maxcount)
  }

  /**
    Of the size, 104 bytes are set aside for what is not entries, if and only if the size is at least 104;
    below that the subtraction wraps and no limit is left.
   */
  lemma MemAvailIff(args: Args, lim: Limits)
    requires lim.resSize < UINT32 && args.maxcount < UINT32
    ensures MemAvail(args, lim) == Min(WRITE_READ_MAX, ResSize(args, lim) - 104) <==> ResSize(args, lim) >= 104
    ensures ResSize(args, lim) < 104 ==> MemAvail(args, lim) == WRITE_READ_MAX
  {
  }

  // ---------------------------------------------------------------- one call, exactly

  /** What is left for entries: the smaller size less 104 bytes, at most 64 MiB; below 104 bytes, 64 MiB. */
  function RoomFor(args: Args, lim: Limits): int {
    var size := if lim.resSize < args.maxcount then lim.resSize else args.maxcount;
    if 104 <= size < 104 + 0x400_0000 then size - 104 else 0x400_0000
  }

  /** A page of k entries has met one of the limits. */
  predicate Closes(args: Args, lim: Limits, k: nat) {
    k >= args.dircount || k >= lim.maxCount || 8 * k + 4 >= RoomFor(args, lim)
  }

  lemma MemAvailIsRoom(args: Args, lim: Limits)
    requires lim.resSize < UINT32 && args.maxcount < UINT32
    ensures MemAvail(args, lim) == RoomFor(args, lim)
  {
  }

  /** The page size is the first count that meets a limit. */
  lemma PageSizeCloses(args: Args, lim: Limits, k: nat)
    requires lim.resSize < UINT32 && args.maxcount < UINT32 && k >= 1
    ensures k >= PageSize(args, lim) <==> Closes(args, lim, k)
  {
    MemAvailIsRoom(args, lim);
    PageFullIff(MaxEntries(args, lim), MemAvail(args, lim), k);
  }

  /** The record is shown: it comes after the cookie, and no limit is met before it. */
  ghost predicate Shown(vol: Volume, args: Args, lim: Limits, i: nat, j: int) {
    i <= j < |vol.dir| && forall k :: 1 <= k <= j - i ==> !Closes(args, lim, k)
  }

  /** The record's attributes can be given: they are not asked for, or they can be read. */
  predicate HasAttributes(d: Dirent) {
    d.name == [46] || d.name == [46, 46] || d.statOk
  }

  /** i is where reading starts: the records before it have offsets up to the cookie, those from it on larger ones. */
  ghost predicate StartsAt(vol: Volume, args: Args, i: nat) {
    var pos := if args.cookie > 2 then args.cookie else 0;
    && i <= |vol.dir|
    && (forall j :: 0 <= j < i ==> vol.dir[j].off <= pos)
    && (forall j :: i <= j < |vol.dir| ==> vol.dir[j].off > pos)
  }

  lemma {:induction false} SkipStarts(dir: seq<Dirent>, pos: nat)
    requires ValidDir(dir)
    ensures forall j :: 0 <= j < Skip(dir, pos) ==> dir[j].off <= pos
    ensures forall j :: Skip(dir, pos) <= j < |dir| ==> dir[j].off > pos
  {
    if dir != [] {
      if dir[0].off > pos {
        assert forall j :: 0 < j < |dir| ==> dir[0].off < dir[j].off;
      } else {
        SkipStarts(dir[1..], pos);
        assert forall j :: 0 < j < |dir| ==> dir[j] == dir[1..][j - 1];
      }
    }
  }

  /** The handle leads to a directory that can be opened at the cookie, and the verifier is right. */
  ghost predicate Opens(vol: Volume, args: Args) {
    && vol.handleLen > 0 && vol.attr.Some? && vol.attr.value.isDir
    && (args.cookie == 0 || args.verf == Verifier(vol.attr.value))
    && vol.opens && (args.cookie <= 2 || args.cookie <= 0x7FFF_FFFF_FFFF_FFFF)
  }

  /** A page of es from index i on, as the limits and the end of the directory have it. */
  ghost predicate RightPage(vol: Volume, args: Args, lim: Limits, i: nat, es: seq<Dirent>, eof: bool) {
    && i + |es| <= |vol.dir| && es == vol.dir[i..i + |es|]
    && (forall k :: 1 <= k < |es| ==> !Closes(args, lim, k))
    && (!eof ==> es != [] && Closes(args, lim, |es|) && es[|es| - 1].off != 0x7FFF_FFFF_FFFF_FFFF)
    && (eof ==> i + |es| == |vol.dir| && !vol.broken)
    && (eof && es != [] && Closes(args, lim, |es|) ==> es[|es| - 1].off == 0x7FFF_FFFF_FFFF_FFFF)
    && (forall j :: 0 <= j < |es| ==> HasAttributes(es[j]))
  }

  /** What a directory that opens gives, from index i on. */
  ghost predicate RightResult(vol: Volume, args: Args, lim: Limits, i: nat, res: Res)
    requires vol.attr.Some?
  {
    match res
    case Page(es, eof, verf) => verf == Verifier(vol.attr.value) && RightPage(vol, args, lim, i, es, eof)
    case ReqError => exists j :: Shown(vol, args, lim, i, j) && !HasAttributes(vol.dir[j])
    case BadHandle =>
      && vol.broken && (forall j :: Shown(vol, args, lim, i, j) ==> HasAttributes(vol.dir[j]))
      && (forall k :: 1 <= k <= |vol.dir| - i && Closes(args, lim, k) ==> vol.dir[i + k - 1].off == 0x7FFF_FFFF_FFFF_FFFF)
    case _ => false
  }

  /** n is the first count, from one on, that meets a limit. */
  ghost predicate FirstToClose(args: Args, lim: Limits, n: nat) {
    n >= 1 && forall k: nat :: k >= 1 ==> (k >= n <==> Closes(args, lim, k))
  }

  lemma PageSizeIsFirst(args: Args, lim: Limits)
    requires lim.resSize < UINT32 && args.maxcount < UINT32
    ensures FirstToClose(args, lim, PageSize(args, lim))
  {
    forall k: nat | k >= 1
      ensures k >= PageSize(args, lim) <==> Closes(args, lim, k)
    {
      PageSizeCloses(args, lim, k);
    }
  }

  lemma ShownIff(vol: Volume, args: Args, lim: Limits, n: nat, i: nat, j: int)
    requires FirstToClose(args, lim, n)
    ensures Shown(vol, args, lim, i, j) <==> i <= j < |vol.dir| && j - i < n
  {
    if i < j && j - i >= n {
      assert Closes(args, lim, j - i);
    }
  }

  /** The first n records from i on, or all that are left. */
  function First(dir: seq<Dirent>, i: nat, n: nat): seq<Dirent>
    requires i <= |dir|
  {
    if |dir| - i < n then dir[i..] else dir[i..i + n]
  }

  lemma PageFromFirst(dir: seq<Dirent>, broken: bool, i: nat, n: nat, v: seq<byte>)
    requires i <= |dir| && n >= 1
    ensures PageFrom(dir, broken, i, n, v) ==
              if !AllDescribable(First(dir, i, n)) then ReqError
              else if |dir| - i >= n && dir[i + n - 1].off != LONG_MAX then Page(First(dir, i, n), false, v)
              else if broken then BadHandle
              else Page(First(dir, i, n), true, v)
  {
    if |dir| - i >= n {
      assert dir[i..][..n] == dir[i..i + n];
    }
  }

  lemma ShownHaveAttributes(vol: Volume, args: Args, lim: Limits, n: nat, i: nat)
    requires FirstToClose(args, lim, n) && i <= |vol.dir|
    ensures AllDescribable(First(vol.dir, i, n)) <==> forall j :: Shown(vol, args, lim, i, j) ==> HasAttributes(vol.dir[j])
  {
    var shown := First(vol.dir, i, n);
    forall j
      ensures Shown(vol, args, lim, i, j) <==> i <= j < i + |shown|
    {
      ShownIff(vol, args, lim, n, i, j);
    }
    forall m | 0 <= m < |shown|
      ensures shown[m] == vol.dir[i + m] && Shown(vol, args, lim, i, i + m)
    {
    }
    forall j | Shown(vol, args, lim, i, j)
      ensures vol.dir[j] == shown[j - i]
    {
    }
  }

  lemma FullPageRight(vol: Volume, args: Args, lim: Limits, n: nat, i: nat)
    requires FirstToClose(args, lim, n) && i + n <= |vol.dir| && AllDescribable(vol.dir[i..i + n])
    requires vol.dir[i + n - 1].off != LONG_MAX
    ensures RightPage(vol, args, lim, i, vol.dir[i..i + n], false)
  {
    assert Closes(args, lim, n);
  }

  lemma LastPageRight(vol: Volume, args: Args, lim: Limits, n: nat, i: nat)
    requires FirstToClose(args, lim, n) && i <= |vol.dir| <= i + n && !vol.broken && AllDescribable(vol.dir[i..])
    requires |vol.dir| == i + n ==> vol.dir[i + n - 1].off == LONG_MAX
    ensures RightPage(vol, args, lim, i, vol.dir[i..], true)
  {
  }

  lemma BrokenRight(vol: Volume, args: Args, lim: Limits, n: nat, i: nat)
    requires FirstToClose(args, lim, n) && ValidDir(vol.dir) && i <= |vol.dir|
    requires i + n <= |vol.dir| ==> vol.dir[i + n - 1].off == LONG_MAX
    ensures forall k :: 1 <= k <= |vol.dir| - i && Closes(args, lim, k) ==> vol.dir[i + k - 1].off == LONG_MAX
    ensures |vol.dir| <= i + n
  {
    LastOffset(vol.dir);
  }

  lemma ResultRight(vol: Volume, args: Args, lim: Limits, n: nat, i: nat)
    requires FirstToClose(args, lim, n) && ValidDir(vol.dir) && i <= |vol.dir| && vol.attr.Some?
    ensures RightResult(vol, args, lim, i, PageFrom(vol.dir, vol.broken, i, n, Verifier(vol.attr.value)))
  {
    PageFromFirst(vol.dir, vol.broken, i, n, Verifier(vol.attr.value));
    ShownHaveAttributes(vol, args, lim, n, i);
    if AllDescribable(First(vol.dir, i, n)) {
      if i + n <= |vol.dir| && vol.dir[i + n - 1].off != LONG_MAX {
        FullPageRight(vol, args, lim, n, i);
      } else {
        BrokenRight(vol, args, lim, n, i);
        if !vol.broken {
          assert First(vol.dir, i, n) == vol.dir[i..];
          LastPageRight(vol, args, lim, n, i);
        }
      }
    }
  }

  /**
    What READDIRPLUS returns, for every handle, directory and argument, by the limits themselves: which error, or
    the records after the cookie up to the first count that meets a limit, with eof exactly at the end.
   */
  ghost predicate RightServe(vol: Volume, args: Args, lim: Limits, res: Res) {
    && (vol.handleLen == 0 || vol.attr.None? ==> res == ReqError)
    && (res == NotDir <==> vol.handleLen > 0 && vol.attr.Some? && !vol.attr.value.isDir)
    && (res == BadCookie <==>
          && vol.handleLen > 0 && vol.attr.Some? && vol.attr.value.isDir
          && args.cookie != 0 && args.verf != Verifier(vol.attr.value))
    && (if Opens(vol, args) then exists i :: StartsAt(vol, args, i) && RightResult(vol, args, lim, i, res)
        else res.ReqError? || res.NotDir? || res.BadCookie? || res.BadHandle?)
    && (!Opens(vol, args) && res == ReqError ==> vol.handleLen == 0 || vol.attr.None?)
  }

  lemma ServeExact(vol: Volume, args: Args, lim: Limits)
    requires lim.resSize < 0x1_0000_0000 && args.maxcount < 0x1_0000_0000 && ValidDir(vol.dir)
    ensures RightServe(vol, args, lim, Serve(vol, args, lim))
  {
    if Opens(vol, args) {
      var i := Skip(vol.dir, StartPos(args.cookie));
      SkipStarts(vol.dir, StartPos(args.cookie));
      assert StartsAt(vol, args, i);
      PageSizeIsFirst(args, lim);
      ResultRight(vol, args, lim, PageSize(args, lim), i);
    }
  }
}
