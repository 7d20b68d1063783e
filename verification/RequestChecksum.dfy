/**
  nfsd_cache_csum: the checksum of at most the first RC_CSUMLEN bytes of a request whose bytes lie in a
  head followed by an array of pages.  csum_partial itself stays abstract.
 */
module RequestChecksum {
  import opened Common

  const RC_CSUMLEN: nat := 256

  /** An xdr_buf: the head, and page_len bytes that start page_base bytes into the page array. */
  datatype XdrBuf = XdrBuf(head: seq<byte>, pages: seq<seq<byte>>, pageBase: nat, pageLen: nat)

  ghost predicate ValidBuf(buf: XdrBuf) {
    && (forall i :: 0 <= i < |buf.pages| ==> |buf.pages[i]| == 4096)
    && buf.pageBase + buf.pageLen <= |buf.pages| * 4096
  }

  function Concat(chunks: seq<seq<byte>>): seq<byte> {
    if chunks == [] then [] else chunks[0] + Concat(chunks[1..])
  }

  /** The request as one byte string. */
  ghost function Bytes(buf: XdrBuf): (all: seq<byte>)
    requires ValidBuf(buf)
    ensures |all| == |buf.head| + buf.pageLen
  {
    ConcatLength(buf.pages);
    buf.head + Concat(buf.pages)[buf.pageBase..buf.pageBase + buf.pageLen]
  }

  /** csum_partial applied to one chunk after another. */
  function Feed<S>(partial: (seq<byte>, S) -> S, sum: S, chunks: seq<seq<byte>>): S {
    if chunks == [] then sum else Feed(partial, partial(chunks[0], sum), chunks[1..])
  }

  lemma {:induction false} ConcatLength(pages: seq<seq<byte>>)
    requires forall i :: 0 <= i < |pages| ==> |pages[i]| == PAGE_SIZE
    ensures |Concat(pages)| == |pages| * PAGE_SIZE
  {
    if pages != [] {
      ConcatLength(pages[1..]);
    }
  }

  lemma {:induction false} ConcatAppend(a: seq<seq<byte>>, x: seq<byte>)
    ensures Concat(a + [x]) == Concat(a) + x
  {
    if a == [] {
      assert a + [x] == [x];
      assert Concat([x]) == x + Concat([]);
    } else {
      ConcatAppend(a[1..], x);
      assert (a + [x])[1..] == a[1..] + [x];
      assert a[0] + (Concat(a[1..]) + x) == (a[0] + Concat(a[1..])) + x;
    }
  }

  lemma {:induction false} FeedAppend<S>(partial: (seq<byte>, S) -> S, sum: S, a: seq<seq<byte>>, x: seq<byte>)
    ensures Feed(partial, sum, a + [x]) == partial(x, Feed(partial, sum, a))
  {
    if a == [] {
      assert a + [x] == [x];
    } else {
      FeedAppend(partial, partial(a[0], sum), a[1..], x);
      assert (a + [x])[1..] == a[1..] + [x];
    }
  }

  /** A stretch within one page is the same stretch of the whole page array. */
  lemma {:induction false} PageSlice(pages: seq<seq<byte>>, idx: nat, base: nat, len: nat)
    requires forall i :: 0 <= i < |pages| ==> |pages[i]| == PAGE_SIZE
    requires idx < |pages| && base + len <= PAGE_SIZE
    ensures idx * PAGE_SIZE + base + len <= |Concat(pages)|
    ensures pages[idx][base..base + len] == Concat(pages)[idx * PAGE_SIZE + base..idx * PAGE_SIZE + base + len]
  {
    ConcatLength(pages);
    if idx == 0 {
      assert pages[0] == Concat(pages)[..PAGE_SIZE];
    } else {
      PageSlice(pages[1..], idx - 1, base, len);
      var rest, at := Concat(pages[1..]), (idx - 1) * PAGE_SIZE + base;
      assert Concat(pages)[PAGE_SIZE..] == rest;
      assert rest[at..at + len] == Concat(pages)[PAGE_SIZE..][at..at + len];
    }
  }

  /** The same stretch by where it starts in the page array. */
  lemma StretchAt(pages: seq<seq<byte>>, idx: nat, base: nat, n: nat, at: nat)
    requires forall i :: 0 <= i < |pages| ==> |pages[i]| == PAGE_SIZE
    requires at == idx * PAGE_SIZE + base && 0 < n && base + n <= PAGE_SIZE && at + n <= |pages| * PAGE_SIZE
    ensures idx < |pages| && at + n <= |Concat(pages)| && pages[idx][base..base + n] == Concat(pages)[at..at + n]
  {
    PageSlice(pages, idx, base, n);
  }

  lemma SliceJoin(a: seq<byte>, data: seq<byte>, lo: nat, at: nat, n: nat)
    requires lo <= at && at + n <= |data|
    ensures (a + data[lo..at]) + data[at..at + n] == a + data[lo..at + n]
  {
    assert data[lo..at] + data[at..at + n] == data[lo..at + n];
  }

  lemma ConcatMore(chunks: seq<seq<byte>>, a: seq<byte>, data: seq<byte>, lo: nat, at: nat, p: seq<byte>)
    requires lo <= at && at + |p| <= |data| && p == data[at..at + |p|] && Concat(chunks) == a + data[lo..at]
    ensures Concat(chunks + [p]) == a + data[lo..at + |p|]
  {
    ConcatAppend(chunks, p);
    SliceJoin(a, data, lo, at, |p|);
  }

  /** Where the walk stands after `done` bytes of the pages: at which page, how far into it. */
  lemma WalkStep(buf: XdrBuf, chunks: seq<seq<byte>>, len: nat, done: nat, idx: nat, base: nat, n: nat)
    requires ValidBuf(buf) && len <= |buf.head| && done + n <= buf.pageLen
    requires idx * PAGE_SIZE + base == buf.pageBase + done && base + n <= PAGE_SIZE && 0 < n
    requires |Concat(buf.pages)| == |buf.pages| * PAGE_SIZE
    requires Concat(chunks) == buf.head[..len] + Concat(buf.pages)[buf.pageBase..buf.pageBase + done]
    ensures idx < |buf.pages|
    ensures Concat(chunks + [buf.pages[idx][base..base + n]])
         == buf.head[..len] + Concat(buf.pages)[buf.pageBase..buf.pageBase + done + n]
  {
    StretchAt(buf.pages, idx, base, n, buf.pageBase + done);
    ConcatMore(chunks, buf.head[..len], Concat(buf.pages), buf.pageBase, buf.pageBase + done,
               buf.pages[idx][base..base + n]);
  }

  /** How the walk cuts: len bytes of the head, then done bytes of the pages, first of them in the first page. */
  ghost predicate Cut(chunks: seq<seq<byte>>, len: nat, first: nat, done: nat) {
    && |chunks| == (if done == 0 then 1 else if done <= first then 2 else 3)
    && |chunks[0]| == len
    && (done > 0 ==> |chunks[1]| == Min(first, done))
    && (done > first ==> |chunks[2]| == done - first)
  }

  lemma CutStep(chunks: seq<seq<byte>>, len: nat, first: nat, done: nat, p: seq<byte>)
    requires Cut(chunks, len, first, done) && p != [] && 0 < first
    requires if done == 0 then |p| <= first else done == first
    ensures Cut(chunks + [p], len, first, done + |p|)
  {
  }

  function Sizes(chunks: seq<seq<byte>>): (ls: seq<nat>)
    ensures |ls| == |chunks| && forall i :: 0 <= i < |chunks| ==> ls[i] == |chunks[i]|
  {
    seq(|chunks|, i requires 0 <= i < |chunks| => |chunks[i]|)
  }

  /** Chunks of these sizes, laid out from offset at on, start at even offsets unless they are empty. */
  predicate EvenStarts(ls: seq<nat>, at: nat)
    decreases |ls|
  {
    ls == [] || ((ls[0] == 0 || at % 2 == 0) && EvenStarts(ls[1..], at + ls[0]))
  }

  /** How many bytes the walk takes from the pages. */
  function FromPages(buf: XdrBuf): (n: nat)
    ensures n <= buf.pageLen
  {
    if |buf.head| >= 256 then 0 else Min(buf.pageLen, 256 - |buf.head|)
  }

  /** The head's length is even where pages follow it, and page_base is where the walk takes two pages. */
  predicate EvenlyLaid(buf: XdrBuf) {
    && (FromPages(buf) == 0 || |buf.head| % 2 == 0)
    && (FromPages(buf) <= 4096 - buf.pageBase % 4096 || buf.pageBase % 2 == 0)
  }

  lemma EvenOne(a: nat, at: nat)
    ensures EvenStarts([a], at) <==> a == 0 || at % 2 == 0
  {
    assert [a][1..] == [];
  }

  lemma EvenTwo(a: nat, b: nat, at: nat)
    ensures EvenStarts([a, b], at) <==> (a == 0 || at % 2 == 0) && (b == 0 || (at + a) % 2 == 0)
  {
    assert [a, b][1..] == [b];
    EvenOne(b, at + a);
  }

  lemma EvenThree(a: nat, b: nat, c: nat)
    ensures EvenStarts([a, b, c], 0) <==> (b == 0 || a % 2 == 0) && (c == 0 || (a + b) % 2 == 0)
  {
    assert [a, b, c][1..] == [b, c];
    EvenTwo(b, c, a);
  }

  lemma CutEven(chunks: seq<seq<byte>>, len: nat, first: nat, done: nat)
    requires Cut(chunks, len, first, done) && 0 < first
    ensures EvenStarts(Sizes(chunks), 0) <==> (done == 0 || len % 2 == 0) && (done <= first || first % 2 == 0)
  {
    var ls := Sizes(chunks);
    if |ls| == 1 {
      assert ls[1..] == [];
    } else if |ls| == 2 {
      assert ls == [len, done];
      EvenTwo(len, done, 0);
    } else {
      assert ls == [len, first, done - first];
      EvenThree(len, first, done - first);
    }
  }

  lemma EvenBase(base: nat)
    ensures (PAGE_SIZE - base % PAGE_SIZE) % 2 == 0 <==> base % 2 == 0
  {
  }

  /**
    The walk.  The checksum is csum_partial fed, chunk by chunk, exactly the first
    min(head + page_len, RC_CSUMLEN) bytes of the request, in order and once each.
   */
  method CacheCsum<S>(buf: XdrBuf, partial: (seq<byte>, S) -> S, zero: S) returns (sum: S, chunks: seq<seq<byte>>)
    requires ValidBuf(buf)
    ensures sum == Feed(partial, zero, chunks)
    ensures Concat(chunks) == Bytes(buf)[..Min(|buf.head| + buf.pageLen, 256)]
    ensures EvenStarts(Sizes(chunks), 0) <==> EvenlyLaid(buf)
  {
    var total := Min(|buf.head| + buf.pageLen, RC_CSUMLEN);
    var len := Min(|buf.head|, total);
    ConcatLength(buf.pages);
    sum := partial(buf.head[..len], zero);
    chunks := [buf.head[..len]];
    assert Concat(chunks) == buf.head[..len] + Concat(buf.pages)[buf.pageBase..buf.pageBase];
    sum, chunks := WalkPages(buf, partial, zero, len, total - len, sum, chunks);
    TakeBoth(buf.head, Concat(buf.pages), buf.pageBase, buf.pageLen, len, total - len);
    CutEven(chunks, len, PAGE_SIZE - buf.pageBase % PAGE_SIZE, total - len);
    EvenBase(buf.pageBase);
  }

  /** The loop over the pages, for the bytes that are left after len bytes of the head. */
  method WalkPages<S>(buf: XdrBuf, partial: (seq<byte>, S) -> S, ghost zero: S, ghost len: nat, want: nat, sum0: S,
                      chunks0: seq<seq<byte>>) returns (sum: S, chunks: seq<seq<byte>>)
    requires ValidBuf(buf) && len <= |buf.head| && want <= buf.pageLen && want <= RC_CSUMLEN
    requires |Concat(buf.pages)| == |buf.pages| * PAGE_SIZE
    requires sum0 == Feed(partial, zero, chunks0) && |chunks0| == 1 && |chunks0[0]| == len
    requires Concat(chunks0) == buf.head[..len] + Concat(buf.pages)[buf.pageBase..buf.pageBase]
    ensures sum == Feed(partial, zero, chunks)
    ensures Concat(chunks) == buf.head[..len] + Concat(buf.pages)[buf.pageBase..buf.pageBase + want]
    ensures Cut(chunks, len, PAGE_SIZE - buf.pageBase % PAGE_SIZE, want)
  {
    sum, chunks := sum0, chunks0;
    var left := want;
    var idx, base := buf.pageBase / PAGE_SIZE, buf.pageBase % PAGE_SIZE;
    ghost var first := PAGE_SIZE - base;
    while left != 0
      invariant 0 <= left <= want && sum == Feed(partial, zero, chunks)
      invariant left > 0 ==> idx * PAGE_SIZE + base == buf.pageBase + (want - left) && 0 <= idx && 0 <= base < PAGE_SIZE
      invariant left > 0 ==> if want == left then base == PAGE_SIZE - first else base == 0 && want - left == first
      invariant Cut(chunks, len, first, want - left)
      invariant Concat(chunks) == buf.head[..len] + Concat(buf.pages)[buf.pageBase..buf.pageBase + (want - left)]
      decreases left
    {
      var n := Min(PAGE_SIZE - base, left);
      WalkStep(buf, chunks, len, want - left, idx, base, n);
      var p := buf.pages[idx][base..base + n];
      FeedAppend(partial, zero, chunks, p);
      CutStep(chunks, len, first, want - left, p);
      sum, chunks := partial(p, sum), chunks + [p];
      left, base, idx := left - n, 0, idx + 1;
    }
  }

  /** Some of the head, or all of it and some of the pages, is a prefix of the two together. */
  lemma TakeBoth(head: seq<byte>, data: seq<byte>, base: nat, pageLen: nat, len: nat, done: nat)
    requires base + pageLen <= |data| && len <= |head| && done <= pageLen && (done > 0 ==> len == |head|)
    ensures head[..len] + data[base..base + done] == (head + data[base..base + pageLen])[..len + done]
  {
    if done > 0 {
      assert data[base..base + done] == data[base..base + pageLen][..done];
    }
  }

  // ---------------------------------------------------------------- the split does not matter

  const ONES: nat := 0xffff

  /** The sum of the 16-bit words, low byte first; an odd last byte is a word of its own. */
  function Words(b: seq<byte>): nat {
    if b == [] then 0 else if |b| == 1 then b[0] else b[0] + 256 * b[1] + Words(b[2..])
  }

  /** What csum_partial promises: the ones' complement sum of the words added to the sum so far. */
  ghost predicate OnesComplement(partial: (seq<byte>, int) -> int) {
    forall b, s :: partial(b, s) % ONES == (s + Words(b)) % ONES
  }

  lemma {:induction false} WordsJoin(a: seq<byte>, b: seq<byte>)
    requires |a| % 2 == 0
    ensures Words(a + b) == Words(a) + Words(b)
  {
    if a == [] {
      assert a + b == b;
    } else {
      WordsJoin(a[2..], b);
      assert (a + b)[2..] == a[2..] + b;
    }
  }

  lemma SameSum(x: int, y: int, z: int)
    requires x % ONES == y % ONES
    ensures (x + z) % ONES == (y + z) % ONES
  {
  }

  lemma SizesRest(chunks: seq<seq<byte>>)
    requires chunks != []
    ensures Sizes(chunks)[0] == |chunks[0]| && Sizes(chunks)[1..] == Sizes(chunks[1..])
  {
  }

  /** After an odd offset only empty chunks may come. */
  lemma {:induction false} OddMeansEmpty(partial: (seq<byte>, int) -> int, sum: int, chunks: seq<seq<byte>>, at: nat)
    requires OnesComplement(partial) && EvenStarts(Sizes(chunks), at) && at % 2 == 1
    ensures Concat(chunks) == [] && Feed(partial, sum, chunks) % ONES == sum % ONES
    decreases |chunks|
  {
    if chunks != [] {
      SizesRest(chunks);
      OddMeansEmpty(partial, partial(chunks[0], sum), chunks[1..], at);
    }
  }

  lemma {:induction false} EvenSum(partial: (seq<byte>, int) -> int, sum: int, chunks: seq<seq<byte>>, at: nat)
    requires OnesComplement(partial) && EvenStarts(Sizes(chunks), at) && at % 2 == 0
    ensures Feed(partial, sum, chunks) % ONES == (sum + Words(Concat(chunks))) % ONES
    decreases |chunks|
  {
    if chunks != [] {
      var c, rest, next := chunks[0], chunks[1..], partial(chunks[0], sum);
      SizesRest(chunks);
      if |c| % 2 == 0 {
        EvenSum(partial, next, rest, at + |c|);
        WordsJoin(c, Concat(rest));
        SameSum(next, sum + Words(c), Words(Concat(rest)));
      } else {
        OddMeansEmpty(partial, next, rest, at + |c|);
        assert c + [] == c;
      }
    }
  }

  /** Evenly split, requests with the same bytes have the same checksum however they lie in their pages. */
  lemma SplitDoesNotMatter(partial: (seq<byte>, int) -> int, sum: int, a: seq<seq<byte>>, b: seq<seq<byte>>)
    requires OnesComplement(partial) && EvenStarts(Sizes(a), 0) && EvenStarts(Sizes(b), 0) && Concat(a) == Concat(b)
    ensures Feed(partial, sum, a) % ONES == Feed(partial, sum, b) % ONES
  {
    EvenSum(partial, sum, a, 0);
    EvenSum(partial, sum, b, 0);
  }

  // ---------------------------------------------------------------- and exactly when

  function Zeros(n: nat): (b: seq<byte>)
    ensures |b| == n && forall i :: 0 <= i < n ==> b[i] == 0
  {
    seq(n, _ => 0)
  }

  lemma {:induction false} ZeroWords(n: nat)
    ensures Words(Zeros(n)) == 0
  {
    if n >= 2 {
      assert Zeros(n)[2..] == Zeros(n - 2);
      ZeroWords(n - 2);
    }
  }

  lemma OneWords(n: nat)
    ensures Words([1] + Zeros(n)) == 1 && Words([0] + ([1] + Zeros(n))) == 256
  {
    var a, b := [1] + Zeros(n), [0] + ([1] + Zeros(n));
    assert b[2..] == Zeros(n);
    ZeroWords(n);
    if n > 0 {
      assert a[2..] == Zeros(n - 1);
      ZeroWords(n - 1);
    }
  }

  lemma ZerosBefore(n: nat, b: seq<byte>)
    ensures Words(Zeros(n) + b) == if n % 2 == 0 then Words(b) else Words([0] + b)
  {
    if n % 2 == 0 {
      ZeroWords(n);
      WordsJoin(Zeros(n), b);
    } else {
      assert Zeros(n) + b == Zeros(n - 1) + ([0] + b);
      ZeroWords(n - 1);
      WordsJoin(Zeros(n - 1), [0] + b);
    }
  }

  /** What zeros in front do: they shift the words, or leave them. */
  lemma ShiftedWords(n: nat, b: seq<byte>, at: nat)
    requires n == 0 || at % 2 == 0
    ensures Words(Behind(at, Zeros(n) + b)) == Words(Behind(at + n, b))
  {
    if n == 0 {
      assert Zeros(n) + b == b;
    } else {
      ZerosBefore(n, b);
    }
  }

  /** The bytes b from offset at on, from the start of the word they are in. */
  function Behind(at: nat, b: seq<byte>): seq<byte> {
    if at % 2 == 0 then b else [0] + b
  }

  function ZeroChunks(ls: seq<nat>): (chunks: seq<seq<byte>>)
    ensures |chunks| == |ls|
  {
    if ls == [] then [] else [Zeros(ls[0])] + ZeroChunks(ls[1..])
  }

  function Total(ls: seq<nat>): nat {
    if ls == [] then 0 else ls[0] + Total(ls[1..])
  }

  lemma {:induction false} ZeroChunksAre(partial: (seq<byte>, int) -> int, sum: int, ls: seq<nat>)
    requires OnesComplement(partial)
    ensures Sizes(ZeroChunks(ls)) == ls && Concat(ZeroChunks(ls)) == Zeros(Total(ls))
    ensures Feed(partial, sum, ZeroChunks(ls)) % ONES == sum % ONES
    decreases |ls|
  {
    if ls != [] {
      var zs := ZeroChunks(ls);
      assert zs[1..] == ZeroChunks(ls[1..]);
      ZeroWords(ls[0]);
      ZeroChunksAre(partial, partial(zs[0], sum), ls[1..]);
      SizesRest(zs);
      assert ls == [ls[0]] + ls[1..];
    }
  }

  /** All zeros but for a one where the first chunk that is not empty starts at an odd offset. */
  function Probe(ls: seq<nat>, at: nat): (chunks: seq<seq<byte>>)
    requires !EvenStarts(ls, at)
    ensures |chunks| == |ls|
    decreases |ls|
  {
    if ls[0] > 0 && at % 2 == 1 then [[1] + Zeros(ls[0] - 1)] + ZeroChunks(ls[1..])
    else [Zeros(ls[0])] + Probe(ls[1..], at + ls[0])
  }

  lemma ConcatProbe(n: nat, ls: seq<nat>)
    ensures ([1] + Zeros(n)) + Zeros(Total(ls)) == [1] + Zeros(n + Total(ls))
  {
  }

  lemma ProbeParts(ls: seq<nat>, at: nat)
    requires !EvenStarts(ls, at)
    ensures var chunks := Probe(ls, at);
            if ls[0] > 0 && at % 2 == 1 then chunks[0] == [1] + Zeros(ls[0] - 1) && chunks[1..] == ZeroChunks(ls[1..])
            else chunks[0] == Zeros(ls[0]) && chunks[1..] == Probe(ls[1..], at + ls[0])
  {
  }

  lemma SizesWhole(chunks: seq<seq<byte>>, ls: seq<nat>)
    requires chunks != [] && ls != [] && |chunks[0]| == ls[0] && Sizes(chunks[1..]) == ls[1..]
    ensures Sizes(chunks) == ls
  {
    SizesRest(chunks);
    assert ls == [ls[0]] + ls[1..];
    assert Sizes(chunks) == [ls[0]] + Sizes(chunks)[1..];
  }

  lemma ProbeStops(partial: (seq<byte>, int) -> int, sum: int, ls: seq<nat>, at: nat)
    requires OnesComplement(partial) && ls != [] && ls[0] > 0 && at % 2 == 1
    ensures Sizes(Probe(ls, at)) == ls && Words(Behind(at, Concat(Probe(ls, at)))) == 256
    ensures Feed(partial, sum, Probe(ls, at)) % ONES == (sum + 1) % ONES
  {
    var c, chunks := [1] + Zeros(ls[0] - 1), Probe(ls, at);
    ProbeParts(ls, at);
    OneWords(ls[0] - 1);
    ZeroChunksAre(partial, partial(c, sum), ls[1..]);
    SizesWhole(chunks, ls);
    ConcatProbe(ls[0] - 1, ls[1..]);
    OneWords(ls[0] - 1 + Total(ls[1..]));
  }

  lemma {:induction false} ProbeTells(partial: (seq<byte>, int) -> int, sum: int, ls: seq<nat>, at: nat)
    requires OnesComplement(partial) && !EvenStarts(ls, at)
    ensures Sizes(Probe(ls, at)) == ls && Words(Behind(at, Concat(Probe(ls, at)))) == 256
    ensures Feed(partial, sum, Probe(ls, at)) % ONES == (sum + 1) % ONES
    decreases |ls|
  {
    if ls[0] > 0 && at % 2 == 1 {
      ProbeStops(partial, sum, ls, at);
    } else {
      var chunks, next := Probe(ls, at), partial(Zeros(ls[0]), sum);
      ProbeParts(ls, at);
      ZeroWords(ls[0]);
      ProbeTells(partial, next, ls[1..], at + ls[0]);
      SizesWhole(chunks, ls);
      SameSum(next, sum, 1);
      ShiftedWords(ls[0], Concat(chunks[1..]), at);
    }
  }

  /** For every content in chunks of these sizes, the sum is that of the whole. */
  ghost predicate SumsWhole(partial: (seq<byte>, int) -> int, sum: int, ls: seq<nat>) {
    forall chunks :: Sizes(chunks) == ls ==> Feed(partial, sum, chunks) % ONES == (sum + Words(Concat(chunks))) % ONES
  }

  lemma SumsApart(x: int, y: int, sum: int, i: nat, j: nat)
    requires i < j < ONES && x % ONES == (sum + i) % ONES && y % ONES == (sum + j) % ONES
    ensures x % ONES != y % ONES
  {
  }

  /** The split does not matter if and only if every chunk that is not empty starts at an even offset. */
  lemma SplitIff(partial: (seq<byte>, int) -> int, sum: int, ls: seq<nat>)
    requires OnesComplement(partial)
    ensures SumsWhole(partial, sum, ls) <==> EvenStarts(ls, 0)
  {
    if EvenStarts(ls, 0) {
      forall chunks | Sizes(chunks) == ls
        ensures Feed(partial, sum, chunks) % ONES == (sum + Words(Concat(chunks))) % ONES
      {
        EvenSum(partial, sum, chunks, 0);
      }
    } else {
      ProbeTells(partial, sum, ls, 0);
      SumsApart(Feed(partial, sum, Probe(ls, 0)), sum + 256, sum, 1, 256);
    }
  }

  lemma ShortWords(x: byte, y: byte)
    ensures Words([x]) == x && Words([x, y]) == x + 256 * y
  {
    assert [x, y][2..] == [];
  }

  lemma ShortConcat(a: seq<byte>, b: seq<byte>)
    ensures Concat([a]) == a && Concat([a, b]) == a + b
  {
    assert Concat([a][1..]) == [] && Concat([b][1..]) == [];
    assert [a, b][1..] == [b];
  }

  lemma FeedOne<S>(partial: (seq<byte>, S) -> S, sum: S, a: seq<byte>)
    ensures Feed(partial, sum, [a]) == partial(a, sum)
  {
    assert [a][1..] == [];
  }

  lemma FeedTwo<S>(partial: (seq<byte>, S) -> S, sum: S, a: seq<byte>, b: seq<byte>)
    ensures Feed(partial, sum, [a, b]) == partial(b, partial(a, sum))
  {
    assert [a, b][1..] == [b];
    FeedOne(partial, partial(a, sum), b);
  }

  /** Split after its first byte, the request 1, 2 has another checksum than in one piece. */
  lemma OddSplitMatters(partial: (seq<byte>, int) -> int, sum: int)
    requires OnesComplement(partial)
    ensures Concat([[1], [2]]) == Concat([[1, 2]])
    ensures Feed(partial, sum, [[1], [2]]) % ONES != Feed(partial, sum, [[1, 2]]) % ONES
  {
    ShortConcat([1], [2]);
    ShortConcat([1, 2], []);
    FeedTwo(partial, sum, [1], [2]);
    FeedOne(partial, sum, [1, 2]);
    ShortWords(1, 2);
    ShortWords(2, 0);
    SameSum(partial([1], sum), sum + 1, 2);
    SumsApart(partial([2], partial([1], sum)), partial([1, 2], sum), sum, 3, 513);
  }
}
