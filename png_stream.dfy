/**
  The PNG stream splitter of `src/png_stream.rs`. A decoder writes PNG images back
  to back with no outer framing; `WriteNext` carves exactly one image off the front
  of the stream by walking the chunk structure of section 3 of the PNG 1.2
  specification: the 8-byte signature, then chunks made of a 4-byte big-endian
  length, a 4-byte type, the data and a 4-byte CRC, up to and including `IEND`.

  The reader is the byte sequence it will ever yield plus a read position; the
  sink is the growing sequence of bytes written to it.
*/
module PngStream {
  import opened Outcomes

  /** An octet, Rust's `u8`. */
  newtype byte = b: int | 0 <= b < 0x100

  /** The PNG signature (section 3.1 of PNG 1.2). */
  const Magic: seq<byte> := [0x89, 0x50, 0x4E, 0x47, 0x0D, 0x0A, 0x1A, 0x0A]

  /** The type code of the image trailer chunk, ASCII "IEND" (section 4.1.4 of PNG 1.2). */
  const Iend: seq<byte> := [0x49, 0x45, 0x4E, 0x44]

  /** The largest chunk length section 3.2 of PNG 1.2 allows. */
  const MaxChunkLength: nat := 0x7FFF_FFFF

  const U32Limit: nat := 0x1_0000_0000

  datatype SplitError =
    | UnexpectedEof   // `read_exact` hit the end of the stream (signature or chunk header)
    | InvalidMagic    // "invalid png magic"
    | InvalidChunk    // "invalid png chunk": fewer data and CRC bytes than the header declares

  /** `u32::from_be_bytes`. */
  function BeU32(b: seq<byte>): (n: nat)
    requires |b| == 4
    ensures n < U32Limit
  {
    ((b[0] as int * 0x100 + b[1] as int) * 0x100 + b[2] as int) * 0x100 + b[3] as int
  }

  /** `u32::to_be_bytes`, the inverse of `BeU32`. */
  function BeBytes(n: nat): (b: seq<byte>)
    requires n < U32Limit
    ensures |b| == 4
  {
    var q1 := n / 0x100;
    var q2 := q1 / 0x100;
    var q3 := q2 / 0x100;
    [q3 as byte, (q2 % 0x100) as byte, (q1 % 0x100) as byte, (n % 0x100) as byte]
  }

  lemma BeU32OfBeBytes(n: nat)
    requires n < U32Limit
    ensures BeU32(BeBytes(n)) == n
  {
    var q1 := n / 0x100;
    var q2 := q1 / 0x100;
    var q3 := q2 / 0x100;
    var b := BeBytes(n);
    assert n == q1 * 0x100 + n % 0x100;
    assert q1 == q2 * 0x100 + q1 % 0x100;
    assert q2 == q3 * 0x100 + q2 % 0x100;
  }

  /** `(chunk_len + 4) as u64` with `chunk_len: u32`: the addition wraps at 2^32. */
  function CopyLength(chunkLen: nat): (n: nat)
    requires chunkLen < U32Limit
    ensures chunkLen <= MaxChunkLength ==> n == chunkLen + 4
    ensures chunkLen + 4 >= U32Limit ==> n == chunkLen + 4 - U32Limit
  {
    if chunkLen + 4 < U32Limit then chunkLen + 4 else chunkLen + 4 - U32Limit
  }

  /** `CopyLength` is addition modulo 2^32. */
  lemma CopyLengthWraps(chunkLen: nat)
    requires chunkLen < U32Limit
    ensures CopyLength(chunkLen) == (chunkLen + 4) % 0x1_0000_0000
  {
  }

  /**
    Where one call stops, reading the stream `s` from some position: its outcome,
    the position the reader is left at, and the position up to which it has
    written the bytes it read to the sink.
  */
  datatype Stop = Stop(outcome: Outcome<SplitError>, next: nat, copiedTo: nat)

  /** What one turn of the chunk loop does: stop the walk, or go on at `next`. */
  datatype Turn = Done(stop: Stop) | Continue(next: nat)

  /**
    One turn of the chunk loop at position `p`: a short header consumes the rest
    of the stream (`read_exact` reads up to the end) and writes none of it; a
    short chunk body is copied as far as it goes; `IEND` ends the image.
  */
  function ChunkTurn(s: seq<byte>, p: nat): (t: Turn)
    requires p <= |s|
    ensures t.Done? ==> p <= t.stop.copiedTo <= t.stop.next <= |s|
    ensures t.Done? && t.stop.outcome.Pass? ==> t.stop.copiedTo == t.stop.next
    ensures t.Continue? ==> p + 8 <= t.next <= |s|
  {
    if |s| - p < 8 then Done(Stop(Fail(UnexpectedEof), |s|, p))
    else
      var n := CopyLength(BeU32(s[p..p + 4]));
      if |s| - (p + 8) < n then Done(Stop(Fail(InvalidChunk), |s|, |s|))
      else if s[p + 4..p + 8] == Iend then Done(Stop(Pass, p + 8 + n, p + 8 + n))
      else Continue(p + 8 + n)
  }

  /** The chunk loop, from position `p` just after the signature or a previous chunk. */
  function Walk(s: seq<byte>, p: nat): (w: Stop)
    requires p <= |s|
    ensures p <= w.copiedTo <= w.next <= |s|
    ensures w.outcome.Pass? ==> w.copiedTo == w.next
    ensures w.outcome != Fail(InvalidMagic)
    decreases |s| - p
  {
    match ChunkTurn(s, p)
    case Done(stop) => stop
    case Continue(q) => Walk(s, q)
  }

  /** One `write_next` call on a reader positioned at `p` in the stream `s`. */
  function Split(s: seq<byte>, p: nat): (st: Stop)
    requires p <= |s|
    ensures p <= st.copiedTo <= st.next <= |s|
    ensures st.outcome.Pass? ==> st.copiedTo == st.next
    ensures st.outcome == Fail(InvalidMagic) ==> st.copiedTo == p
  {
    if |s| - p < 8 then Stop(Fail(UnexpectedEof), |s|, p)
    else if s[p..p + 8] != Magic then Stop(Fail(InvalidMagic), p + 8, p)
    else Walk(s, p + 8)
  }

  /**
    The signature check: a call fails without writing anything when fewer than 8
    bytes remain or when they are not the PNG signature, and succeeds only after
    a correct signature.
  */
  lemma SignatureChecked(s: seq<byte>, p: nat)
    requires p <= |s|
    ensures |s| - p < 8 ==> Split(s, p) == Stop(Fail(UnexpectedEof), |s|, p)
    ensures |s| - p >= 8 && s[p..p + 8] != Magic ==> Split(s, p) == Stop(Fail(InvalidMagic), p + 8, p)
    ensures Split(s, p).outcome.Pass? ==> p + 8 <= |s| && s[p..p + 8] == Magic
  {
  }

  // ---------------------------------------------------------------------------
  // Well-formed PNG images, and the round trip

  /** A chunk (section 3.2 of PNG 1.2); its length field is the length of `data`. */
  datatype Chunk = Chunk(kind: seq<byte>, data: seq<byte>, crc: seq<byte>)

  predicate WellFormedChunk(c: Chunk) {
    |c.kind| == 4 && |c.crc| == 4 && |c.data| <= MaxChunkLength
  }

  function EncodeChunk(c: Chunk): (e: seq<byte>)
    requires WellFormedChunk(c)
    ensures |e| == 12 + |c.data|
  {
    BeBytes(|c.data|) + c.kind + c.data + c.crc
  }

  predicate WellFormedChunks(cs: seq<Chunk>) {
    cs == [] || (WellFormedChunk(cs[0]) && WellFormedChunks(cs[1..]))
  }

  function EncodeChunks(cs: seq<Chunk>): seq<byte>
    requires WellFormedChunks(cs)
  {
    if cs == [] then [] else EncodeChunk(cs[0]) + EncodeChunks(cs[1..])
  }

  /**
    The chunks of one PNG image: well formed, the last one `IEND` and no other.
    Chunk types other than `IEND` and CRC values are unconstrained, since the
    splitter checks neither.
  */
  predicate IsImage(cs: seq<Chunk>) {
    WellFormedChunks(cs) && EndsAtFirstIend(cs)
  }

  /** At least one chunk; the last is `IEND` and no other is. */
  predicate EndsAtFirstIend(cs: seq<Chunk>) {
    |cs| >= 1 && if |cs| == 1 then cs[0].kind == Iend else cs[0].kind != Iend && EndsAtFirstIend(cs[1..])
  }

  function EncodeImage(cs: seq<Chunk>): seq<byte>
    requires WellFormedChunks(cs)
  {
    Magic + EncodeChunks(cs)
  }

  /** The number of bytes the chunks occupy: 12 bytes of framing plus the data, per chunk. */
  function ChunkBytes(cs: seq<Chunk>): nat {
    if cs == [] then 0 else 12 + |cs[0].data| + ChunkBytes(cs[1..])
  }

  lemma {:induction false} EncodeChunksLength(cs: seq<Chunk>)
    requires WellFormedChunks(cs)
    ensures |EncodeChunks(cs)| == ChunkBytes(cs)
  {
    if cs != [] {
      EncodeChunksLength(cs[1..]);
    }
  }

  /** The walk is the first turn followed by the walk from where that turn leaves off. */
  lemma WalkUnfolds(s: seq<byte>, p: nat)
    requires p <= |s|
    ensures ChunkTurn(s, p).Done? ==> Walk(s, p) == ChunkTurn(s, p).stop
    ensures ChunkTurn(s, p).Continue? ==> Walk(s, p) == Walk(s, ChunkTurn(s, p).next)
  {
  }

  /** A piece of a stretch of the stream that holds `e` is the matching piece of `e`. */
  lemma Within(s: seq<byte>, p: nat, e: seq<byte>, a: nat, b: nat)
    requires p + |e| <= |s| && s[p..p + |e|] == e && a <= b <= |e|
    ensures s[p + a..p + b] == e[a..b]
  {
    forall i | a <= i < b
      ensures s[p + i] == e[i]
    {
      assert s[p..p + |e|][i] == e[i];
    }
  }

  /** One turn of the chunk loop over an encoded chunk reads its length and type back. */
  lemma TurnOverChunk(s: seq<byte>, p: nat, c: Chunk)
    requires WellFormedChunk(c)
    requires p + |EncodeChunk(c)| <= |s| && s[p..p + |EncodeChunk(c)|] == EncodeChunk(c)
    ensures ChunkTurn(s, p) ==
      if c.kind == Iend then Done(Stop(Pass, p + |EncodeChunk(c)|, p + |EncodeChunk(c)|))
      else Continue(p + |EncodeChunk(c)|)
  {
    var e := EncodeChunk(c);
    var header := BeBytes(|c.data|) + c.kind;
    assert e == header + (c.data + c.crc);
    Within(s, p, e, 0, 4);
    Within(s, p, e, 4, 8);
    assert e[..4] == header[..4] == BeBytes(|c.data|);
    assert e[4..8] == header[4..8] == c.kind;
    BeU32OfBeBytes(|c.data|);
  }

  /** `cs` is encoded in `s` at position `p`. */
  predicate EncodedAt(s: seq<byte>, p: nat, cs: seq<Chunk>)
    requires WellFormedChunks(cs)
  {
    p + |EncodeChunks(cs)| <= |s| &&
    forall i :: 0 <= i < |EncodeChunks(cs)| ==> s[p + i] == EncodeChunks(cs)[i]
  }

  /** A stretch of the stream equal to the encoding of `cs` holds `cs`. */
  lemma SliceEncoded(s: seq<byte>, p: nat, cs: seq<Chunk>)
    requires WellFormedChunks(cs)
    requires p + |EncodeChunks(cs)| <= |s| && s[p..p + |EncodeChunks(cs)|] == EncodeChunks(cs)
    ensures EncodedAt(s, p, cs)
  {
    var e := EncodeChunks(cs);
    forall i | 0 <= i < |e|
      ensures s[p + i] == e[i]
    {
      assert s[p..p + |e|][i] == e[i];
    }
  }

  /** A piece of a stretch of the stream that holds `cs` is the matching piece of its encoding. */
  lemma WithinEncoded(s: seq<byte>, p: nat, cs: seq<Chunk>, a: nat, b: nat)
    requires WellFormedChunks(cs) && EncodedAt(s, p, cs) && a <= b <= |EncodeChunks(cs)|
    ensures s[p + a..p + b] == EncodeChunks(cs)[a..b]
  {
    var e := EncodeChunks(cs);
    assert forall i :: a <= i < b ==> s[p + a..p + b][i - a] == e[i];
  }

  /** Where chunks are encoded, the first turn of the loop reads the first of them. */
  lemma FirstChunkAt(s: seq<byte>, p: nat, cs: seq<Chunk>)
    requires WellFormedChunks(cs) && |cs| >= 1 && EncodedAt(s, p, cs)
    ensures |EncodeChunk(cs[0])| <= |EncodeChunks(cs)|
    ensures ChunkTurn(s, p) ==
      var q := p + |EncodeChunk(cs[0])|;
      if cs[0].kind == Iend then Done(Stop(Pass, q, q)) else Continue(q)
  {
    var e, e0 := EncodeChunks(cs), EncodeChunk(cs[0]);
    assert e == e0 + EncodeChunks(cs[1..]);
    WithinEncoded(s, p, cs, 0, |e0|);
    assert e[0..|e0|] == e0;
    TurnOverChunk(s, p, cs[0]);
  }

  /** Where chunks are encoded, the remaining chunks follow the first. */
  lemma RestChunksAt(s: seq<byte>, p: nat, cs: seq<Chunk>, q: nat)
    requires WellFormedChunks(cs) && |cs| >= 1 && EncodedAt(s, p, cs)
    requires q == p + |EncodeChunk(cs[0])|
    ensures WellFormedChunks(cs[1..])
    ensures q + |EncodeChunks(cs[1..])| == p + |EncodeChunks(cs)|
    ensures EncodedAt(s, q, cs[1..])
  {
    var e, n0, rest := EncodeChunks(cs), |EncodeChunk(cs[0])|, EncodeChunks(cs[1..]);
    assert e == EncodeChunk(cs[0]) + rest;
    forall i | 0 <= i < |rest|
      ensures s[q + i] == rest[i]
    {
      assert rest[i] == e[n0 + i];
    }
  }

  /**
    Walking the encoding of an image's chunks, wherever it sits in the stream,
    copies exactly those bytes and stops right after the `IEND` chunk's CRC.
  */
  lemma {:induction false} WalkImageChunks(s: seq<byte>, p: nat, cs: seq<Chunk>)
    requires IsImage(cs) && EncodedAt(s, p, cs)
    ensures Walk(s, p) == Stop(Pass, p + |EncodeChunks(cs)|, p + |EncodeChunks(cs)|)
    decreases |cs|
  {
    var q := p + |EncodeChunk(cs[0])|;
    ImageHead(cs);
    RestChunksAt(s, p, cs, q);
    if |cs| == 1 {
      WalkAtIend(s, p, cs, q);
      assert cs[1..] == [];
    } else {
      WalkPastChunk(s, p, cs, q);
      WalkImageChunks(s, q, cs[1..]);
      assert q + |EncodeChunks(cs[1..])| == p + |EncodeChunks(cs)|;
    }
  }

  /** An image is an `IEND` chunk alone, or another chunk followed by an image. */
  lemma ImageHead(cs: seq<Chunk>)
    requires IsImage(cs)
    ensures |cs| >= 1 && WellFormedChunks(cs)
    ensures |cs| == 1 <==> cs[0].kind == Iend
    ensures |cs| > 1 ==> IsImage(cs[1..])
  {
  }

  /** Where an `IEND` chunk is encoded, the walk stops right after it. */
  lemma WalkAtIend(s: seq<byte>, p: nat, cs: seq<Chunk>, q: nat)
    requires WellFormedChunks(cs) && |cs| >= 1 && EncodedAt(s, p, cs) && cs[0].kind == Iend
    requires q == p + |EncodeChunk(cs[0])|
    ensures Walk(s, p) == Stop(Pass, q, q)
  {
    FirstChunkAt(s, p, cs);
    WalkUnfolds(s, p);
  }

  /** Where any other chunk is encoded, the walk goes on right after it. */
  lemma WalkPastChunk(s: seq<byte>, p: nat, cs: seq<Chunk>, q: nat)
    requires WellFormedChunks(cs) && |cs| >= 1 && EncodedAt(s, p, cs) && cs[0].kind != Iend
    requires q == p + |EncodeChunk(cs[0])|
    ensures q <= |s| && Walk(s, p) == Walk(s, q)
  {
    FirstChunkAt(s, p, cs);
    WalkContinues(s, p, q);
  }

  /** A turn that goes on at `q` hands the walk over to `q`. */
  lemma WalkContinues(s: seq<byte>, p: nat, q: nat)
    requires p <= |s| && ChunkTurn(s, p) == Continue(q)
    ensures q <= |s| && Walk(s, p) == Walk(s, q)
  {
  }

  /**
    Round trip for one image: a call on a reader positioned at the start of a
    well-formed image succeeds, writes exactly the image's bytes and leaves the
    reader right after them, 8 + Σ(12 + length) bytes further on.
  */
  lemma SplitImage(s: seq<byte>, p: nat, cs: seq<Chunk>)
    requires IsImage(cs)
    requires p + |EncodeImage(cs)| <= |s| && s[p..p + |EncodeImage(cs)|] == EncodeImage(cs)
    ensures Split(s, p) == Stop(Pass, p + |EncodeImage(cs)|, p + |EncodeImage(cs)|)
    ensures |EncodeImage(cs)| == 8 + ChunkBytes(cs)
  {
    var e := EncodeImage(cs);
    Within(s, p, e, 0, 8);
    Within(s, p, e, 8, |e|);
    assert e[..8] == Magic && e[8..|e|] == EncodeChunks(cs);
    SliceEncoded(s, p + 8, cs);
    WalkImageChunks(s, p + 8, cs);
    EncodeChunksLength(cs);
  }

  /**
    A chunk whose declared length is within 4 of 2^32 makes `chunk_len + 4`
    wrap: this 16-byte stream, an `IEND` chunk declaring 4294967292 data bytes
    and carrying none, is taken as a complete image.
  */
  lemma OversizedLengthWraps()
    ensures Split(Magic + [0xFF, 0xFF, 0xFF, 0xFC] + Iend, 0) == Stop(Pass, 16, 16)
  {
    var s := Magic + [0xFF, 0xFF, 0xFF, 0xFC] + Iend;
    assert s[..8] == Magic && s[8..12] == [0xFF, 0xFF, 0xFF, 0xFC] && s[12..16] == Iend;
    assert BeU32(s[8..12]) == 0xFFFF_FFFC;
    assert ChunkTurn(s, 8) == Done(Stop(Pass, 16, 16));
  }

  // ---------------------------------------------------------------------------
  // Streams that are not a whole image

  /** No chunk is `IEND`. */
  predicate NoIend(cs: seq<Chunk>) {
    forall i :: 0 <= i < |cs| ==> cs[i].kind != Iend
  }

  /** Past a chunk other than `IEND`, the walk goes on over the remaining chunks, none of which is `IEND` either. */
  lemma WithoutIendStep(s: seq<byte>, p: nat, cs: seq<Chunk>, q: nat)
    requires WellFormedChunks(cs) && |cs| >= 1 && NoIend(cs) && EncodedAt(s, p, cs)
    requires q == p + |EncodeChunk(cs[0])|
    ensures WellFormedChunks(cs[1..]) && NoIend(cs[1..]) && EncodedAt(s, q, cs[1..])
    ensures q + |EncodeChunks(cs[1..])| == p + |EncodeChunks(cs)|
    ensures q <= |s| && Walk(s, p) == Walk(s, q)
  {
    RestChunksAt(s, p, cs, q);
    WalkPastChunk(s, p, cs, q);
    NoIendRest(cs);
  }

  /** At the end of the stream the next chunk header cannot be read. */
  lemma WalkAtEnd(s: seq<byte>, p: nat)
    requires p == |s|
    ensures Walk(s, p) == Stop(Fail(UnexpectedEof), |s|, |s|)
  {
    WalkUnfolds(s, p);
  }

  lemma NoIendRest(cs: seq<Chunk>)
    requires |cs| >= 1 && NoIend(cs)
    ensures NoIend(cs[1..])
  {
    forall i | 0 <= i < |cs| - 1
      ensures cs[1..][i].kind != Iend
    {
      assert cs[1..][i] == cs[i + 1];
    }
  }

  /** Walking chunks that run to the end of the stream without an `IEND` reads past the last one and fails. */
  lemma {:induction false} WalkWithoutIend(s: seq<byte>, p: nat, cs: seq<Chunk>)
    requires WellFormedChunks(cs) && NoIend(cs) && EncodedAt(s, p, cs) && p + |EncodeChunks(cs)| == |s|
    ensures Walk(s, p) == Stop(Fail(UnexpectedEof), |s|, |s|)
    decreases |cs|
  {
    if cs == [] {
      WalkAtEnd(s, p);
    } else {
      var q := p + |EncodeChunk(cs[0])|;
      WithoutIendStep(s, p, cs, q);
      WalkWithoutIend(s, q, cs[1..]);
    }
  }

  /**
    A signature followed by well-formed chunks none of which is `IEND` is not
    an image: the call copies the whole stream, then fails reading the next
    chunk header.
  */
  lemma MissingIendFails(cs: seq<Chunk>)
    requires WellFormedChunks(cs) && NoIend(cs)
    ensures Split(EncodeImage(cs), 0) == Stop(Fail(UnexpectedEof), |EncodeImage(cs)|, |EncodeImage(cs)|)
  {
    var s := EncodeImage(cs);
    assert s[0..8] == Magic && s[8..8 + |EncodeChunks(cs)|] == EncodeChunks(cs);
    SliceEncoded(s, 8, cs);
    WalkWithoutIend(s, 8, cs);
  }

  /** Where the stream from `p` on is a prefix of `e`, its pieces are the matching pieces of `e`. */
  lemma WithinPrefix(s: seq<byte>, p: nat, e: seq<byte>, a: nat, b: nat)
    requires p <= |s| && |s| - p <= |e| && s[p..] == e[..|s| - p] && a <= b <= |s| - p
    ensures s[p + a..p + b] == e[a..b]
  {
    forall i | a <= i < b
      ensures s[p + i] == e[i]
    {
      assert s[p..][i] == e[..|s| - p][i];
    }
  }

  /** The 8-byte header of an encoded chunk reads back as its length and type. */
  lemma ChunkHeader(s: seq<byte>, p: nat, c: Chunk)
    requires WellFormedChunk(c) && p + 8 <= |s| && s[p..p + 8] == EncodeChunk(c)[..8]
    ensures BeU32(s[p..p + 4]) == |c.data| && s[p + 4..p + 8] == c.kind
  {
    var e := EncodeChunk(c);
    var header := BeBytes(|c.data|) + c.kind;
    assert e == header + (c.data + c.crc);
    assert s[p..p + 4] == s[p..p + 8][..4] == header[..4] == BeBytes(|c.data|);
    assert s[p + 4..p + 8] == s[p..p + 8][4..] == header[4..8] == c.kind;
    BeU32OfBeBytes(|c.data|);
  }

  /** Walking a stream that stops short inside an image's chunks fails, wherever the cut is. */
  lemma {:induction false} WalkTruncated(s: seq<byte>, p: nat, cs: seq<Chunk>)
    requires IsImage(cs) && p <= |s| < p + |EncodeChunks(cs)|
    requires s[p..] == EncodeChunks(cs)[..|s| - p]
    ensures Walk(s, p).outcome.Fail?
    decreases |cs|
  {
    var e0, rest := EncodeChunk(cs[0]), EncodeChunks(cs[1..]);
    assert EncodeChunks(cs) == e0 + rest;
    WalkUnfolds(s, p);
    if |s| - p >= 8 {
      HeadOfPrefix(s, p, e0, rest);
      ChunkHeader(s, p, cs[0]);
      if |s| - (p + 8) >= |cs[0].data| + 4 {
        var q := p + |e0|;
        ImageHead(cs);
        assert ChunkTurn(s, p) == Continue(q);
        TailOfPrefix(s, p, e0, rest);
        WalkTruncated(s, q, cs[1..]);
      }
    }
  }

  /** Where the stream from `p` on is a prefix of `a + b`, its next 8 bytes start `a`. */
  lemma HeadOfPrefix(s: seq<byte>, p: nat, a: seq<byte>, b: seq<byte>)
    requires p + 8 <= |s| && 8 <= |a| && |s| - p <= |a + b| && s[p..] == (a + b)[..|s| - p]
    ensures s[p..p + 8] == a[..8]
  {
    WithinPrefix(s, p, a + b, 0, 8);
    assert (a + b)[0..8] == a[..8];
  }

  /** Where the stream from `p` on is a prefix of `a + b` and holds all of `a`, the rest of it is a prefix of `b`. */
  lemma TailOfPrefix(s: seq<byte>, p: nat, a: seq<byte>, b: seq<byte>)
    requires p + |a| <= |s| && |s| - p <= |a + b| && s[p..] == (a + b)[..|s| - p]
    ensures s[p + |a|..] == b[..|s| - (p + |a|)]
  {
    var q := p + |a|;
    forall i | 0 <= i < |s| - q
      ensures s[q..][i] == b[..|s| - q][i]
    {
      assert s[p..][|a| + i] == (a + b)[..|s| - p][|a| + i];
    }
  }

  /** An image cut short anywhere, inside the signature or after it, is refused. */
  lemma TruncatedImageFails(cs: seq<Chunk>, n: nat)
    requires IsImage(cs) && n < |EncodeImage(cs)|
    ensures Split(EncodeImage(cs)[..n], 0).outcome.Fail?
  {
    var e := EncodeImage(cs);
    var s := e[..n];
    if n >= 8 {
      assert s[..8] == Magic;
      assert s[8..] == EncodeChunks(cs)[..n - 8];
      WalkTruncated(s, 8, cs);
    }
  }

  // ---------------------------------------------------------------------------
  // Successive calls on one reader

  /**
    What successive calls on one reader produce, each into a sink of its own:
    the bytes each call wrote, the outcome, and the position the reader is left
    at. The calls stop at the first one that fails, whose partial output is the
    last entry of `files`.
  */
  datatype Batch = Batch(files: seq<seq<byte>>, outcome: Outcome<SplitError>, next: nat)

  /**
    `step` says where one call stops from each position of `s`: never before
    that position nor past the end, having written all it read when it passes.
  */
  ghost predicate Steps(s: seq<byte>, step: nat -> Stop) {
    forall q: nat :: q <= |s| ==>
      q <= step(q).copiedTo <= step(q).next <= |s| && (step(q).outcome.Pass? ==> step(q).copiedTo == step(q).next)
  }

  /** Up to `k` successive calls from position `p`, each one a `step`. */
  function Run(s: seq<byte>, step: nat -> Stop, p: nat, k: nat): (b: Batch)
    requires Steps(s, step) && p <= |s|
    ensures p <= b.next <= |s|
    ensures b.outcome.Pass? ==> |b.files| == k
    ensures b.outcome.Fail? ==> 1 <= |b.files| <= k
    decreases k
  {
    if k == 0 then Batch([], Pass, p)
    else
      var st := step(p);
      if st.outcome.Fail? then Batch([s[p..st.copiedTo]], st.outcome, st.next)
      else
        var rest := Run(s, step, st.next, k - 1);
        Batch([s[p..st.next]] + rest.files, rest.outcome, rest.next)
  }

  /** One `write_next` call from each position; past the end is never asked for. */
  function SplitStep(s: seq<byte>): (step: nat -> Stop)
    ensures Steps(s, step)
  {
    (q: nat) => if q <= |s| then Split(s, q) else Stop(Fail(UnexpectedEof), q, q)
  }

  /** Up to `k` successive `write_next` calls from position `p`. */
  function SplitMany(s: seq<byte>, p: nat, k: nat): (b: Batch)
    requires p <= |s|
    ensures p <= b.next <= |s|
    ensures b.outcome.Pass? ==> |b.files| == k
    ensures b.outcome.Fail? ==> 1 <= |b.files| <= k
  {
    Run(s, SplitStep(s), p, k)
  }

  /** Byte sequences laid end to end. */
  function Concat(es: seq<seq<byte>>): seq<byte> {
    if es == [] then [] else es[0] + Concat(es[1..])
  }

  lemma {:induction false} ConcatAppend(es: seq<seq<byte>>, e: seq<byte>)
    ensures Concat(es + [e]) == Concat(es) + e
  {
    if es != [] {
      assert (es + [e])[1..] == es[1..] + [e];
      ConcatAppend(es[1..], e);
    }
  }

  /**
    After `k` successful calls, one call more is one more step from where the
    reader was left: this is how a loop that calls `write_next` once per frame
    advances through the stream.
  */
  lemma {:induction false} RunOneMore(s: seq<byte>, step: nat -> Stop, p: nat, k: nat)
    requires Steps(s, step) && p <= |s| && Run(s, step, p, k).outcome.Pass?
    ensures
      var b := Run(s, step, p, k);
      var st := step(b.next);
      Run(s, step, p, k + 1) == Batch(b.files + [s[b.next..st.copiedTo]], st.outcome, st.next)
    decreases k
  {
    if k > 0 {
      var st := step(p);
      var rest := Run(s, step, st.next, k - 1);
      RunOneMore(s, step, st.next, k - 1);
      var last := step(rest.next);
      ConsSnoc(s[p..st.next], rest.files, s[rest.next..last.copiedTo]);
    }
  }

  lemma ConsSnoc(e: seq<byte>, a: seq<seq<byte>>, f: seq<byte>)
    ensures [e] + (a + [f]) == [e] + a + [f]
  {
  }

  /** A run that gets past its first call is that call's image followed by the run from where it stopped. */
  lemma RunFirst(s: seq<byte>, step: nat -> Stop, p: nat, k: nat, k': nat)
    requires Steps(s, step) && p <= |s| && k == k' + 1 && step(p).outcome.Pass?
    ensures
      var rest := Run(s, step, step(p).next, k');
      Run(s, step, p, k) == Batch([s[p..step(p).next]] + rest.files, rest.outcome, rest.next)
  {
  }

  /** A first call that writes exactly `e` and passes puts `e` in front of the rest of the run. */
  lemma RunCons(s: seq<byte>, step: nat -> Stop, p: nat, k: nat, e: seq<byte>, files: seq<seq<byte>>, next: nat)
    requires Steps(s, step) && k > 0 && p + |e| <= |s| && s[p..p + |e|] == e
    requires step(p) == Stop(Pass, p + |e|, p + |e|)
    requires Run(s, step, p + |e|, k - 1) == Batch(files, Pass, next)
    ensures Run(s, step, p, k) == Batch([e] + files, Pass, next)
  {
  }

  /** A failed call ends the run: asking for more calls changes nothing. */
  lemma {:induction false} RunStops(s: seq<byte>, step: nat -> Stop, p: nat, k: nat, more: nat)
    requires Steps(s, step) && p <= |s| && k <= more && Run(s, step, p, k).outcome.Fail?
    ensures Run(s, step, p, more) == Run(s, step, p, k)
    decreases k
  {
    var st := step(p);
    if st.outcome.Pass? {
      RunStops(s, step, st.next, k - 1, more - 1);
    }
  }

  /**
    Calls in two runs, the second picking up where the first left the reader,
    are one run: this is how a window loop composes its per-window runs.
  */
  lemma {:induction false} RunAppend(s: seq<byte>, step: nat -> Stop, p: nat, a: nat, c: nat)
    requires Steps(s, step) && p <= |s| && Run(s, step, p, a).outcome.Pass?
    ensures
      var b1 := Run(s, step, p, a);
      var b2 := Run(s, step, b1.next, c);
      Run(s, step, p, a + c) == Batch(b1.files + b2.files, b2.outcome, b2.next)
    decreases a
  {
    if a == 0 {
      assert Batch([], Pass, p).files + Run(s, step, p, c).files == Run(s, step, p, c).files;
    } else {
      var st := step(p);
      assert st.outcome.Pass?;
      var rest := Run(s, step, st.next, a - 1);
      var b2 := Run(s, step, rest.next, c);
      RunFirst(s, step, p, a, a - 1);
      RunFirst(s, step, p, a + c, (a - 1) + c);
      RunAppend(s, step, st.next, a - 1, c);
      ConsAppend(s[p..st.next], rest.files, b2.files);
    }
  }

  lemma ConsAppend(e: seq<byte>, a: seq<seq<byte>>, b: seq<seq<byte>>)
    ensures [e] + a + b == [e] + (a + b)
  {
  }

  /**
    Calls that all succeed consume the stream exactly: their outputs, laid end
    to end, are the bytes between the start and the final read position, with
    nothing dropped and nothing repeated.
  */
  lemma {:induction false} RunConsumes(s: seq<byte>, step: nat -> Stop, p: nat, k: nat)
    requires Steps(s, step) && p <= |s| && Run(s, step, p, k).outcome.Pass?
    ensures Concat(Run(s, step, p, k).files) == s[p..Run(s, step, p, k).next]
    decreases k
  {
    if k > 0 {
      var st := step(p);
      var rest := Run(s, step, st.next, k - 1);
      RunConsumes(s, step, st.next, k - 1);
      SliceSplit(s, p, st.next, rest.next);
    }
  }

  /** Every entry is the chunk list of a PNG image. */
  predicate AllImages(imgs: seq<seq<Chunk>>) {
    imgs == [] || (IsImage(imgs[0]) && AllImages(imgs[1..]))
  }

  function EncodeImages(imgs: seq<seq<Chunk>>): (es: seq<seq<byte>>)
    requires AllImages(imgs)
    ensures |es| == |imgs|
  {
    if imgs == [] then [] else [EncodeImage(imgs[0])] + EncodeImages(imgs[1..])
  }

  /** From `p` on, each step passes over exactly the next piece of `es`. */
  ghost predicate PassesOver(s: seq<byte>, step: nat -> Stop, p: nat, es: seq<seq<byte>>)
    decreases |es|
  {
    es == [] || (step(p) == Stop(Pass, p + |es[0]|, p + |es[0]|) && PassesOver(s, step, p + |es[0]|, es[1..]))
  }

  /** A stretch of the stream that holds `a + b` holds `a`, then `b`. */
  lemma SplitStretch(s: seq<byte>, p: nat, a: seq<byte>, b: seq<byte>)
    requires p + |a + b| <= |s| && s[p..p + |a + b|] == a + b
    ensures s[p..p + |a|] == a && s[p + |a|..p + |a| + |b|] == b
  {
    Within(s, p, a + b, 0, |a|);
    Within(s, p, a + b, |a|, |a + b|);
    assert (a + b)[0..|a|] == a && (a + b)[|a|..|a + b|] == b;
  }

  /** A run over pieces laid end to end, each of which one step passes over, yields exactly those pieces. */
  lemma {:induction false} RunOverPieces(s: seq<byte>, step: nat -> Stop, p: nat, es: seq<seq<byte>>)
    requires Steps(s, step) && p + |Concat(es)| <= |s|
    requires s[p..p + |Concat(es)|] == Concat(es) && PassesOver(s, step, p, es)
    ensures Run(s, step, p, |es|) == Batch(es, Pass, p + |Concat(es)|)
    decreases |es|
  {
    if es != [] {
      var c, e := Concat(es), es[0];
      assert c == e + Concat(es[1..]);
      SplitStretch(s, p, e, Concat(es[1..]));
      RunOverPieces(s, step, p + |e|, es[1..]);
      assert [e] + es[1..] == es;
      RunCons(s, step, p, |es|, e, es[1..], p + |c|);
    }
  }

  /** `write_next` passes over each image of a stream of images, one call per image. */
  lemma {:induction false} SplitPassesOverImages(s: seq<byte>, p: nat, imgs: seq<seq<Chunk>>)
    requires AllImages(imgs)
    requires p + |Concat(EncodeImages(imgs))| <= |s|
    requires s[p..p + |Concat(EncodeImages(imgs))|] == Concat(EncodeImages(imgs))
    ensures PassesOver(s, SplitStep(s), p, EncodeImages(imgs))
    decreases |imgs|
  {
    if imgs != [] {
      var e0, rest := EncodeImage(imgs[0]), EncodeImages(imgs[1..]);
      var q := p + |e0|;
      assert EncodeImages(imgs) == [e0] + rest;
      assert Concat(EncodeImages(imgs)) == e0 + Concat(rest);
      SplitStretch(s, p, e0, Concat(rest));
      SplitImage(s, p, imgs[0]);
      SplitStepAt(s, p);
      SplitPassesOverImages(s, q, imgs[1..]);
      PassesOverCons(s, SplitStep(s), p, e0, rest);
    }
  }

  /** The step of `SplitMany` at a position within the stream is a `write_next` call there. */
  lemma SplitStepAt(s: seq<byte>, p: nat)
    requires p <= |s|
    ensures SplitStep(s)(p) == Split(s, p)
  {
  }

  /** A step that passes over `e` and then over each of `es` passes over `[e] + es`. */
  lemma PassesOverCons(s: seq<byte>, step: nat -> Stop, p: nat, e: seq<byte>, es: seq<seq<byte>>)
    requires step(p) == Stop(Pass, p + |e|, p + |e|) && PassesOver(s, step, p + |e|, es)
    ensures PassesOver(s, step, p, [e] + es)
  {
    assert ([e] + es)[0] == e && ([e] + es)[1..] == es;
  }

  /**
    Round trip for a stream of images, as a decoder writes them back to back:
    as many calls as there are images succeed, the i-th writes exactly the i-th
    image, and the reader is left right after the last one.
  */
  lemma SplitImages(s: seq<byte>, p: nat, imgs: seq<seq<Chunk>>)
    requires AllImages(imgs)
    requires p + |Concat(EncodeImages(imgs))| <= |s|
    requires s[p..p + |Concat(EncodeImages(imgs))|] == Concat(EncodeImages(imgs))
    ensures SplitMany(s, p, |imgs|) == Batch(EncodeImages(imgs), Pass, p + |Concat(EncodeImages(imgs))|)
  {
    SplitPassesOverImages(s, p, imgs);
    RunOverPieces(s, SplitStep(s), p, EncodeImages(imgs));
  }

  lemma SliceSplit(s: seq<byte>, a: nat, b: nat, c: nat)
    requires a <= b <= c <= |s|
    ensures s[a..c] == s[a..b] + s[b..c]
  {
  }

  // ---------------------------------------------------------------------------
  // The reader and the sink

  /** A `Write` sink (a frame file): everything written to it so far. */
  class Sink {
    var written: seq<byte>

    constructor ()
      ensures written == []
    {
      written := [];
    }

    /** `write_all`. */
    method WriteAll(bytes: seq<byte>)
      modifies this
      ensures written == old(written) + bytes
    {
      written := written + bytes;
    }
  }

  /** `PngStreamSplitter<R>`: a reader, seen as the bytes it yields and a read position. */
  class PngStreamSplitter {
    const stream: seq<byte>
    var pos: nat

    ghost predicate Valid()
      reads this
    {
      pos <= |stream|
    }

    /** `PngStreamSplitter::new`. */
    constructor (reader: seq<byte>)
      ensures Valid() && stream == reader && pos == 0
    {
      stream := reader;
      pos := 0;
    }

    /** `read_exact(buf)`: fills `buf`, or fails having read to the end of the stream. */
    method ReadExact(buf: array<byte>) returns (ok: bool)
      requires Valid()
      modifies this, buf
      ensures Valid()
      ensures ok == (old(pos) + buf.Length <= |stream|)
      ensures ok ==> pos == old(pos) + buf.Length && buf[..] == stream[old(pos)..pos]
      ensures !ok ==> pos == |stream|
    {
      ok := buf.Length <= |stream| - pos;
      if ok {
        forall i | 0 <= i < buf.Length {
          buf[i] := stream[pos + i];
        }
        pos := pos + buf.Length;
      } else {
        pos := |stream|;
      }
    }

    /** `io::copy(&mut reader.take(limit), writer)`: copies up to `limit` bytes, stopping at the end of the stream. */
    method CopyTo(w: Sink, limit: nat) returns (copied: nat)
      requires Valid()
      modifies this, w
      ensures Valid()
      ensures copied == if old(pos) + limit <= |stream| then limit else |stream| - old(pos)
      ensures pos == old(pos) + copied
      ensures w.written == old(w.written) + stream[old(pos)..pos]
    {
      copied := if limit <= |stream| - pos then limit else |stream| - pos;
      w.WriteAll(stream[pos..pos + copied]);
      pos := pos + copied;
    }

    /**
      One turn of the chunk loop: read the 8-byte header into `buf`, copy it and
      then the chunk's data and CRC to `w`. `done` says the loop ends here, with
      outcome `r`; otherwise the walk goes on from the new position.
    */
    method CopyChunk(w: Sink, buf: array<byte>) returns (done: bool, r: Outcome<SplitError>)
      requires Valid() && buf.Length == 8
      modifies this, w, buf
      ensures Valid()
      ensures
        match ChunkTurn(stream, old(pos))
        case Done(stop) =>
          done && r == stop.outcome && pos == stop.next
          && w.written == old(w.written) + stream[old(pos)..stop.copiedTo]
        case Continue(next) =>
          !done && pos == next && w.written == old(w.written) + stream[old(pos)..pos]
    {
      ghost var start := pos;
      // Read chunk length and type
      var ok := ReadExact(buf);
      if !ok {
        return true, Fail(UnexpectedEof);
      }
      var chunkLen := BeU32(buf[..4]);
      var chunkIend := buf[4..8] == Iend;
      w.WriteAll(buf[..]);
      assert buf[..4] == stream[start..start + 4] && buf[4..8] == stream[start + 4..start + 8];

      // Copy chunk data (chunkLen bytes) and CRC footer (4 bytes)
      var bytesToCopy := CopyLength(chunkLen);
      var copied := CopyTo(w, bytesToCopy);
      SliceSplit(stream, start, start + 8, pos);
      if copied != bytesToCopy {
        return true, Fail(InvalidChunk);
      }
      return chunkIend, Pass;
    }

    /** The chunk loop of `write_next`: copy chunks to `w` up to and including `IEND`. */
    method CopyChunks(w: Sink, buf: array<byte>) returns (r: Outcome<SplitError>)
      requires Valid() && buf.Length == 8
      modifies this, w, buf
      ensures Valid()
      ensures r == Walk(stream, old(pos)).outcome && pos == Walk(stream, old(pos)).next
      ensures w.written == old(w.written) + stream[old(pos)..Walk(stream, old(pos)).copiedTo]
    {
      ghost var start := pos;
      ghost var goal := Walk(stream, pos);
      while true
        invariant Valid() && start <= pos
        invariant Walk(stream, pos) == goal
        invariant w.written == old(w.written) + stream[start..pos]
        decreases |stream| - pos
      {
        ghost var before := pos;
        var done;
        done, r := CopyChunk(w, buf);
        if done {
          SliceSplit(stream, start, before, goal.copiedTo);
          return;
        }
        SliceSplit(stream, start, before, pos);
      }
    }

    /** `write_next`: copy one PNG image from the reader to `w`. */
    method WriteNext(w: Sink) returns (r: Outcome<SplitError>)
      requires Valid()
      modifies this, w
      ensures Valid()
      ensures r == Split(stream, old(pos)).outcome && pos == Split(stream, old(pos)).next
      ensures w.written == old(w.written) + stream[old(pos)..Split(stream, old(pos)).copiedTo]
    {
      ghost var start := pos;
      var buf := new byte[8];

      // Read magic
      var ok := ReadExact(buf);
      SignatureChecked(stream, start);
      if !ok {
        assert stream[start..start] == [];
        return Fail(UnexpectedEof);
      }
      if buf[..] != Magic {
        assert stream[start..start] == [];
        return Fail(InvalidMagic);
      }
      w.WriteAll(buf[..]);

      r := CopyChunks(w, buf);
      assert Split(stream, start) == Walk(stream, start + 8);
      SliceSplit(stream, start, start + 8, Walk(stream, start + 8).copiedTo);
      // `writer.flush()` has no effect on what the sink holds.
    }
  }
}
