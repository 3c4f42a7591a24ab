/**
 The local query protocol: little-endian frames [size:u16][msg_id:u16][payload], blobs
 [n:u16][bytes] inside them, and the extraction of frames from a byte stream.

 Extract parses a whole buffer at once. Feed is what one arrival of bytes does to a connection.
 */
module QueryStream {
  import opened Wrappers
  import opened Bytes

  const MSG_QUERY: U16 := 1
  const MSG_REPLY: U16 := 2

  function Frame(msgId: U16, payload: seq<Byte>): (f: seq<Byte>)
    ensures |f| == 4 + |payload|
  {
    Le16((4 + |payload|) % TWO16) + Le16(msgId) + payload
  }

  function EncodeBlob(blob: seq<Byte>): seq<Byte> {
    Le16(|blob| % TWO16) + blob
  }

  function DecodeBlob(payload: seq<Byte>): Option<seq<Byte>> {
    if |payload| < 2 || 2 + RdLe16(payload) > |payload| then None
    else Some(payload[2..2 + RdLe16(payload)])
  }

  // ------------------------------------------------------------- frame extraction

  /** frames were cut off the front and rest is kept; bad says that a size below 4 was met and the rest dropped. */
  datatype Extraction = Extraction(frames: seq<seq<Byte>>, rest: seq<Byte>, bad: bool)

  function Extract(b: seq<Byte>): Extraction
    decreases |b|
  {
    if |b| < 4 then Extraction([], b, false)
    else
      var size := RdLe16(b);
      if size < 4 then Extraction([], [], true)
      else if |b| < size then Extraction([], b, false)
      else
        Prepend([b[..size]], Extract(b[size..]))
  }

  function Prepend(fs: seq<seq<Byte>>, e: Extraction): Extraction {
    e.(frames := fs + e.frames)
  }

  function Concat(parts: seq<seq<Byte>>): seq<Byte> {
    if parts == [] then [] else parts[0] + Concat(parts[1..])
  }

  predicate IsFrame(f: seq<Byte>) {
    |f| >= 4 && RdLe16(f) == |f|
  }

  predicate AllFrames(fs: seq<seq<Byte>>) {
    forall i | 0 <= i < |fs| :: IsFrame(fs[i])
  }

  /** The start of a frame that has not fully arrived. */
  predicate Incomplete(b: seq<Byte>) {
    |b| < 4 || |b| < RdLe16(b)
  }

  predicate BadHeader(b: seq<Byte>) {
    |b| >= 4 && RdLe16(b) < 4
  }

  lemma ExtractFrame(f: seq<Byte>, tail: seq<Byte>)
    requires IsFrame(f)
    ensures Extract(f + tail) == Prepend([f], Extract(tail))
  {
    assert RdLe16(f + tail) == RdLe16(f);
    assert (f + tail)[..|f|] == f && (f + tail)[|f|..] == tail;
  }

  /** Whole frames at the front are extracted, and nothing else changes. */
  lemma {:induction false} ExtractFrames(fs: seq<seq<Byte>>, b: seq<Byte>)
    requires AllFrames(fs)
    ensures Extract(Concat(fs) + b) == Prepend(fs, Extract(b))
  {
    if fs == [] {
      assert Concat(fs) + b == b;
      PrependNothing(Extract(b));
    } else {
      ExtractFrames(fs[1..], b);
      ExtractFramesCons(fs[0], fs[1..], b);
      assert [fs[0]] + fs[1..] == fs;
    }
  }

  lemma ExtractFramesCons(f: seq<Byte>, fs: seq<seq<Byte>>, b: seq<Byte>)
    requires IsFrame(f) && Extract(Concat(fs) + b) == Prepend(fs, Extract(b))
    ensures Extract(Concat([f] + fs) + b) == Prepend([f] + fs, Extract(b))
  {
    var tail := Concat(fs) + b;
    assert ([f] + fs)[1..] == fs;
    assert Concat([f] + fs) + b == f + tail;
    ExtractFrame(f, tail);
    PrependTwice([f], fs, Extract(b));
  }

  lemma PrependNothing(e: Extraction)
    ensures Prepend([], e) == e
  {
    assert [] + e.frames == e.frames;
  }

  lemma PrependTwice(fs: seq<seq<Byte>>, gs: seq<seq<Byte>>, e: Extraction)
    ensures Prepend(fs, Prepend(gs, e)) == Prepend(fs + gs, e)
  {
    assert fs + (gs + e.frames) == fs + gs + e.frames;
  }

  lemma ConcatCons(first: seq<Byte>, parts: seq<seq<Byte>>, left: seq<Byte>)
    ensures Concat([first] + parts) + left == first + (Concat(parts) + left)
  {
    assert ([first] + parts)[1..] == parts;
  }

  /** b is the frames extracted and then left, which is incomplete and kept or starts with a bad header and is dropped. */
  predicate Tiles(b: seq<Byte>, e: Extraction, left: seq<Byte>) {
    && AllFrames(e.frames)
    && b == Concat(e.frames) + left
    && (if e.bad then BadHeader(left) && e.rest == [] else Incomplete(left) && e.rest == left)
  }

  lemma TilesCons(first: seq<Byte>, tail: seq<Byte>, left: seq<Byte>)
    requires IsFrame(first) && Tiles(tail, Extract(tail), left)
    ensures Tiles(first + tail, Extract(first + tail), left)
  {
    ExtractFrame(first, tail);
    ConcatCons(first, Extract(tail).frames, left);
  }

  lemma SplitFrame(b: seq<Byte>) returns (first: seq<Byte>, tail: seq<Byte>)
    requires |b| >= 4 && 4 <= RdLe16(b) <= |b|
    ensures IsFrame(first) && b == first + tail && |tail| < |b|
  {
    first, tail := b[..RdLe16(b)], b[RdLe16(b)..];
  }

  /** Every buffer splits into whole frames and a remainder that is incomplete or starts with a bad header. */
  lemma {:induction false} ExtractTiles(b: seq<Byte>) returns (left: seq<Byte>)
    ensures Tiles(b, Extract(b), left)
    decreases |b|
  {
    if |b| < 4 || RdLe16(b) < 4 || |b| < RdLe16(b) {
      left := b;
    } else {
      var first, tail := SplitFrame(b);
      left := ExtractTiles(tail);
      TilesCons(first, tail, left);
    }
  }

  /** The extraction without a bad header is the one way to split the buffer into frames and an incomplete rest. */
  lemma ExtractIffTiled(b: seq<Byte>, fs: seq<seq<Byte>>, rest: seq<Byte>)
    ensures Extract(b) == Extraction(fs, rest, false) <==> AllFrames(fs) && Incomplete(rest) && b == Concat(fs) + rest
  {
    if AllFrames(fs) && Incomplete(rest) && b == Concat(fs) + rest {
      ExtractFrames(fs, rest);
      assert fs + [] == fs;
    }
    var left := ExtractTiles(b);
  }

  /** Extraction goes on where it stopped. */
  lemma ExtractAppend(a: seq<Byte>, b: seq<Byte>)
    ensures var e := Extract(a);
      if e.bad then Extract(a + b) == e
      else Extract(a + b) == Prepend(e.frames, Extract(e.rest + b))
  {
    var e := Extract(a);
    var left := ExtractTiles(a);
    assert a + b == Concat(e.frames) + (left + b);
    ExtractFrames(e.frames, left + b);
    if e.bad {
      assert RdLe16(left + b) == RdLe16(left);
      assert e.frames + [] == e.frames;
    }
  }

  // ------------------------------------------------------------ arrivals of bytes

  /** A connection: its buffer, and for the proofs what was handed on and what went wrong so far. */
  datatype Conn = Conn(buf: seq<Byte>, frames: seq<seq<Byte>>, bad: bool, overflowed: bool)

  const FRESH := Conn([], [], false, false)

  function Feed(maxBuf: nat, c: Conn, bytes: seq<Byte>): Conn {
    if |c.buf| + |bytes| > maxBuf then c.(buf := [], overflowed := true)
    else
      var e := Extract(c.buf + bytes);
      Conn(e.rest, c.frames + e.frames, c.bad || e.bad, c.overflowed)
  }

  function FeedAll(maxBuf: nat, c: Conn, chunks: seq<seq<Byte>>): Conn {
    if chunks == [] then c
    else Feed(maxBuf, FeedAll(maxBuf, c, chunks[..|chunks| - 1]), chunks[|chunks| - 1])
  }

  lemma FeedSnoc(maxBuf: nat, chunks: seq<seq<Byte>>, last: seq<Byte>)
    ensures FeedAll(maxBuf, FRESH, chunks + [last]) == Feed(maxBuf, FeedAll(maxBuf, FRESH, chunks), last)
  {
    assert (chunks + [last])[..|chunks|] == chunks;
  }

  lemma {:induction false} ConcatSnoc(parts: seq<seq<Byte>>, last: seq<Byte>)
    ensures Concat(parts + [last]) == Concat(parts) + last
  {
    if parts == [] {
      assert [] + [last] == [last] && [last][1..] == [];
    } else {
      ConcatSnoc(parts[1..], last);
      assert (parts + [last])[1..] == parts[1..] + [last];
    }
  }

  /** No bad header is met, or the one that is met is the end of the bytes. */
  predicate NothingAfterBadHeader(b: seq<Byte>) {
    var e := Extract(b);
    !e.bad || |b| == |Concat(e.frames)| + 4
  }

  /**
   However a stream is cut, the frames handed on before the first bad header are those of parsing it
   at once, and a bad header is met in one exactly if it is met in the other. Unless something follows it,
   all frames and the remaining buffer agree.
   */
  lemma {:induction false} ChunkIndependence(maxBuf: nat, chunks: seq<seq<Byte>>)
    requires !FeedAll(maxBuf, FRESH, chunks).overflowed
    ensures var c, e := FeedAll(maxBuf, FRESH, chunks), Extract(Concat(chunks));
      && c.bad == e.bad
      && e.frames <= c.frames
      && (NothingAfterBadHeader(Concat(chunks)) ==> c.frames == e.frames && c.buf == e.rest)
  {
    if chunks != [] {
      var init, last := chunks[..|chunks| - 1], chunks[|chunks| - 1];
      assert chunks == init + [last];
      ConcatSnoc(init, last);
      ChunkIndependence(maxBuf, init);
      ExtractAppend(Concat(init), last);
      var left := ExtractTiles(Concat(init));
    }
  }

  lemma {:induction false} ShortStreamFits(maxBuf: nat, chunks: seq<seq<Byte>>)
    requires |Concat(chunks)| <= maxBuf
    ensures var c := FeedAll(maxBuf, FRESH, chunks); !c.overflowed && |c.buf| <= |Concat(chunks)|
  {
    if chunks != [] {
      var init, last := chunks[..|chunks| - 1], chunks[|chunks| - 1];
      assert chunks == init + [last];
      ConcatSnoc(init, last);
      ShortStreamFits(maxBuf, init);
      var left := ExtractTiles(FeedAll(maxBuf, FRESH, init).buf + last);
    }
  }

  /** Handing on b in these chunks yields the frames and the buffer of handing it on at once. */
  predicate LikeAtOnce(maxBuf: nat, b: seq<Byte>, chunks: seq<seq<Byte>>) {
    var c := FeedAll(maxBuf, FRESH, chunks);
    c.frames == Extract(b).frames && c.buf == Extract(b).rest
  }

  lemma TwoChunks(maxBuf: nat, a: seq<Byte>, b: seq<Byte>)
    ensures Concat([a, b]) == a + b
    ensures FeedAll(maxBuf, FRESH, [a, b]) == Feed(maxBuf, Feed(maxBuf, FRESH, a), b)
  {
    var one: seq<seq<Byte>>, two: seq<seq<Byte>> := [a], [a, b];
    assert one == [] + [a] && two == one + [b];
    ConcatSnoc([], a);
    ConcatSnoc(one, b);
    FeedSnoc(maxBuf, [], a);
    FeedSnoc(maxBuf, one, b);
    assert [] + a == a;
  }

  lemma ExtractBad(fs: seq<seq<Byte>>, left: seq<Byte>)
    requires AllFrames(fs) && BadHeader(left)
    ensures Extract(Concat(fs) + left) == Extraction(fs, [], true)
  {
    ExtractFrames(fs, left);
    assert fs + [] == fs;
  }

  lemma Shorter(b: seq<Byte>, a: seq<Byte>, left: seq<Byte>)
    requires b == a + left && left != []
    ensures b[..|b| - 1] == a + left[..|left| - 1]
  {
  }

  lemma StillBad(left: seq<Byte>)
    requires BadHeader(left) && |left| > 4
    ensures BadHeader(left[..|left| - 1])
  {
  }

  /** A bad header is met before the last byte, if something follows it. */
  lemma MetBeforeLastByte(b: seq<Byte>)
    requires !NothingAfterBadHeader(b)
    ensures b != [] && Extract(b[..|b| - 1]) == Extract(b) && Extract(b).rest == []
  {
    var frames := Extract(b).frames;
    var left := ExtractTiles(b);
    StillBad(left);
    Shorter(b, Concat(frames), left);
    ExtractBad(frames, left[..|left| - 1]);
    ExtractBad(frames, left);
  }

  lemma FeedFirst(maxBuf: nat, c: Conn, bytes: seq<Byte>)
    requires |bytes| <= maxBuf && c.buf == []
    ensures Feed(maxBuf, c, bytes).buf == Extract(bytes).rest
  {
    assert [] + bytes == bytes;
  }

  /** The last byte on its own stays in the buffer if it comes after a bad header that has been dropped. */
  lemma LastByteAlone(maxBuf: nat, most: seq<Byte>, last: seq<Byte>)
    requires |last| == 1 && |most| + 1 <= maxBuf && !NothingAfterBadHeader(most + last)
    ensures FeedAll(maxBuf, FRESH, [most, last]).buf == last
  {
    TwoChunks(maxBuf, most, last);
    MetBeforeLastByte(most + last);
    assert (most + last)[..|most|] == most;
    FeedFirst(maxBuf, FRESH, most);
    FeedFirst(maxBuf, Feed(maxBuf, FRESH, most), last);
  }

  /**
   Within the buffer limit, how the bytes are cut makes no difference exactly if no bad header is met or
   nothing follows it: what shares its chunk is dropped, what comes later is not.
   */
  lemma CutsDoNotMatterIff(maxBuf: nat, b: seq<Byte>)
    requires |b| <= maxBuf
    ensures (forall chunks :: Concat(chunks) == b ==> LikeAtOnce(maxBuf, b, chunks)) <==> NothingAfterBadHeader(b)
  {
    if NothingAfterBadHeader(b) {
      forall chunks | Concat(chunks) == b ensures LikeAtOnce(maxBuf, b, chunks) {
        ShortStreamFits(maxBuf, chunks);
        ChunkIndependence(maxBuf, chunks);
      }
    } else {
      MetBeforeLastByte(b);
      var most, last := b[..|b| - 1], b[|b| - 1..];
      assert b == most + last;
      LastByteAlone(maxBuf, most, last);
      TwoChunks(maxBuf, most, last);
      assert !LikeAtOnce(maxBuf, b, [most, last]);
    }
  }

  // ----------------------------------------------------------------- buffer bound

  const MAX_RESIDUE: nat := 65534
  const READ_SIZE: nat := 8192

  /** An incomplete frame is shorter than the largest frame. */
  lemma ResidueBound(b: seq<Byte>)
    ensures |Extract(b).rest| <= MAX_RESIDUE
  {
    var left := ExtractTiles(b);
  }

  lemma {:induction false} BufferBound(maxBuf: nat, chunks: seq<seq<Byte>>)
    ensures |FeedAll(maxBuf, FRESH, chunks).buf| <= MAX_RESIDUE
  {
    if chunks != [] {
      var c, last := FeedAll(maxBuf, FRESH, chunks[..|chunks| - 1]), chunks[|chunks| - 1];
      ResidueBound(c.buf + last);
    }
  }

  predicate ReadSized(chunks: seq<seq<Byte>>) {
    forall i | 0 <= i < |chunks| :: |chunks[i]| <= READ_SIZE
  }

  lemma {:induction false} NeverOverflows(maxBuf: nat, chunks: seq<seq<Byte>>)
    requires maxBuf >= MAX_RESIDUE + READ_SIZE && ReadSized(chunks)
    ensures !FeedAll(maxBuf, FRESH, chunks).overflowed
  {
    if chunks != [] {
      NeverOverflows(maxBuf, chunks[..|chunks| - 1]);
      BufferBound(maxBuf, chunks[..|chunks| - 1]);
    }
  }

  /** Bytes that announce a frame of 65535 bytes. */
  function Filler(n: nat): (b: seq<Byte>)
    ensures |b| == n
  {
    seq(n, _ => 255)
  }

  function Fillers(k: nat): seq<seq<Byte>> {
    if k == 0 then [] else Fillers(k - 1) + [Filler(READ_SIZE)]
  }

  lemma FeedFiller(maxBuf: nat, c: Conn, n: nat)
    requires c.overflowed || (c.buf == Filler(|c.buf|) && |c.buf| + n <= MAX_RESIDUE)
    ensures var c' := Feed(maxBuf, c, Filler(n)); c'.overflowed || c'.buf == Filler(|c.buf| + n)
  {
    assert c.buf == Filler(|c.buf|) ==> c.buf + Filler(n) == Filler(|c.buf| + n);
  }

  lemma {:induction false} FeedFillers(maxBuf: nat, k: nat)
    requires k <= 7
    ensures ReadSized(Fillers(k))
    ensures var c := FeedAll(maxBuf, FRESH, Fillers(k)); c.overflowed || c.buf == Filler(k * READ_SIZE)
  {
    if k > 0 {
      FeedFillers(maxBuf, k - 1);
      assert Fillers(k)[..|Fillers(k)| - 1] == Fillers(k - 1);
      FeedFiller(maxBuf, FeedAll(maxBuf, FRESH, Fillers(k - 1)), READ_SIZE);
    }
  }

  lemma OverflowReached(maxBuf: nat) returns (chunks: seq<seq<Byte>>)
    requires maxBuf < MAX_RESIDUE + READ_SIZE
    ensures ReadSized(chunks) && FeedAll(maxBuf, FRESH, chunks).overflowed
  {
    FeedFillers(maxBuf, 7);
    var almost := Fillers(7) + [Filler(MAX_RESIDUE - 7 * READ_SIZE)];
    chunks := almost + [Filler(READ_SIZE)];
    FeedSnoc(maxBuf, Fillers(7), Filler(MAX_RESIDUE - 7 * READ_SIZE));
    FeedSnoc(maxBuf, almost, Filler(READ_SIZE));
    FeedFiller(maxBuf, FeedAll(maxBuf, FRESH, Fillers(7)), MAX_RESIDUE - 7 * READ_SIZE);
  }

  /** The overflow branch is out of reach of every run of socket reads exactly when the limit leaves room for a residue and a read. */
  lemma OverflowIff(maxBuf: nat)
    ensures (forall chunks :: ReadSized(chunks) ==> !FeedAll(maxBuf, FRESH, chunks).overflowed)
       <==> maxBuf >= MAX_RESIDUE + READ_SIZE
  {
    if maxBuf >= MAX_RESIDUE + READ_SIZE {
      forall chunks | ReadSized(chunks) {
        NeverOverflows(maxBuf, chunks);
      }
    } else {
      var chunks := OverflowReached(maxBuf);
    }
  }

  // ----------------------------------------------------------------- conservation

  /** Unless something was dropped, the bytes received are the frames handed on and the remaining buffer. */
  lemma {:induction false} BytesConserved(maxBuf: nat, chunks: seq<seq<Byte>>)
    requires !FeedAll(maxBuf, FRESH, chunks).overflowed && !FeedAll(maxBuf, FRESH, chunks).bad
    ensures var c := FeedAll(maxBuf, FRESH, chunks); Concat(chunks) == Concat(c.frames) + c.buf && AllFrames(c.frames)
  {
    ChunkIndependence(maxBuf, chunks);
    var left := ExtractTiles(Concat(chunks));
  }

  // ------------------------------------------------------------- blobs in frames

  const MAX_BLOB: nat := 65529

  lemma BlobRoundTrip(blob: seq<Byte>, tail: seq<Byte>)
    requires |blob| < TWO16
    ensures DecodeBlob(EncodeBlob(blob) + tail) == Some(blob)
  {
    var payload := EncodeBlob(blob) + tail;
    assert payload == Le16(|blob|) + (blob + tail);
    Le16RoundTrip(|blob|, blob + tail);
    assert payload[2..2 + |blob|] == blob;
  }

  function BlobFrame(msgId: U16, blob: seq<Byte>): seq<Byte> {
    Frame(msgId, EncodeBlob(blob))
  }

  lemma FrameFields(msgId: U16, payload: seq<Byte>)
    ensures var f := Frame(msgId, payload);
      RdLe16(f) == (4 + |payload|) % TWO16 && RdLe16(f[2..]) == msgId && f[4..] == payload
  {
    var f := Frame(msgId, payload);
    Le16RoundTrip((4 + |payload|) % TWO16, f[2..]);
    assert f == Le16((4 + |payload|) % TWO16) + f[2..];
    Le16RoundTrip(msgId, payload);
    assert f[2..] == Le16(msgId) + payload;
  }

  /** What a peer reads off the front of the stream: the first frame's id and blob. */
  function FirstBlob(stream: seq<Byte>): Option<(U16, seq<Byte>)> {
    var e := Extract(stream);
    if e.frames == [] || |e.frames[0]| < 4 then None
    else match DecodeBlob(e.frames[0][4..])
      case Some(blob) => Some((RdLe16(e.frames[0][2..]), blob))
      case None => None
  }

  /** A blob frame is parsed back from any stream it starts, exactly up to 65529 bytes of blob. */
  lemma BlobFrameRoundTrip(msgId: U16, blob: seq<Byte>, tail: seq<Byte>)
    ensures FirstBlob(BlobFrame(msgId, blob) + tail) == Some((msgId, blob)) <==> |blob| <= MAX_BLOB
  {
    var f := BlobFrame(msgId, blob);
    FrameFields(msgId, EncodeBlob(blob));
    if |blob| <= MAX_BLOB {
      ExtractFrame(f, tail);
      BlobRoundTrip(blob, []);
      assert EncodeBlob(blob) + [] == EncodeBlob(blob);
    } else {
      var left := ExtractTiles(f + tail);
      var frames := Extract(f + tail).frames;
      if frames != [] {
        assert IsFrame(frames[0]);
      }
    }
  }
}
