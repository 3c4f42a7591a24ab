/**
 The bus endpoint: it reads one length-prefixed frame from a connection, hands the packet of a Poseidon
 query to its callback, and writes a Poseidon reply.
 */
module QueryServer {
  import opened Wrappers
  import opened Bytes
  import opened BusGrammar
  import opened BusProtocol
  import opened BusTheorems
  import opened BusNormalForm

  const MAX_FRAME: nat := 0x100_0000  // 16 MiB

  /** The bytes of an ASCII literal. */
  function Ascii(s: string): seq<Byte>
    requires forall i | 0 <= i < |s| :: s[i] < 128 as char
  {
    seq(|s|, i requires 0 <= i < |s| => s[i] as int)
  }

  const QUERY_ID := Ascii("Poseidon Query")
  const REPLY_ID := Ascii("Poseidon Reply")
  const PACKET_KEY := Ascii("packet")

  predicate LengthOk(len: nat) {
    6 <= len <= MAX_FRAME
  }

  /** What is handed to the callback for a whole frame, if anything. */
  function Delivery(frame: seq<Byte>): Option<seq<Byte>> {
    match Decoded(frame)
    case Failure(_) => None
    case Success((msg, _)) => QueryPacket(msg)
  }

  function QueryPacket(msg: Message): Option<seq<Byte>> {
    if msg.options == MAP_OPTIONS && msg.messageID == QUERY_ID
       && PACKET_KEY in msg.argsMap && msg.argsMap[PACKET_KEY].typ == BINARY
    then Some(msg.argsMap[PACKET_KEY].bin)
    else None
  }

  function ReplyMessage(payload: seq<Byte>): Message {
    Message(MAP_OPTIONS, REPLY_ID, map[PACKET_KEY := Value(BINARY, payload, 0)], [])
  }

  /** A vector's resize: cut, or filled up with zeros. */
  function Resized(b: seq<Byte>, n: nat): (r: seq<Byte>)
    ensures |r| == n
  {
    if n <= |b| then b[..n] else b + seq(n - |b|, _ => 0)
  }

  lemma ReplyOrder(payload: seq<Byte>)
    ensures IsOrder([PACKET_KEY], ReplyMessage(payload).argsMap)
  {
  }

  lemma ReplyEncodable(payload: seq<Byte>)
    ensures var r := Encoded(ReplyMessage(payload), [PACKET_KEY]);
      r.Success? == (|payload| <= MAX_VALUE) && (r.Failure? ==> r.error == ValueTooLarge)
  {
    var m := ReplyMessage(payload);
    ReplyOrder(payload);
    EncodeIffEncodable(m, [PACKET_KEY]);
    assert m.argsMap[PACKET_KEY] == Value(BINARY, payload, 0);
    var es := EntriesOf(m, [PACKET_KEY]);
    assert es[1..] == [] && es[0] == Entry(PACKET_KEY, BINARY, payload);
  }

  /**
   What the server is waiting for on its socket. Served: a frame has been read and no read is outstanding.
   Overlapping: a reply was sent while a read or another write was outstanding.
   */
  datatype Phase = Accepting | ReadingLength | ReadingRest | Served | Replying | Overlapping

  class Server {
    var phase: Phase
    var hdr: seq<Byte>
    var frame: seq<Byte>

    /** The frames written. */
    ghost var written: seq<seq<Byte>>

    ghost predicate Valid()
      reads this
    {
      phase == ReadingRest ==> |hdr| == 4 && LengthOk(RdBe32(hdr)) && |frame| == RdBe32(hdr) && frame[..4] == hdr
    }

    constructor ()
      ensures Valid() && phase == Accepting && hdr == [0, 0, 0, 0] && written == []
    {
      phase, hdr, frame := Accepting, [0, 0, 0, 0], [];
      written := [];
    }

    /** A failed accept is retried. */
    method OnAccept(ok: bool)
      requires Valid() && phase == Accepting
      modifies this`phase
      ensures Valid() && phase == if ok then ReadingLength else Accepting
    {
      if ok {
        phase := ReadingLength;
      }
    }

    /** The four length bytes, or an error or short read. */
    method OnLength(bytes: Option<seq<Byte>>)
      requires Valid() && phase == ReadingLength && (bytes.Some? ==> |bytes.value| == 4)
      modifies this`phase, this`hdr, this`frame
      ensures Valid()
      ensures phase == if bytes.Some? && 6 <= RdBe32(bytes.value) <= 16 * 1024 * 1024 then ReadingRest else Accepting
      ensures phase == ReadingRest ==> hdr == bytes.value
    {
      if bytes.None? {
        phase := Accepting;
        return;
      }
      hdr := bytes.value;
      var len := RdBe32(hdr);
      if len < 6 || len > MAX_FRAME {
        phase := Accepting;
        return;
      }
      frame := Resized(frame, len);
      frame := hdr + frame[4..];
      phase := ReadingRest;
    }

    /** The rest of the frame, or an error or short read; query is what the callback is called with, if it is called. Neither
        success nor a decoding error arms another read. */
    method OnRest(bytes: Option<seq<Byte>>) returns (query: Option<seq<Byte>>)
      requires Valid() && phase == ReadingRest && (bytes.Some? ==> |bytes.value| == RdBe32(hdr) - 4)
      modifies this`phase, this`frame
      ensures Valid() && phase == if bytes.Some? then Served else Accepting
      ensures bytes.Some? ==> frame == hdr + bytes.value
      ensures query == if bytes.Some? then Delivery(hdr + bytes.value) else None
    {
      if bytes.None? {
        phase := Accepting;
        return None;
      }
      frame := frame[..4] + bytes.value;
      phase := Served;
      var r := Decode(frame);
      if r.Failure? {
        return None;
      }
      var msg := r.value.0;
      if msg.options == MAP_OPTIONS && msg.messageID == QUERY_ID {
        if PACKET_KEY in msg.argsMap && msg.argsMap[PACKET_KEY].typ == BINARY {
          return Some(msg.argsMap[PACKET_KEY].bin);
        }
      }
      return None;
    }

    /** Dropped without a connection; throws when the payload does not fit a bus value. */
    method SendReply(payload: seq<Byte>) returns (error: Option<BusError>)
      requires Valid()
      modifies this`phase, this`written
      ensures Valid()
      ensures error == if old(phase) != Accepting && |payload| > MAX_VALUE then Some(ValueTooLarge) else None
      ensures phase == if old(phase) == Accepting || error.Some? then old(phase)
                       else if old(phase) == Served then Replying else Overlapping
      ensures |payload| <= MAX_VALUE ==> Encoded(ReplyMessage(payload), [PACKET_KEY]).Success?
      ensures written == old(written) +
        if old(phase) != Accepting && error.None? then [Encoded(ReplyMessage(payload), [PACKET_KEY]).value] else []
    {
      ReplyEncodable(payload);
      if phase == Accepting {
        return None;
      }
      ReplyOrder(payload);
      var buf := Encode(ReplyMessage(payload), [PACKET_KEY]);
      if buf.Failure? {
        return Some(buf.error);
      }
      written := written + [buf.value];
      phase := if phase == Served then Replying else Overlapping;
      return None;
    }

    /** Written or failed, the connection is closed and the next one accepted. */
    method OnReplyWritten()
      requires Valid() && phase == Replying
      modifies this`phase
      ensures Valid() && phase == Accepting
    {
      phase := Accepting;
    }
  }

  // -------------------------------------------------------------------- end to end

  /**
   A query that a client encodes, in whatever order its map is visited and with whatever other arguments,
   is accepted and delivered unchanged, exactly if its frame is at most 16 MiB long.
   */
  lemma QueryDelivered(m: Message, order: seq<Key>, bytes: seq<Byte>)
    requires m.options == MAP_OPTIONS && m.messageID == QUERY_ID
    requires PACKET_KEY in m.argsMap && m.argsMap[PACKET_KEY].typ == BINARY
    requires IsOrder(order, m.argsMap) && Encoded(m, order) == Success(bytes) && |bytes| < TWO32
    ensures |bytes| >= 6 && RdBe32(bytes) == |bytes|
    ensures LengthOk(RdBe32(bytes[..4])) <==> |bytes| <= 16 * 1024 * 1024
    ensures Delivery(bytes) == Some(m.argsMap[PACKET_KEY].bin)
  {
    RoundTrip(m, order, bytes, []);
    assert bytes + [] == bytes;
    DecodeIsLocal(bytes, []);
  }

  /** The first entry with the key "packet" is binary and holds the payload. */
  ghost predicate FirstPacketIs(es: seq<Entry>, payload: seq<Byte>) {
    exists i :: 0 <= i < |es| && es[i] == Entry(Ascii("packet"), 0, payload)
             && forall j | 0 <= j < i :: es[j].key != Ascii("packet")
  }

  lemma PacketOfEntries(es: seq<Entry>, mid: seq<Byte>, payload: seq<Byte>)
    ensures QueryPacket(MessageOf(0, mid, es)) == Some(payload) <==> mid == Ascii("Poseidon Query") && FirstPacketIs(es, payload)
  {
    FirstEntryWins(es, PACKET_KEY);
  }

  lemma BodyDelivers(mid: seq<Byte>, body: seq<Byte>, len: nat, payload: seq<Byte>)
    ensures DecodedBody(0, mid, body, len).Success? && QueryPacket(DecodedBody(0, mid, body, len).value.0) == Some(payload) <==>
      && mid == Ascii("Poseidon Query")
      && exists es :: AllPrintable(true, es) && EntriesBytes(true, es) == body && FirstPacketIs(es, payload)
  {
    var r := ParseEntries(true, body);
    if r.Success? {
      PrintOfParse(true, body);
      PacketOfEntries(r.value, mid, payload);
    }
    forall es | AllPrintable(true, es) && EntriesBytes(true, es) == body ensures r == Success(es) {
      ParseOfPrint(true, es);
    }
  }

  /**
   On the wire: a frame makes the callback run, with this payload, exactly if it has options 0 and the MID "Poseidon
   Query", map entries tile its body, and the first entry with the key "packet" is binary and holds the payload.
   */
  lemma DeliveredIff(frame: seq<Byte>, payload: seq<Byte>)
    ensures Delivery(frame) == Some(payload) <==>
      && |frame| >= 6 && 6 + MidLength(frame) <= RdBe32(frame) <= |frame|
      && frame[4] == 0 && frame[6..6 + MidLength(frame)] == Ascii("Poseidon Query")
      && exists es :: AllPrintable(true, es) && EntriesBytes(true, es) == frame[6 + MidLength(frame)..RdBe32(frame)]
                   && FirstPacketIs(es, payload)
  {
    if HeaderOk(frame) && frame[4] == 0 {
      var start := 6 + MidLength(frame);
      var mid, body := frame[6..start], frame[start..RdBe32(frame)];
      assert Decoded(frame) == DecodedBody(0, mid, body, RdBe32(frame));
      BodyDelivers(mid, body, RdBe32(frame), payload);
    }
  }

  /** The frame the server assembles is consumed as a whole whenever it decodes. */
  lemma WholeFrameConsumed(hdr: seq<Byte>, rest: seq<Byte>)
    requires |hdr| == 4 && LengthOk(RdBe32(hdr)) && |rest| == RdBe32(hdr) - 4
    ensures Decoded(hdr + rest).Success? ==> Decoded(hdr + rest).value.1 == |hdr + rest|
  {
    assert RdBe32(hdr + rest) == RdBe32(hdr);
    DecodeIsLocal(hdr + rest, []);
  }

  lemma ReplyEntries(payload: seq<Byte>)
    ensures EntriesOf(ReplyMessage(payload), [PACKET_KEY]) == [Entry(PACKET_KEY, BINARY, payload)]
    ensures TotalSize(true, [Entry(PACKET_KEY, BINARY, payload)]) == 1 + |PACKET_KEY| + 4 + |payload|
    ensures Normal(ReplyMessage(payload)) == ReplyMessage(payload)
  {
    assert [Entry(PACKET_KEY, BINARY, payload)][1..] == [];
  }

  /** The peer decodes a reply to the Poseidon reply with the payload, whatever it reads after it. */
  lemma ReplyDecoded(payload: seq<Byte>, bytes: seq<Byte>, tail: seq<Byte>)
    requires Encoded(ReplyMessage(payload), [PACKET_KEY]) == Success(bytes)
    ensures Decoded(bytes + tail) == Success((ReplyMessage(payload), |bytes|))
  {
    ReplyOrder(payload);
    ReplyEncodable(payload);
    ReplyEntries(payload);
    EncodeIffEncodable(ReplyMessage(payload), [PACKET_KEY]);
    EncodedLength(ReplyMessage(payload), [PACKET_KEY]);
    RoundTrip(ReplyMessage(payload), [PACKET_KEY], bytes, tail);
  }
}
