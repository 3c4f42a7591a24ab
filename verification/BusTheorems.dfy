/**
 What the bus codec is for: decoding undoes encoding whatever order the map is visited in and
 whatever follows in the buffer, acceptance is membership in the grammar, and what decoding
 returns is a normal form that can always be encoded again.
 */
module BusTheorems {
  import opened Wrappers
  import opened Bytes
  import opened BusGrammar
  import opened BusProtocol

  // ------------------------------------------------------------ what is encodable

  predicate EncodableValue(v: Value) {
    Raw(v.typ) ==> |v.bin| <= MAX_VALUE
  }

  predicate Encodable(m: Message) {
    && |m.messageID| <= 255
    && m.options in {MAP_OPTIONS, ARRAY_OPTIONS}
    && (m.options == MAP_OPTIONS ==> forall k | k in m.argsMap :: |k| <= 255 && EncodableValue(m.argsMap[k]))
    && (m.options == ARRAY_OPTIONS ==> forall i | 0 <= i < |m.argsArray| :: EncodableValue(m.argsArray[i]))
  }

  lemma {:induction false} EncodedEntriesIffPrintable(keyed: bool, es: seq<Entry>)
    ensures EncodedEntries(keyed, es).Success? <==> AllPrintable(keyed, es)
    ensures AllPrintable(keyed, es) ==> EncodedEntries(keyed, es).value == EntriesBytes(keyed, es)
  {
    if es != [] {
      EncodedEntriesIffPrintable(keyed, es[1..]);
      if Printable(keyed, es[0]) && AllPrintable(keyed, es[1..]) {
        assert es == [es[0]] + es[1..];
      }
    }
  }

  lemma FromValuePrintable(keyed: bool, key: Key, v: Value)
    requires !keyed ==> key == []
    ensures Printable(keyed, FromValue(key, v)) <==> (keyed ==> |key| <= 255) && EncodableValue(v)
  {
    MinBeLength64(v.u);
  }

  lemma EntriesPrintable(m: Message, order: seq<Key>)
    requires IsOrder(order, m.argsMap)
    requires |m.messageID| <= 255 && m.options in {MAP_OPTIONS, ARRAY_OPTIONS}
    ensures AllPrintable(m.options == MAP_OPTIONS, EntriesOf(m, order)) <==> Encodable(m)
  {
    var keyed, es := m.options == MAP_OPTIONS, EntriesOf(m, order);
    if keyed {
      forall i | 0 <= i < |order| {
        FromValuePrintable(true, order[i], m.argsMap[order[i]]);
      }
      if AllPrintable(keyed, es) {
        forall k | k in m.argsMap ensures |k| <= 255 && EncodableValue(m.argsMap[k]) {
          var i :| 0 <= i < |order| && order[i] == k;
          assert Printable(keyed, es[i]);
        }
      }
    } else {
      forall i | 0 <= i < |es| ensures Printable(false, es[i]) <==> EncodableValue(m.argsArray[i]) {
        FromValuePrintable(false, [], m.argsArray[i]);
      }
    }
  }

  /** Encoding throws for exactly the messages that are not Encodable, in every iteration order. */
  lemma EncodeIffEncodable(m: Message, order: seq<Key>)
    requires IsOrder(order, m.argsMap)
    ensures Encoded(m, order).Success? <==> Encodable(m)
  {
    if |m.messageID| <= 255 && m.options in {MAP_OPTIONS, ARRAY_OPTIONS} {
      EncodedEntriesIffPrintable(m.options == MAP_OPTIONS, EntriesOf(m, order));
      EntriesPrintable(m, order);
    }
  }

  // ------------------------------------------------------------------ round trip

  /** A message with the fields its options and tags do not use cleared. */
  function Normal(m: Message): Message {
    if m.options == MAP_OPTIONS then
      m.(argsMap := map k | k in m.argsMap :: NormalValue(m.argsMap[k]), argsArray := [])
    else
      m.(argsMap := map[],
         argsArray := seq(|m.argsArray|, i requires 0 <= i < |m.argsArray| => NormalValue(m.argsArray[i])))
  }

  lemma {:induction false} ArgsMapOfEntries(m: map<Key, Value>, order: seq<Key>)
    requires forall k | k in order :: k in m
    requires forall i, j | 0 <= i < j < |order| :: order[i] != order[j]
    ensures ArgsMap(MapEntries(m, order)) == map k | k in m && k in order :: NormalValue(m[k])
  {
    var es := MapEntries(m, order);
    if order != [] {
      var init, last := order[..|order| - 1], order[|order| - 1];
      assert es[..|es| - 1] == MapEntries(m, init);
      ArgsMapOfEntries(m, init);
      ToValueOfFromValue(last, m[last]);
      assert last !in init;
    }
  }

  lemma MessageOfEntries(m: Message, order: seq<Key>)
    requires IsOrder(order, m.argsMap) && m.options in {MAP_OPTIONS, ARRAY_OPTIONS}
    ensures MessageOf(m.options, m.messageID, EntriesOf(m, order)) == Normal(m)
  {
    if m.options == MAP_OPTIONS {
      ArgsMapOfEntries(m.argsMap, order);
    } else {
      var es := ArrayEntries(m.argsArray);
      forall i | 0 <= i < |es| ensures ArgsArray(es)[i] == NormalValue(m.argsArray[i]) {
        ToValueOfFromValue([], m.argsArray[i]);
      }
    }
  }

  /** A whole frame and whatever follows it. */
  function Frame(options: Byte, mid: seq<Byte>, body: seq<Byte>, tail: seq<Byte>): seq<Byte>
    requires |mid| <= 255
  {
    Header(6 + |mid| + |body|, options, mid) + body + tail
  }

  /** Four bytes, two bytes, and the rest. */
  lemma Head<T>(len: seq<T>, x: T, y: T, mid: seq<T>, body: seq<T>, tail: seq<T>)
    requires |len| == 4
    ensures var data := len + [x, y] + mid + body + tail;
      && |data| == 6 + |mid| + |body| + |tail| && data[4] == x && data[5] == y
      && data == len + ([x, y] + mid + body + tail)
  {
  }

  lemma FrameHead(options: Byte, mid: seq<Byte>, body: seq<Byte>, tail: seq<Byte>)
    requires |mid| <= 255 && 6 + |mid| + |body| < TWO32
    ensures var data, len := Frame(options, mid, body, tail), 6 + |mid| + |body|;
      |data| == len + |tail| && RdBe32(data) == len && data[4] == options && MidLength(data) == |mid|
  {
    var len := 6 + |mid| + |body|;
    Head(Be32(len), options, |mid| as Byte, mid, body, tail);
    Be32RoundTrip(len, [options, |mid|] + mid + body + tail);
  }

  lemma FrameParts(options: Byte, mid: seq<Byte>, body: seq<Byte>, tail: seq<Byte>)
    requires |mid| <= 255
    ensures var data, len := Frame(options, mid, body, tail), 6 + |mid| + |body|;
      data[6..6 + |mid|] == mid && data[6 + |mid|..len] == body
  {
    var start := Be32(6 + |mid| + |body|) + [options, |mid|];
    assert Frame(options, mid, body, tail) == start + mid + (body + tail);
    Middle(start, mid, body + tail);
    Middle(start + mid, body, tail);
  }

  lemma Middle<T>(a: seq<T>, b: seq<T>, c: seq<T>)
    ensures (a + b + c)[|a|..|a| + |b|] == b
  {
  }

  lemma DecodedFrame(options: Byte, mid: seq<Byte>, body: seq<Byte>, tail: seq<Byte>)
    requires |mid| <= 255 && 6 + |mid| + |body| < TWO32 && options in {MAP_OPTIONS, ARRAY_OPTIONS}
    ensures Decoded(Frame(options, mid, body, tail)) == DecodedBody(options, mid, body, 6 + |mid| + |body|)
  {
    FrameHead(options, mid, body, tail);
    FrameParts(options, mid, body, tail);
  }

  lemma EncodedIsFrame(m: Message, order: seq<Key>)
    requires IsOrder(order, m.argsMap) && Encodable(m)
    ensures AllPrintable(m.options == MAP_OPTIONS, EntriesOf(m, order))
    ensures var body := EntriesBytes(m.options == MAP_OPTIONS, EntriesOf(m, order));
      Encoded(m, order) == Success(Header(6 + |m.messageID| + |body|, m.options, m.messageID) + body)
  {
    EntriesPrintable(m, order);
    EncodedEntriesIffPrintable(m.options == MAP_OPTIONS, EntriesOf(m, order));
  }

  lemma DecodedEntries(options: Byte, mid: seq<Byte>, es: seq<Entry>, bytes: seq<Byte>, tail: seq<Byte>)
    requires |mid| <= 255 && options in {MAP_OPTIONS, ARRAY_OPTIONS} && AllPrintable(options == MAP_OPTIONS, es)
    requires var body := EntriesBytes(options == MAP_OPTIONS, es); bytes == Header(6 + |mid| + |body|, options, mid) + body
    requires |bytes| < TWO32
    ensures Decoded(bytes + tail) == Success((MessageOf(options, mid, es), |bytes|))
  {
    DecodedFrame(options, mid, EntriesBytes(options == MAP_OPTIONS, es), tail);
    BodyOfEntries(options, mid, es, |bytes|);
  }

  lemma BodyOfEntries(options: Byte, mid: seq<Byte>, es: seq<Entry>, len: nat)
    requires AllPrintable(options == MAP_OPTIONS, es)
    ensures DecodedBody(options, mid, EntriesBytes(options == MAP_OPTIONS, es), len) == Success((MessageOf(options, mid, es), len))
  {
    ParseOfPrint(options == MAP_OPTIONS, es);
  }

  lemma DecodedEncoding(m: Message, order: seq<Key>, bytes: seq<Byte>, tail: seq<Byte>)
    requires IsOrder(order, m.argsMap) && Encodable(m)
    requires Encoded(m, order) == Success(bytes) && |bytes| < TWO32
    ensures Decoded(bytes + tail) == Success((Normal(m), |bytes|))
  {
    EncodedIsFrame(m, order);
    DecodedEntries(m.options, m.messageID, EntriesOf(m, order), bytes, tail);
    MessageOfEntries(m, order);
  }

  lemma ConsumedBelow32(data: seq<Byte>)
    ensures Decoded(data).Success? ==> 6 <= Decoded(data).value.1 <= |data| && Decoded(data).value.1 < TWO32
  {
  }

  /**
   Decoding an encoded message, with any bytes after it, gives the message back in normal form and
   stops at its end. This holds exactly for encodings shorter than 2^32 bytes: the length field of a
   longer one has wrapped.
   */
  lemma RoundTrip(m: Message, order: seq<Key>, bytes: seq<Byte>, tail: seq<Byte>)
    requires IsOrder(order, m.argsMap)
    requires Encoded(m, order) == Success(bytes)
    ensures |bytes| < TWO32 <==> Decoded(bytes + tail) == Success((Normal(m), |bytes|))
  {
    if |bytes| < TWO32 {
      EncodeIffEncodable(m, order);
      DecodedEncoding(m, order, bytes, tail);
    } else {
      ConsumedBelow32(bytes + tail);
    }
  }

  // ---------------------------------------------------------------- what is accepted

  predicate HeaderOk(data: seq<Byte>) {
    && |data| >= 6
    && 6 + MidLength(data) <= RdBe32(data) <= |data|
    && data[4] in {MAP_OPTIONS, ARRAY_OPTIONS}
  }

  /** Decoding succeeds exactly when whole entries of the declared form tile what follows the MID. */
  lemma DecodeIffTiled(data: seq<Byte>)
    ensures Decoded(data).Success? <==>
      && HeaderOk(data)
      && var keyed := data[4] == MAP_OPTIONS;
         exists es :: AllPrintable(keyed, es)
                   && EntriesBytes(keyed, es) == data[6 + MidLength(data)..RdBe32(data)]
  {
    if HeaderOk(data) {
      ParseIffTiles(data[4] == MAP_OPTIONS, data[6 + MidLength(data)..RdBe32(data)]);
    }
  }

  /** Nothing behind the declared length has any influence on the result. */
  lemma DecodeIsLocal(data: seq<Byte>, tail: seq<Byte>)
    requires |data| >= 6 && RdBe32(data) <= |data|
    ensures Decoded(data + tail) == Decoded(data)
    ensures Decoded(data).Success? ==> 6 <= Decoded(data).value.1 == RdBe32(data)
  {
    var start := 6 + MidLength(data);
    if start <= RdBe32(data) {
      assert (data + tail)[6..start] == data[6..start];
      assert (data + tail)[start..RdBe32(data)] == data[start..RdBe32(data)];
    }
  }

  // ------------------------------------------------------------------- the layout

  lemma EntriesOnTheWire(keyed: bool, e: Entry, es: seq<Entry>)
    requires Printable(keyed, e) && EncodedEntries(keyed, es).Success?
    ensures EncodedEntries(keyed, [e] + es) == Success(EntryBytes(keyed, e) + EncodedEntries(keyed, es).value)
  {
    assert ([e] + es)[1..] == es;
  }

  /** A message on the wire: length, options, MID, and an entry with its length-prefixed key, tag, length and bytes. */
  lemma MapOnTheWire()
    ensures Encoded(Message(0, [0x41, 0x42], map[[0x6B] := Value(0, [0xAA, 0xBB], 0)], []), [[0x6B]])
         == Success([0, 0, 0, 16, 0, 2, 0x41, 0x42, 1, 0x6B, 0, 0, 0, 2, 0xAA, 0xBB])
  {
    var key: Key := [0x6B];
    var e := Entry(key, 0, [0xAA, 0xBB]);
    var m := Message(0, [0x41, 0x42], map[key := Value(0, [0xAA, 0xBB], 0)], []);
    assert EntriesOf(m, [key]) == [e] + [];
    EntriesOnTheWire(true, e, []);
    assert KeyBytes(true, e) == [1, 0x6B] && Be24(2) == [0, 0, 2];
    var body: seq<Byte> := [1, 0x6B, 0, 0, 0, 2, 0xAA, 0xBB];
    assert EntryBytes(true, e) + [] == body;
    assert EncodedEntries(true, EntriesOf(m, [key])) == Success(body);
    assert Header(16, 0, [0x41, 0x42]) == [0, 0, 0, 16, 0, 2, 0x41, 0x42];
    assert Header(16, 0, [0x41, 0x42]) + body == [0, 0, 0, 16, 0, 2, 0x41, 0x42, 1, 0x6B, 0, 0, 0, 2, 0xAA, 0xBB];
  }

  lemma ArrayBody(e: Entry, f: Entry)
    requires e == Entry([], 2, [0x01, 0x02]) && f == Entry([], 1, [0xAA])
    ensures EncodedEntries(false, [e] + ([f] + [])) == Success([2, 0, 0, 2, 0x01, 0x02, 1, 0, 0, 1, 0xAA])
  {
    EntriesOnTheWire(false, f, []);
    EntriesOnTheWire(false, e, [f] + []);
    assert Be24(2) == [0, 0, 2] && Be24(1) == [0, 0, 1];
    assert EntryBytes(false, e) == [2, 0, 0, 2, 0x01, 0x02] && EntryBytes(false, f) == [1, 0, 0, 1, 0xAA];
    var body: seq<Byte> := [2, 0, 0, 2, 0x01, 0x02, 1, 0, 0, 1, 0xAA];
    assert EntryBytes(false, e) + (EntryBytes(false, f) + []) == body;
  }

  /** Array entries have no key; a number has only the digits it needs. */
  lemma ArrayOnTheWire()
    ensures Encoded(Message(1, [], map[], [Value(2, [], 0x0102), Value(1, [0xAA], 0)]), [])
         == Success([0, 0, 0, 17, 1, 0, 2, 0, 0, 2, 0x01, 0x02, 1, 0, 0, 1, 0xAA])
  {
    var m := Message(1, [], map[], [Value(2, [], 0x0102), Value(1, [0xAA], 0)]);
    var e, f := Entry([], 2, [0x01, 0x02]), Entry([], 1, [0xAA]);
    assert MinBe(0x01) == [0x01] && MinBe(0x0102) == MinBe(0x01) + [0x02] == [0x01, 0x02];
    assert EntriesOf(m, [])[0] == e && EntriesOf(m, [])[1] == f;
    assert EntriesOf(m, []) == [e] + ([f] + []);
    ArrayBody(e, f);
    var body: seq<Byte> := [2, 0, 0, 2, 0x01, 0x02, 1, 0, 0, 1, 0xAA];
    assert Header(17, 1, []) == [0, 0, 0, 17, 1, 0];
    assert Header(17, 1, []) + body == [0, 0, 0, 17, 1, 0, 2, 0, 0, 2, 0x01, 0x02, 1, 0, 0, 1, 0xAA];
  }

  // ------------------------------------------------------------ the meaning of args_map

  /** A key maps to the value of the first entry that has it. */
  lemma {:induction false} FirstEntryWins(es: seq<Entry>, k: Key)
    ensures k in ArgsMap(es) <==> exists i :: 0 <= i < |es| && es[i].key == k
    ensures k in ArgsMap(es) ==>
      exists i :: 0 <= i < |es| && es[i].key == k && ArgsMap(es)[k] == ToValue(es[i])
               && forall j | 0 <= j < i :: es[j].key != k
  {
    if es != [] {
      var init, last := es[..|es| - 1], es[|es| - 1];
      FirstEntryWins(init, k);
      if k in ArgsMap(init) {
        var i :| 0 <= i < |init| && init[i].key == k && ArgsMap(init)[k] == ToValue(init[i])
              && forall j | 0 <= j < i :: init[j].key != k;
        assert es[i].key == k;
        assert forall j | 0 <= j < i :: es[j] == init[j];
      } else if last.key == k {
        assert es[|es| - 1].key == k;
        assert forall j | 0 <= j < |init| :: es[j] == init[j];
      }
    }
  }

  // ------------------------------------------------------------ the meaning of a value

  /** Binary and string values are their bytes. */
  lemma RawValueIsItsBytes(key: Key, typ: Byte, payload: seq<Byte>)
    ensures typ == 0 || typ == 1 ==> ToValue(Entry(key, typ, payload)) == Value(typ, payload, 0)
  {
  }

  function Integer(typ: Byte, payload: seq<Byte>): U64 {
    ToValue(Entry([], typ, payload)).u
  }

  /** Under every other tag a value is a number: no digits are zero, and one more digit shifts in a byte on 64 bits. */
  lemma IntegerDigits(typ: Byte, payload: seq<Byte>, digit: Byte)
    requires typ != 0 && typ != 1
    ensures Integer(typ, []) == 0
    ensures Integer(typ, payload + [digit]) == (Integer(typ, payload) * 256 + digit) % 0x1_0000_0000_0000_0000
    ensures ToValue(Entry([], typ, payload)).typ == typ && ToValue(Entry([], typ, payload)).bin == []
  {
    var v := BeValue(payload);
    assert (payload + [digit])[..|payload|] == payload;
    var q, r := v / TWO64, v % TWO64;
    Remainder64(v * 256 + digit, 256 * q + (r * 256 + digit) / TWO64, (r * 256 + digit) % TWO64);
  }

  lemma {:induction false} LeadingZeros(typ: Byte, payload: seq<Byte>)
    requires typ != 0 && typ != 1
    ensures Integer(typ, [0] + payload) == Integer(typ, payload)
  {
    BeValueLeadingZero(payload);
  }

  /** Of a number with more than eight digits, only the last eight count. */
  lemma LastEightDigits(typ: Byte, front: seq<Byte>, eight: seq<Byte>)
    requires typ != 0 && typ != 1 && |eight| == 8
    ensures Integer(typ, front + eight) == Integer(typ, eight)
  {
    BeValueSplit(front, eight);
    assert Pow256(4) == TWO32;
    assert Pow256(8) == 256 * (256 * (256 * (256 * Pow256(4)))) == TWO64;
    BeValueBelow(eight);
    Remainder64(BeValue(front + eight), BeValue(front), BeValue(eight));
  }
}
