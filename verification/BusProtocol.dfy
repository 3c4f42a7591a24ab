/**
 The bus codec: messages, their encoding and their decoding.

 Encoded and Decoded say what the codec computes, in terms of the grammar of BusGrammar;
 Encode and Decode are the source's loops and are proved to compute exactly that.
 */
module BusProtocol {
  import opened Wrappers
  import opened Bytes
  import opened BusGrammar

  const BINARY: Byte := 0
  const STRING: Byte := 1

  const MAP_OPTIONS: Byte := 0
  const ARRAY_OPTIONS: Byte := 1

  /** typ is any byte: the decoder casts whatever tag it reads, and all but the two above are integers. */
  datatype Value = Value(typ: Byte, bin: seq<Byte>, u: U64)

  datatype Message = Message(
    options: Byte,
    messageID: seq<Byte>,
    argsMap: map<Key, Value>,
    argsArray: seq<Value>)

  predicate Raw(typ: Byte) {
    typ == STRING || typ == BINARY
  }

  // ------------------------------------------------- values and their wire form

  function FromValue(key: Key, v: Value): Entry {
    Entry(key, v.typ, if Raw(v.typ) then v.bin else MinBe(v.u))
  }

  function ToValue(e: Entry): Value {
    if Raw(e.typ) then Value(e.typ, e.payload, 0)
    else Value(e.typ, [], BeValue(e.payload) % TWO64)
  }

  /** A value with the field its tag does not use cleared. */
  function NormalValue(v: Value): Value {
    if Raw(v.typ) then v.(u := 0) else v.(bin := [])
  }

  lemma ToValueOfFromValue(key: Key, v: Value)
    ensures ToValue(FromValue(key, v)) == NormalValue(v)
  {
    MinBeValue(v.u);
  }

  // -------------------------------------------------------------------- encoding

  /** An iteration order of an unordered map: every key, once. */
  ghost predicate IsOrder(order: seq<Key>, m: map<Key, Value>) {
    && (forall i, j | 0 <= i < j < |order| :: order[i] != order[j])
    && (forall k :: k in order <==> k in m)
  }

  function MapEntries(m: map<Key, Value>, order: seq<Key>): (es: seq<Entry>)
    requires forall k | k in order :: k in m
    ensures |es| == |order|
  {
    seq(|order|, i requires 0 <= i < |order| => FromValue(order[i], m[order[i]]))
  }

  function ArrayEntries(vs: seq<Value>): (es: seq<Entry>)
    ensures |es| == |vs|
  {
    seq(|vs|, i requires 0 <= i < |vs| => FromValue([], vs[i]))
  }

  /** What the encoder throws at an entry that its length fields cannot describe: the key is tested first. */
  function PrintError(keyed: bool, e: Entry): BusError {
    if !keyed then ArrayValueTooLarge
    else if |e.key| > 255 then KeyTooLong
    else ValueTooLarge
  }

  function EncodedEntries(keyed: bool, es: seq<Entry>): Result<seq<Byte>, BusError> {
    if es == [] then Success([])
    else if !Printable(keyed, es[0]) then Failure(PrintError(keyed, es[0]))
    else
      var rest :- EncodedEntries(keyed, es[1..]);
      Success(EntryBytes(keyed, es[0]) + rest)
  }

  function EntriesOf(m: Message, order: seq<Key>): seq<Entry>
    requires forall k | k in order :: k in m.argsMap
  {
    if m.options == MAP_OPTIONS then MapEntries(m.argsMap, order) else ArrayEntries(m.argsArray)
  }

  function Header(len: nat, options: Byte, mid: seq<Byte>): (h: seq<Byte>)
    requires |mid| <= 255
    ensures |h| == 6 + |mid|
  {
    Be32(len) + [options, |mid|] + mid
  }

  /** The bytes of a message whose map is visited in the given order; the length field wraps at 2^32. */
  function Encoded(m: Message, order: seq<Key>): Result<seq<Byte>, BusError>
    requires forall k | k in order :: k in m.argsMap
  {
    if |m.messageID| > 255 then Failure(MidTooLong)
    else if m.options != MAP_OPTIONS && m.options != ARRAY_OPTIONS then Failure(BadOptions)
    else
      var body :- EncodedEntries(m.options == MAP_OPTIONS, EntriesOf(m, order));
      Success(Header(6 + |m.messageID| + |body|, m.options, m.messageID) + body)
  }

  /** The do-while loop that fills tmp from its end, least significant byte first. */
  method EncodeUInt(u: U64) returns (bytes: seq<Byte>)
    ensures bytes == MinBe(u)
  {
    MinBeLength64(u);
    var tmp := new Byte[8];
    var n := 1;
    tmp[7] := u % 256;
    var x: nat := u / 256;
    ghost var done: seq<Byte> := [u % 256];
    while x != 0 && n < 8
      invariant 1 <= n <= 8 && |done| == n
      invariant tmp[8 - n..] == done
      invariant Written(u, x, done)
    {
      ghost var before := x;
      var digit: Byte := x % 256;
      x := x / 256;
      WrittenStep(u, before, done, x, digit);
      tmp[7 - n] := digit;
      done := [digit] + done;
      n := n + 1;
    }
    bytes := tmp[8 - n..8];
    assert bytes == tmp[8 - n..];
  }

  /** Loop invariant of EncodeUInt: done are the last bytes of u, and x is what is left in front of them. */
  ghost predicate Written(u: nat, x: nat, done: seq<Byte>) {
    MinBe(u) == if x == 0 then done else MinBe(x) + done
  }

  lemma WrittenStep(u: nat, x: nat, done: seq<Byte>, x': nat, digit: Byte)
    requires x != 0 && Written(u, x, done) && x' == x / 256 && digit == x % 256
    ensures Written(u, x', [digit] + done)
  {
    if x >= 256 {
      assert MinBe(x') + [digit] + done == MinBe(x') + ([digit] + done);
    }
  }

  method Encode(m: Message, order: seq<Key>) returns (r: Result<seq<Byte>, BusError>)
    requires IsOrder(order, m.argsMap)
    ensures r == Encoded(m, order)
  {
    if |m.messageID| > 255 {
      return Failure(MidTooLong);
    }
    if m.options != 0 && m.options != 1 {
      return Failure(BadOptions);
    }

    // The length is patched once everything else is in place.
    var out: seq<Byte> := Be32(0);
    out := out + [m.options];
    out := out + [|m.messageID|];
    out := out + m.messageID;

    var body;
    if m.options == 0 {
      body := EncodeMap(m.argsMap, order);
    } else {
      body := EncodeArray(m.argsArray);
    }
    if body.Failure? {
      return body;
    }
    out := out + body.value;
    out := PatchLength(out);
    HeaderPatched(|out|, m.options, m.messageID, body.value);
    return Success(out);
  }

  lemma HeaderPatched(len: nat, options: Byte, mid: seq<Byte>, body: seq<Byte>)
    requires |mid| <= 255
    ensures Be32(len) + (Be32(0) + [options] + [|mid|] + mid + body)[4..] == Header(len, options, mid) + body
  {
    assert (Be32(0) + [options] + [|mid|] + mid + body)[4..] == [options, |mid|] + mid + body;
  }

  /** Writes the total length over the first four bytes, truncated to 32 bits. */
  method PatchLength(frame: seq<Byte>) returns (out: seq<Byte>)
    requires |frame| >= 4
    ensures out == Be32(|frame|) + frame[4..]
  {
    var len := |frame| % TWO32;
    out := frame[0 := len / 0x100_0000 % 256];
    out := out[1 := len / 0x1_0000 % 256];
    out := out[2 := len / 0x100 % 256];
    out := out[3 := len % 256];
    Be32Wraps(|frame|);
    assert out == Be32(len) + frame[4..];
  }

  method EncodeMap(argsMap: map<Key, Value>, order: seq<Key>) returns (r: Result<seq<Byte>, BusError>)
    requires forall k | k in order :: k in argsMap
    ensures r == EncodedEntries(true, MapEntries(argsMap, order))
  {
    var out: seq<Byte> := [];
    ghost var es := MapEntries(argsMap, order);
    RemainingInit(true, es);
    var i := 0;
    while i < |order|
      invariant 0 <= i <= |order|
      invariant Remaining(true, es, i, out)
    {
      var k, v := order[i], argsMap[order[i]];
      ghost var before := out;
      if |k| > 255 {
        return Failure(KeyTooLong);
      }
      out := out + [|k|];
      out := out + k;
      if Raw(v.typ) && |v.bin| > MAX_VALUE {
        return Failure(ValueTooLarge);
      }
      var bytes := EncodeValue(v);
      out := out + bytes;
      assert out == before + EntryBytes(true, es[i]);
      RemainingStep(true, es, i, before, out);
      i := i + 1;
    }
    RemainingDone(true, es, out);
    return Success(out);
  }

  method EncodeArray(argsArray: seq<Value>) returns (r: Result<seq<Byte>, BusError>)
    ensures r == EncodedEntries(false, ArrayEntries(argsArray))
  {
    var out: seq<Byte> := [];
    ghost var es := ArrayEntries(argsArray);
    RemainingInit(false, es);
    var i := 0;
    while i < |argsArray|
      invariant 0 <= i <= |argsArray|
      invariant Remaining(false, es, i, out)
    {
      var v := argsArray[i];
      ghost var before := out;
      if Raw(v.typ) && |v.bin| > MAX_VALUE {
        return Failure(ArrayValueTooLarge);
      }
      var bytes := EncodeValue(v);
      out := out + bytes;
      assert out == before + EntryBytes(false, es[i]);
      RemainingStep(false, es, i, before, out);
      i := i + 1;
    }
    RemainingDone(false, es, out);
    return Success(out);
  }

  /** The type tag, the length and the bytes of one value. */
  method EncodeValue(v: Value) returns (out: seq<Byte>)
    requires Raw(v.typ) ==> |v.bin| <= MAX_VALUE
    ensures var e := FromValue([], v); Printable(false, e) && out == EntryBytes(false, e)
  {
    out := [v.typ];
    if v.typ == STRING || v.typ == BINARY {
      out := out + Be24(|v.bin|);
      out := out + v.bin;
    } else {
      MinBeLength64(v.u);
      var digits := EncodeUInt(v.u);
      out := out + Be24(|digits|);
      out := out + digits;
    }
  }

  /** Loop invariant of the encoders: body is the encoding of the first i entries. */
  ghost predicate Remaining(keyed: bool, es: seq<Entry>, i: nat, body: seq<Byte>)
    requires i <= |es|
  {
    EncodedEntries(keyed, es) == match EncodedEntries(keyed, es[i..])
      case Success(rest) => Success(body + rest)
      case Failure(e) => Failure(e)
  }

  lemma RemainingInit(keyed: bool, es: seq<Entry>)
    ensures Remaining(keyed, es, 0, [])
  {
    assert es[0..] == es;
    if EncodedEntries(keyed, es).Success? {
      assert [] + EncodedEntries(keyed, es).value == EncodedEntries(keyed, es).value;
    }
  }

  lemma RemainingStep(keyed: bool, es: seq<Entry>, i: nat, body: seq<Byte>, body': seq<Byte>)
    requires i < |es| && Remaining(keyed, es, i, body)
    requires Printable(keyed, es[i]) && body' == body + EntryBytes(keyed, es[i])
    ensures Remaining(keyed, es, i + 1, body')
  {
    assert es[i..][1..] == es[i + 1..];
    var rest := EncodedEntries(keyed, es[i + 1..]);
    if rest.Success? {
      assert body + (EntryBytes(keyed, es[i]) + rest.value) == body' + rest.value;
    }
  }

  lemma RemainingDone(keyed: bool, es: seq<Entry>, body: seq<Byte>)
    requires Remaining(keyed, es, |es|, body)
    ensures EncodedEntries(keyed, es) == Success(body)
  {
    assert es[|es|..] == [];
    assert body + [] == body;
  }

  // -------------------------------------------------------------------- decoding

  /** The map of the entries, in order: emplace keeps the value a key already has. */
  function ArgsMap(es: seq<Entry>): map<Key, Value> {
    if es == [] then map[]
    else
      var m, e := ArgsMap(es[..|es| - 1]), es[|es| - 1];
      if e.key in m then m else m[e.key := ToValue(e)]
  }

  function ArgsArray(es: seq<Entry>): seq<Value> {
    seq(|es|, i requires 0 <= i < |es| => ToValue(es[i]))
  }

  function MessageOf(options: Byte, mid: seq<Byte>, es: seq<Entry>): Message {
    if options == MAP_OPTIONS then Message(options, mid, ArgsMap(es), [])
    else Message(options, mid, map[], ArgsArray(es))
  }

  /** The message at the front of the buffer and the number of bytes it takes up, or what the decoder throws. */
  function Decoded(data: seq<Byte>): Result<(Message, nat), BusError> {
    if |data| < 6 then Failure(BufferTooSmall)
    else if RdBe32(data) > |data| then Failure(IncompleteFrame)
    else if 6 + MidLength(data) > RdBe32(data) then Failure(BadMidLength)
    else if data[4] != MAP_OPTIONS && data[4] != ARRAY_OPTIONS then Failure(InvalidOptions)
    else
      var len, start := RdBe32(data), 6 + MidLength(data);
      DecodedBody(data[4], data[6..start], data[start..len], len)
  }

  function DecodedBody(options: Byte, mid: seq<Byte>, body: seq<Byte>, len: nat): Result<(Message, nat), BusError> {
    match ParseEntries(options == MAP_OPTIONS, body)
    case Success(es) => Success((MessageOf(options, mid, es), len))
    case Failure(e) => Failure(e)
  }

  function MidLength(data: seq<Byte>): nat
    requires |data| >= 6
  {
    data[5]
  }

  /** (x << 8) | b on 64 bits. */
  function ShiftIn(x: U64, b: Byte): (y: U64)
  {
    ShiftedBelow(x);
    x * 256 % TWO64 + b
  }

  lemma ShiftedBelow(x: U64)
    ensures x * 256 % TWO64 <= TWO64 - 256
  {
    var k, m := x * 256 / TWO64, x * 256 % TWO64;
    assert m == 256 * (x - 0x100_0000_0000_0000 * k);
  }

  /** The number that shifting in all bytes of s leaves. */
  function Shifted(s: seq<Byte>): U64 {
    if s == [] then 0 else ShiftIn(Shifted(s[..|s| - 1]), s[|s| - 1])
  }

  /** Shifting in bytes reads them as a big-endian number, modulo 2^64. */
  lemma {:induction false} ShiftedValue(s: seq<Byte>)
    ensures Shifted(s) == BeValue(s) % TWO64
  {
    if s != [] {
      var init, b := s[..|s| - 1], s[|s| - 1];
      ShiftedValue(init);
      ShiftInAppends(BeValue(init), b);
    }
  }

  lemma ShiftInAppends(v: nat, b: Byte)
    ensures (v * 256 + b) % TWO64 == ShiftIn(v % TWO64, b)
  {
    var q, r := v / TWO64, v % TWO64;
    var k, m := r * 256 / TWO64, r * 256 % TWO64;
    ShiftedBelow(r);
    Remainder64(v * 256 + b, 256 * q + k, m + b);
  }

  /** The loop over the value bytes. */
  method DecodeUInt(data: seq<Byte>, off: nat, vlen: nat) returns (x: U64)
    requires off + vlen <= |data|
    ensures x == BeValue(data[off..off + vlen]) % TWO64
  {
    ghost var bytes := data[off..off + vlen];
    x := 0;
    for i := 0 to vlen
      invariant x == Shifted(bytes[..i])
    {
      assert bytes[..i + 1][..i] == bytes[..i] && bytes[i] == data[off + i];
      x := ShiftIn(x, data[off + i]);
    }
    assert bytes[..vlen] == bytes;
    ShiftedValue(bytes);
  }

  method DecodeValue(data: seq<Byte>, typ: Byte, off: nat, vlen: nat) returns (v: Value)
    requires off + vlen <= |data|
    ensures v == ToValue(Entry([], typ, data[off..off + vlen]))
  {
    v := Value(typ, [], 0);
    if v.typ == STRING || v.typ == BINARY {
      v := v.(bin := data[off..off + vlen]);
    } else {
      var x := DecodeUInt(data, off, vlen);
      v := v.(u := x);
    }
  }

  lemma SliceOfSlice(data: seq<Byte>, off: nat, len: nat, i: nat, j: nat)
    requires off <= len <= |data| && i <= j <= len - off
    ensures data[off..len][i..j] == data[off + i..off + j]
  {
    forall k | 0 <= k < j - i ensures data[off..len][i..j][k] == data[off + i..off + j][k] {
      assert data[off..len][i + k] == data[off + (i + k)];
    }
  }

  /** The entry behind k bytes of key, read in place. */
  function EntryAt(keyed: bool, data: seq<Byte>, off: nat, len: nat): Result<Entry, BusError>
    requires off < len <= |data|
  {
    var klen: nat := if keyed then data[off] else 0;
    var at := off + (if keyed then 1 else 0);
    if at + klen + 1 + 3 > len then Failure(if keyed then TruncatedMapEntry else TruncatedArrayEntry)
    else
      var vlen := RdBe24(data[at + klen + 1..]);
      if at + klen + 4 + vlen > len then Failure(if keyed then TruncatedMapValue else TruncatedArrayValue)
      else Success(Entry(data[at..at + klen], data[at + klen], data[at + klen + 4..at + klen + 4 + vlen]))
  }

  /** Reading in place is parsing the slice. */
  lemma EntryAtParses(keyed: bool, data: seq<Byte>, off: nat, len: nat)
    requires off < len <= |data|
    ensures ParseEntry(keyed, data[off..len]) == EntryAt(keyed, data, off, len)
  {
    var left := data[off..len];
    var klen: nat := if keyed then data[off] else 0;
    var k := klen + if keyed then 1 else 0;
    if k + 4 <= |left| {
      assert left[k] == data[off + k];
      SliceOfSlice(data, off, len, k + 1, k + 4);
      SameLength(left, k + 1, data, off + k + 1);
      var vlen := RdBe24(left[k + 1..]);
      if k + 4 + vlen <= |left| {
        SliceOfSlice(data, off, len, k + 4, k + 4 + vlen);
        SliceOfSlice(data, off, len, k - klen, k);
      }
    }
  }

  lemma SameLength(a: seq<Byte>, i: nat, b: seq<Byte>, j: nat)
    requires i + 3 <= |a| && j + 3 <= |b| && a[i..i + 3] == b[j..j + 3]
    ensures RdBe24(a[i..]) == RdBe24(b[j..])
  {
    forall k | 0 <= k < 3 ensures a[i..][k] == b[j..][k] {
      assert a[i..i + 3][k] == a[i + k] && b[j..j + 3][k] == b[j + k];
    }
  }

  /** One entry of the map form: its key, its value and the offset behind it. */
  method DecodeMapEntry(data: seq<Byte>, off: nat, len: nat) returns (r: Result<(Key, Value, nat), BusError>)
    requires off < len <= |data|
    ensures r == EntryResult(true, data[off..len], off)
  {
    EntryAtParses(true, data, off, len);
    var klen: nat := data[off];
    var at := off + 1;
    if at + klen + 1 + 3 > len {
      return Failure(TruncatedMapEntry);
    }
    var key := data[at..at + klen];
    at := at + klen;
    var typ := data[at];
    at := at + 1;
    var vlen := RdBe24(data[at..]);
    at := at + 3;
    if at + vlen > len {
      return Failure(TruncatedMapValue);
    }
    var v := DecodeValue(data, typ, at, vlen);
    return Success((key, v, at + vlen));
  }

  /** One entry of the array form: its value and the offset behind it. */
  method DecodeArrayEntry(data: seq<Byte>, off: nat, len: nat) returns (r: Result<(Key, Value, nat), BusError>)
    requires off < len <= |data|
    ensures r == EntryResult(false, data[off..len], off)
  {
    EntryAtParses(false, data, off, len);
    if off + 1 + 3 > len {
      return Failure(TruncatedArrayEntry);
    }
    var typ := data[off];
    var at := off + 1;
    var vlen := RdBe24(data[at..]);
    at := at + 3;
    if at + vlen > len {
      return Failure(TruncatedArrayValue);
    }
    var v := DecodeValue(data, typ, at, vlen);
    return Success(([], v, at + vlen));
  }

  function EntryResult(keyed: bool, left: seq<Byte>, off: nat): Result<(Key, Value, nat), BusError>
    requires left != []
  {
    match ParseEntry(keyed, left)
    case Success(e) => Success((e.key, ToValue(e), off + EntrySize(keyed, e)))
    case Failure(error) => Failure(error)
  }

  method DecodeMap(data: seq<Byte>, start: nat, len: nat) returns (r: Result<map<Key, Value>, BusError>)
    requires start <= len <= |data|
    ensures r == match ParseEntries(true, data[start..len])
      case Success(es) => Success(ArgsMap(es))
      case Failure(e) => Failure(e)
  {
    var off := start;
    var args: map<Key, Value> := map[];
    ghost var es: seq<Entry> := [];
    ParsedInit(true, data[start..len]);
    while off < len
      invariant start <= off <= len
      invariant Parsed(true, data[start..len], es, data[off..len])
      invariant args == ArgsMap(es)
      decreases len - off
    {
      ghost var left := data[off..len];
      var entry :- DecodeMapEntry(data, off, len);
      var (key, v, next) := entry;
      ghost var e := ParseEntry(true, left).value;
      ParsedStep(true, data[start..len], es, left, data[next..len]);
      assert (es + [e])[..|es|] == es;
      es := es + [e];
      if key !in args {
        args := args[key := v];
      }
      off := next;
    }
    ParsedDone(true, data[start..len], es, data[off..len]);
    return Success(args);
  }

  method DecodeArray(data: seq<Byte>, start: nat, len: nat) returns (r: Result<seq<Value>, BusError>)
    requires start <= len <= |data|
    ensures r == match ParseEntries(false, data[start..len])
      case Success(es) => Success(ArgsArray(es))
      case Failure(e) => Failure(e)
  {
    var off := start;
    var args: seq<Value> := [];
    ghost var es: seq<Entry> := [];
    ParsedInit(false, data[start..len]);
    while off < len
      invariant start <= off <= len
      invariant Parsed(false, data[start..len], es, data[off..len])
      invariant args == ArgsArray(es)
      decreases len - off
    {
      ghost var left := data[off..len];
      var entry :- DecodeArrayEntry(data, off, len);
      var (_, v, next) := entry;
      ParsedStep(false, data[start..len], es, left, data[next..len]);
      es := es + [ParseEntry(false, left).value];
      args := args + [v];
      off := next;
    }
    ParsedDone(false, data[start..len], es, data[off..len]);
    return Success(args);
  }

  method Decode(data: seq<Byte>) returns (r: Result<(Message, nat), BusError>)
    ensures r == Decoded(data)
  {
    if |data| < 6 {
      return Failure(BufferTooSmall);
    }
    var len := RdBe32(data);
    if len > |data| {
      return Failure(IncompleteFrame);
    }
    var options, midLen := data[4], MidLength(data);
    if 6 + midLen > len {
      return Failure(BadMidLength);
    }
    r := DecodeBody(data, options, 6 + midLen, len);
  }

  /** The entries, in the form that the options select. */
  method DecodeBody(data: seq<Byte>, options: Byte, off: nat, len: nat) returns (r: Result<(Message, nat), BusError>)
    requires 6 <= off <= len <= |data|
    ensures r == if options != MAP_OPTIONS && options != ARRAY_OPTIONS then Failure(InvalidOptions)
                 else DecodedBody(options, data[6..off], data[off..len], len)
  {
    var mid := data[6..off];
    if options == 0 {
      var args := DecodeMap(data, off, len);
      if args.Failure? {
        return Failure(args.error);
      }
      return Success((Message(options, mid, args.value, []), len));
    } else if options == 1 {
      var args := DecodeArray(data, off, len);
      if args.Failure? {
        return Failure(args.error);
      }
      return Success((Message(options, mid, map[], args.value), len));
    } else {
      return Failure(InvalidOptions);
    }
  }

  /** Loop invariant of the decoders: es have been read off the front of body, left is what remains. */
  ghost predicate Parsed(keyed: bool, body: seq<Byte>, es: seq<Entry>, left: seq<Byte>) {
    ParseEntries(keyed, body) == match ParseEntries(keyed, left)
      case Success(rest) => Success(es + rest)
      case Failure(e) => Failure(e)
  }

  lemma ParsedInit(keyed: bool, body: seq<Byte>)
    ensures Parsed(keyed, body, [], body)
  {
    if ParseEntries(keyed, body).Success? {
      assert [] + ParseEntries(keyed, body).value == ParseEntries(keyed, body).value;
    }
  }

  lemma ParsedStep(keyed: bool, body: seq<Byte>, es: seq<Entry>, left: seq<Byte>, left': seq<Byte>)
    requires left != [] && Parsed(keyed, body, es, left) && ParseEntry(keyed, left).Success?
    requires left' == left[EntrySize(keyed, ParseEntry(keyed, left).value)..]
    ensures Parsed(keyed, body, es + [ParseEntry(keyed, left).value], left')
  {
    var e := ParseEntry(keyed, left).value;
    var rest := ParseEntries(keyed, left');
    if rest.Success? {
      assert es + ([e] + rest.value) == es + [e] + rest.value;
    }
  }

  lemma ParsedDone(keyed: bool, body: seq<Byte>, es: seq<Entry>, left: seq<Byte>)
    requires left == [] && Parsed(keyed, body, es, left)
    ensures ParseEntries(keyed, body) == Success(es)
  {
    assert es + [] == es;
  }
}
