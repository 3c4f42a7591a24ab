/**
 What decoding returns is a normal form: it can always be encoded again, its encoding is no longer
 than what was read but for one byte for each integer that was sent without any digits, and it
 decodes to the same message. Encodings can be concatenated and split again in one way only.
 */
module BusNormalForm {
  import opened Wrappers
  import opened Bytes
  import opened BusGrammar
  import opened BusProtocol
  import opened BusTheorems

  // ----------------------------------------------------------------- entry sizes

  function TotalSize(keyed: bool, es: seq<Entry>): nat {
    if es == [] then 0 else EntrySize(keyed, es[0]) + TotalSize(keyed, es[1..])
  }

  lemma {:induction false} TotalSizeIsLength(keyed: bool, es: seq<Entry>)
    requires AllPrintable(keyed, es)
    ensures |EntriesBytes(keyed, es)| == TotalSize(keyed, es)
  {
    if es != [] {
      TotalSizeIsLength(keyed, es[1..]);
    }
  }

  lemma {:induction false} TotalSizeAppend(keyed: bool, es: seq<Entry>, fs: seq<Entry>)
    ensures TotalSize(keyed, es + fs) == TotalSize(keyed, es) + TotalSize(keyed, fs)
  {
    if es == [] {
      assert es + fs == fs;
    } else {
      TotalSizeAppend(keyed, es[1..], fs);
      assert (es + fs)[1..] == es[1..] + fs;
    }
  }

  /** Taking an entry out of the middle takes away its size. */
  lemma TotalSizeWithout(keyed: bool, es: seq<Entry>, i: nat)
    requires i < |es|
    ensures TotalSize(keyed, es) == TotalSize(keyed, es[..i] + es[i + 1..]) + EntrySize(keyed, es[i])
  {
    TotalSizeAppend(keyed, es[..i], es[i + 1..]);
    TotalSizeAppend(keyed, es[..i], es[i..]);
    assert es == es[..i] + es[i..];
    assert es[i..][1..] == es[i + 1..];
  }

  /** A map written in two orders takes up the same space. */
  lemma {:induction false} SizeIgnoresOrder(m: map<Key, Value>, order: seq<Key>, order': seq<Key>)
    requires IsOrder(order, m) && IsOrder(order', m)
    ensures TotalSize(true, MapEntries(m, order)) == TotalSize(true, MapEntries(m, order'))
    decreases |order|
  {
    if order == [] {
      OrderHead(order', m);
    } else {
      var k := order[|order| - 1];
      var i, j := |order| - 1, PositionOf(order', m, k);
      DropKey(m, order, i, k);
      DropKey(m, order', j, k);
      SizeIgnoresOrder(m - {k}, Without(order, i), Without(order', j));
    }
  }

  lemma OrderHead(order: seq<Key>, m: map<Key, Value>)
    requires IsOrder(order, m)
    ensures order != [] ==> order[0] in m
  {
  }

  function Without<T>(s: seq<T>, i: nat): seq<T>
    requires i < |s|
  {
    s[..i] + s[i + 1..]
  }

  ghost function PositionOf(order: seq<Key>, m: map<Key, Value>, k: Key): (i: nat)
    requires IsOrder(order, m) && k in m
    ensures i < |order| && order[i] == k
  {
    assert k in order;
    var i :| 0 <= i < |order| && order[i] == k;
    i
  }

  lemma WithoutIsOrder(m: map<Key, Value>, order: seq<Key>, i: nat, k: Key)
    requires IsOrder(order, m) && i < |order| && order[i] == k
    ensures IsOrder(Without(order, i), m - {k})
  {
    var order' := Without(order, i);
    forall x ensures x in order' <==> x in m - {k} {
      if x in order && x != k {
        var j :| 0 <= j < |order| && order[j] == x;
        assert order'[if j < i then j else j - 1] == x;
      }
    }
  }

  lemma WithoutSize(m: map<Key, Value>, order: seq<Key>, i: nat, k: Key)
    requires i < |order| && order[i] == k
    requires forall x | x in order :: x in m
    requires forall x | x in Without(order, i) :: x in m - {k}
    ensures TotalSize(true, MapEntries(m, order)) ==
      TotalSize(true, MapEntries(m - {k}, Without(order, i))) + EntrySize(true, FromValue(k, m[k]))
  {
    var es, es' := MapEntries(m, order), MapEntries(m - {k}, Without(order, i));
    TotalSizeWithout(true, es, i);
    forall j | 0 <= j < |es'| ensures es'[j] == Without(es, i)[j] {
      assert Without(order, i)[j] == if j < i then order[j] else order[j + 1];
    }
    assert Without(es, i) == es';
  }

  lemma DropKey(m: map<Key, Value>, order: seq<Key>, i: nat, k: Key)
    requires IsOrder(order, m) && i < |order| && order[i] == k
    ensures IsOrder(Without(order, i), m - {k})
    ensures TotalSize(true, MapEntries(m, order)) ==
      TotalSize(true, MapEntries(m - {k}, Without(order, i))) + EntrySize(true, FromValue(k, m[k]))
  {
    WithoutIsOrder(m, order, i, k);
    WithoutSize(m, order, i, k);
  }

  // ------------------------------------------------------------------ re-encoding

  /** The integers that were sent with no digits at all; each grows to one zero byte. */
  function EmptyIntegers(es: seq<Entry>): nat {
    if es == [] then 0
    else EmptyIntegers(es[..|es| - 1]) + if !Raw(es[|es| - 1].typ) && es[|es| - 1].payload == [] then 1 else 0
  }

  lemma ReencodedEntrySize(keyed: bool, e: Entry)
    ensures EntrySize(keyed, FromValue(e.key, ToValue(e))) <=
      EntrySize(keyed, e) + if !Raw(e.typ) && e.payload == [] then 1 else 0
  {
    if !Raw(e.typ) {
      MinBeShortest(e.payload);
      MinBeMonotone(BeValue(e.payload) % TWO64, BeValue(e.payload));
    }
  }

  lemma {:induction false} ReencodedMapSize(es: seq<Entry>, order: seq<Key>)
    requires IsOrder(order, ArgsMap(es))
    ensures TotalSize(true, MapEntries(ArgsMap(es), order)) <= TotalSize(true, es) + EmptyIntegers(es)
  {
    var m := ArgsMap(es);
    if es == [] {
      OrderHead(order, m);
    } else {
      var init, last := es[..|es| - 1], es[|es| - 1];
      TotalSizeAppend(true, init, [last]);
      assert es == init + [last];
      if last.key in ArgsMap(init) {
        ReencodedMapSize(init, order);
      } else {
        var i := PositionOf(order, m, last.key);
        DropKey(m, order, i, last.key);
        assert m - {last.key} == ArgsMap(init);
        ReencodedMapSize(init, Without(order, i));
        ReencodedEntrySize(true, last);
      }
    }
  }

  lemma {:induction false} ReencodedArraySize(es: seq<Entry>)
    requires AllPrintable(false, es)
    ensures TotalSize(false, ArrayEntries(ArgsArray(es))) <= TotalSize(false, es) + EmptyIntegers(es)
  {
    if es != [] {
      var init, last := es[..|es| - 1], es[|es| - 1];
      ReencodedArraySize(init);
      ReencodedEntrySize(false, last);
      TotalSizeAppend(false, init, [last]);
      assert es == init + [last];
      var fs, gs := ArrayEntries(ArgsArray(init)), ArrayEntries(ArgsArray(es));
      assert gs == fs + [FromValue([], ToValue(last))];
      TotalSizeAppend(false, fs, [FromValue([], ToValue(last))]);
    }
  }

  lemma MessageOfIsNormal(options: Byte, mid: seq<Byte>, es: seq<Entry>)
    requires options in {MAP_OPTIONS, ARRAY_OPTIONS} && |mid| <= 255
    requires AllPrintable(options == MAP_OPTIONS, es)
    ensures Encodable(MessageOf(options, mid, es))
    ensures Normal(MessageOf(options, mid, es)) == MessageOf(options, mid, es)
  {
    if options == MAP_OPTIONS {
      forall k | k in ArgsMap(es)
        ensures |k| <= 255 && EncodableValue(ArgsMap(es)[k]) && NormalValue(ArgsMap(es)[k]) == ArgsMap(es)[k]
      {
        FirstEntryWins(es, k);
        var i :| 0 <= i < |es| && es[i].key == k && ArgsMap(es)[k] == ToValue(es[i]);
        assert Printable(true, es[i]);
      }
    } else {
      forall i | 0 <= i < |es|
        ensures EncodableValue(ArgsArray(es)[i]) && NormalValue(ArgsArray(es)[i]) == ArgsArray(es)[i]
      {
        assert Printable(false, es[i]);
      }
    }
  }

  lemma EncodedLength(m: Message, order: seq<Key>)
    requires IsOrder(order, m.argsMap) && Encodable(m)
    ensures Encoded(m, order).Success?
    ensures |Encoded(m, order).value| ==
      6 + |m.messageID| + TotalSize(m.options == MAP_OPTIONS, EntriesOf(m, order))
  {
    EncodedIsFrame(m, order);
    TotalSizeIsLength(m.options == MAP_OPTIONS, EntriesOf(m, order));
  }

  lemma ReencodedSize(options: Byte, mid: seq<Byte>, es: seq<Entry>, order: seq<Key>)
    requires options in {MAP_OPTIONS, ARRAY_OPTIONS} && |mid| <= 255
    requires AllPrintable(options == MAP_OPTIONS, es)
    requires IsOrder(order, MessageOf(options, mid, es).argsMap)
    ensures TotalSize(options == MAP_OPTIONS, EntriesOf(MessageOf(options, mid, es), order))
         <= TotalSize(options == MAP_OPTIONS, es) + EmptyIntegers(es)
  {
    if options == MAP_OPTIONS {
      ReencodedMapSize(es, order);
    } else {
      ReencodedArraySize(es);
    }
  }

  /**
   A decoded message is in normal form and encodes again in any order, into at most the bytes that
   were read plus one for each integer without digits; unless that reaches 2^32 bytes, it decodes to
   the same message again.
   */
  lemma DecodeThenEncode(data: seq<Byte>, order: seq<Key>, tail: seq<Byte>)
    requires Decoded(data).Success? && IsOrder(order, Decoded(data).value.0.argsMap)
    ensures var (m, len) := Decoded(data).value;
      && Normal(m) == m
      && Encoded(m, order).Success?
      && var keyed, body, bytes := data[4] == MAP_OPTIONS, data[6 + MidLength(data)..len], Encoded(m, order).value;
         && |bytes| <= len + EmptyIntegers(ParseEntries(keyed, body).value)
         && (|bytes| < TWO32 <==> Decoded(bytes + tail) == Success((m, |bytes|)))
  {
    var (m, len) := Decoded(data).value;
    var keyed, mid, body := data[4] == MAP_OPTIONS, data[6..6 + MidLength(data)], data[6 + MidLength(data)..len];
    PrintOfParse(keyed, body);
    var es := ParseEntries(keyed, body).value;
    TotalSizeIsLength(keyed, es);
    MessageOfIsNormal(data[4], mid, es);
    EncodedLength(m, order);
    ReencodedSize(data[4], mid, es, order);
    RoundTrip(m, order, Encoded(m, order).value, tail);
  }

  /** The order the map is visited in can be seen in the bytes, but neither in their number nor in what they decode to. */
  lemma OrderIsInvisible(m: Message, order: seq<Key>, order': seq<Key>, tail: seq<Byte>)
    requires IsOrder(order, m.argsMap) && IsOrder(order', m.argsMap) && Encodable(m)
    ensures Encoded(m, order).Success? && Encoded(m, order').Success?
    ensures var b, b' := Encoded(m, order).value, Encoded(m, order').value;
      |b| == |b'| && (|b| < TWO32 ==> Decoded(b + tail) == Decoded(b' + tail))
  {
    EncodedLength(m, order);
    EncodedLength(m, order');
    if m.options == MAP_OPTIONS {
      SizeIgnoresOrder(m.argsMap, order, order');
    }
    RoundTrip(m, order, Encoded(m, order).value, tail);
    RoundTrip(m, order', Encoded(m, order').value, tail);
  }

  // -------------------------------------------------------------------- streams

  /** Repeated decoding, consuming what each call says it took. */
  function DecodedStream(data: seq<Byte>): Result<seq<Message>, BusError>
    decreases |data|
  {
    if data == [] then Success([])
    else
      var (m, len) :- Decoded(data);
      var rest :- DecodedStream(data[len..]);
      Success([m] + rest)
  }

  datatype Sent = Sent(message: Message, order: seq<Key>)

  /** Messages that can be sent: encodable, visited in some order, and shorter than 2^32 bytes. */
  ghost predicate Sendable(s: Sent) {
    && IsOrder(s.order, s.message.argsMap)
    && Encoded(s.message, s.order).Success?
    && |Encoded(s.message, s.order).value| < TWO32
  }

  ghost function SentBytes(s: Sent): seq<Byte>
    requires Sendable(s)
  {
    Encoded(s.message, s.order).value
  }

  ghost predicate AllSendable(sent: seq<Sent>) {
    forall i | 0 <= i < |sent| :: Sendable(sent[i])
  }

  ghost function Wire(sent: seq<Sent>): seq<Byte>
    requires AllSendable(sent)
  {
    if sent == [] then [] else SentBytes(sent[0]) + Wire(sent[1..])
  }

  ghost function Messages(sent: seq<Sent>): seq<Message> {
    seq(|sent|, i requires 0 <= i < |sent| => Normal(sent[i].message))
  }

  lemma StreamHead(s: Sent, tail: seq<Byte>)
    requires Sendable(s)
    ensures Decoded(SentBytes(s) + tail) == Success((Normal(s.message), |SentBytes(s)|))
    ensures SentBytes(s) + tail != [] && (SentBytes(s) + tail)[|SentBytes(s)|..] == tail
  {
    RoundTrip(s.message, s.order, SentBytes(s), tail);
    ConsumedBelow32(SentBytes(s) + tail);
  }

  /** A concatenation of encodings splits back, by repeated decoding, into the messages that were sent. */
  lemma {:induction false} StreamSplits(sent: seq<Sent>)
    requires AllSendable(sent)
    ensures DecodedStream(Wire(sent)) == Success(Messages(sent))
  {
    if sent != [] {
      StreamHead(sent[0], Wire(sent[1..]));
      StreamSplits(sent[1..]);
      assert Messages(sent) == [Normal(sent[0].message)] + Messages(sent[1..]);
    }
  }

  /** Two lists of messages with the same bytes are the same list, up to the fields that are not sent. */
  lemma StreamUnique(sent: seq<Sent>, sent': seq<Sent>)
    requires AllSendable(sent) && AllSendable(sent')
    requires Wire(sent) == Wire(sent')
    ensures Messages(sent) == Messages(sent')
  {
    StreamSplits(sent);
    StreamSplits(sent');
  }
}
