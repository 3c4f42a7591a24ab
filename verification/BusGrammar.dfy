/**
 The grammar of the bus envelope's entry list, as data: an entry, its bytes, and a one-shot
 recursive parser. This is the reference that the codec loops of BusProtocol are proved against.

   map entry     [key_len:u8][key][type:u8][val_len:be24][val_bytes]
   array entry   [type:u8][val_len:be24][val_bytes]

 keyed selects the map form. An array entry is an entry whose key is empty and not written.
 */
module BusGrammar {
  import opened Wrappers
  import opened Bytes

  const MAX_VALUE: int := 0xFF_FFFF

  type Key = seq<Byte>

  datatype Entry = Entry(key: Key, typ: Byte, payload: seq<Byte>)

  datatype BusError =
    | MidTooLong
    | BadOptions
    | KeyTooLong
    | ValueTooLarge
    | ArrayValueTooLarge
    | BufferTooSmall
    | IncompleteFrame
    | BadMidLength
    | TruncatedMapEntry
    | TruncatedMapValue
    | TruncatedArrayEntry
    | TruncatedArrayValue
    | InvalidOptions

  // ------------------------------------------------------------------ printing

  /** The entries that the length fields can describe. */
  predicate Printable(keyed: bool, e: Entry) {
    && (if keyed then |e.key| <= 255 else e.key == [])
    && |e.payload| <= MAX_VALUE
  }

  predicate AllPrintable(keyed: bool, es: seq<Entry>) {
    forall i | 0 <= i < |es| :: Printable(keyed, es[i])
  }

  function KeyBytes(keyed: bool, e: Entry): seq<Byte>
    requires Printable(keyed, e)
  {
    if keyed then [|e.key|] + e.key else []
  }

  function EntryBytes(keyed: bool, e: Entry): (b: seq<Byte>)
    requires Printable(keyed, e)
    ensures |b| == EntrySize(keyed, e)
  {
    KeyBytes(keyed, e) + [e.typ] + Be24(|e.payload|) + e.payload
  }

  function EntrySize(keyed: bool, e: Entry): nat {
    (if keyed then 1 + |e.key| else 0) + 4 + |e.payload|
  }

  function EntriesBytes(keyed: bool, es: seq<Entry>): seq<Byte>
    requires AllPrintable(keyed, es)
  {
    if es == [] then [] else EntryBytes(keyed, es[0]) + EntriesBytes(keyed, es[1..])
  }

  lemma EntriesBytesCons(keyed: bool, e: Entry, es: seq<Entry>)
    requires Printable(keyed, e) && AllPrintable(keyed, es)
    ensures AllPrintable(keyed, [e] + es)
    ensures EntriesBytes(keyed, [e] + es) == EntryBytes(keyed, e) + EntriesBytes(keyed, es)
  {
    assert ([e] + es)[1..] == es;
  }

  // ------------------------------------------------------------------- parsing

  /** One entry off the front of a non-empty byte string, or the error the decoder throws. */
  function ParseEntry(keyed: bool, b: seq<Byte>): (r: Result<Entry, BusError>)
    requires b != []
    ensures r.Success? ==> Printable(keyed, r.value) && EntrySize(keyed, r.value) <= |b|
  {
    var b0: nat := b[0];
    var k := if keyed then 1 + b0 else 0;
    if |b| < k + 4 then Failure(if keyed then TruncatedMapEntry else TruncatedArrayEntry)
    else
      var n := RdBe24(b[k + 1..]);
      if |b| < k + 4 + n then Failure(if keyed then TruncatedMapValue else TruncatedArrayValue)
      else Success(Entry(if keyed then b[1..k] else [], b[k], b[k + 4..k + 4 + n]))
  }

  function ParseEntries(keyed: bool, b: seq<Byte>): (r: Result<seq<Entry>, BusError>)
    decreases |b|
  {
    if b == [] then Success([])
    else
      var e :- ParseEntry(keyed, b);
      var es :- ParseEntries(keyed, b[EntrySize(keyed, e)..]);
      Success([e] + es)
  }

  // ------------------------------------------- printing and parsing are inverse

  lemma ParseEntryOfPrint(keyed: bool, e: Entry, tail: seq<Byte>)
    requires Printable(keyed, e)
    ensures ParseEntry(keyed, EntryBytes(keyed, e) + tail) == Success(e)
    ensures (EntryBytes(keyed, e) + tail)[EntrySize(keyed, e)..] == tail
  {
    var b := EntryBytes(keyed, e) + tail;
    var k := |KeyBytes(keyed, e)|;
    assert b[k + 1..] == Be24(|e.payload|) + (e.payload + tail);
    Be24RoundTrip(|e.payload|, e.payload + tail);
    assert b[k + 4..k + 4 + |e.payload|] == e.payload;
    if keyed {
      assert b[0] == |e.key|;
      assert b[1..k] == e.key;
    }
  }

  lemma PrintOfParseEntry(keyed: bool, b: seq<Byte>)
    requires b != [] && ParseEntry(keyed, b).Success?
    ensures var e := ParseEntry(keyed, b).value; EntryBytes(keyed, e) == b[..EntrySize(keyed, e)]
  {
    var e := ParseEntry(keyed, b).value;
    var k := |KeyBytes(keyed, e)|;
    assert KeyBytes(keyed, e) == b[..k];
    Be24Inverse(b[k + 1..]);
    assert b[k + 1..][..3] == b[k + 1..k + 4];
    Pieces(b, k, |e.payload|);
  }

  lemma Pieces(b: seq<Byte>, k: nat, n: nat)
    requires k + 4 + n <= |b|
    ensures b[..k] + [b[k]] + b[k + 1..k + 4] + b[k + 4..k + 4 + n] == b[..k + 4 + n]
  {
  }

  lemma {:induction false} ParseOfPrint(keyed: bool, es: seq<Entry>)
    requires AllPrintable(keyed, es)
    ensures ParseEntries(keyed, EntriesBytes(keyed, es)) == Success(es)
  {
    if es != [] {
      ParseEntryOfPrint(keyed, es[0], EntriesBytes(keyed, es[1..]));
      ParseOfPrint(keyed, es[1..]);
      assert es == [es[0]] + es[1..];
    }
  }

  lemma {:induction false} PrintOfParse(keyed: bool, b: seq<Byte>)
    requires ParseEntries(keyed, b).Success?
    ensures AllPrintable(keyed, ParseEntries(keyed, b).value)
    ensures EntriesBytes(keyed, ParseEntries(keyed, b).value) == b
    decreases |b|
  {
    if b != [] {
      var e := ParseEntry(keyed, b).value;
      var tail := b[EntrySize(keyed, e)..];
      PrintOfParse(keyed, tail);
      PrintOfParseCons(keyed, b, e, ParseEntries(keyed, tail).value);
    }
  }

  lemma PrintOfParseCons(keyed: bool, b: seq<Byte>, e: Entry, es: seq<Entry>)
    requires b != [] && ParseEntry(keyed, b) == Success(e)
    requires AllPrintable(keyed, es) && EntriesBytes(keyed, es) == b[EntrySize(keyed, e)..]
    ensures AllPrintable(keyed, [e] + es) && EntriesBytes(keyed, [e] + es) == b
  {
    PrintOfParseEntry(keyed, b);
    EntriesBytesCons(keyed, e, es);
    assert b == b[..EntrySize(keyed, e)] + b[EntrySize(keyed, e)..];
  }

  /** The byte strings the parser accepts are exactly those that entries tile without remainder. */
  lemma ParseIffTiles(keyed: bool, b: seq<Byte>)
    ensures ParseEntries(keyed, b).Success?
       <==> exists es :: AllPrintable(keyed, es) && EntriesBytes(keyed, es) == b
  {
    if ParseEntries(keyed, b).Success? {
      PrintOfParse(keyed, b);
    }
    if es :| AllPrintable(keyed, es) && EntriesBytes(keyed, es) == b {
      ParseOfPrint(keyed, es);
    }
  }

  /** No byte string can be tiled in two ways. */
  lemma TilingUnique(keyed: bool, es: seq<Entry>, fs: seq<Entry>)
    requires AllPrintable(keyed, es) && AllPrintable(keyed, fs)
    requires EntriesBytes(keyed, es) == EntriesBytes(keyed, fs)
    ensures es == fs
  {
    ParseOfPrint(keyed, es);
    ParseOfPrint(keyed, fs);
  }
}
