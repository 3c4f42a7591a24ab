/**
 The query handler: per-connection buffers from which frames are cut, and the relay of a query to the
 active game client and of the client's next packet back to the peer that asked.
 */
module QueryHandler {
  import opened Wrappers
  import opened Bytes
  import opened QueryStream
  import opened SessionRegistry

  /** What becomes visible outside, in order; a query carries the peer it was sent for. */
  datatype Effect =
    | ToClient(client: SessionId, bytes: seq<Byte>, asker: SessionId)
    | ToPeer(peer: SessionId, bytes: seq<Byte>)
    | Closed(peer: SessionId)

  /** The callback registered for a query: send what the client says to the peer. */
  datatype Callback = ReplyTo(peer: SessionId)

  /** The state that handling a frame touches. */
  datatype Hub = Hub(activeClient: Option<SessionId>, waiter: Option<Waiter<Callback>>, log: seq<Effect>)

  predicate AnyPacket(bytes: seq<Byte>) {
    true
  }

  /** The blob of a query frame, if the frame is a well-formed query. */
  function QueryBlob(frame: seq<Byte>): Option<seq<Byte>>
    requires IsFrame(frame)
  {
    if RdLe16(frame[2..]) != MSG_QUERY then None else DecodeBlob(frame[4..])
  }

  function AfterFrame(h: Hub, peer: SessionId, frame: seq<Byte>, alive: set<SessionId>): Hub
    requires IsFrame(frame)
  {
    var blob, client := QueryBlob(frame), Locked(h.activeClient, alive);
    if blob.None? || client.None? then h
    else h.(waiter := Some(Waiter(AnyPacket, ReplyTo(peer))), log := h.log + [ToClient(client.value, blob.value, peer)])
  }

  function AfterFrames(h: Hub, peer: SessionId, frames: seq<seq<Byte>>, alive: set<SessionId>): Hub
    requires AllFrames(frames)
    decreases |frames|
  {
    if frames == [] then h
    else AfterFrames(AfterFrame(h, peer, frames[0], alive), peer, frames[1..], alive)
  }

  function ReplyFrame(captured: seq<Byte>): seq<Byte> {
    BlobFrame(MSG_REPLY, captured)
  }

  function AfterClientBytes(h: Hub, bytes: seq<Byte>): Hub {
    var run := Fires(h.waiter, Notify(bytes));
    var h' := h.(waiter := After(h.waiter, Notify(bytes)));
    if run.None? then h' else h'.(log := h.log + [ToPeer(run.value.peer, ReplyFrame(bytes))])
  }

  lemma ExtractedAreFrames(b: seq<Byte>)
    ensures AllFrames(Extract(b).frames)
  {
    var left := ExtractTiles(b);
  }

  function AfterData(maxBuf: nat, h: Hub, peer: SessionId, buf: seq<Byte>, bytes: seq<Byte>, alive: set<SessionId>): (Hub, seq<Byte>) {
    if |buf| + |bytes| > maxBuf then (h.(log := h.log + [Closed(peer)]), [])
    else
      ExtractedAreFrames(buf + bytes);
      var e := Extract(buf + bytes);
      (AfterFrames(h, peer, e.frames, alive), e.rest)
  }

  class Handler {
    const maxBuf: nat
    const registry: Registry<Callback>

    var peers: map<SessionId, seq<Byte>>
    var log: seq<Effect>

    ghost predicate Valid()
      reads this, registry
    {
      registry.Valid()
    }

    ghost function Abs(): Hub
      reads this, registry
      requires Valid()
    {
      Hub(registry.activeClient, registry.Pending(), log)
    }

    constructor (registry: Registry<Callback>, maxBuf: nat)
      requires registry.Valid()
      ensures Valid() && this.registry == registry && this.maxBuf == maxBuf && peers == map[] && log == []
    {
      this.registry, this.maxBuf := registry, maxBuf;
      peers, log := map[], [];
    }

    /** A session that is already known keeps its buffer. */
    method OnConnect(s: SessionId)
      requires Valid()
      modifies this
      ensures Valid() && Abs() == old(Abs())
      ensures s in peers && peers == old(peers)[s := if s in old(peers) then old(peers)[s] else []]
    {
      if s !in peers {
        peers := peers[s := []];
      }
    }

    method OnDisconnect(s: SessionId)
      requires Valid()
      modifies this
      ensures Valid() && Abs() == old(Abs())
      ensures peers == old(peers) - {s}
    {
      peers := peers - {s};
    }

    method HandleFrame(s: SessionId, fr: seq<Byte>, alive: set<SessionId>)
      requires Valid() && IsFrame(fr)
      modifies this, registry
      ensures Valid() && peers == old(peers)
      ensures Abs() == AfterFrame(old(Abs()), s, fr, alive)
    {
      var size, msgId := RdLe16(fr), RdLe16(fr[2..]);
      var payload := fr[4..size];
      assert payload == fr[4..];
      if msgId == MSG_QUERY {
        var blob := DecodeBlob(payload);
        if blob.None? {
          return;
        }
        var cli := registry.GetActiveClient(alive);
        if cli.None? {
          return;
        }
        registry.WaitNextC2s(AnyPacket, ReplyTo(s));
        log := log + [ToClient(cli.value, blob.value, s)];
      }
    }

    /** The loop that cuts frames off the front of the buffer and handles each. */
    method OnData(s: SessionId, bytes: seq<Byte>, alive: set<SessionId>)
      requires Valid()
      modifies this, registry
      ensures Valid()
      ensures s !in old(peers) ==> peers == old(peers) && Abs() == old(Abs())
      ensures s in old(peers) ==>
        var (h, rest) := AfterData(maxBuf, old(Abs()), s, old(peers)[s], bytes, alive);
        Abs() == h && peers == old(peers)[s := rest]
    {
      if s !in peers {
        return;
      }
      var buf := peers[s];
      if |buf| + |bytes| > maxBuf {
        peers := peers[s := []];
        log := log + [Closed(s)];
        return;
      }

      buf := buf + bytes;
      ExtractedAreFrames(buf);
      ghost var e, h := Extract(buf), AfterFrames(Abs(), s, Extract(buf).frames, alive);
      while true
        invariant Valid() && peers == old(peers)
        invariant e.rest == Extract(buf).rest
        invariant AllFrames(Extract(buf).frames) && h == AfterFrames(Abs(), s, Extract(buf).frames, alive)
        decreases |buf|
      {
        if |buf| < 4 {
          break;
        }
        var size := RdLe16(buf);
        if size < 4 {
          buf := [];
          break;
        }
        if |buf| < size {
          break;
        }
        var fr := buf[..size];
        assert Extract(buf) == Prepend([fr], Extract(buf[size..]));
        assert Extract(buf).frames[1..] == Extract(buf[size..]).frames;
        assert IsFrame(fr) && AllFrames(Extract(buf).frames[1..]);
        buf := buf[size..];
        HandleFrame(s, fr, alive);
      }
      peers := peers[s := buf];
    }

    /** Bytes from the game client reach the registry; the callback it runs frames them for the peer. */
    method OnClientBytes(bytes: seq<Byte>)
      requires Valid()
      modifies this, registry
      ensures Valid() && peers == old(peers)
      ensures Abs() == AfterClientBytes(old(Abs()), bytes)
    {
      var run := registry.NotifyC2s(bytes);
      if run.Some? {
        var out := Frame(MSG_REPLY, EncodeBlob(bytes));
        log := log + [ToPeer(run.value.peer, out)];
      }
    }
  }

  // ------------------------------------------------------------------ whole runs

  datatype Event =
    | SetClient(client: SessionId)
    | Connect(peer: SessionId)
    | Disconnect(peer: SessionId)
    | Data(peer: SessionId, bytes: seq<Byte>, alive: set<SessionId>)
    | ClientBytes(captured: seq<Byte>)

  datatype World = World(hub: Hub, peers: map<SessionId, seq<Byte>>)

  function Step(maxBuf: nat, w: World, e: Event): World {
    match e
    case SetClient(client) => w.(hub := w.hub.(activeClient := Some(client)))
    case Connect(peer) => if peer in w.peers then w else w.(peers := w.peers[peer := []])
    case Disconnect(peer) => w.(peers := w.peers - {peer})
    case Data(peer, bytes, alive) =>
      if peer !in w.peers then w
      else
        var (h, rest) := AfterData(maxBuf, w.hub, peer, w.peers[peer], bytes, alive);
        World(h, w.peers[peer := rest])
    case ClientBytes(captured) => w.(hub := AfterClientBytes(w.hub, captured))
  }

  const START := World(Hub(None, None, []), map[])

  function Run(maxBuf: nat, es: seq<Event>): World {
    if es == [] then START else Step(maxBuf, Run(maxBuf, es[..|es| - 1]), es[|es| - 1])
  }

  /** The peer whose query the log ends on, with no reply since. */
  function OpenQuery(log: seq<Effect>): Option<SessionId> {
    if log == [] then None
    else
      match log[|log| - 1]
      case ToClient(_, _, asker) => Some(asker)
      case ToPeer(_, _) => None
      case Closed(_) => OpenQuery(log[..|log| - 1])
  }

  /** Every reply goes to the peer of the latest query, which has had no reply yet. */
  ghost predicate Paired(log: seq<Effect>) {
    log != [] ==>
      var init, last := log[..|log| - 1], log[|log| - 1];
      Paired(init) && (last.ToPeer? ==> OpenQuery(init) == Some(last.peer))
  }

  /** The hub's waiter takes any packet and answers the open query. */
  ghost predicate Consistent(h: Hub) {
    && Paired(h.log)
    && OpenQuery(h.log) == (if h.waiter.Some? then Some(h.waiter.value.callback.peer) else None)
    && (h.waiter.Some? ==> h.waiter.value.pred == AnyPacket)
  }

  lemma Snoc(log: seq<Effect>, x: Effect)
    requires Paired(log)
    requires x.ToPeer? ==> OpenQuery(log) == Some(x.peer)
    ensures Paired(log + [x])
    ensures OpenQuery(log + [x]) == if x.ToClient? then Some(x.asker) else if x.ToPeer? then None else OpenQuery(log)
  {
    assert (log + [x])[..|log|] == log;
  }

  lemma {:induction false} FramesConsistent(h: Hub, peer: SessionId, frames: seq<seq<Byte>>, alive: set<SessionId>)
    requires AllFrames(frames) && Consistent(h)
    ensures Consistent(AfterFrames(h, peer, frames, alive))
    decreases |frames|
  {
    if frames != [] {
      var h' := AfterFrame(h, peer, frames[0], alive);
      if h' != h {
        Snoc(h.log, h'.log[|h.log|]);
      }
      FramesConsistent(h', peer, frames[1..], alive);
    }
  }

  lemma DataConsistent(maxBuf: nat, h: Hub, peer: SessionId, buf: seq<Byte>, bytes: seq<Byte>, alive: set<SessionId>)
    requires Consistent(h)
    ensures Consistent(AfterData(maxBuf, h, peer, buf, bytes, alive).0)
  {
    if |buf| + |bytes| > maxBuf {
      Snoc(h.log, Closed(peer));
    } else {
      ExtractedAreFrames(buf + bytes);
      FramesConsistent(h, peer, Extract(buf + bytes).frames, alive);
    }
  }

  /** In every run, replies and queries alternate correctly and the registry's waiter stands for the open query. */
  lemma {:induction false} RunConsistent(maxBuf: nat, es: seq<Event>)
    ensures Consistent(Run(maxBuf, es).hub)
  {
    if es != [] {
      var w, e := Run(maxBuf, es[..|es| - 1]), es[|es| - 1];
      RunConsistent(maxBuf, es[..|es| - 1]);
      if e.Data? && e.peer in w.peers {
        DataConsistent(maxBuf, w.hub, e.peer, w.peers[e.peer], e.bytes, e.alive);
      } else if e.ClientBytes? && w.hub.waiter.Some? {
        Snoc(w.hub.log, ToPeer(w.hub.waiter.value.callback.peer, ReplyFrame(e.captured)));
      }
    }
  }

  lemma {:induction false} FramesOnlyForward(h: Hub, peer: SessionId, frames: seq<seq<Byte>>, alive: set<SessionId>)
    requires AllFrames(frames)
    ensures var log := AfterFrames(h, peer, frames, alive).log;
      h.log <= log && forall j | |h.log| <= j < |log| :: log[j].ToClient?
    decreases |frames|
  {
    if frames != [] {
      FramesOnlyForward(AfterFrame(h, peer, frames[0], alive), peer, frames[1..], alive);
    }
  }

  /** The log only grows, and only a packet of the game client adds a reply: the frame of that packet. */
  lemma StepLogs(maxBuf: nat, w: World, e: Event)
    ensures var log := Step(maxBuf, w, e).hub.log;
      && w.hub.log <= log
      && forall j | |w.hub.log| <= j < |log| && log[j].ToPeer? ::
           j == |w.hub.log| && e.ClientBytes? && w.hub.waiter.Some?
           && log[j] == ToPeer(w.hub.waiter.value.callback.peer, ReplyFrame(e.captured))
  {
    if e.Data? && e.peer in w.peers && |w.peers[e.peer]| + |e.bytes| <= maxBuf {
      var buf := w.peers[e.peer] + e.bytes;
      ExtractedAreFrames(buf);
      FramesOnlyForward(w.hub, e.peer, Extract(buf).frames, e.alive);
    }
  }

  /** The reply was sent because of this packet of the client, to the peer whose query was open then. */
  ghost predicate Answers(reply: Effect, before: seq<Effect>, e: Event) {
    && e.ClientBytes? && reply.ToPeer?
    && reply.bytes == ReplyFrame(e.captured)
    && OpenQuery(before) == Some(reply.peer)
  }

  lemma StepAnswers(maxBuf: nat, w: World, e: Event, j: nat)
    requires Consistent(w.hub) && |w.hub.log| <= j < |Step(maxBuf, w, e).hub.log| && Step(maxBuf, w, e).hub.log[j].ToPeer?
    ensures Answers(Step(maxBuf, w, e).hub.log[j], w.hub.log, e) && j == |w.hub.log|
  {
    StepLogs(maxBuf, w, e);
  }

  /** Every reply in a run answers the open query with a packet that the game client sent in that run. */
  lemma {:induction false} RepliesCarryPackets(maxBuf: nat, es: seq<Event>, j: nat) returns (k: nat)
    requires j < |Run(maxBuf, es).hub.log| && Run(maxBuf, es).hub.log[j].ToPeer?
    ensures k < |es| && Run(maxBuf, es[..k]).hub.log == Run(maxBuf, es).hub.log[..j]
    ensures Answers(Run(maxBuf, es).hub.log[j], Run(maxBuf, es).hub.log[..j], es[k])
  {
    var init, last := es[..|es| - 1], es[|es| - 1];
    var w := Run(maxBuf, init);
    StepLogs(maxBuf, w, last);
    if j < |w.hub.log| {
      k := RepliesCarryPackets(maxBuf, init, j);
      assert es[..k] == init[..k];
    } else {
      k := |es| - 1;
      RunConsistent(maxBuf, init);
      StepAnswers(maxBuf, w, last, j);
    }
  }

  /** The peer reads the client's packet off the reply, whatever follows, exactly if it has at most 65529 bytes. */
  lemma AnswerIsReadOff(reply: Effect, before: seq<Effect>, e: Event, tail: seq<Byte>)
    requires Answers(reply, before, e)
    ensures FirstBlob(reply.bytes + tail) == Some((MSG_REPLY, e.captured)) <==> |e.captured| <= MAX_BLOB
  {
    BlobFrameRoundTrip(MSG_REPLY, e.captured, tail);
  }

  function Queries(log: seq<Effect>): nat {
    if log == [] then 0 else Queries(log[..|log| - 1]) + if log[|log| - 1].ToClient? then 1 else 0
  }

  function Replies(log: seq<Effect>): nat {
    if log == [] then 0 else Replies(log[..|log| - 1]) + if log[|log| - 1].ToPeer? then 1 else 0
  }

  /** Queries that were still open when the next one came. */
  function Superseded(log: seq<Effect>): nat {
    if log == [] then 0
    else Superseded(log[..|log| - 1]) + if log[|log| - 1].ToClient? && OpenQuery(log[..|log| - 1]).Some? then 1 else 0
  }

  lemma {:induction false} PairedCounts(log: seq<Effect>)
    requires Paired(log)
    ensures Queries(log) == Replies(log) + Superseded(log) + if OpenQuery(log).Some? then 1 else 0
  {
    if log != [] {
      PairedCounts(log[..|log| - 1]);
    }
  }

  /** Every query forwarded to the client has been answered once, superseded, or is the one still waiting. */
  lemma QueriesConserved(maxBuf: nat, es: seq<Event>)
    ensures var h := Run(maxBuf, es).hub;
      Queries(h.log) == Replies(h.log) + Superseded(h.log) + if h.waiter.Some? then 1 else 0
  {
    RunConsistent(maxBuf, es);
    PairedCounts(Run(maxBuf, es).hub.log);
  }

  // ------------------------------------------------------ what is answered, on the wire

  /** Size, message id, blob length, blob: the frame that carries a blob, byte by byte. */
  predicate IsBlobFrame(out: seq<Byte>, msgId: Byte, blob: seq<Byte>) {
    && |out| == 6 + |blob| && out[2] == msgId && out[3] == 0 && out[6..] == blob
    && IsLength(out[0], out[1], 6 + |blob|) && IsLength(out[4], out[5], |blob|)
  }

  predicate IsLength(lo: Byte, hi: Byte, n: nat) {
    var l: int, h: int := lo, hi;
    l + 256 * h == n
  }

  lemma BlobParts(blob: seq<Byte>)
    requires |blob| <= MAX_BLOB
    ensures var p := EncodeBlob(blob); |p| == 2 + |blob| && RdLe16(p) == |blob| && p[2..] == blob
  {
    Le16RoundTrip(|blob|, blob);
  }

  lemma FrameOnTheWire(f: seq<Byte>, msgId: Byte, p: seq<Byte>, blob: seq<Byte>)
    requires |f| == 4 + |p| && RdLe16(f) == |f| && RdLe16(f[2..]) == msgId && f[4..] == p
    requires |p| == 2 + |blob| && RdLe16(p) == |blob| && p[2..] == blob
    ensures IsBlobFrame(f, msgId, blob)
  {
    assert f[6..] == p[2..];
  }

  lemma ReplyOnTheWire(blob: seq<Byte>)
    requires |blob| <= MAX_BLOB
    ensures IsBlobFrame(ReplyFrame(blob), 2, blob)
  {
    BlobParts(blob);
    FrameFields(MSG_REPLY, EncodeBlob(blob));
    FrameOnTheWire(ReplyFrame(blob), 2, EncodeBlob(blob), blob);
  }

  /**
   When a query is open, the next packet of the game client sends exactly one frame, a reply with that packet
   to the peer that asked, and no query is open any more; when none is open, it sends nothing.
   */
  lemma OpenQueryIsAnswered(maxBuf: nat, es: seq<Event>, b: seq<Byte>)
    requires |b| <= MAX_BLOB
    ensures var (before, after) := (Run(maxBuf, es).hub, Run(maxBuf, es + [ClientBytes(b)]).hub);
      match OpenQuery(before.log)
      case None => after == before
      case Some(peer) =>
        && |after.log| == |before.log| + 1 && after.log[..|before.log|] == before.log
        && after.log[|before.log|].ToPeer? && after.log[|before.log|].peer == peer
        && IsBlobFrame(after.log[|before.log|].bytes, 2, b)
        && (forall tail :: FirstBlob(after.log[|before.log|].bytes + tail) == Some((2, b)))
        && after.waiter == None && OpenQuery(after.log) == None
  {
    var w := Run(maxBuf, es);
    RunConsistent(maxBuf, es);
    assert (es + [ClientBytes(b)])[..|es|] == es;
    ReplyOnTheWire(b);
    if w.hub.waiter.Some? {
      var reply := ToPeer(w.hub.waiter.value.callback.peer, ReplyFrame(b));
      Snoc(w.hub.log, reply);
      forall tail ensures FirstBlob(reply.bytes + tail) == Some((2, b)) {
        BlobFrameRoundTrip(MSG_REPLY, b, tail);
      }
    }
  }

  /** The active client is the one last set. */
  function LastClient(es: seq<Event>): Option<SessionId> {
    if es == [] then None
    else if es[|es| - 1].SetClient? then Some(es[|es| - 1].client)
    else LastClient(es[..|es| - 1])
  }

  /** The peer has connected and not disconnected since. */
  predicate Connected(es: seq<Event>, peer: SessionId) {
    es != [] &&
      var e := es[|es| - 1];
      if e == Connect(peer) then true else if e == Disconnect(peer) then false else Connected(es[..|es| - 1], peer)
  }

  lemma {:induction false} FramesKeepClient(h: Hub, peer: SessionId, frames: seq<seq<Byte>>, alive: set<SessionId>)
    requires AllFrames(frames)
    ensures AfterFrames(h, peer, frames, alive).activeClient == h.activeClient
    decreases |frames|
  {
    if frames != [] {
      FramesKeepClient(AfterFrame(h, peer, frames[0], alive), peer, frames[1..], alive);
    }
  }

  /** In every run, the client queries go to is the last one set, and buffers are kept for exactly the connected peers. */
  lemma {:induction false} WhoIsThere(maxBuf: nat, es: seq<Event>, peer: SessionId)
    ensures Run(maxBuf, es).hub.activeClient == LastClient(es)
    ensures peer in Run(maxBuf, es).peers <==> Connected(es, peer)
  {
    if es != [] {
      var w, e := Run(maxBuf, es[..|es| - 1]), es[|es| - 1];
      WhoIsThere(maxBuf, es[..|es| - 1], peer);
      if e.Data? && e.peer in w.peers && |w.peers[e.peer]| + |e.bytes| <= maxBuf {
        ExtractedAreFrames(w.peers[e.peer] + e.bytes);
        FramesKeepClient(w.hub, e.peer, Extract(w.peers[e.peer] + e.bytes).frames, e.alive);
      }
    }
  }

  /** A frame asks the client exactly if its id is 1, its blob fits in it and the active client is there. */
  predicate Asks(h: Hub, frame: seq<Byte>, alive: set<SessionId>) {
    && |frame| >= 6 && frame[2] == 1 && frame[3] == 0
    && h.activeClient.Some? && h.activeClient.value in alive
    && exists n: nat :: IsLength(frame[4], frame[5], n) && 6 + n <= |frame|
  }

  /**
   What a frame does: if it asks, its blob goes to the active client and the query is the peer's and open;
   otherwise nothing happens.
   */
  lemma FrameOutcome(h: Hub, peer: SessionId, frame: seq<Byte>, alive: set<SessionId>)
    requires IsFrame(frame) && Consistent(h)
    ensures var h' := AfterFrame(h, peer, frame, alive);
      if Asks(h, frame, alive) then
        && OpenQuery(h'.log) == Some(peer) && h'.activeClient == h.activeClient
        && exists n: nat :: IsLength(frame[4], frame[5], n) && 6 + n <= |frame|
             && h'.log == h.log + [ToClient(h.activeClient.value, frame[6..6 + n], peer)]
      else h' == h
  {
    assert RdLe16(frame[2..]) == 1 <==> frame[2] == 1 && frame[3] == 0;
    if |frame| >= 6 {
      var n := RdLe16(frame[4..]);
      assert IsLength(frame[4], frame[5], n);
      if 6 + n <= |frame| {
        assert frame[4..][2..2 + n] == frame[6..6 + n];
        Snoc(h.log, ToClient(0, frame[6..6 + n], peer));
      }
    }
  }

  /**
   Bytes that would overflow the buffer clear it and close the connection, and nothing else; no other bytes
   close it.
   */
  lemma OverflowCloses(maxBuf: nat, w: World, peer: SessionId, bytes: seq<Byte>, alive: set<SessionId>)
    requires peer in w.peers
    ensures var w' := Step(maxBuf, w, Data(peer, bytes, alive));
      if |w.peers[peer]| + |bytes| > maxBuf then
        w' == World(w.hub.(log := w.hub.log + [Closed(peer)]), w.peers[peer := []])
      else
        w.hub.log <= w'.hub.log && forall j | |w.hub.log| <= j < |w'.hub.log| :: w'.hub.log[j].ToClient?
  {
    if |w.peers[peer]| + |bytes| <= maxBuf {
      ExtractedAreFrames(w.peers[peer] + bytes);
      FramesOnlyForward(w.hub, peer, Extract(w.peers[peer] + bytes).frames, alive);
    }
  }

  // ------------------------------------------- from a cut-up stream to the client

  function DataAll(maxBuf: nat, h: Hub, peer: SessionId, chunks: seq<seq<Byte>>, alive: set<SessionId>): (Hub, seq<Byte>) {
    if chunks == [] then (h, [])
    else
      var (h', buf) := DataAll(maxBuf, h, peer, chunks[..|chunks| - 1], alive);
      AfterData(maxBuf, h', peer, buf, chunks[|chunks| - 1], alive)
  }

  lemma {:induction false} AfterFramesAppend(h: Hub, peer: SessionId, fs: seq<seq<Byte>>, gs: seq<seq<Byte>>, alive: set<SessionId>)
    requires AllFrames(fs) && AllFrames(gs)
    ensures AfterFrames(h, peer, fs + gs, alive) == AfterFrames(AfterFrames(h, peer, fs, alive), peer, gs, alive)
    decreases |fs|
  {
    if fs == [] {
      assert fs + gs == gs;
    } else {
      assert (fs + gs)[1..] == fs[1..] + gs;
      AfterFramesAppend(AfterFrame(h, peer, fs[0], alive), peer, fs[1..], gs, alive);
    }
  }

  /** Handling chunk by chunk is handling, in order, the frames the connection yields. */
  lemma {:induction false} DataAllHandlesFrames(maxBuf: nat, h: Hub, peer: SessionId, chunks: seq<seq<Byte>>, alive: set<SessionId>)
    requires !FeedAll(maxBuf, FRESH, chunks).overflowed
    ensures var c := FeedAll(maxBuf, FRESH, chunks);
      AllFrames(c.frames) && DataAll(maxBuf, h, peer, chunks, alive) == (AfterFrames(h, peer, c.frames, alive), c.buf)
    decreases |chunks|
  {
    if chunks != [] {
      var init, last := chunks[..|chunks| - 1], chunks[|chunks| - 1];
      DataAllHandlesFrames(maxBuf, h, peer, init, alive);
      var c := FeedAll(maxBuf, FRESH, init);
      ExtractedAreFrames(c.buf + last);
      AfterFramesAppend(h, peer, c.frames, Extract(c.buf + last).frames, alive);
    }
  }

  function QueryFrames(blobs: seq<seq<Byte>>): seq<seq<Byte>> {
    seq(|blobs|, i requires 0 <= i < |blobs| => BlobFrame(MSG_QUERY, blobs[i]))
  }

  function Forwarded(client: SessionId, blobs: seq<seq<Byte>>, peer: SessionId): seq<Effect> {
    seq(|blobs|, i requires 0 <= i < |blobs| => ToClient(client, blobs[i], peer))
  }

  lemma QueryFrameBlob(blob: seq<Byte>)
    requires |blob| <= MAX_BLOB
    ensures IsFrame(BlobFrame(MSG_QUERY, blob)) && QueryBlob(BlobFrame(MSG_QUERY, blob)) == Some(blob)
  {
    FrameFields(MSG_QUERY, EncodeBlob(blob));
    BlobRoundTrip(blob, []);
    assert EncodeBlob(blob) + [] == EncodeBlob(blob);
  }

  lemma QueryFramesAreFrames(blobs: seq<seq<Byte>>)
    requires forall i | 0 <= i < |blobs| :: |blobs[i]| <= MAX_BLOB
    ensures AllFrames(QueryFrames(blobs))
  {
    forall i | 0 <= i < |blobs| {
      QueryFrameBlob(blobs[i]);
    }
  }

  lemma FirstBlobApart(blobs: seq<seq<Byte>>, client: SessionId, peer: SessionId)
    requires blobs != []
    ensures QueryFrames(blobs) == [BlobFrame(MSG_QUERY, blobs[0])] + QueryFrames(blobs[1..])
    ensures QueryFrames(blobs)[1..] == QueryFrames(blobs[1..])
    ensures Forwarded(client, blobs, peer) == [ToClient(client, blobs[0], peer)] + Forwarded(client, blobs[1..], peer)
  {
  }

  lemma {:induction false} QueryFramesForwarded(h: Hub, peer: SessionId, blobs: seq<seq<Byte>>, client: SessionId, alive: set<SessionId>)
    requires h.activeClient == Some(client) && client in alive
    requires (forall i | 0 <= i < |blobs| :: |blobs[i]| <= MAX_BLOB) && AllFrames(QueryFrames(blobs))
    ensures AfterFrames(h, peer, QueryFrames(blobs), alive).log == h.log + Forwarded(client, blobs, peer)
    decreases |blobs|
  {
    if blobs != [] {
      var head, rest := QueryFrames(blobs)[0], blobs[1..];
      QueryFrameBlob(blobs[0]);
      var h' := AfterFrame(h, peer, head, alive);
      assert h'.log == h.log + [ToClient(client, blobs[0], peer)] && h'.activeClient == h.activeClient;
      FirstBlobApart(blobs, client, peer);
      QueryFramesForwarded(h', peer, rest, client, alive);
    }
  }

  /**
   A stream of queries reaches the active client blob by blob, in order and unchanged, however the
   stream is cut into arrivals, as long as the buffer limit is not hit.
   */
  lemma QueriesDelivered(maxBuf: nat, h: Hub, peer: SessionId, blobs: seq<seq<Byte>>, chunks: seq<seq<Byte>>,
                         client: SessionId, alive: set<SessionId>)
    requires h.activeClient == Some(client) && client in alive
    requires forall i | 0 <= i < |blobs| :: |blobs[i]| <= MAX_BLOB
    requires Concat(chunks) == Concat(QueryFrames(blobs))
    requires !FeedAll(maxBuf, FRESH, chunks).overflowed
    ensures var (h', rest) := DataAll(maxBuf, h, peer, chunks, alive);
      h'.log == h.log + Forwarded(client, blobs, peer) && rest == []
  {
    QueryFramesAreFrames(blobs);
    QueryFramesForwarded(h, peer, blobs, client, alive);
    ExtractFrames(QueryFrames(blobs), []);
    assert Concat(QueryFrames(blobs)) + [] == Concat(QueryFrames(blobs));
    assert QueryFrames(blobs) + [] == QueryFrames(blobs);
    ChunkIndependence(maxBuf, chunks);
    DataAllHandlesFrames(maxBuf, h, peer, chunks, alive);
  }
}
