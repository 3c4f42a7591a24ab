/**
 The bus endpoint and the bridge together: what the server hands to its callback is the bridge's query,
 and what the bridge replies is written on the server's connection.
 */
module Relay {
  import opened Wrappers
  import opened Bytes
  import opened BusGrammar
  import opened BusProtocol
  import opened QueryServer
  import B = GameGuardBridge
  import T = BridgeTheorems

  /** Socket reads of the game client's session are at most this long. */
  const READ_SIZE: nat := 8192

  datatype System = System(phase: Phase, hdr: seq<Byte>, bridge: B.State, written: seq<seq<Byte>>)

  datatype Event =
    | Accept(ok: bool)
    | Length(bytes: Option<seq<Byte>>)
    | Rest(bytes: Option<seq<Byte>>, env: B.Input)
    | ReplyWritten
    | Packet(data: seq<Byte>, env: B.Input)
    | BindWire(bound: bool)

  /** Completions come only for the operation that is outstanding, with the number of bytes asked for. */
  predicate Enabled(s: System, e: Event) {
    match e
    case Accept(_) => s.phase == Accepting
    case Length(bytes) => s.phase == ReadingLength && (bytes.Some? ==> |bytes.value| == 4)
    case Rest(bytes, _) =>
      s.phase == ReadingRest && |s.hdr| == 4 && LengthOk(RdBe32(s.hdr))
      && (bytes.Some? ==> |bytes.value| == RdBe32(s.hdr) - 4)
    case ReplyWritten => s.phase == Replying
    case Packet(data, _) => |data| <= READ_SIZE
    case BindWire(_) => true
  }

  function ReplyBytes(payload: seq<Byte>): seq<Byte>
    requires |payload| <= MAX_VALUE
  {
    ReplyEncodable(payload);
    Encoded(ReplyMessage(payload), [PACKET_KEY]).value
  }

  /** The packet is an answer in time to the pending query. */
  predicate Answers(b: B.State, data: seq<Byte>, env: B.Input) {
    b.pending && env.now <= b.deadline && B.IsAnswer(data)
  }

  function Step(cfg: B.Config, s: System, e: Event): System
    requires Enabled(s, e)
  {
    match e
    case Accept(ok) => if ok then s.(phase := ReadingLength) else s
    case Length(bytes) =>
      if bytes.None? then s.(phase := Accepting)
      else s.(hdr := bytes.value, phase := if LengthOk(RdBe32(bytes.value)) then ReadingRest else Accepting)
    case Rest(bytes, env) =>
      if bytes.None? then s.(phase := Accepting)
      else
        var query := Delivery(s.hdr + bytes.value);
        s.(phase := Served, bridge := if query.Some? then B.OnQuery(cfg, s.bridge, query.value, env).state else s.bridge)
    case ReplyWritten => s.(phase := Accepting)
    case Packet(data, env) =>
      var o := B.OnClientPacket(cfg, s.bridge, data, env);
      if Answers(s.bridge, data, env) && s.phase == Served then
        s.(bridge := o.state, phase := Replying, written := s.written + [ReplyBytes(data[..B.TrimLength(data)])])
      else s.(bridge := o.state)
    case BindWire(bound) => s.(bridge := s.bridge.(wire := bound))
  }

  const INITIAL := System(Accepting, [0, 0, 0, 0], B.INITIAL_STATE, [])

  // ------------------------------------------------------------------- the objects

  class RelayServer {
    const server: Server
    const bridge: B.Bridge

    ghost predicate Valid()
      reads this, server, bridge
    {
      && server.Valid()
      && (bridge.pending ==> server.phase == Served)
    }

    ghost function Abs(): System
      reads this, server, bridge
    {
      System(server.phase, server.hdr, bridge.Abs(), server.written)
    }

    constructor (cfg: B.Config)
      ensures Valid() && fresh(server) && fresh(bridge) && bridge.cfg == cfg && Abs() == INITIAL
    {
      server := new Server();
      bridge := new B.Bridge(cfg);
    }

    /** The frame's query, if it holds one, is the bridge's from here on. */
    method OnRest(bytes: Option<seq<Byte>>, env: B.Input)
      requires Valid() && Enabled(Abs(), Rest(bytes, env))
      modifies server, bridge
      ensures Valid() && Abs() == Step(bridge.cfg, old(Abs()), Rest(bytes, env))
    {
      ghost var frame := server.hdr + if bytes.Some? then bytes.value else [];
      var query := server.OnRest(bytes);
      if query.Some? {
        bridge.OnQueryFromKore(query.value, env);
      }
    }

    /** An answer goes out on the connection that asked: while a query is pending no other can be open. */
    method OnClientPacket(data: seq<Byte>, env: B.Input) returns (consumed: bool)
      requires Valid() && |data| <= READ_SIZE
      modifies server, bridge
      ensures Valid() && Abs() == Step(bridge.cfg, old(Abs()), Packet(data, env))
      ensures consumed == B.OnClientPacket(bridge.cfg, old(bridge.Abs()), data, env).consumed
    {
      var wasPending := bridge.pending;
      consumed := bridge.MaybeConsumeC2s(data, env);
      if wasPending && consumed {
        var payload := data[..B.TrimLength(data)];
        ReplyEncodable(payload);
        var error := server.SendReply(payload);
      }
    }
  }

  // ------------------------------------------------------------------- whole runs

  predicate Possible(cfg: B.Config, s: System, es: seq<Event>)
    decreases |es|
  {
    es != [] ==> Enabled(s, es[0]) && Possible(cfg, Step(cfg, s, es[0]), es[1..])
  }

  function Run(cfg: B.Config, s: System, es: seq<Event>): System
    requires Possible(cfg, s, es)
    decreases |es|
  {
    if es == [] then s else Run(cfg, Step(cfg, s, es[0]), es[1..])
  }

  /** The system before event i of the run. */
  function Before(cfg: B.Config, s: System, es: seq<Event>, i: nat): System
    requires Possible(cfg, s, es) && i <= |es|
    decreases |es|
  {
    if i == 0 then s else Before(cfg, Step(cfg, s, es[0]), es[1..], i - 1)
  }

  predicate Inv(s: System) {
    && (s.bridge.pending ==> s.phase == Served && s.bridge.lastQuery != [])
    && (s.phase == ReadingRest ==> |s.hdr| == 4 && LengthOk(RdBe32(s.hdr)))
    && s.phase != Overlapping
  }

  /**
   A query is pending only while the connection it came from waits for the reply, and no reply is ever
   written while something else is outstanding on the connection, in every run.
   */
  lemma {:induction false} PendingMeansServed(cfg: B.Config, s: System, es: seq<Event>)
    requires Inv(s) && Possible(cfg, s, es)
    ensures Inv(Run(cfg, s, es))
    decreases |es|
  {
    if es != [] {
      PendingMeansServed(cfg, Step(cfg, s, es[0]), es[1..]);
    }
  }

  // --------------------------------------------------------------- getting stuck

  /** A frame has been served and nobody is going to answer it. */
  predicate Stuck(s: System) {
    s.phase == Served && !s.bridge.pending
  }

  /** Once stuck, the endpoint never accepts a connection, reads a frame or writes a reply again, whatever happens. */
  lemma {:induction false} StuckForever(cfg: B.Config, s: System, es: seq<Event>)
    requires Stuck(s) && Possible(cfg, s, es)
    ensures Stuck(Run(cfg, s, es)) && Run(cfg, s, es).written == s.written
    ensures forall i | 0 <= i < |es| :: es[i].Packet? || es[i].BindWire?
    decreases |es|
  {
    if es != [] {
      StuckForever(cfg, Step(cfg, s, es[0]), es[1..]);
      assert es == [es[0]] + es[1..];
    }
  }

  /** What leaves nobody to answer the frame just served: it holds no query, or the bridge cannot pass the query on. */
  predicate LeavesUnanswered(s: System, frame: seq<Byte>, env: B.Input) {
    Delivery(frame).None? || !s.bridge.wire || !env.sendOk
  }

  /** What makes the bridge drop the pending query: a late packet, and no retry left or the resend fails. */
  predicate Abandons(cfg: B.Config, s: System, env: B.Input) {
    && s.bridge.pending && env.now > s.bridge.deadline
    && !(s.bridge.retryCount < cfg.maxRetries && s.bridge.wire && env.sendOk)
  }

  predicate Sticks(cfg: B.Config, s: System, e: Event) {
    || (e.Rest? && e.bytes.Some? && LeavesUnanswered(s, s.hdr + e.bytes.value, e.env))
    || (e.Packet? && Abandons(cfg, s, e.env))
  }

  /** A served frame leaves the endpoint stuck exactly if it holds no query, or there is no wire or no send. */
  lemma FrameOutcome(cfg: B.Config, s: System, bytes: seq<Byte>, env: B.Input)
    requires Inv(s) && Enabled(s, Rest(Some(bytes), env))
    ensures Stuck(Step(cfg, s, Rest(Some(bytes), env))) <==>
      Delivery(s.hdr + bytes).None? || !s.bridge.wire || !env.sendOk
  {
  }

  /**
   From a pending query, one packet leads on to the next connection exactly if it answers in time; it
   leaves the endpoint stuck exactly if it is late and there is no retry left or the resend fails.
   */
  lemma PacketOutcome(cfg: B.Config, s: System, data: seq<Byte>, env: B.Input)
    requires Inv(s) && s.bridge.pending && |data| <= READ_SIZE
    ensures var s' := Step(cfg, s, Packet(data, env));
      && (s'.phase == Replying <==> env.now <= s.bridge.deadline && B.IsAnswer(data))
      && (Stuck(s') <==>
            env.now > s.bridge.deadline && !(s.bridge.retryCount < cfg.maxRetries && s.bridge.wire && env.sendOk))
  {
  }

  lemma StepSticks(cfg: B.Config, s: System, e: Event)
    requires Inv(s) && Enabled(s, e)
    ensures Stuck(Step(cfg, s, e)) <==> Stuck(s) || Sticks(cfg, s, e)
  {
    if e.Rest? && e.bytes.Some? {
      FrameOutcome(cfg, s, e.bytes.value, e.env);
    } else if e.Packet? && s.bridge.pending {
      PacketOutcome(cfg, s, e.data, e.env);
    }
  }

  /** A run ends stuck exactly if some event in it served a frame that nobody answers or dropped the query. */
  lemma {:induction false} StuckIffSomeEventSticks(cfg: B.Config, s: System, es: seq<Event>)
    requires Inv(s) && !Stuck(s) && Possible(cfg, s, es)
    ensures Stuck(Run(cfg, s, es)) <==> exists i :: 0 <= i < |es| && Sticks(cfg, Before(cfg, s, es, i), es[i])
    decreases |es|
  {
    if es != [] {
      var s', rest := Step(cfg, s, es[0]), es[1..];
      StepSticks(cfg, s, es[0]);
      assert forall i | 0 < i < |es| :: es[i] == rest[i - 1] && Before(cfg, s, es, i) == Before(cfg, s', rest, i - 1);
      if Stuck(s') {
        StuckForever(cfg, s', rest);
        assert Sticks(cfg, Before(cfg, s, es, 0), es[0]);
      } else {
        StuckIffSomeEventSticks(cfg, s', rest);
        if Stuck(Run(cfg, s', rest)) {
          var i :| 0 <= i < |rest| && Sticks(cfg, Before(cfg, s', rest, i), rest[i]);
          assert Sticks(cfg, Before(cfg, s, es, i + 1), es[i + 1]);
        }
      }
    }
  }

  /** A stuck system is reached from the start: a frame of six bytes that does not decode is enough. */
  lemma StuckReached(cfg: B.Config, env: B.Input) returns (es: seq<Event>)
    ensures es == [Accept(true), Length(Some([0, 0, 0, 6])), Rest(Some([2, 0]), env)]
    ensures Possible(cfg, INITIAL, es) && Decoded([0, 0, 0, 6] + [2, 0]).Failure? && Stuck(Run(cfg, INITIAL, es))
  {
    var hdr: seq<Byte>, rest: seq<Byte> := [0, 0, 0, 6], [2, 0];
    es := [Accept(true), Length(Some(hdr)), Rest(Some(rest), env)];
    var s1 := Step(cfg, INITIAL, es[0]);
    var s2 := Step(cfg, s1, es[1]);
    assert RdBe32(hdr) == 6 && Enabled(s2, es[2]);
    var s3 := Step(cfg, s2, es[2]);
    assert Possible(cfg, s3, []) && Run(cfg, s3, []) == s3;
    assert [es[2]][1..] == [];
    assert Possible(cfg, s2, [es[2]]) && Run(cfg, s2, [es[2]]) == s3;
    assert [es[1], es[2]][1..] == [es[2]];
    assert Possible(cfg, s1, [es[1], es[2]]) && Run(cfg, s1, [es[1], es[2]]) == s3;
    assert es[1..] == [es[1], es[2]];
    FrameOutcome(cfg, s2, rest, env);
  }

  /** The way back to accepting from a system that is not stuck. */
  function WayBack(s: System): (es: seq<Event>)
  {
    var env := B.Input(s.bridge.deadline, s.bridge.deadline, 0, true);
    match s.phase
    case ReadingLength => [Length(None)]
    case ReadingRest => [Rest(None, env)]
    case Served => [Packet(ANSWER, env), ReplyWritten]
    case Replying => [ReplyWritten]
    case _ => []
  }

  const ANSWER: seq<Byte> := [0xD0, 0x09, 0x04, 0x00]

  /** Stuck is what it means that no continuation of the run ever accepts a connection again. */
  lemma StuckIffNeverAcceptsAgain(cfg: B.Config, s: System)
    requires Inv(s)
    ensures Stuck(s) <==> forall es :: Possible(cfg, s, es) ==> Run(cfg, s, es).phase != Accepting
  {
    if Stuck(s) {
      forall es | Possible(cfg, s, es) ensures Run(cfg, s, es).phase != Accepting {
        StuckForever(cfg, s, es);
      }
    } else {
      WayBackAccepts(cfg, s);
    }
  }

  lemma WayBackAccepts(cfg: B.Config, s: System)
    requires Inv(s) && !Stuck(s)
    ensures Possible(cfg, s, WayBack(s)) && Run(cfg, s, WayBack(s)).phase == Accepting
  {
    var es := WayBack(s);
    if s.phase == Served {
      var s' := Step(cfg, s, es[0]);
      assert B.IsAnswer(ANSWER) && s'.phase == Replying;
      assert es[1..] == [ReplyWritten] && [ReplyWritten][1..] == [];
    } else if es != [] {
      assert es[1..] == [];
    }
  }

  // -------------------------------------------------------------- what is written

  /** At the peer, the frame decodes to a Poseidon reply with the client's packet cut to its length, whatever follows. */
  ghost predicate IsReplyTo(bytes: seq<Byte>, data: seq<Byte>) {
    |data| >= 4 && exists payload :: T.IsCut(payload, data) && DecodesToReply(bytes, payload)
  }

  /** A map message "Poseidon Reply" whose only argument is the binary "packet". */
  ghost predicate DecodesToReply(bytes: seq<Byte>, payload: seq<Byte>) {
    var m := Message(0, Ascii("Poseidon Reply"), map[Ascii("packet") := Value(0, payload, 0)], []);
    forall tail :: Decoded(bytes + tail) == Success((m, |bytes|))
  }

  lemma AnswerIsWritten(cfg: B.Config, s: System, data: seq<Byte>, env: B.Input)
    requires s.phase == Served && Answers(s.bridge, data, env) && |data| <= READ_SIZE
    ensures var s' := Step(cfg, s, Packet(data, env));
      |s'.written| == |s.written| + 1 && s'.written[..|s.written|] == s.written
      && IsReplyTo(s'.written[|s.written|], data)
  {
    var payload := data[..B.TrimLength(data)];
    ReplyEncodable(payload);
    forall tail ensures Decoded(ReplyBytes(payload) + tail) == Success((ReplyMessage(payload), |ReplyBytes(payload)|)) {
      ReplyDecoded(payload, ReplyBytes(payload), tail);
    }
    assert DecodesToReply(ReplyBytes(payload), payload) && T.IsCut(payload, data);
  }

  lemma {:induction false} WrittenGrows(cfg: B.Config, s: System, es: seq<Event>)
    requires Possible(cfg, s, es)
    ensures s.written <= Run(cfg, s, es).written
    decreases |es|
  {
    if es != [] {
      WrittenGrows(cfg, Step(cfg, s, es[0]), es[1..]);
    }
  }

  /** Frame j was written because packet k of the run answered the pending query in time, and it carries that packet. */
  lemma {:induction false} RepliesAreGenuine(cfg: B.Config, s: System, es: seq<Event>, j: nat) returns (k: nat)
    requires Possible(cfg, s, es) && |s.written| <= j < |Run(cfg, s, es).written|
    ensures k < |es| && es[k].Packet? && Before(cfg, s, es, k).phase == Served
    ensures Answers(Before(cfg, s, es, k).bridge, es[k].data, es[k].env)
    ensures |Before(cfg, s, es, k).written| == j
    ensures IsReplyTo(Run(cfg, s, es).written[j], es[k].data)
    decreases |es|
  {
    var s' := Step(cfg, s, es[0]);
    if j < |s'.written| {
      k := 0;
      AnswerIsWritten(cfg, s, es[0].data, es[0].env);
      WrittenGrows(cfg, s', es[1..]);
    } else {
      k := RepliesAreGenuine(cfg, s', es[1..], j);
      k := k + 1;
    }
  }

  // ------------------------------------------------------------------ end to end

  lemma RunCons(cfg: B.Config, s: System, es: seq<Event>, s': System, rest: seq<Event>)
    requires es != [] && es[1..] == rest && Enabled(s, es[0]) && s' == Step(cfg, s, es[0])
    requires Possible(cfg, s', rest)
    ensures Possible(cfg, s, es) && Run(cfg, s, es) == Run(cfg, s', rest)
    ensures forall i | 0 < i <= |es| :: Before(cfg, s, es, i) == Before(cfg, s', rest, i - 1)
  {
  }

  lemma RunFive(cfg: B.Config, s: System, es: seq<Event>, s1: System, s2: System, s3: System, s4: System, s5: System)
    requires |es| == 5
    requires Enabled(s, es[0]) && s1 == Step(cfg, s, es[0])
    requires Enabled(s1, es[1]) && s2 == Step(cfg, s1, es[1])
    requires Enabled(s2, es[2]) && s3 == Step(cfg, s2, es[2])
    requires Enabled(s3, es[3]) && s4 == Step(cfg, s3, es[3])
    requires Enabled(s4, es[4]) && s5 == Step(cfg, s4, es[4])
    ensures Possible(cfg, s, es) && Run(cfg, s, es) == s5 && Before(cfg, s, es, 3) == s3
  {
    var t1, t2, t3, t4 := es[1..], es[2..], es[3..], es[4..];
    RunCons(cfg, s4, t4, s5, []);
    RunCons(cfg, s3, t3, s4, t4);
    RunCons(cfg, s2, t2, s3, t3);
    RunCons(cfg, s1, t1, s2, t2);
    RunCons(cfg, s, es, s1, t1);
    assert Before(cfg, s3, t3, 0) == s3;
    assert Before(cfg, s2, t2, 1) == s3;
    assert Before(cfg, s1, t1, 2) == s3;
  }

  /** A connection that brings a query frame and gets the client's packet back. */
  function Exchange(frame: seq<Byte>, asked: B.Input, data: seq<Byte>, answered: B.Input): seq<Event>
    requires |frame| >= 4
  {
    [Accept(true), Length(Some(frame[..4])), Rest(Some(frame[4..]), asked), Packet(data, answered), ReplyWritten]
  }

  lemma QueryServed(cfg: B.Config, s: System, rest: seq<Byte>, query: seq<Byte>, asked: B.Input)
    requires Inv(s) && Enabled(s, Rest(Some(rest), asked)) && Delivery(s.hdr + rest) == Some(query)
    requires s.bridge.wire && asked.sendOk
    ensures var s' := Step(cfg, s, Rest(Some(rest), asked));
      && s'.phase == Served && s'.written == s.written && s'.bridge.pending
      && T.IsFramingOf(s'.bridge.lastQuery, query)
      && s'.bridge.deadline == asked.now + B.RandomizedTimeout(cfg, asked.percent)
  {
    T.QueryOutcome(cfg, s.bridge, query, asked);
  }

  lemma AnswersInTime(b: B.State, data: seq<Byte>, answered: B.Input)
    requires b.pending && answered.now <= b.deadline
    requires |data| >= 4 && (T.HasOpcode(data, 0xD0, 0x09) || T.HasOpcode(data, 0x9F, 0x09))
    ensures Answers(b, data, answered)
  {
  }

  /**
   A whole exchange: a frame that holds a query is passed on to the bound client as a challenge, and the client's
   answer in time goes back as the one frame written, cut to its length; then the next connection is accepted.
   */
  lemma QueryAnswered(cfg: B.Config, s: System, frame: seq<Byte>, query: seq<Byte>, asked: B.Input, data: seq<Byte>, answered: B.Input)
    requires Inv(s) && s.phase == Accepting && s.bridge.wire && asked.sendOk
    requires 6 <= |frame| <= MAX_FRAME && RdBe32(frame) == |frame| && Delivery(frame) == Some(query)
    requires 4 <= |data| <= READ_SIZE && (T.HasOpcode(data, 0xD0, 0x09) || T.HasOpcode(data, 0x9F, 0x09))
    requires answered.now <= asked.now + B.RandomizedTimeout(cfg, asked.percent)
    ensures var es := Exchange(frame, asked, data, answered);
      && Possible(cfg, s, es)
      && T.IsFramingOf(Before(cfg, s, es, 3).bridge.lastQuery, query)
      && var s' := Run(cfg, s, es);
         s'.phase == Accepting && |s'.written| == |s.written| + 1 && s'.written[..|s.written|] == s.written
         && IsReplyTo(s'.written[|s.written|], data)
  {
    var es := Exchange(frame, asked, data, answered);
    var hdr, rest := frame[..4], frame[4..];
    assert hdr + rest == frame && RdBe32(hdr) == RdBe32(frame);
    var s1 := Step(cfg, s, es[0]);
    var s2 := Step(cfg, s1, es[1]);
    var s3 := Step(cfg, s2, es[2]);
    QueryServed(cfg, s2, rest, query, asked);
    AnswersInTime(s3.bridge, data, answered);
    AnswerIsWritten(cfg, s3, data, answered);
    var s4 := Step(cfg, s3, es[3]);
    var s5 := Step(cfg, s4, es[4]);
    RunFive(cfg, s, es, s1, s2, s3, s4, s5);
  }
}
