/**
 The GameGuard bridge: one outstanding challenge to the game client at a time, resent when its
 deadline has passed, answered by the client's next GameGuard packet.

 Step is the specification of one call. Times, the random percentage and whether a send succeeds
 come from outside and are part of the event.
 */
module GameGuardBridge {
  import opened Bytes

  const CHALLENGE: U16 := 0x09CF
  const RESPONSE: U16 := 0x09D0
  const RESPONSE_LEGACY: U16 := 0x099F

  // --------------------------------------------------------------------- framing

  /** The length of the first packet in data: its own length field where that is usable, else all of data. */
  function TrimLength(data: seq<Byte>): (n: nat)
    ensures n <= |data|
  {
    if |data| >= 4 && 4 <= RdLe16(data[2..]) <= |data| then RdLe16(data[2..]) else |data|
  }

  predicate IsChallenge(data: seq<Byte>) {
    |data| >= 4 && RdLe16(data) == CHALLENGE
  }

  /** The bytes sent for a query: a challenge packet is trimmed, anything else becomes the body of one. */
  function Framed(query: seq<Byte>): (f: seq<Byte>)
  {
    if IsChallenge(query) then query[..TrimLength(query)]
    else Le16(CHALLENGE) + Le16((4 + |query|) % TWO16) + query
  }

  /** The length recorded for a query: the length field of what is sent. */
  function RequestLength(query: seq<Byte>): U16 {
    if IsChallenge(query) then RdLe16(query[2..]) else (4 + |query|) % TWO16
  }

  lemma FramedShape(query: seq<Byte>)
    ensures IsChallenge(Framed(query))
    ensures RdLe16(Framed(query)[2..]) == RequestLength(query)
  {
    if !IsChallenge(query) {
      var f := Framed(query);
      Le16RoundTrip(CHALLENGE, f[2..]);
      assert f == Le16(CHALLENGE) + f[2..];
      assert f[2..] == Le16((4 + |query|) % TWO16) + query;
      Le16RoundTrip((4 + |query|) % TWO16, query);
    } else {
      var n := TrimLength(query);
      assert query[..n][2..] == query[2..n];
    }
  }

  /**
   Framing what has been framed changes nothing, except where wrapping overflowed the 16-bit length
   field into a usable but shorter length: then the second framing cuts the packet short.
   */
  lemma FramingIdempotent(query: seq<Byte>)
    ensures Framed(Framed(query)) == Framed(query) <==>
      IsChallenge(query) || |query| <= 65531 || (4 + |query|) % TWO16 < 4
  {
    FramedShape(query);
    var f := Framed(query);
    if IsChallenge(query) {
      TrimIdempotent(query);
    } else {
      assert TrimLength(f) == if 4 <= (4 + |query|) % TWO16 then (4 + |query|) % TWO16 else |f|;
    }
  }

  /** A reply is a prefix of the packet that trimming leaves alone. */
  lemma TrimIdempotent(data: seq<Byte>)
    ensures TrimLength(data[..TrimLength(data)]) == TrimLength(data)
  {
    var n := TrimLength(data);
    if |data| >= 4 && 4 <= n {
      assert data[..n][2..] == data[2..n];
    }
  }

  /** The length field of what is sent is its size, for queries that fit a packet or whose own length was usable. */
  lemma LengthFieldIsSize(query: seq<Byte>)
    ensures RdLe16(Framed(query)[2..]) == |Framed(query)| <==>
      if IsChallenge(query) then 4 <= RdLe16(query[2..]) <= |query| else |query| <= 65531
  {
    FramedShape(query);
  }

  // ---------------------------------------------------------------- state and steps

  /** Settings that are fixed before traffic starts. Times are in milliseconds. */
  datatype Config = Config(maxRetries: int, baseTimeout: int, randomizeTimeout: bool)

  datatype State = State(
    wire: bool,
    pending: bool,
    timeout: int,
    deadline: int,
    sentAt: int,
    retryCount: int,
    lastQuery: seq<Byte>,
    lastRequestLength: U16)

  /** What one call reads from outside: two clock readings, a percentage, whether the session took the bytes. */
  datatype Input = Input(now: int, later: int, percent: int, sendOk: bool)

  datatype Event =
    | Query(query: seq<Byte>, env: Input)
    | ClientPacket(data: seq<Byte>, env: Input)
    | BindWire(bound: bool)

  /** One try at sending the challenge: when it was made and until when an answer is accepted. */
  datatype Attempt = Attempt(at: int, deadline: int)

  /** What the bridge does, as seen from outside; Accepted marks the start of a transaction. */
  datatype Action =
    | Accepted(query: seq<Byte>)
    | Send(bytes: seq<Byte>, ok: bool, attempt: Attempt)
    | Reply(bytes: seq<Byte>, at: int)
    | NoWire(at: int)
    | GiveUp(at: int)

  datatype Outcome = Outcome(state: State, actions: seq<Action>, consumed: bool)

  /** Integer division that truncates toward zero. */
  function TruncDiv(a: int, b: int): int
    requires b > 0
  {
    if a >= 0 then a / b else -(-a / b)
  }

  function RandomizedTimeout(cfg: Config, percent: int): int {
    if !cfg.randomizeTimeout then cfg.baseTimeout else TruncDiv(cfg.baseTimeout * percent, 100)
  }

  const INITIAL_STATE := State(false, false, 1500, 0, 0, 0, [], 0)

  function Idle(s: State): State {
    s.(pending := false, retryCount := 0, lastQuery := [])
  }

  function OnQuery(cfg: Config, s: State, query: seq<Byte>, env: Input): Outcome {
    if s.pending || !s.wire then Outcome(s, [], false)
    else
      var timeout := RandomizedTimeout(cfg, env.percent);
      var frame, attempt := Framed(query), Attempt(env.now, env.now + timeout);
      Outcome(
        s.(pending := env.sendOk, retryCount := 0, timeout := timeout, deadline := attempt.deadline,
           sentAt := env.later, lastQuery := frame, lastRequestLength := RequestLength(query)),
        [Accepted(query), Send(frame, env.sendOk, attempt)], false)
  }

  function OnExpired(cfg: Config, s: State, env: Input): Outcome {
    if s.retryCount < cfg.maxRetries then
      var timeout := RandomizedTimeout(cfg, env.percent);
      var attempt := Attempt(env.now, env.later + timeout);
      var armed := s.(retryCount := s.retryCount + 1, timeout := timeout, deadline := attempt.deadline);
      if !s.wire || s.lastQuery == [] then Outcome(Idle(armed), [NoWire(env.now)], false)
      else if env.sendOk then Outcome(armed, [Send(s.lastQuery, true, attempt)], false)
      else Outcome(Idle(armed), [Send(s.lastQuery, false, attempt)], false)
    else
      Outcome(Idle(s), [GiveUp(env.now)], false)
  }

  predicate IsAnswer(data: seq<Byte>) {
    |data| >= 4 && RdLe16(data) in {RESPONSE, RESPONSE_LEGACY}
  }

  function OnClientPacket(cfg: Config, s: State, data: seq<Byte>, env: Input): Outcome {
    if !s.pending then Outcome(s, [], |data| >= 2 && RdLe16(data) == RESPONSE)
    else if env.now > s.deadline then OnExpired(cfg, s, env)
    else if IsAnswer(data) then Outcome(Idle(s), [Reply(data[..TrimLength(data)], env.now)], true)
    else Outcome(s, [], false)
  }

  function Step(cfg: Config, s: State, e: Event): Outcome {
    match e
    case Query(query, env) => OnQuery(cfg, s, query, env)
    case ClientPacket(data, env) => OnClientPacket(cfg, s, data, env)
    case BindWire(bound) => Outcome(s.(wire := bound), [], false)
  }

  // ------------------------------------------------------------------- the bridge

  class Bridge {
    const cfg: Config

    var wire: bool
    var pending: bool
    var timeout: int
    var deadline: int
    var sentAt: int
    var retryCount: int
    var lastQuery: seq<Byte>
    var lastRequestLength: U16

    /** Everything done so far. */
    ghost var trace: seq<Action>

    ghost function Abs(): State
      reads this
    {
      State(wire, pending, timeout, deadline, sentAt, retryCount, lastQuery, lastRequestLength)
    }

    constructor (cfg: Config)
      ensures this.cfg == cfg && Abs() == INITIAL_STATE && trace == []
    {
      this.cfg := cfg;
      wire, pending := false, false;
      timeout, deadline, sentAt := 1500, 0, 0;
      retryCount, lastQuery, lastRequestLength := 0, [], 0;
      trace := [];
    }

    method BindClientWire(bound: bool)
      modifies this
      ensures Abs() == Step(cfg, old(Abs()), BindWire(bound)).state
      ensures trace == old(trace)
    {
      wire := bound;
    }

    method GetRandomizedTimeout(percent: int) returns (t: int)
      ensures t == RandomizedTimeout(cfg, percent)
    {
      if !cfg.randomizeTimeout {
        return cfg.baseTimeout;
      }
      t := TruncDiv(cfg.baseTimeout * percent, 100);
    }

    method OnQueryFromKore(query: seq<Byte>, env: Input)
      modifies this
      ensures var o := Step(cfg, old(Abs()), Query(query, env));
        Abs() == o.state && trace == old(trace) + o.actions
    {
      if pending {
        return;
      }
      if !wire {
        return;
      }
      retryCount := 0;
      pending := true;

      timeout := GetRandomizedTimeout(env.percent);
      deadline := env.now + timeout;
      sentAt := env.later;
      ghost var attempt := Attempt(env.now, deadline);

      var ggQuery := query;
      var pktLen: U16;
      var alreadyFramed := |ggQuery| >= 4 && RdLe16(ggQuery) == CHALLENGE;
      if alreadyFramed {
        pktLen := RdLe16(ggQuery[2..]);
        if pktLen >= 4 && pktLen <= |ggQuery| && pktLen != |ggQuery| {
          ggQuery := ggQuery[..pktLen];
        }
      } else {
        pktLen := (4 + |ggQuery|) % TWO16;
        var framed: seq<Byte> := Le16(CHALLENGE);
        framed := framed + Le16(pktLen);
        framed := framed + ggQuery;
        ggQuery := framed;
      }
      assert ggQuery == Framed(query);

      lastRequestLength := pktLen;
      lastQuery := ggQuery;
      trace := trace + [Accepted(query), Send(ggQuery, env.sendOk, attempt)];
      if !env.sendOk {
        pending := false;
      }
    }

    method Reset()
      modifies this
      ensures Abs() == Idle(old(Abs())) && trace == old(trace)
    {
      pending := false;
      retryCount := 0;
      lastQuery := [];
    }

    method MaybeConsumeC2s(data: seq<Byte>, env: Input) returns (consumed: bool)
      modifies this
      ensures var o := Step(cfg, old(Abs()), ClientPacket(data, env));
        Abs() == o.state && trace == old(trace) + o.actions && consumed == o.consumed
    {
      if !pending {
        return |data| >= 2 && RdLe16(data) == RESPONSE;
      }

      if env.now > deadline {
        if retryCount < cfg.maxRetries {
          retryCount := retryCount + 1;
          timeout := GetRandomizedTimeout(env.percent);
          deadline := env.later + timeout;
          if wire && lastQuery != [] {
            trace := trace + [Send(lastQuery, env.sendOk, Attempt(env.now, deadline))];
            if !env.sendOk {
              Reset();
            }
          } else {
            trace := trace + [NoWire(env.now)];
            Reset();
          }
          return false;
        } else {
          trace := trace + [GiveUp(env.now)];
          Reset();
          return false;
        }
      }

      if |data| < 2 {
        return false;
      }
      var op := RdLe16(data);
      if op == RESPONSE || op == RESPONSE_LEGACY {
        if |data| < 4 {
          return false;
        }
        var effLen := TrimLength(data);
        var reply := data[..effLen];
        trace := trace + [Reply(reply, env.now)];
        Reset();
        return true;
      }
      return false;
    }
  }
}
