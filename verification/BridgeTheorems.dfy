/**
 Whole runs of the bridge. Everything it ever does is a sequence of complete transactions, followed by
 the open one if a query is pending; a transaction is one accepted query, tries at sending the same
 bytes, and exactly one end.
 */
module BridgeTheorems {
  import opened Arithmetic
  import opened Bytes
  import opened GameGuardBridge

  // ------------------------------------------------------------------------ runs

  function Run(cfg: Config, es: seq<Event>): State {
    if es == [] then INITIAL_STATE else Step(cfg, Run(cfg, es[..|es| - 1]), es[|es| - 1]).state
  }

  function Trace(cfg: Config, es: seq<Event>): seq<Action> {
    if es == [] then []
    else Trace(cfg, es[..|es| - 1]) + Step(cfg, Run(cfg, es[..|es| - 1]), es[|es| - 1]).actions
  }

  // ------------------------------------------------------------ what one call does

  /** cut is a prefix of data, as long as the length field of data says where that is possible. */
  predicate IsCut(cut: seq<Byte>, data: seq<Byte>)
    requires |data| >= 4
  {
    var lo: int, hi: int := data[2], data[3];
    cut <= data && |cut| == if 4 <= lo + 256 * hi <= |data| then lo + 256 * hi else |data|
  }

  /** f is what is sent to the client for a query: the challenge packet, cut, or one around the query. */
  predicate IsFramingOf(f: seq<Byte>, query: seq<Byte>) {
    if |query| >= 4 && query[0] == 0xCF && query[1] == 0x09 then IsCut(f, query)
    else
      && |f| == 4 + |query| && f[0] == 0xCF && f[1] == 0x09 && f[4..] == query
      && var lo: int, hi: int := f[2], f[3]; lo + 256 * hi == (4 + |query|) % 0x1_0000
  }

  /** The packet has this opcode, on the wire. */
  predicate HasOpcode(data: seq<Byte>, lo: Byte, hi: Byte) {
    |data| >= 2 && data[0] == lo && data[1] == hi
  }

  lemma FramingIsCorrect(query: seq<Byte>)
    ensures IsFramingOf(Framed(query), query)
  {
    FramedShape(query);
    var f := Framed(query);
    if !IsChallenge(query) {
      assert f[4..] == query;
      assert RdLe16(f) == CHALLENGE && RdLe16(f[2..]) == (4 + |query|) % TWO16;
    }
  }

  /**
   A query is dropped while another is pending or no client is bound. Otherwise its framing is sent at
   once, and it is pending exactly if that succeeds, until its timeout has passed.
   */
  lemma QueryOutcome(cfg: Config, s: State, query: seq<Byte>, env: Input)
    ensures var o := Step(cfg, s, Query(query, env));
      if s.pending || !s.wire then o.state == s && o.actions == []
      else
        && |o.actions| == 2 && o.actions[0] == Accepted(query)
        && o.actions[1] == Send(o.state.lastQuery, env.sendOk, Attempt(env.now, o.state.deadline))
        && IsFramingOf(o.state.lastQuery, query)
        && o.state.deadline == env.now + RandomizedTimeout(cfg, env.percent)
        && o.state.pending == env.sendOk && o.state.wire && o.state.retryCount == 0
  {
    FramingIsCorrect(query);
  }

  /**
   What a client packet does. Without a pending query only a late 0x09D0 is swallowed. In time, a packet of
   at least four bytes with opcode 0x09D0 or 0x099F is consumed and answers the query with that packet, cut
   to its length field, and everything else is left alone. A late packet is not consumed; it makes the bridge
   send the same bytes again while there are retries and a client, and otherwise drop the query.
   */
  lemma ClientPacketOutcome(cfg: Config, s: State, data: seq<Byte>, env: Input)
    requires s.pending ==> s.lastQuery != []
    ensures var o := Step(cfg, s, ClientPacket(data, env));
      if !s.pending then
        o.state == s && o.actions == [] && o.consumed == HasOpcode(data, 0xD0, 0x09)
      else if env.now <= s.deadline then
        if |data| >= 4 && (HasOpcode(data, 0xD0, 0x09) || HasOpcode(data, 0x9F, 0x09)) then
          && o.consumed && !o.state.pending
          && exists reply :: o.actions == [Reply(reply, env.now)] && IsCut(reply, data)
        else
          o.state == s && o.actions == [] && !o.consumed
      else
        && !o.consumed
        && if s.retryCount < cfg.maxRetries && s.wire then
             && o.actions == [Send(s.lastQuery, env.sendOk, Attempt(env.now, env.later + RandomizedTimeout(cfg, env.percent)))]
             && o.state.pending == env.sendOk
             && (env.sendOk ==> o.state.retryCount == s.retryCount + 1 && o.state.lastQuery == s.lastQuery
                                && o.state.deadline == env.later + RandomizedTimeout(cfg, env.percent))
           else
             !o.state.pending && forall i | 0 <= i < |o.actions| :: !o.actions[i].Send? && !o.actions[i].Reply?
  {
    var o := Step(cfg, s, ClientPacket(data, env));
    assert |data| >= 2 ==> (RdLe16(data) == 0x09D0 <==> HasOpcode(data, 0xD0, 0x09));
    assert |data| >= 2 ==> (RdLe16(data) == 0x099F <==> HasOpcode(data, 0x9F, 0x09));
    if s.pending && env.now <= s.deadline && IsAnswer(data) {
      assert IsCut(data[..TrimLength(data)], data);
    }
  }

  /** The wire is bound exactly if the last binding bound it. */
  function LastBinding(es: seq<Event>): bool {
    if es == [] then false
    else if es[|es| - 1].BindWire? then es[|es| - 1].bound
    else LastBinding(es[..|es| - 1])
  }

  lemma {:induction false} WireFollowsBindings(cfg: Config, es: seq<Event>)
    ensures Run(cfg, es).wire == LastBinding(es)
  {
    if es != [] {
      WireFollowsBindings(cfg, es[..|es| - 1]);
    }
  }

  // ---------------------------------------------------------------- transactions

  datatype End =
    | Replied(bytes: seq<Byte>, at: int)
    | SendFailed(attempt: Attempt)
    | WireLost(at: int)
    | GaveUp(at: int)

  datatype Transaction = Transaction(query: seq<Byte>, attempts: seq<Attempt>, end: End)

  function Tries(frame: seq<Byte>, attempts: seq<Attempt>): seq<Action> {
    seq(|attempts|, i requires 0 <= i < |attempts| => Send(frame, true, attempts[i]))
  }

  function OpenActions(query: seq<Byte>, attempts: seq<Attempt>): seq<Action> {
    [Accepted(query)] + Tries(Framed(query), attempts)
  }

  function EndAction(query: seq<Byte>, end: End): Action {
    match end
    case Replied(bytes, at) => Reply(bytes, at)
    case SendFailed(attempt) => Send(Framed(query), false, attempt)
    case WireLost(at) => NoWire(at)
    case GaveUp(at) => GiveUp(at)
  }

  function Actions(tx: Transaction): seq<Action> {
    OpenActions(tx.query, tx.attempts) + [EndAction(tx.query, tx.end)]
  }

  function AllActions(txs: seq<Transaction>): seq<Action> {
    if txs == [] then [] else AllActions(txs[..|txs| - 1]) + Actions(txs[|txs| - 1])
  }

  function Retries(cfg: Config): nat {
    if cfg.maxRetries < 0 then 0 else cfg.maxRetries
  }

  /** Each try is made only after the deadline of the one before. */
  predicate Spaced(attempts: seq<Attempt>) {
    forall i | 0 < i < |attempts| :: attempts[i].at > attempts[i - 1].deadline
  }

  predicate ExpiredAt(attempts: seq<Attempt>, at: int) {
    attempts != [] && at > attempts[|attempts| - 1].deadline
  }

  predicate IsReply(bytes: seq<Byte>) {
    IsAnswer(bytes) && TrimLength(bytes) == |bytes|
  }

  /**
   A complete transaction: at most one try more than there are retries, an answer in time, and giving
   up only when every retry has been used and has expired.
   */
  predicate Valid(cfg: Config, tx: Transaction) {
    && Spaced(tx.attempts)
    && |tx.attempts| <= Retries(cfg) + 1
    && match tx.end
       case Replied(bytes, at) =>
         tx.attempts != [] && at <= tx.attempts[|tx.attempts| - 1].deadline && IsReply(bytes)
       case SendFailed(attempt) =>
         |tx.attempts| <= Retries(cfg) && (tx.attempts != [] ==> ExpiredAt(tx.attempts, attempt.at))
       case WireLost(at) => |tx.attempts| <= Retries(cfg) && ExpiredAt(tx.attempts, at)
       case GaveUp(at) => |tx.attempts| == Retries(cfg) + 1 && ExpiredAt(tx.attempts, at)
  }

  /** What the state remembers of the open transaction. */
  predicate Open(cfg: Config, s: State, query: seq<Byte>, attempts: seq<Attempt>) {
    && s.lastQuery == Framed(query)
    && 0 <= s.retryCount <= Retries(cfg)
    && |attempts| == s.retryCount + 1
    && Spaced(attempts)
    && attempts[s.retryCount].deadline == s.deadline
  }

  /** How a state and a trace decompose into transactions. */
  datatype Ledger = Ledger(txs: seq<Transaction>, query: seq<Byte>, attempts: seq<Attempt>)

  predicate Explains(cfg: Config, l: Ledger, s: State, trace: seq<Action>) {
    && (forall i | 0 <= i < |l.txs| :: Valid(cfg, l.txs[i]))
    && if s.pending then
         Open(cfg, s, l.query, l.attempts) && trace == AllActions(l.txs) + OpenActions(l.query, l.attempts)
       else
         s.retryCount == 0 && trace == AllActions(l.txs)
  }

  /** Closing the open transaction. */
  function Close(l: Ledger, end: End): Ledger {
    l.(txs := l.txs + [Transaction(l.query, l.attempts, end)])
  }

  lemma AllActionsSnoc(txs: seq<Transaction>, tx: Transaction)
    ensures AllActions(txs + [tx]) == AllActions(txs) + Actions(tx)
  {
    assert (txs + [tx])[..|txs|] == txs;
  }

  lemma CloseExplains(cfg: Config, l: Ledger, s: State, trace: seq<Action>, s': State, end: End)
    requires Explains(cfg, l, s, trace) && s.pending
    requires Valid(cfg, Transaction(l.query, l.attempts, end))
    requires !s'.pending && s'.retryCount == 0
    ensures Explains(cfg, Close(l, end), s', trace + [EndAction(l.query, end)])
  {
    AllActionsSnoc(l.txs, Transaction(l.query, l.attempts, end));
  }

  lemma FirstTry(query: seq<Byte>, attempt: Attempt)
    ensures OpenActions(query, [attempt]) == [Accepted(query), Send(Framed(query), true, attempt)]
  {
  }

  lemma FailedAtOnce(query: seq<Byte>, attempt: Attempt)
    ensures Actions(Transaction(query, [], SendFailed(attempt))) == [Accepted(query), Send(Framed(query), false, attempt)]
  {
  }

  lemma ValidSnoc(cfg: Config, txs: seq<Transaction>, tx: Transaction)
    requires (forall i | 0 <= i < |txs| :: Valid(cfg, txs[i])) && Valid(cfg, tx)
    ensures forall i | 0 <= i < |txs + [tx]| :: Valid(cfg, (txs + [tx])[i])
  {
  }

  lemma QueryExplained(cfg: Config, l: Ledger, s: State, trace: seq<Action>, query: seq<Byte>, env: Input)
    returns (l': Ledger)
    requires Explains(cfg, l, s, trace) && !s.pending && s.wire
    ensures var o := OnQuery(cfg, s, query, env); Explains(cfg, l', o.state, trace + o.actions)
  {
    var o := OnQuery(cfg, s, query, env);
    var attempt := Attempt(env.now, o.state.deadline);
    if env.sendOk {
      l' := Ledger(l.txs, query, [attempt]);
      FirstTry(query, attempt);
    } else {
      var tx := Transaction(query, [], SendFailed(attempt));
      l' := l.(txs := l.txs + [tx]);
      FailedAtOnce(query, attempt);
      AllActionsSnoc(l.txs, tx);
      ValidSnoc(cfg, l.txs, tx);
    }
  }

  lemma ResendExplained(cfg: Config, l: Ledger, s: State, trace: seq<Action>, s': State, attempt: Attempt)
    returns (l': Ledger)
    requires Explains(cfg, l, s, trace) && s.pending
    requires attempt.at > s.deadline && s.retryCount < cfg.maxRetries
    requires s'.pending && s'.lastQuery == s.lastQuery && s'.retryCount == s.retryCount + 1 && s'.deadline == attempt.deadline
    ensures Explains(cfg, l', s', trace + [Send(s.lastQuery, true, attempt)])
  {
    l' := l.(attempts := l.attempts + [attempt]);
    assert Tries(Framed(l.query), l'.attempts) == Tries(Framed(l.query), l.attempts) + [Send(s.lastQuery, true, attempt)];
  }

  lemma ExpiryExplained(cfg: Config, l: Ledger, s: State, trace: seq<Action>, env: Input)
    returns (l': Ledger)
    requires Explains(cfg, l, s, trace) && s.pending && env.now > s.deadline
    ensures var o := OnExpired(cfg, s, env); Explains(cfg, l', o.state, trace + o.actions)
  {
    var o := OnExpired(cfg, s, env);
    FramedShape(l.query);
    if s.retryCount >= cfg.maxRetries {
      CloseExplains(cfg, l, s, trace, o.state, GaveUp(env.now));
      l' := Close(l, GaveUp(env.now));
    } else if !s.wire {
      CloseExplains(cfg, l, s, trace, o.state, WireLost(env.now));
      l' := Close(l, WireLost(env.now));
    } else {
      var attempt := Attempt(env.now, env.later + RandomizedTimeout(cfg, env.percent));
      if env.sendOk {
        l' := ResendExplained(cfg, l, s, trace, o.state, attempt);
      } else {
        CloseExplains(cfg, l, s, trace, o.state, SendFailed(attempt));
        l' := Close(l, SendFailed(attempt));
      }
    }
  }

  lemma AnswerExplained(cfg: Config, l: Ledger, s: State, trace: seq<Action>, data: seq<Byte>, now: int)
    returns (l': Ledger)
    requires Explains(cfg, l, s, trace) && s.pending && now <= s.deadline && IsAnswer(data)
    ensures Explains(cfg, l', Idle(s), trace + [Reply(data[..TrimLength(data)], now)])
  {
    TrimIdempotent(data);
    var end := Replied(data[..TrimLength(data)], now);
    CloseExplains(cfg, l, s, trace, Idle(s), end);
    l' := Close(l, end);
  }

  lemma StepExplained(cfg: Config, l: Ledger, s: State, trace: seq<Action>, e: Event) returns (l': Ledger)
    requires Explains(cfg, l, s, trace)
    ensures var o := Step(cfg, s, e); Explains(cfg, l', o.state, trace + o.actions)
  {
    var o := Step(cfg, s, e);
    if o.actions == [] {
      l' := l;
      assert trace + [] == trace;
    } else if e.Query? {
      l' := QueryExplained(cfg, l, s, trace, e.query, e.env);
    } else if e.env.now > s.deadline {
      l' := ExpiryExplained(cfg, l, s, trace, e.env);
    } else {
      l' := AnswerExplained(cfg, l, s, trace, e.data, e.env.now);
    }
  }

  /** Every run, whatever the queries, packets, rebinds, times and send results, is made of transactions. */
  lemma {:induction false} RunIsTransactions(cfg: Config, es: seq<Event>) returns (l: Ledger)
    ensures Explains(cfg, l, Run(cfg, es), Trace(cfg, es))
  {
    if es == [] {
      l := Ledger([], [], []);
    } else {
      var before := RunIsTransactions(cfg, es[..|es| - 1]);
      l := StepExplained(cfg, before, Run(cfg, es[..|es| - 1]), Trace(cfg, es[..|es| - 1]), es[|es| - 1]);
    }
  }

  /** While a query is pending, the saved packet is a challenge and the retry count is in range; otherwise the count is 0. */
  lemma {:induction false} PendingInvariant(cfg: Config, es: seq<Event>)
    ensures var s := Run(cfg, es);
      if s.pending then IsChallenge(s.lastQuery) && 0 <= s.retryCount <= Retries(cfg) else s.retryCount == 0
  {
    var l := RunIsTransactions(cfg, es);
    FramedShape(l.query);
  }

  // ---------------------------------------------------------------- conservation

  datatype Kind = Accepting | Sending | Replying | Failing | LosingWire | GivingUp

  function KindOf(a: Action): Kind {
    match a
    case Accepted(_) => Accepting
    case Send(_, ok, _) => if ok then Sending else Failing
    case Reply(_, _) => Replying
    case NoWire(_) => LosingWire
    case GiveUp(_) => GivingUp
  }

  function Count(trace: seq<Action>, k: Kind): nat {
    if trace == [] then 0 else Count(trace[..|trace| - 1], k) + if KindOf(trace[|trace| - 1]) == k then 1 else 0
  }

  lemma {:induction false} CountAppend(a: seq<Action>, b: seq<Action>, k: Kind)
    ensures Count(a + b, k) == Count(a, k) + Count(b, k)
  {
    if b == [] {
      assert a + b == a;
    } else {
      CountAppend(a, b[..|b| - 1], k);
      assert (a + b)[..|a + b| - 1] == a + b[..|b| - 1];
    }
  }

  /** Accepted queries less the ends of transactions. */
  function Balance(trace: seq<Action>): int {
    Count(trace, Accepting)
    - Count(trace, Replying) - Count(trace, Failing) - Count(trace, LosingWire) - Count(trace, GivingUp)
  }

  lemma BalanceAppend(a: seq<Action>, b: seq<Action>)
    ensures Balance(a + b) == Balance(a) + Balance(b)
  {
    CountAppend(a, b, Accepting);
    CountAppend(a, b, Replying);
    CountAppend(a, b, Failing);
    CountAppend(a, b, LosingWire);
    CountAppend(a, b, GivingUp);
  }

  function Weight(k: Kind): int {
    if k == Accepting then 1 else if k == Sending then 0 else -1
  }

  lemma BalanceOne(a: Action)
    ensures Balance([a]) == Weight(KindOf(a))
  {
    assert [a][..0] == [];
    assert forall k :: Count([a], k) == if KindOf(a) == k then 1 else 0;
  }

  lemma BalanceTwo(a: Action, b: Action)
    ensures Balance([a, b]) == Weight(KindOf(a)) + Weight(KindOf(b))
  {
    BalanceAppend([a], [b]);
    BalanceOne(a);
    BalanceOne(b);
    assert [a] + [b] == [a, b];
  }

  lemma StepBalance(cfg: Config, s: State, e: Event)
    ensures var o := Step(cfg, s, e);
      Balance(o.actions) == (if o.state.pending then 1 else 0) - (if s.pending then 1 else 0)
  {
    var o := Step(cfg, s, e);
    if |o.actions| == 1 {
      BalanceOne(o.actions[0]);
    } else if |o.actions| == 2 {
      BalanceTwo(o.actions[0], o.actions[1]);
    }
  }

  /** Accepted queries are replies, failed sends, lost wires and give-ups, plus the one that is pending. */
  lemma {:induction false} Conservation(cfg: Config, es: seq<Event>)
    ensures var t := Trace(cfg, es);
      Count(t, Accepting) == Count(t, Replying) + Count(t, Failing) + Count(t, LosingWire) + Count(t, GivingUp)
                           + if Run(cfg, es).pending then 1 else 0
  {
    if es != [] {
      var init, e := es[..|es| - 1], es[|es| - 1];
      Conservation(cfg, init);
      StepBalance(cfg, Run(cfg, init), e);
      BalanceAppend(Trace(cfg, init), Step(cfg, Run(cfg, init), e).actions);
    }
  }

  // -------------------------------------------------------------------- progress

  /** A client packet that comes after the deadline. */
  predicate Expires(s: State, e: Event) {
    e.ClientPacket? && s.pending && e.env.now > s.deadline
  }

  /** The number of client packets in the run that come after the deadline of their moment. */
  function Expiries(cfg: Config, s: State, es: seq<Event>): nat
    decreases |es|
  {
    if es == [] then 0 else (if Expires(s, es[0]) then 1 else 0) + Expiries(cfg, Step(cfg, s, es[0]).state, es[1..])
  }

  predicate PendingThroughout(cfg: Config, s: State, es: seq<Event>)
    decreases |es|
  {
    s.pending && (es != [] ==> PendingThroughout(cfg, Step(cfg, s, es[0]).state, es[1..]))
  }

  /**
   A transaction survives at most as many late client packets as it has retries left, whatever else
   happens in between: one more clears it.
   */
  lemma {:induction false} LatePacketsClear(cfg: Config, s: State, es: seq<Event>)
    requires s.retryCount <= Retries(cfg)
    requires Expiries(cfg, s, es) > Retries(cfg) - s.retryCount
    ensures !PendingThroughout(cfg, s, es)
    decreases |es|
  {
    if s.pending && es != [] {
      var s' := Step(cfg, s, es[0]).state;
      if s'.pending {
        assert s'.retryCount == s.retryCount + if Expires(s, es[0]) then 1 else 0;
        LatePacketsClear(cfg, s', es[1..]);
      }
    }
  }

  /**
   There is no bound in time: without a packet from the client, nothing that happens ends or resends a
   pending query. Only the wire changes, whatever the clock says.
   */
  lemma {:induction false} OnlyPacketsMoveOn(cfg: Config, es: seq<Event>, fs: seq<Event>)
    requires Run(cfg, es).pending && forall i | 0 <= i < |fs| :: !fs[i].ClientPacket?
    ensures Run(cfg, es + fs) == Run(cfg, es).(wire := Run(cfg, es + fs).wire)
    ensures Trace(cfg, es + fs) == Trace(cfg, es)
  {
    if fs == [] {
      assert es + fs == es;
    } else {
      OnlyPacketsMoveOn(cfg, es, fs[..|fs| - 1]);
      assert (es + fs)[..|es + fs| - 1] == es + fs[..|fs| - 1];
    }
  }

  lemma StepReplies(cfg: Config, s: State, e: Event, j: nat)
    requires j < |Step(cfg, s, e).actions| && Step(cfg, s, e).actions[j].Reply?
    ensures e.ClientPacket? && |e.data| >= 4 && (HasOpcode(e.data, 0xD0, 0x09) || HasOpcode(e.data, 0x9F, 0x09))
    ensures IsCut(Step(cfg, s, e).actions[j].bytes, e.data) && Step(cfg, s, e).actions[j].at == e.env.now
  {
  }

  /** Every reply is a client's answer to GameGuard, cut to its own length, in the call that received it. */
  lemma {:induction false} RepliesAreCutPackets(cfg: Config, es: seq<Event>, j: nat) returns (k: nat)
    requires j < |Trace(cfg, es)| && Trace(cfg, es)[j].Reply?
    ensures k < |es| && es[k].ClientPacket? && |es[k].data| >= 4
    ensures HasOpcode(es[k].data, 0xD0, 0x09) || HasOpcode(es[k].data, 0x9F, 0x09)
    ensures IsCut(Trace(cfg, es)[j].bytes, es[k].data) && Trace(cfg, es)[j].at == es[k].env.now
  {
    var init := es[..|es| - 1];
    if j < |Trace(cfg, init)| {
      k := RepliesAreCutPackets(cfg, init, j);
      assert init[k] == es[k];
    } else {
      k := |es| - 1;
      StepReplies(cfg, Run(cfg, init), es[k], j - |Trace(cfg, init)|);
    }
  }

  // -------------------------------------------------------------------- deadlines

  /** The quotient that truncates toward zero. */
  lemma TruncDivTruncates(a: int, b: int)
    requires b > 0
    ensures a >= 0 ==> b * TruncDiv(a, b) <= a < b * TruncDiv(a, b) + b
    ensures a <= 0 ==> b * TruncDiv(a, b) - b < a <= b * TruncDiv(a, b)
  {
  }

  /** The random timeout is the percentage of the base timeout, less than one millisecond cut off. */
  lemma TimeoutIsPercentage(cfg: Config, percent: int)
    requires cfg.randomizeTimeout && cfg.baseTimeout >= 0 && percent >= 0
    ensures 100 * RandomizedTimeout(cfg, percent) <= cfg.baseTimeout * percent < 100 * RandomizedTimeout(cfg, percent) + 100
  {
    MulMonotone(cfg.baseTimeout, 0, percent);
    TruncDivTruncates(cfg.baseTimeout * percent, 100);
  }

  /** The random timeout stays between the shares of the base timeout that the percentage stays between. */
  lemma TimeoutWithin(cfg: Config, low: int, high: int, percent: int)
    requires cfg.baseTimeout >= 0 && low <= percent <= high
    ensures if cfg.randomizeTimeout
      then TruncDiv(cfg.baseTimeout * low, 100) <= RandomizedTimeout(cfg, percent) <= TruncDiv(cfg.baseTimeout * high, 100)
      else RandomizedTimeout(cfg, percent) == cfg.baseTimeout
  {
    MulMonotone(cfg.baseTimeout, low, percent);
    MulMonotone(cfg.baseTimeout, percent, high);
  }

  predicate HasEnv(e: Event) {
    e.Query? || e.ClientPacket?
  }

  /** The try was made in this event, and its deadline is the event's timeout after it, up to the time the call itself took. */
  predicate MadeIn(cfg: Config, a: Attempt, e: Event) {
    && HasEnv(e)
    && a.at == e.env.now
    && var timeout := RandomizedTimeout(cfg, e.env.percent);
       e.env.now + timeout <= a.deadline <= e.env.later + timeout
  }

  /** With a clock that does not run backwards, every try in every run has its full timeout. */
  lemma {:induction false} EveryTryHasItsTimeout(cfg: Config, es: seq<Event>, j: nat) returns (k: nat)
    requires forall i | 0 <= i < |es| && HasEnv(es[i]) :: es[i].env.now <= es[i].env.later
    requires j < |Trace(cfg, es)| && Trace(cfg, es)[j].Send?
    ensures k < |es| && MadeIn(cfg, Trace(cfg, es)[j].attempt, es[k])
  {
    var init, last := es[..|es| - 1], |es| - 1;
    if j < |Trace(cfg, init)| {
      k := EveryTryHasItsTimeout(cfg, init, j);
      assert init[k] == es[k];
    } else {
      k := last;
    }
  }
}
