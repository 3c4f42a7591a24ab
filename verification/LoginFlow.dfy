/**
 The login handshake: secure key, token, master login. The account ids come from one counter that all
 flows of the process share.

 Tokens and session ids are random and are inputs here.
 */
module LoginFlow {
  import opened Wrappers
  import opened Bytes

  type Id = seq<Byte>
  type FlowId = nat

  const FIRST_ACCOUNT_ID: U32 := 2000001

  datatype Random = Random(token: string, sessionId: U32, sessionId2: U32)

  datatype Packet =
    | SecureLoginKey
    | LoginToken(token: string)
    | AccountServerInfo(sessionId: Id, accountId: Id, sessionId2: Id, modern: bool)

  predicate IsSecureRequest(op: U16) {
    op in {0x01DB, 0x0204}
  }

  predicate IsTokenRequest(op: U16) {
    op in {0x0ACF, 0x0C26}
  }

  predicate IsMasterLogin(op: U16) {
    op in {0x0064, 0x01DD, 0x01FA, 0x0AAC, 0x0B04, 0x0987, 0x0A76, 0x2085, 0x2B0D, 0x1DD5, 0x0825}
  }

  predicate RequiresModernInfo(op: U16) {
    op in {0x0825, 0x2085, 0x2B0D, 0x1DD5}
  }

  datatype State = State(awaitingMaster: bool, accountId: Id, sessionId: Id, sessionId2: Id, lastMasterOpcode: U16)

  const INITIAL := State(false, [0, 0, 0, 0], [0, 0, 0, 0], [0, 0, 0, 0], 0)

  /** The state after a packet, the counter after it, and the reply. */
  datatype Outcome = Outcome(state: State, nextAccountId: U32, reply: Option<Packet>)

  function Step(prefer0069: bool, s: State, nextAccountId: U32, opcode: U16, r: Random): Outcome {
    if IsSecureRequest(opcode) then Outcome(s, nextAccountId, Some(SecureLoginKey))
    else if IsTokenRequest(opcode) then Outcome(s.(awaitingMaster := true), nextAccountId, Some(LoginToken(r.token)))
    else if IsMasterLogin(opcode) && s.awaitingMaster then
      var acc, sid, sid2 := ToLeBytes(nextAccountId), ToLeBytes(r.sessionId), ToLeBytes(r.sessionId2);
      Outcome(State(false, acc, sid, sid2, opcode), (nextAccountId + 1) % TWO32,
              Some(AccountServerInfo(sid, acc, sid2, RequiresModernInfo(opcode) || !prefer0069)))
    else Outcome(s, nextAccountId, None)
  }

  /** What the flows of a process share: the account counter, and the flag for the next connection. */
  class Shared {
    var nextAccountId: U32
    var expectCharOnNextConnect: bool

    constructor ()
      ensures nextAccountId == FIRST_ACCOUNT_ID && !expectCharOnNextConnect
    {
      nextAccountId, expectCharOnNextConnect := FIRST_ACCOUNT_ID, false;
    }

    method FetchAdd() returns (id: U32)
      modifies this`nextAccountId
      ensures id == old(nextAccountId) && nextAccountId == (id + 1) % TWO32
    {
      id := nextAccountId;
      nextAccountId := (nextAccountId + 1) % TWO32;
    }
  }

  class Flow {
    const prefer0069: bool
    const shared: Shared

    var awaitingMaster: bool
    var accountId: Id
    var sessionId: Id
    var sessionId2: Id
    var lastMasterOpcode: U16

    ghost var out: seq<Packet>

    ghost function Abs(): State
      reads this
    {
      State(awaitingMaster, accountId, sessionId, sessionId2, lastMasterOpcode)
    }

    constructor (shared: Shared, prefer0069: bool)
      ensures this.shared == shared && this.prefer0069 == prefer0069 && Abs() == INITIAL && out == []
    {
      this.shared, this.prefer0069 := shared, prefer0069;
      awaitingMaster, lastMasterOpcode := false, 0;
      accountId, sessionId, sessionId2 := [0, 0, 0, 0], [0, 0, 0, 0], [0, 0, 0, 0];
      out := [];
    }

    method OnTokenRequest(token: string)
      modifies this`awaitingMaster, this`out
      ensures awaitingMaster && out == old(out) + [LoginToken(token)]
    {
      out := out + [LoginToken(token)];
      awaitingMaster := true;
    }

    method OnMasterLogin(opcode: U16, r: Random)
      requires IsMasterLogin(opcode) && !IsSecureRequest(opcode) && !IsTokenRequest(opcode)
      modifies this, shared
      ensures var o := Step(prefer0069, old(Abs()), old(shared.nextAccountId), opcode, r);
        && Abs() == o.state && shared.nextAccountId == o.nextAccountId
        && out == old(out) + (if o.reply.Some? then [o.reply.value] else [])
      ensures shared.expectCharOnNextConnect == (old(shared.expectCharOnNextConnect) || old(awaitingMaster))
    {
      if !awaitingMaster {
        return;
      }
      awaitingMaster := false;
      lastMasterOpcode := opcode;
      var id := shared.FetchAdd();
      accountId := ToLeBytes(id);
      sessionId := ToLeBytes(r.sessionId);
      sessionId2 := ToLeBytes(r.sessionId2);
      var modern := RequiresModernInfo(opcode) || !prefer0069;
      out := out + [AccountServerInfo(sessionId, accountId, sessionId2, modern)];
      shared.expectCharOnNextConnect := true;
    }

    method Handle(opcode: U16, r: Random)
      modifies this, shared
      ensures var o := Step(prefer0069, old(Abs()), old(shared.nextAccountId), opcode, r);
        && Abs() == o.state && shared.nextAccountId == o.nextAccountId
        && out == old(out) + (if o.reply.Some? then [o.reply.value] else [])
        && shared.expectCharOnNextConnect ==
             (old(shared.expectCharOnNextConnect) || (o.reply.Some? && o.reply.value.AccountServerInfo?))
    {
      if opcode in {0x01DB, 0x0204} {
        out := out + [SecureLoginKey];
      } else if opcode in {0x0ACF, 0x0C26} {
        OnTokenRequest(r.token);
      } else if IsMasterLogin(opcode) {
        OnMasterLogin(opcode, r);
      }
    }
  }

  // ------------------------------------------------------------------- whole runs

  /** A packet for one of the process's flows. */
  datatype Event = Event(flow: FlowId, opcode: U16, random: Random)

  /** A reply with the flow it went to. */
  datatype Sent = Sent(flow: FlowId, packet: Packet)

  datatype World = World(nextAccountId: U32, flows: map<FlowId, State>, out: seq<Sent>)

  function FlowState(w: World, f: FlowId): State {
    if f in w.flows then w.flows[f] else INITIAL
  }

  function WorldStep(prefer0069: bool, w: World, e: Event): World {
    var o := Step(prefer0069, FlowState(w, e.flow), w.nextAccountId, e.opcode, e.random);
    World(o.nextAccountId, w.flows[e.flow := o.state], w.out + if o.reply.Some? then [Sent(e.flow, o.reply.value)] else [])
  }

  function Run(prefer0069: bool, es: seq<Event>): World {
    if es == [] then World(FIRST_ACCOUNT_ID, map[], [])
    else WorldStep(prefer0069, Run(prefer0069, es[..|es| - 1]), es[|es| - 1])
  }

  /** A token has been issued to the flow since its last server info. */
  predicate TokenOpen(out: seq<Sent>, f: FlowId) {
    if out == [] then false
    else
      var last := out[|out| - 1];
      if last.flow == f && last.packet.LoginToken? then true
      else if last.flow == f && last.packet.AccountServerInfo? then false
      else TokenOpen(out[..|out| - 1], f)
  }

  /** Every server info uses up a token issued to the same flow since the flow's last one. */
  predicate TokensPrecedeInfos(out: seq<Sent>) {
    forall i | 0 <= i < |out| && out[i].packet.AccountServerInfo? :: TokenOpen(out[..i], out[i].flow)
  }

  lemma TokensSnoc(out: seq<Sent>, x: Sent)
    requires TokensPrecedeInfos(out) && (x.packet.AccountServerInfo? ==> TokenOpen(out, x.flow))
    ensures TokensPrecedeInfos(out + [x])
  {
    var out' := out + [x];
    assert out'[..|out|] == out;
    forall i | 0 <= i < |out'| && out'[i].packet.AccountServerInfo? ensures TokenOpen(out'[..i], out'[i].flow) {
      if i < |out| {
        assert out'[..i] == out[..i] && out'[i] == out[i];
      }
    }
  }

  lemma TokenOpenSnoc(out: seq<Sent>, x: Sent, f: FlowId)
    ensures TokenOpen(out + [x], f) == if x.flow != f || x.packet.SecureLoginKey? then TokenOpen(out, f) else x.packet.LoginToken?
  {
    assert (out + [x])[..|out|] == out;
  }

  /** What each flow waits for is what the log says, and the log has a token for every info. */
  ghost predicate Consistent(w: World) {
    TokensPrecedeInfos(w.out) && forall f :: TokenOpen(w.out, f) == FlowState(w, f).awaitingMaster
  }

  lemma FlowAfter(prefer0069: bool, w: World, e: Event, f: FlowId)
    ensures FlowState(WorldStep(prefer0069, w, e), f) ==
      if f == e.flow then Step(prefer0069, FlowState(w, f), w.nextAccountId, e.opcode, e.random).state else FlowState(w, f)
  {
  }

  lemma StepConsistent(prefer0069: bool, w: World, e: Event)
    requires Consistent(w)
    ensures Consistent(WorldStep(prefer0069, w, e))
  {
    var s, w' := FlowState(w, e.flow), WorldStep(prefer0069, w, e);
    var o := Step(prefer0069, s, w.nextAccountId, e.opcode, e.random);
    if o.reply.Some? {
      TokensSnoc(w.out, Sent(e.flow, o.reply.value));
    } else {
      assert w'.out == w.out;
    }
    forall f ensures TokenOpen(w'.out, f) == FlowState(w', f).awaitingMaster {
      FlowAfter(prefer0069, w, e, f);
      if o.reply.Some? {
        TokenOpenSnoc(w.out, Sent(e.flow, o.reply.value), f);
      }
    }
  }

  /** In every run of all flows, each server info has its token. */
  lemma {:induction false} InfosUseTokens(prefer0069: bool, es: seq<Event>)
    ensures Consistent(Run(prefer0069, es))
  {
    if es != [] {
      InfosUseTokens(prefer0069, es[..|es| - 1]);
      StepConsistent(prefer0069, Run(prefer0069, es[..|es| - 1]), es[|es| - 1]);
    }
  }

  /** The account ids sent, in order. */
  function AccountIds(out: seq<Sent>): seq<Id> {
    if out == [] then []
    else
      var ids, p := AccountIds(out[..|out| - 1]), out[|out| - 1].packet;
      if p.AccountServerInfo? then ids + [p.accountId] else ids
  }

  predicate CountsUp(w: World) {
    var ids := AccountIds(w.out);
    && w.nextAccountId == (FIRST_ACCOUNT_ID + |ids|) % TWO32
    && forall i | 0 <= i < |ids| :: ids[i] == ToLeBytes((FIRST_ACCOUNT_ID + i) % TWO32)
  }

  lemma StepCountsUp(prefer0069: bool, w: World, e: Event)
    requires CountsUp(w)
    ensures CountsUp(WorldStep(prefer0069, w, e))
  {
    var o := Step(prefer0069, FlowState(w, e.flow), w.nextAccountId, e.opcode, e.random);
    if o.reply.Some? {
      AccountIdsSnoc(w.out, Sent(e.flow, o.reply.value));
    } else {
      assert w.out + [] == w.out;
    }
  }

  lemma AccountIdsSnoc(out: seq<Sent>, x: Sent)
    ensures AccountIds(out + [x]) == AccountIds(out) + if x.packet.AccountServerInfo? then [x.packet.accountId] else []
  {
    assert (out + [x])[..|out|] == out;
  }

  lemma {:induction false} IdsCountUp(prefer0069: bool, es: seq<Event>)
    ensures CountsUp(Run(prefer0069, es))
  {
    if es != [] {
      IdsCountUp(prefer0069, es[..|es| - 1]);
      StepCountsUp(prefer0069, Run(prefer0069, es[..|es| - 1]), es[|es| - 1]);
    }
  }

  /**
   Over all flows of the process, two logins get the same account id exactly when a multiple of 2^32
   logins lies between them; so the ids of up to 2^32 logins are distinct.
   */
  lemma IdsRepeatIff(prefer0069: bool, es: seq<Event>, i: nat, j: nat)
    requires i <= j < |AccountIds(Run(prefer0069, es).out)|
    ensures var ids := AccountIds(Run(prefer0069, es).out); ids[i] == ids[j] <==> (j - i) % TWO32 == 0
  {
    IdsCountUp(prefer0069, es);
    ToLeBytesInjective((FIRST_ACCOUNT_ID + i) % TWO32, (FIRST_ACCOUNT_ID + j) % TWO32);
    SameResidue(FIRST_ACCOUNT_ID + i, FIRST_ACCOUNT_ID + j);
  }

  lemma SameResidue(a: nat, b: nat)
    requires a <= b
    ensures a % TWO32 == b % TWO32 <==> (b - a) % TWO32 == 0
  {
  }

  // --------------------------------------------------------------------- the wire

  /** The four bytes are the number, least significant first. */
  predicate IsId(id: Id, x: int) {
    |id| == 4 && var b0: int, b1: int, b2: int, b3: int := id[0], id[1], id[2], id[3];
      x == b0 + 0x100 * b1 + 0x1_0000 * b2 + 0x100_0000 * b3
  }

  lemma ToLeBytesIsId(x: U32)
    ensures IsId(ToLeBytes(x), x)
  {
    var q := FourDigits(x);
    assert q == 0;
  }

  predicate IsInfo(p: Packet, r: Random, accountId: U32, modern: bool) {
    && p.AccountServerInfo? && p.modern == modern
    && IsId(p.accountId, accountId) && IsId(p.sessionId, r.sessionId) && IsId(p.sessionId2, r.sessionId2)
  }

  /** replies is what the process must send for a packet, when out is all that it has sent so far. */
  predicate Answers(prefer0069: bool, out: seq<Sent>, e: Event, replies: seq<Sent>) {
    if e.opcode in {0x01DB, 0x0204} then
      replies == [Sent(e.flow, SecureLoginKey)]
    else if e.opcode in {0x0ACF, 0x0C26} then
      replies == [Sent(e.flow, LoginToken(e.random.token))]
    else if TokenOpen(out, e.flow)
            && e.opcode in {0x0064, 0x01DD, 0x01FA, 0x0AAC, 0x0B04, 0x0987, 0x0A76, 0x2085, 0x2B0D, 0x1DD5, 0x0825} then
      && |replies| == 1 && replies[0].flow == e.flow
      && IsInfo(replies[0].packet, e.random, (2000001 + |AccountIds(out)|) % 0x1_0000_0000,
                !prefer0069 || e.opcode in {0x0825, 0x2085, 0x2B0D, 0x1DD5})
    else
      replies == []
  }

  /**
   In every run of all flows each packet is answered at once: a secure key or a token for its request, and a server
   info for a master login if and only if the flow has an unused token. The info carries the next account id and is
   in the modern form unless the classic one is preferred and the opcode allows it.
   */
  lemma EveryPacketAnswered(prefer0069: bool, es: seq<Event>, e: Event)
    ensures Run(prefer0069, es).out <= Run(prefer0069, es + [e]).out
    ensures var out := Run(prefer0069, es).out; Answers(prefer0069, out, e, Run(prefer0069, es + [e]).out[|out|..])
  {
    assert (es + [e])[..|es|] == es;
    var w := Run(prefer0069, es);
    InfosUseTokens(prefer0069, es);
    IdsCountUp(prefer0069, es);
    assert TokenOpen(w.out, e.flow) == FlowState(w, e.flow).awaitingMaster;
    ToLeBytesIsId(w.nextAccountId);
    ToLeBytesIsId(e.random.sessionId);
    ToLeBytesIsId(e.random.sessionId2);
  }
}
