/**
 The character server's phase machine: server selection, the character list, the redirect to the map
 server and the burst of packets that lets the client enter the map.

 A packet is represented by the data its mapper serialises.
 */
module CharFlow {
  import opened Wrappers
  import opened Bytes

  type Id = seq<Byte>

  datatype Config = Config(mapIp: Id, mapPort: U16, initialMap: string, sex: Byte)

  datatype Spawn = Spawn(x: U16, y: U16, dir: Byte)

  datatype State = State(
    accountId: Id,
    selectedCharId: Id,
    awaitingCharListReq: bool,
    expectingMapLogin: bool,
    firstPacketAfterRedirect: bool,
    spawnOverride: Option<Spawn>)

  datatype Packet =
    | PreambleAccountId(accountId: Id)
    | Preamble082D
    | Preamble09A0(value: U32)
    | CharList(demoCharId: U32, slot: Byte, name: string, mapName: string, isMale: bool)
    | RedirectShort(charId: Id, mapName: string, ip: Id, port: U16)
    | RedirectFull(charId: Id, mapName: string, ip: Id, port: U16, accountId: Id, sessionA: Id, sessionB: Id, sex: Byte)
    | Sync(accountId: Id)
    | MapLoaded(tick: U32, x: U16, y: U16, dir: Byte)
    | AcceptEnter(x: U16, y: U16, dir: Byte)
    | Warp(mapName: string, x: U16, y: U16)
    | AttackRange(range: U16)
    | CharacterStats
    | HpSpUpdate(hp: U16, maxHp: U16, sp: U16, maxSp: U16)
    | LoadConfirm
    | LookTo(accountId: Id, dir: Byte)
    | SystemChat(text: string)
    | ActorDisplay(accountId: Id, name: string)
    | ActorName(accountId: Id, name: string)

  const PROJECT_NAME := "Thanatos"
  const DEMO_CHAR_ID: U32 := 1001
  const POST_SELECT_SPAWN := Spawn(49, 113, 0)
  const CHAR_LIST_REQUEST: U16 := 0x09A1

  predicate IsSelectServerOpcode(op: U16) {
    op in {0x0065, 0x0275, 0x0825, 0x0B1D, 0x1DD6, 0x2B0F, 0x0101}
  }

  predicate IsCharSelectOpcode(op: U16) {
    op in {0x0066, 0x08A9, 0x0B19, 0x1DD7, 0x2B10}
  }

  predicate IsEnterOpcode(op: U16) {
    op in {0x2844, 0x0436, 0x0072, 0x009B}
  }

  function SafeSpawnFor(m: string): Spawn {
    if m == "new_1-1.gat" then Spawn(49, 113, 0)
    else if m == "moc_pryd03.gat" then Spawn(100, 87, 0)
    else if m == "lhz_dun_n.gat" then Spawn(263, 139, 0)
    else Spawn(49, 113, 0)
  }

  /** Three bytes, least significant first: ten bits x, ten bits y, four bits direction. */
  function DecodeA3(p: seq<Byte>): Spawn
    requires |p| >= 3
  {
    var p0: int, p1: int, p2: int := p[0], p[1], p[2];
    var enc := p0 + 0x100 * p1 + 0x1_0000 * p2;
    Spawn(enc % 1024, enc / 1024 % 1024, enc / 0x10_0000 % 16)
  }

  function DemoCharList(cfg: Config): Packet {
    CharList(DEMO_CHAR_ID, 0, PROJECT_NAME, cfg.initialMap, cfg.sex != 0)
  }

  // ------------------------------------------------------------------ output units

  /** The output comes in units, one for each packet that is answered. */
  datatype Segment =
    | ServerSelected(accountId: Id)
    | ListResent
    | Redirected(charId: Id, accountId: Id)
    | Entered(accountId: Id, tick: U32, spawn: Spawn)

  function Packets(cfg: Config, g: Segment): seq<Packet> {
    match g
    case ServerSelected(acc) =>
      [PreambleAccountId(acc), Preamble082D, Preamble09A0(1), DemoCharList(cfg)]
    case ListResent => [DemoCharList(cfg)]
    case Redirected(charId, acc) =>
      [RedirectShort(charId, cfg.initialMap, cfg.mapIp, cfg.mapPort),
       RedirectFull(charId, cfg.initialMap, cfg.mapIp, cfg.mapPort, acc,
                    [0x00, 0x5E, 0xD0, 0xB2], [0xFF, 0x00, 0x00, 0x00], cfg.sex)]
    case Entered(acc, tick, spawn) =>
      [Sync(acc), MapLoaded(tick, spawn.x, spawn.y, spawn.dir), AcceptEnter(spawn.x, spawn.y, spawn.dir),
       Warp(cfg.initialMap, spawn.x, spawn.y), AttackRange(1), CharacterStats, HpSpUpdate(40, 40, 9, 11), LoadConfirm,
       LookTo(acc, 4), SystemChat("Welcome to Thanatos!"), ActorDisplay(acc, PROJECT_NAME), ActorName(acc, PROJECT_NAME)]
  }

  function AllPackets(cfg: Config, gs: seq<Segment>): seq<Packet> {
    if gs == [] then [] else AllPackets(cfg, gs[..|gs| - 1]) + Packets(cfg, gs[|gs| - 1])
  }

  // ------------------------------------------------------------------------ steps

  datatype Input = Input(opcode: U16, data: seq<Byte>, tick: U32)

  function Copied(id: Id, data: seq<Byte>): Id {
    if |data| >= 4 then data[..4] else id
  }

  function EnterSpawn(cfg: Config, s: State, data: seq<Byte>): Spawn {
    if s.spawnOverride.Some? then s.spawnOverride.value
    else if |data| >= 19 then
      var a3 := DecodeA3(data[16..]);
      if a3.x != 0 || a3.y != 0 then a3 else SafeSpawnFor(cfg.initialMap)
    else SafeSpawnFor(cfg.initialMap)
  }

  /** What one packet does: the new state and the unit it is answered with, if any. */
  function Step(cfg: Config, s: State, e: Input): (State, Option<Segment>) {
    if s.expectingMapLogin && (IsEnterOpcode(e.opcode) || s.firstPacketAfterRedirect) then
      (s.(expectingMapLogin := false, firstPacketAfterRedirect := false, spawnOverride := None),
       Some(Entered(s.accountId, e.tick, EnterSpawn(cfg, s, e.data))))
    else if IsSelectServerOpcode(e.opcode) then
      var acc := Copied(s.accountId, e.data);
      (s.(accountId := acc, awaitingCharListReq := true), Some(ServerSelected(acc)))
    else if e.opcode == CHAR_LIST_REQUEST then
      (s.(awaitingCharListReq := false), if s.awaitingCharListReq then Some(ListResent) else None)
    else if IsCharSelectOpcode(e.opcode) then
      var charId := Copied(s.selectedCharId, e.data);
      (s.(selectedCharId := charId, spawnOverride := Some(POST_SELECT_SPAWN),
          expectingMapLogin := true, firstPacketAfterRedirect := true),
       Some(Redirected(charId, s.accountId)))
    else (s, None)
  }

  function Emitted(cfg: Config, g: Option<Segment>): seq<Packet> {
    if g.Some? then Packets(cfg, g.value) else []
  }

  const INITIAL := State([0x81, 0x84, 0x1E, 0x00], [0xE9, 0x03, 0x00, 0x00], false, false, false, None)

  class Flow {
    const cfg: Config

    var accountId: Id
    var selectedCharId: Id
    var awaitingCharListReq: bool
    var expectingMapLogin: bool
    var firstPacketAfterRedirect: bool
    var spawnOverride: Option<Spawn>

    /** Everything sent so far. */
    ghost var out: seq<Packet>

    ghost function Abs(): State
      reads this
    {
      State(accountId, selectedCharId, awaitingCharListReq, expectingMapLogin, firstPacketAfterRedirect, spawnOverride)
    }

    constructor (cfg: Config)
      ensures this.cfg == cfg && Abs() == INITIAL && out == []
    {
      this.cfg := cfg;
      accountId, selectedCharId := [0x81, 0x84, 0x1E, 0x00], [0xE9, 0x03, 0x00, 0x00];
      awaitingCharListReq, expectingMapLogin, firstPacketAfterRedirect := false, false, false;
      spawnOverride, out := None, [];
    }

    method Send(p: Packet)
      modifies this`out
      ensures out == old(out) + [p]
    {
      out := out + [p];
    }

    method ArmExpectingMapLogin()
      modifies this`expectingMapLogin, this`firstPacketAfterRedirect
      ensures expectingMapLogin && firstPacketAfterRedirect
    {
      expectingMapLogin := true;
      firstPacketAfterRedirect := true;
    }

    method SetFixedSpawn(spawn: Spawn)
      modifies this`spawnOverride
      ensures spawnOverride == Some(spawn)
    {
      spawnOverride := Some(spawn);
    }

    method OnServerSelected(data: seq<Byte>)
      modifies this`accountId, this`awaitingCharListReq, this`out
      ensures accountId == Copied(old(accountId), data) && awaitingCharListReq
      ensures out == old(out) + Packets(cfg, ServerSelected(accountId))
    {
      if |data| >= 4 {
        accountId := data[..4];
      }
      Send(PreambleAccountId(accountId));
      Send(Preamble082D);
      Send(Preamble09A0(1));
      Send(DemoCharList(cfg));
      awaitingCharListReq := true;
    }

    method OnCharListReq()
      modifies this`awaitingCharListReq, this`out
      ensures !awaitingCharListReq
      ensures out == old(out) + if old(awaitingCharListReq) then Packets(cfg, ListResent) else []
    {
      if awaitingCharListReq {
        awaitingCharListReq := false;
        Send(DemoCharList(cfg));
      }
    }

    method OnCharSelected(data: seq<Byte>)
      modifies this`selectedCharId, this`spawnOverride, this`expectingMapLogin, this`firstPacketAfterRedirect, this`out
      ensures selectedCharId == Copied(old(selectedCharId), data) && spawnOverride == Some(POST_SELECT_SPAWN)
      ensures expectingMapLogin && firstPacketAfterRedirect
      ensures out == old(out) + Packets(cfg, Redirected(selectedCharId, accountId))
    {
      if |data| >= 4 {
        selectedCharId := data[..4];
      }
      Send(RedirectShort(selectedCharId, cfg.initialMap, cfg.mapIp, cfg.mapPort));
      Send(RedirectFull(selectedCharId, cfg.initialMap, cfg.mapIp, cfg.mapPort, accountId,
                        [0x00, 0x5E, 0xD0, 0xB2], [0xFF, 0x00, 0x00, 0x00], cfg.sex));
      SetFixedSpawn(POST_SELECT_SPAWN);
      ArmExpectingMapLogin();
    }

    method SendPosition(tick: U32, spawn: Spawn)
      modifies this`out
      ensures out == old(out) +
        [Sync(accountId), MapLoaded(tick, spawn.x, spawn.y, spawn.dir), AcceptEnter(spawn.x, spawn.y, spawn.dir),
         Warp(cfg.initialMap, spawn.x, spawn.y)]
    {
      Send(Sync(accountId));
      Send(MapLoaded(tick, spawn.x, spawn.y, spawn.dir));
      Send(AcceptEnter(spawn.x, spawn.y, spawn.dir));
      Send(Warp(cfg.initialMap, spawn.x, spawn.y));
    }

    method SendHud()
      modifies this`out
      ensures out == old(out) +
        [AttackRange(1), CharacterStats, HpSpUpdate(40, 40, 9, 11), LoadConfirm, LookTo(accountId, 4),
         SystemChat("Welcome to Thanatos!"), ActorDisplay(accountId, PROJECT_NAME), ActorName(accountId, PROJECT_NAME)]
    {
      Send(AttackRange(1));
      Send(CharacterStats);
      Send(HpSpUpdate(40, 40, 9, 11));
      Send(LoadConfirm);
      Send(LookTo(accountId, 4));
      Send(SystemChat("Welcome to Thanatos!"));
      Send(ActorDisplay(accountId, PROJECT_NAME));
      Send(ActorName(accountId, PROJECT_NAME));
    }

    method OnEnter(data: seq<Byte>, tick: U32)
      modifies this`spawnOverride, this`expectingMapLogin, this`firstPacketAfterRedirect, this`out
      ensures !expectingMapLogin && !firstPacketAfterRedirect && spawnOverride == None
      ensures out == old(out) + Packets(cfg, Entered(accountId, tick, EnterSpawn(cfg, old(Abs()), data)))
    {
      expectingMapLogin := false;
      firstPacketAfterRedirect := false;
      var spawn := SafeSpawnFor(cfg.initialMap);
      if spawnOverride.Some? {
        spawn := spawnOverride.value;
        spawnOverride := None;
      } else if |data| >= 19 {
        var a3 := DecodeA3(data[16..]);
        if a3.x != 0 || a3.y != 0 {
          spawn := a3;
        }
      }
      SendPosition(tick, spawn);
      SendHud();
    }

    method Handle(opcode: U16, data: seq<Byte>, tick: U32)
      modifies this
      ensures var (s, g) := Step(cfg, old(Abs()), Input(opcode, data, tick));
        Abs() == s && out == old(out) + Emitted(cfg, g)
    {
      if expectingMapLogin {
        if IsEnterOpcode(opcode) {
          OnEnter(data, tick);
          return;
        }
        if firstPacketAfterRedirect {
          firstPacketAfterRedirect := false;
          OnEnter(data, tick);
          return;
        }
      }
      if IsSelectServerOpcode(opcode) {
        OnServerSelected(data);
        return;
      }
      if opcode == CHAR_LIST_REQUEST {
        OnCharListReq();
        return;
      }
      if IsCharSelectOpcode(opcode) {
        OnCharSelected(data);
        return;
      }
    }
  }

  // ------------------------------------------------------------------- whole runs

  function Run(cfg: Config, es: seq<Input>): State {
    if es == [] then INITIAL else Step(cfg, Run(cfg, es[..|es| - 1]), es[|es| - 1]).0
  }

  function Output(cfg: Config, es: seq<Input>): seq<Packet> {
    if es == [] then []
    else Output(cfg, es[..|es| - 1]) + Emitted(cfg, Step(cfg, Run(cfg, es[..|es| - 1]), es[|es| - 1]).1)
  }

  /** Between redirect and entering, the three conditions hold together, and only there. */
  predicate PhaseInv(s: State) {
    && s.expectingMapLogin == s.firstPacketAfterRedirect == s.spawnOverride.Some?
    && (s.spawnOverride.Some? ==> s.spawnOverride.value == POST_SELECT_SPAWN)
  }

  /**
   Well-ordered units. open is the account of a redirect that has not been followed by entering;
   awaiting says that a server selection has not been followed by a list request.
   */
  predicate Grammar(gs: seq<Segment>, open: Option<Id>, awaiting: bool) {
    if gs == [] then open.None? && !awaiting
    else
      var init := gs[..|gs| - 1];
      match gs[|gs| - 1]
      case ServerSelected(_) => open.None? && awaiting && (Grammar(init, None, false) || Grammar(init, None, true))
      case ListResent => open.None? && !awaiting && Grammar(init, None, true)
      case Redirected(_, acc) => open == Some(acc) && Grammar(init, None, awaiting)
      case Entered(acc, _, spawn) =>
        open.None? && spawn == POST_SELECT_SPAWN && Grammar(init, Some(acc), awaiting)
  }

  /** The output so far is made of well-ordered units, and the state says how they end. */
  predicate Explained(cfg: Config, s: State, gs: seq<Segment>, out: seq<Packet>) {
    && PhaseInv(s)
    && out == AllPackets(cfg, gs)
    && Grammar(gs, if s.expectingMapLogin then Some(s.accountId) else None, s.awaitingCharListReq)
  }

  lemma Snoc(cfg: Config, gs: seq<Segment>, g: Segment)
    ensures AllPackets(cfg, gs + [g]) == AllPackets(cfg, gs) + Packets(cfg, g)
    ensures (gs + [g])[..|gs|] == gs
  {
    assert (gs + [g])[..|gs|] == gs;
  }

  lemma StepExplained(cfg: Config, s: State, gs: seq<Segment>, out: seq<Packet>, e: Input) returns (gs': seq<Segment>)
    requires Explained(cfg, s, gs, out)
    ensures var (s', g) := Step(cfg, s, e); Explained(cfg, s', gs', out + Emitted(cfg, g))
  {
    var (s', g) := Step(cfg, s, e);
    if g.None? {
      gs' := gs;
      assert out + [] == out;
    } else {
      gs' := gs + [g.value];
      Snoc(cfg, gs, g.value);
    }
  }

  /** Every run's output is a well-ordered sequence of whole units. */
  lemma {:induction false} RunExplained(cfg: Config, es: seq<Input>) returns (gs: seq<Segment>)
    ensures Explained(cfg, Run(cfg, es), gs, Output(cfg, es))
  {
    if es == [] {
      gs := [];
    } else {
      var init := RunExplained(cfg, es[..|es| - 1]);
      gs := StepExplained(cfg, Run(cfg, es[..|es| - 1]), init, Output(cfg, es[..|es| - 1]), es[|es| - 1]);
    }
  }

  /**
   In well-ordered units, each redirect is followed at once by one burst for its account at the fixed
   spawn, unless it is the last unit, and there is no burst without a redirect right before it.
   */
  lemma {:induction false} RedirectThenEnter(gs: seq<Segment>, open: Option<Id>, awaiting: bool, i: nat)
    requires Grammar(gs, open, awaiting) && i < |gs|
    ensures gs[i].Redirected? ==>
      if i + 1 == |gs| then open == Some(gs[i].accountId)
      else gs[i + 1].Entered? && gs[i + 1].accountId == gs[i].accountId && gs[i + 1].spawn == POST_SELECT_SPAWN
    ensures gs[i].Entered? ==> i > 0 && gs[i - 1].Redirected? && gs[i - 1].accountId == gs[i].accountId
  {
    var init, last := gs[..|gs| - 1], gs[|gs| - 1];
    var open': Option<Id> := if last.Entered? then Some(last.accountId) else None;
    var awaiting' := match last
      case ServerSelected(_) => !Grammar(init, None, false)
      case ListResent => true
      case _ => awaiting;
    assert Grammar(init, open', awaiting');
    if i < |init| {
      RedirectThenEnter(init, open', awaiting', i);
    } else if last.Entered? {
      assert init != [] && init[|init| - 1].Redirected?;
    }
  }

  function Count(gs: seq<Segment>, resent: bool): nat {
    if gs == [] then 0
    else Count(gs[..|gs| - 1], resent) + if (if resent then gs[|gs| - 1].ListResent? else gs[|gs| - 1].ServerSelected?) then 1 else 0
  }

  /** The list is sent again at most once for each server selection. */
  lemma {:induction false} ResendsBounded(gs: seq<Segment>, open: Option<Id>, awaiting: bool)
    requires Grammar(gs, open, awaiting)
    ensures Count(gs, true) + (if awaiting then 1 else 0) <= Count(gs, false)
  {
    if gs != [] {
      var init := gs[..|gs| - 1];
      match gs[|gs| - 1]
      case ServerSelected(_) =>
        if Grammar(init, None, false) {
          ResendsBounded(init, None, false);
        } else {
          ResendsBounded(init, None, true);
        }
      case ListResent => ResendsBounded(init, None, true);
      case Redirected(_, _) => ResendsBounded(init, None, awaiting);
      case Entered(acc, _, _) => ResendsBounded(init, Some(acc), awaiting);
    }
  }

  // --------------------------------------------------------------------- the wire

  /** The last packet sent was a redirect to the map server. */
  predicate Entering(out: seq<Packet>) {
    out != [] && out[|out| - 1].RedirectFull?
  }

  /** The account the client was last told, or the initial one. */
  function LastAccount(out: seq<Packet>): Id {
    if out == [] then [0x81, 0x84, 0x1E, 0x00]
    else if out[|out| - 1].PreambleAccountId? then out[|out| - 1].accountId
    else LastAccount(out[..|out| - 1])
  }

  /** The character the client was last redirected for, or the initial one. */
  function LastChar(out: seq<Packet>): Id {
    if out == [] then [0xE9, 0x03, 0x00, 0x00]
    else if out[|out| - 1].RedirectFull? then out[|out| - 1].charId
    else LastChar(out[..|out| - 1])
  }

  /** The last character list was sent right behind the preamble. */
  predicate ListAwaited(out: seq<Packet>) {
    if out == [] then false
    else if out[|out| - 1].CharList? then |out| > 1 && out[|out| - 2].Preamble09A0?
    else ListAwaited(out[..|out| - 1])
  }

  /** The twelve packets that let the client enter the map at (49, 113). */
  predicate IsBurst(cfg: Config, ps: seq<Packet>, accountId: Id) {
    && |ps| == 12
    && ps[0] == Sync(accountId)
    && ps[1].MapLoaded? && ps[1].x == 49 && ps[1].y == 113 && ps[1].dir == 0
    && ps[2] == AcceptEnter(49, 113, 0)
    && ps[3] == Warp(cfg.initialMap, 49, 113)
    && ps[4] == AttackRange(1)
    && ps[5] == CharacterStats
    && ps[6] == HpSpUpdate(40, 40, 9, 11)
    && ps[7] == LoadConfirm
    && ps[8] == LookTo(accountId, 4)
    && ps[9] == SystemChat("Welcome to Thanatos!")
    && ps[10] == ActorDisplay(accountId, "Thanatos")
    && ps[11] == ActorName(accountId, "Thanatos")
  }

  predicate IsPreamble(cfg: Config, ps: seq<Packet>, accountId: Id) {
    && |ps| == 4
    && ps[0] == PreambleAccountId(accountId)
    && ps[1] == Preamble082D
    && ps[2] == Preamble09A0(1)
    && ps[3] == CharList(1001, 0, "Thanatos", cfg.initialMap, cfg.sex != 0)
  }

  predicate IsRedirect(cfg: Config, ps: seq<Packet>, charId: Id, accountId: Id) {
    && |ps| == 2
    && ps[0] == RedirectShort(charId, cfg.initialMap, cfg.mapIp, cfg.mapPort)
    && ps[1] == RedirectFull(charId, cfg.initialMap, cfg.mapIp, cfg.mapPort, accountId, [0x00, 0x5E, 0xD0, 0xB2], [0xFF, 0x00, 0x00, 0x00], cfg.sex)
  }

  /** ps is what a client that has been sent out must be sent for packet e. */
  predicate Answers(cfg: Config, out: seq<Packet>, e: Input, ps: seq<Packet>) {
    if Entering(out) then
      IsBurst(cfg, ps, out[|out| - 1].accountId) && ps[1].tick == e.tick
    else if e.opcode in {0x0065, 0x0275, 0x0825, 0x0B1D, 0x1DD6, 0x2B0F, 0x0101} then
      IsPreamble(cfg, ps, if |e.data| >= 4 then e.data[..4] else LastAccount(out))
    else if e.opcode == 0x09A1 then
      ps == if ListAwaited(out) then [CharList(1001, 0, "Thanatos", cfg.initialMap, cfg.sex != 0)] else []
    else if e.opcode in {0x0066, 0x08A9, 0x0B19, 0x1DD7, 0x2B10} then
      IsRedirect(cfg, ps, if |e.data| >= 4 then e.data[..4] else LastChar(out), LastAccount(out))
    else ps == []
  }

  /** The state is what the packets sent so far say. */
  predicate Visible(s: State, out: seq<Packet>) {
    && PhaseInv(s)
    && (out != [] ==> !out[|out| - 1].Preamble09A0?)
    && s.expectingMapLogin == Entering(out)
    && (Entering(out) ==> out[|out| - 1].accountId == s.accountId)
    && s.awaitingCharListReq == ListAwaited(out)
    && s.accountId == LastAccount(out)
    && s.selectedCharId == LastChar(out)
  }

  lemma OneMore(out: seq<Packet>, p: Packet)
    ensures LastAccount(out + [p]) == if p.PreambleAccountId? then p.accountId else LastAccount(out)
    ensures LastChar(out + [p]) == if p.RedirectFull? then p.charId else LastChar(out)
    ensures ListAwaited(out + [p]) == if p.CharList? then out != [] && out[|out| - 1].Preamble09A0? else ListAwaited(out)
  {
    assert (out + [p])[..|out|] == out;
  }

  predicate Silent(p: Packet) {
    !p.PreambleAccountId? && !p.RedirectFull? && !p.CharList?
  }

  lemma {:induction false} ManyMore(out: seq<Packet>, ps: seq<Packet>)
    requires forall i | 0 <= i < |ps| :: Silent(ps[i])
    ensures LastAccount(out + ps) == LastAccount(out) && LastChar(out + ps) == LastChar(out)
    ensures ListAwaited(out + ps) == ListAwaited(out)
  {
    if ps == [] {
      assert out + ps == out;
    } else {
      ManyMore(out, ps[..|ps| - 1]);
      OneMore(out + ps[..|ps| - 1], ps[|ps| - 1]);
      assert out + ps == out + ps[..|ps| - 1] + [ps[|ps| - 1]];
    }
  }

  lemma PreambleVisible(cfg: Config, out: seq<Packet>, ps: seq<Packet>, accountId: Id)
    requires IsPreamble(cfg, ps, accountId)
    ensures LastAccount(out + ps) == accountId && LastChar(out + ps) == LastChar(out)
    ensures ListAwaited(out + ps) && !Entering(out + ps)
  {
    OneMore(out, ps[0]);
    OneMore(out + [ps[0]], ps[1]);
    OneMore(out + [ps[0]] + [ps[1]], ps[2]);
    OneMore(out + [ps[0]] + [ps[1]] + [ps[2]], ps[3]);
    assert out + ps == out + [ps[0]] + [ps[1]] + [ps[2]] + [ps[3]];
  }

  lemma RedirectVisible(cfg: Config, out: seq<Packet>, ps: seq<Packet>, charId: Id, accountId: Id)
    requires IsRedirect(cfg, ps, charId, accountId)
    ensures LastAccount(out + ps) == LastAccount(out) && LastChar(out + ps) == charId
    ensures ListAwaited(out + ps) == ListAwaited(out)
    ensures Entering(out + ps) && (out + ps)[|out + ps| - 1].accountId == accountId
  {
    OneMore(out, ps[0]);
    OneMore(out + [ps[0]], ps[1]);
    assert out + ps == out + [ps[0]] + [ps[1]];
  }

  lemma BurstVisible(cfg: Config, out: seq<Packet>, ps: seq<Packet>, accountId: Id)
    requires IsBurst(cfg, ps, accountId)
    ensures LastAccount(out + ps) == LastAccount(out) && LastChar(out + ps) == LastChar(out)
    ensures ListAwaited(out + ps) == ListAwaited(out) && !Entering(out + ps)
    ensures !(out + ps)[|out + ps| - 1].Preamble09A0?
  {
    ManyMore(out, ps);
  }

  lemma AnswersEnter(cfg: Config, out: seq<Packet>, e: Input, acc: Id)
    requires Entering(out) && acc == out[|out| - 1].accountId
    ensures Answers(cfg, out, e, Packets(cfg, Entered(acc, e.tick, POST_SELECT_SPAWN)))
  {
  }

  lemma AnswersServerSelect(cfg: Config, out: seq<Packet>, e: Input)
    requires !Entering(out) && IsSelectServerOpcode(e.opcode)
    ensures Answers(cfg, out, e, Packets(cfg, ServerSelected(Copied(LastAccount(out), e.data))))
  {
  }

  lemma AnswersCharSelect(cfg: Config, out: seq<Packet>, e: Input)
    requires !Entering(out) && IsCharSelectOpcode(e.opcode)
    ensures Answers(cfg, out, e, Packets(cfg, Redirected(Copied(LastChar(out), e.data), LastAccount(out))))
  {
  }

  lemma AnswersRest(cfg: Config, out: seq<Packet>, e: Input)
    requires !Entering(out) && !IsSelectServerOpcode(e.opcode) && !IsCharSelectOpcode(e.opcode)
    ensures Answers(cfg, out, e, if e.opcode == CHAR_LIST_REQUEST && ListAwaited(out) then Packets(cfg, ListResent) else [])
  {
  }

  /** One step answers as the packets sent so far demand. */
  lemma StepAnswers(cfg: Config, s: State, out: seq<Packet>, e: Input)
    requires Visible(s, out)
    ensures Answers(cfg, out, e, Emitted(cfg, Step(cfg, s, e).1))
  {
    if s.expectingMapLogin {
      AnswersEnter(cfg, out, e, s.accountId);
    } else if IsSelectServerOpcode(e.opcode) {
      AnswersServerSelect(cfg, out, e);
    } else if IsCharSelectOpcode(e.opcode) {
      AnswersCharSelect(cfg, out, e);
    } else {
      AnswersRest(cfg, out, e);
    }
  }

  /** The state stays visible in what has been sent. */
  lemma StepVisible(cfg: Config, s: State, out: seq<Packet>, e: Input)
    requires Visible(s, out)
    ensures Visible(Step(cfg, s, e).0, out + Emitted(cfg, Step(cfg, s, e).1))
  {
    var (s', g) := Step(cfg, s, e);
    if g.None? {
      assert out + [] == out;
    } else {
      SegmentVisible(cfg, out, g.value);
    }
  }

  lemma BurstPackets(cfg: Config, acc: Id, tick: U32)
    ensures IsBurst(cfg, Packets(cfg, Entered(acc, tick, POST_SELECT_SPAWN)), acc)
  {
  }

  lemma SegmentVisible(cfg: Config, out: seq<Packet>, g: Segment)
    requires g.Entered? ==> g.spawn == POST_SELECT_SPAWN
    ensures var out' := out + Packets(cfg, g);
      && !out'[|out'| - 1].Preamble09A0?
      && LastAccount(out') == (if g.ServerSelected? then g.accountId else LastAccount(out))
      && LastChar(out') == (if g.Redirected? then g.charId else LastChar(out))
      && Entering(out') == g.Redirected?
      && (g.Redirected? ==> out'[|out'| - 1].accountId == g.accountId)
      && ListAwaited(out') == match g
         case ServerSelected(_) => true
         case ListResent => out != [] && out[|out| - 1].Preamble09A0?
         case _ => ListAwaited(out)
  {
    var ps := Packets(cfg, g);
    match g
    case ServerSelected(acc) => PreambleVisible(cfg, out, ps, acc);
    case ListResent => OneMore(out, ps[0]);
    case Redirected(charId, acc) => RedirectVisible(cfg, out, ps, charId, acc);
    case Entered(acc, tick, _) =>
      BurstPackets(cfg, acc, tick);
      BurstVisible(cfg, out, ps, acc);
  }

  lemma {:induction false} RunVisible(cfg: Config, es: seq<Input>)
    ensures Visible(Run(cfg, es), Output(cfg, es))
  {
    if es != [] {
      RunVisible(cfg, es[..|es| - 1]);
      StepVisible(cfg, Run(cfg, es[..|es| - 1]), Output(cfg, es[..|es| - 1]), es[|es| - 1]);
    }
  }

  /** In every run each packet is answered at once, and with exactly what the packets sent before it demand. */
  lemma EveryPacketAnswered(cfg: Config, es: seq<Input>, e: Input)
    ensures Output(cfg, es) <= Output(cfg, es + [e])
    ensures Answers(cfg, Output(cfg, es), e, Output(cfg, es + [e])[|Output(cfg, es)|..])
  {
    assert (es + [e])[..|es|] == es;
    RunVisible(cfg, es);
    StepAnswers(cfg, Run(cfg, es), Output(cfg, es), e);
  }

  /** Packet i puts the client nowhere else than at the fixed spawn. */
  predicate AtSpawn(cfg: Config, p: Packet) {
    && (p.MapLoaded? ==> p.x == 49 && p.y == 113 && p.dir == 0)
    && (p.AcceptEnter? ==> p == AcceptEnter(49, 113, 0))
    && (p.Warp? ==> p == Warp(cfg.initialMap, 49, 113))
  }

  /** A redirect is a pair, and what follows it is the burst. */
  predicate RedirectInPlace(cfg: Config, out: seq<Packet>, i: nat)
    requires i < |out| && out[i].RedirectFull?
  {
    && i > 0 && IsRedirect(cfg, out[i - 1..i + 1], out[i].charId, out[i].accountId)
    && (i + 1 < |out| ==> i + 12 < |out| && IsBurst(cfg, out[i + 1..i + 13], out[i].accountId))
  }

  /** Where packet i of the output may stand. */
  predicate InPlace(cfg: Config, out: seq<Packet>, i: nat)
    requires i < |out|
  {
    && AtSpawn(cfg, out[i])
    && (out[i].RedirectFull? ==> RedirectInPlace(cfg, out, i))
    && (out[i].Sync? ==> i > 0 && out[i - 1].RedirectFull?)
  }

  lemma Inside<T>(a: seq<T>, b: seq<T>, i: nat, j: nat)
    requires i <= j <= |a|
    ensures (a + b)[i..j] == a[i..j]
  {
  }

  lemma PairStays(cfg: Config, out: seq<Packet>, ps: seq<Packet>, i: nat, charId: Id, acc: Id)
    requires 0 < i < |out| && IsRedirect(cfg, out[i - 1..i + 1], charId, acc)
    ensures IsRedirect(cfg, (out + ps)[i - 1..i + 1], charId, acc)
  {
    Inside(out, ps, i - 1, i + 1);
  }

  lemma BurstStays(cfg: Config, out: seq<Packet>, ps: seq<Packet>, i: nat, acc: Id)
    requires i + 12 <= |out| && IsBurst(cfg, out[i..i + 12], acc)
    ensures IsBurst(cfg, (out + ps)[i..i + 12], acc)
  {
    Inside(out, ps, i, i + 12);
  }

  lemma BurstFollows(cfg: Config, out: seq<Packet>, ps: seq<Packet>, acc: Id)
    requires IsBurst(cfg, ps, acc)
    ensures IsBurst(cfg, (out + ps)[|out|..|out| + 12], acc)
  {
    assert (out + ps)[|out|..|out| + 12] == ps;
  }

  lemma RedirectStays(cfg: Config, out: seq<Packet>, ps: seq<Packet>, i: nat)
    requires i < |out| && out[i].RedirectFull? && RedirectInPlace(cfg, out, i)
    requires i + 1 == |out| ==> IsBurst(cfg, ps, out[i].accountId)
    ensures RedirectInPlace(cfg, out + ps, i)
  {
    PairStays(cfg, out, ps, i, out[i].charId, out[i].accountId);
    if i + 1 < |out| {
      BurstStays(cfg, out, ps, i + 1, out[i].accountId);
    } else {
      BurstFollows(cfg, out, ps, out[i].accountId);
    }
  }

  lemma InPlaceStays(cfg: Config, out: seq<Packet>, e: Input, ps: seq<Packet>, i: nat)
    requires Answers(cfg, out, e, ps) && i < |out| && InPlace(cfg, out, i)
    ensures InPlace(cfg, out + ps, i)
  {
    if out[i].RedirectFull? {
      RedirectStays(cfg, out, ps, i);
    }
  }

  lemma BurstAtSpawn(cfg: Config, ps: seq<Packet>, accountId: Id, k: nat)
    requires IsBurst(cfg, ps, accountId) && k < |ps|
    ensures AtSpawn(cfg, ps[k]) && !ps[k].RedirectFull? && (ps[k].Sync? ==> k == 0)
  {
  }

  lemma AnswersAtSpawn(cfg: Config, out: seq<Packet>, e: Input, ps: seq<Packet>, k: nat)
    requires Answers(cfg, out, e, ps) && k < |ps|
    ensures AtSpawn(cfg, ps[k])
    ensures ps[k].Sync? ==> k == 0 && Entering(out)
    ensures ps[k].RedirectFull? ==> k == 1 && IsRedirect(cfg, ps, ps[k].charId, ps[k].accountId)
  {
    if Entering(out) {
      BurstAtSpawn(cfg, ps, out[|out| - 1].accountId, k);
    }
  }

  lemma AnswersInPlace(cfg: Config, out: seq<Packet>, e: Input, ps: seq<Packet>, k: nat)
    requires Answers(cfg, out, e, ps) && k < |ps|
    ensures InPlace(cfg, out + ps, |out| + k)
  {
    AnswersAtSpawn(cfg, out, e, ps, k);
    assert (out + ps)[|out| + k] == ps[k];
    if ps[k].RedirectFull? {
      assert (out + ps)[|out| + k - 1..|out| + k + 1] == ps;
    }
  }

  /**
   On the wire of every run: the client is only ever put on the initial map at (49, 113); each redirect is a pair for
   one character, followed at once by the burst for its account if by anything; and there is no burst without one.
   */
  lemma {:induction false} WireLaw(cfg: Config, es: seq<Input>, i: nat)
    requires i < |Output(cfg, es)|
    ensures InPlace(cfg, Output(cfg, es), i)
  {
    var init, e := es[..|es| - 1], es[|es| - 1];
    var out := Output(cfg, init);
    var ps := Emitted(cfg, Step(cfg, Run(cfg, init), e).1);
    RunVisible(cfg, init);
    StepAnswers(cfg, Run(cfg, init), out, e);
    if i < |out| {
      WireLaw(cfg, init, i);
      InPlaceStays(cfg, out, e, ps, i);
    } else {
      AnswersInPlace(cfg, out, e, ps, i - |out|);
    }
  }
}
