/**
 The orchestrator of server instances: it allocates slots and port triples while processes may exit at
 any moment.

 Environment is the adversary. Its methods promise only what the operating system does: a process that
 has exited stays exited, and any call may let time pass. In a sealed environment nobody else listens on
 our ports: a listening port belongs to a live process that was started on it, and termination works.
 */
module Orchestrator {
  import opened Wrappers
  import opened Arithmetic
  import opened Fleet
  import opened Batches

  /** What the environment answered: a process runs or has exited, a port is listened on or not. */
  datatype Answer = Runs(proc: Process) | Exited(proc: Process) | Listening(port: Port) | Silent(port: Port)

  /** The answer was given, and not before the first from answers. */
  ghost predicate Said(answers: seq<Answer>, from: nat, a: Answer) {
    exists i :: from <= i < |answers| && answers[i] == a
  }

  /** Some port of the triple was found listening. */
  ghost predicate Busy(answers: seq<Answer>, from: nat, t: PortTriple) {
    || Said(answers, from, Listening(t.loginPort))
    || Said(answers, from, Listening(t.charPort))
    || Said(answers, from, Listening(t.queryPort))
  }

  /** All ports of the triple were found listening. */
  ghost predicate Occupied(answers: seq<Answer>, from: nat, t: PortTriple) {
    && Said(answers, from, Listening(t.loginPort))
    && Said(answers, from, Listening(t.charPort))
    && Said(answers, from, Listening(t.queryPort))
  }

  /** All ports of the triple were found free. */
  ghost predicate Quiet(answers: seq<Answer>, from: nat, t: PortTriple) {
    && Said(answers, from, Silent(t.loginPort))
    && Said(answers, from, Silent(t.charPort))
    && Said(answers, from, Silent(t.queryPort))
  }

  /** Some port of the triple was found free. */
  ghost predicate PartlySilent(answers: seq<Answer>, from: nat, t: PortTriple) {
    || Said(answers, from, Silent(t.loginPort))
    || Said(answers, from, Silent(t.charPort))
    || Said(answers, from, Silent(t.queryPort))
  }

  /** What has been said stays said, and counts for every earlier beginning. */
  lemma SaidStays(answers: seq<Answer>, from: nat, answers': seq<Answer>, from': nat)
    requires answers <= answers' && from' <= from
    ensures forall a :: Said(answers, from, a) ==> Said(answers', from', a)
  {
    forall a | Said(answers, from, a) ensures Said(answers', from', a) {
      var i :| from <= i < |answers| && answers[i] == a;
      assert answers'[i] == a;
    }
  }

  /** The instance's process was seen running, or all its ports listened on. */
  ghost predicate SeenInUse(answers: seq<Answer>, from: nat, x: Instance) {
    Said(answers, from, Runs(x.proc)) || Occupied(answers, from, x.ports)
  }

  /** The instance's process was seen to have exited, and one of its ports free. */
  ghost predicate SeenIdle(answers: seq<Answer>, from: nat, x: Instance) {
    Said(answers, from, Exited(x.proc)) && PartlySilent(answers, from, x.ports)
  }

  /** The triple cannot be taken: a port of it is to be avoided, or was found listening. */
  ghost predicate Blocked(answers: seq<Answer>, from: nat, t: PortTriple, avoided: set<Port>) {
    !(t.Ports() !! avoided) || Busy(answers, from, t)
  }

  /** None of the triples can be taken. */
  ghost predicate Exhausted(answers: seq<Answer>, from: nat, triples: seq<PortTriple>, avoided: set<Port>) {
    forall i | 0 <= i < |triples| :: Blocked(answers, from, triples[i], avoided)
  }

  lemma ExhaustedStays(answers: seq<Answer>, from: nat, from': nat, triples: seq<PortTriple>, avoided: set<Port>)
    requires Exhausted(answers, from, triples, avoided) && from' <= from
    ensures Exhausted(answers, from', triples, avoided)
  {
    SaidStays(answers, from, answers, from');
  }

  /** The triple is the first that can be taken, and was found quiet. */
  ghost predicate FirstAvailable(answers: seq<Answer>, from: nat, triples: seq<PortTriple>, avoided: set<Port>, t: PortTriple) {
    && t.Ports() !! avoided && Quiet(answers, from, t)
    && exists i :: 0 <= i < |triples| && triples[i] == t && Exhausted(answers, from, triples[..i], avoided)
  }

  lemma FirstAvailableStays(answers: seq<Answer>, from: nat, answers': seq<Answer>, triples: seq<PortTriple>, avoided: set<Port>,
                            t: PortTriple)
    requires FirstAvailable(answers, from, triples, avoided, t) && answers <= answers'
    ensures FirstAvailable(answers', from, triples, avoided, t)
  {
    SaidStays(answers, from, answers', from);
    var i :| 0 <= i < |triples| && triples[i] == t && Exhausted(answers, from, triples[..i], avoided);
    assert Exhausted(answers', from, triples[..i], avoided);
  }

  lemma LastSaid(answers: seq<Answer>, from: nat)
    requires from < |answers|
    ensures Said(answers, from, answers[|answers| - 1])
  {
  }

  class Environment {
    const sealed: bool

    var alive: set<Process>
    /** The ports that each process ever started was given. */
    var given: map<Process, set<Port>>

    /** Every answer given so far, and every process told to terminate. */
    ghost var answers: seq<Answer>
    ghost var terminated: seq<Process>

    constructor (sealed: bool)
      ensures this.sealed == sealed && alive == {} && given == map[]
    {
      this.sealed := sealed;
      alive, given := {}, map[];
      answers, terminated := [], [];
    }

    /** Every port a live process may listen on is in the cover. */
    ghost predicate Covered(cover: set<Port>)
      reads this
    {
      forall p | p in alive && p in given :: given[p] <= cover
    }

    /** All ports of live processes. */
    ghost function LivePorts(): set<Port>
      reads this
    {
      set p, port | p in alive && p in given && port in given[p] :: port
    }

    lemma LivePortsCover()
      ensures Covered(LivePorts())
    {
      forall p | p in alive && p in given ensures given[p] <= LivePorts() {
        forall port | port in given[p] ensures port in LivePorts() {
        }
      }
    }

    /** Of the processes known at an earlier moment, only those that were alive then are alive. */
    ghost predicate Since(alive: set<Process>, given: map<Process, set<Port>>)
      reads this
    {
      given.Keys <= this.given.Keys && forall p | p in this.alive && p in given :: p in alive
    }

    /** Time passes: any processes may exit. */
    method Tick()
      modifies this`alive
      ensures alive <= old(alive)
    {
      var survivors :| survivors <= alive;
      alive := survivors;
    }

    method Poll(p: Process) returns (running: bool)
      modifies this`alive, this`answers
      ensures alive <= old(alive)
      ensures running <==> p in alive
      ensures answers == old(answers) + [if running then Runs(p) else Exited(p)]
    {
      Tick();
      running := p in alive;
      answers := answers + [if running then Runs(p) else Exited(p)];
    }

    /** Whether someone listens on the port: anybody, unless the environment is sealed. */
    method IsPortListening(port: Port) returns (listening: bool)
      modifies this`alive, this`answers
      ensures alive <= old(alive)
      ensures answers == old(answers) + [if listening then Listening(port) else Silent(port)]
      ensures sealed && listening ==> exists p :: p in alive && p in given && port in given[p]
    {
      Tick();
      listening := *;
      if sealed && !(exists p | p in alive :: p in given && port in given[p]) {
        listening := false;
      }
      answers := answers + [if listening then Listening(port) else Silent(port)];
    }

    static method Unused(used: set<Process>) returns (p: Process)
      ensures p !in used
    {
      p := 0;
      var left := used;
      while p in left
        invariant forall q | q in used && q !in left :: q < p
        decreases left
      {
        left := left - {p};
        p := p + 1;
      }
    }

    /** A new process on the given ports; it may have exited by the time the call returns. */
    method Start(ports: set<Port>) returns (p: Process)
      requires alive <= given.Keys
      modifies this`alive, this`given
      ensures p !in old(given) && given == old(given)[p := ports]
      ensures alive <= old(alive) + {p}
    {
      p := Unused(given.Keys);
      given := given[p := ports];
      alive := alive + {p};
      Tick();
    }

    method Terminate(p: Process)
      modifies this`alive, this`terminated
      ensures alive <= old(alive) && terminated == old(terminated) + [p]
      ensures sealed ==> p !in alive
    {
      terminated := terminated + [p];
      Tick();
      if sealed {
        alive := alive - {p};
      }
    }
  }

  datatype Error = NoTriples | NegativeBlock | BlockFull | BlockNotFound | InvalidSlot | EmptySlot

  // ------------------------------------------------------- the operations on values

  /** Where the next instance goes, and the table with the rows added for it. */
  function Allocation(blocks: Table, preferred: Option<int>, blockSize: nat): (Table, Result<(nat, nat), Error>)
  {
    match preferred
    case Some(b) =>
      if b < 0 then (blocks, Failure(NegativeBlock))
      else
        var t := Padded(blocks, b, blockSize);
        (t, if FirstFree(t[b]) < blockSize then Success((b, FirstFree(t[b]))) else Failure(BlockFull))
    case None =>
      var b := FirstBlock(blocks);
      var place: (nat, nat) := if b < |blocks| then (b, FirstFree(blocks[b])) else (|blocks|, 0);
      (if b < |blocks| then blocks else blocks + [EmptyRow(blockSize)], Success(place))
  }

  lemma PaddedWellFormed(table: Table, blockSize: nat, b: nat)
    requires WellFormed(table, blockSize)
    ensures WellFormed(Padded(table, b, blockSize), blockSize)
  {
    PaddedHolds(table, blockSize, b, Instance(0, 0, 0, PortTriple(0, 0, 0, 0)));
  }

  /** The place is the first empty one, row by row and from the left. */
  predicate FirstVacant(blocks: Table, b: nat, s: nat) {
    && b < |blocks| && s < |blocks[b]| && blocks[b][s] == None
    && (forall k | 0 <= k < s :: blocks[b][k].Some?)
    && (forall c, k | 0 <= c < b && 0 <= k < |blocks[c]| :: blocks[c][k].Some?)
  }

  predicate NoVacancy(blocks: Table) {
    forall c, k | 0 <= c < |blocks| && 0 <= k < |blocks[c]| :: blocks[c][k].Some?
  }

  /**
   What allocation does, place by place. Without a preferred block it takes the first empty place, or the first one of
   a new row if there is none. In a preferred block, to which missing rows are added up, it takes the first empty place,
   and fails exactly if the block is full; it fails without changing anything for a negative one.
   */
  lemma AllocationIsFirstFit(table: Table, preferred: Option<int>, blockSize: nat)
    requires blockSize >= 1 && WellFormed(table, blockSize)
    ensures var (t, place) := Allocation(table, preferred, blockSize);
      match preferred
      case None =>
        && place.Success?
        && (if NoVacancy(table) then t == table + [EmptyRow(blockSize)] && place.value == (|table|, 0)
            else t == table && FirstVacant(table, place.value.0, place.value.1))
      case Some(b) =>
        if b < 0 then t == table && place == Failure(NegativeBlock)
        else
          && |t| == (if b < |table| then |table| else b + 1) && t[..|table|] == table
          && (forall c, k | |table| <= c < |t| && 0 <= k < |t[c]| :: t[c][k] == None)
          && (if forall k | 0 <= k < |t[b]| :: t[b][k].Some? then place == Failure(BlockFull)
              else
                && place.Success? && place.value.0 == b && place.value.1 < |t[b]| && t[b][place.value.1] == None
                && forall k | 0 <= k < place.value.1 :: t[b][k].Some?)
  {
    if preferred.None? {
      var b := FirstBlock(table);
      if b < |table| {
        assert !NoVacancy(table);
      }
    } else if preferred.value >= 0 {
      PaddedWellFormed(table, blockSize, preferred.value);
    }
  }

  predicate NewProcesses(xs: seq<Instance>, given: map<Process, set<Port>>) {
    forall i | 0 <= i < |xs| :: xs[i].proc !in given
  }

  function Avoided(extra: Option<set<Port>>): set<Port> {
    if extra.Some? then extra.value else {}
  }

  /** With room in the preferred row, allocating finds its first empty slot and adds nothing. */
  lemma AllocationInRow(table: Table, b: nat, blockSize: nat)
    requires WellFormed(table, blockSize) && b < |table| && None in table[b]
    ensures Allocation(table, Some(b), blockSize) == (table, Success((b, FirstFree(table[b]))))
  {
    assert Padded(table, b, blockSize) == table;
  }

  /** Allocating only adds empty rows, and names an empty slot. */
  lemma AllocationIsEmpty(table: Table, preferred: Option<int>, blockSize: nat)
    requires blockSize >= 1 && WellFormed(table, blockSize)
    ensures var (t, place) := Allocation(table, preferred, blockSize);
      && WellFormed(t, blockSize)
      && (forall y :: Holds(t, y) <==> Holds(table, y))
      && (place.Success? ==> place.value.0 < |t| && place.value.1 < blockSize && t[place.value.0][place.value.1] == None)
  {
    if preferred.Some? && preferred.value >= 0 {
      forall y ensures Holds(Padded(table, preferred.value, blockSize), y) <==> Holds(table, y) {
        PaddedHolds(table, blockSize, preferred.value, y);
      }
      PaddedWellFormed(table, blockSize, preferred.value);
    }
    AddedRowHolds(table, blockSize);
  }

  /** The process belongs to an instance in the table and was alive. */
  ghost predicate Tracked(blocks: Table, alive: set<Process>, p: Process) {
    p in alive && exists x :: Holds(blocks, x) && x.proc == p
  }

  /** The processes of a row, from the left. */
  function Processes(row: Row): seq<Process> {
    if row == [] then []
    else Processes(row[..|row| - 1]) + if row[|row| - 1].Some? then [row[|row| - 1].value.proc] else []
  }

  function StopError(blocks: Table, blockSize: nat, blockIdx: int, slotIdx: int): Option<Error>
    requires WellFormed(blocks, blockSize)
  {
    if blockIdx < 0 || blockIdx >= |blocks| then Some(BlockNotFound)
    else if slotIdx < 0 || slotIdx >= blockSize then Some(InvalidSlot)
    else if blocks[blockIdx][slotIdx].None? then Some(EmptySlot)
    else None
  }

  function EmptyTable(n: nat, blockSize: nat): Table {
    seq(n, _ => EmptyRow(blockSize))
  }

  lemma PortsOfSnoc(cover: set<Port>, xs: seq<Instance>, x: Instance)
    ensures PortsOf(xs + [x]) == PortsOf(xs) + x.ports.Ports()
    ensures cover + PortsOf(xs + [x]) == cover + PortsOf(xs) + x.ports.Ports()
  {
    assert (xs + [x])[..|xs|] == xs;
  }

  lemma Quotient(free: nat, blockSize: nat)
    requires blockSize >= 1
    ensures free / blockSize * blockSize <= free < free / blockSize * blockSize + blockSize
  {
  }

  lemma NextMultiple(i: nat, blockSize: nat)
    ensures (i + 1) * blockSize == i * blockSize + blockSize
  {
  }

  lemma AtMostPossible(free: nat, blockSize: nat, possible: nat, m: int)
    requires possible * blockSize <= free < possible * blockSize + blockSize && m <= possible
    ensures m * blockSize <= free
    ensures m == possible ==> free < (m + 1) * blockSize
  {
    MulMonotone(blockSize, m, possible);
    NextMultiple(possible, blockSize);
  }

  lemma FilledBounds(free: nat, blockSize: nat, m: int, filled: nat)
    requires m > 0 ==> m * blockSize <= free
    requires filled <= m || filled == 0
    ensures filled * blockSize <= free
    ensures filled < m ==> (filled + 1) * blockSize <= free
  {
    if filled < m {
      MulMonotone(blockSize, filled, m);
      MulMonotone(blockSize, filled + 1, m);
    }
  }

  /** In round i of m, fewer triples have been taken than m blocks take. */
  lemma BelowFree(free: nat, blockSize: nat, m: int, i: nat, taken: nat, picked: nat)
    requires i < m && m * blockSize <= free
    requires taken <= i * blockSize && picked < blockSize
    ensures taken + picked < free
  {
    NextMultiple(i, blockSize);
    MulMonotone(blockSize, i + 1, m);
  }

  /** While a block is being filled that was counted as possible, some triple is outside all ports reserved or taken. */
  lemma TripleLeft(triples: seq<PortTriple>, blockSize: nat, counted: set<Port>, started: seq<Instance>, picks: seq<Instance>,
                   i: nat, m: int)
    requires PairwiseDisjoint(triples) && i < m && m * blockSize <= FreeTriples(triples, counted)
    requires |started| <= i * blockSize && |picks| < blockSize
    requires forall k | 0 <= k < |started| :: started[k].ports in triples
    requires forall k | 0 <= k < |picks| :: picks[k].ports in triples
    ensures exists t | t in triples :: t.Ports() !! counted + PortsOf(started + picks)
  {
    BelowFree(FreeTriples(triples, counted), blockSize, m, i, |started|, |picks|);
    EnoughTriples(triples, counted, started + picks);
  }

  class ThanatosOrchestrator {
    const env: Environment
    const blockSize: nat
    /** The triples of the configuration, read once. */
    const triples: seq<PortTriple>

    var blocks: Table
    var reservedPorts: set<Port>
    var shutdownInProgress: bool

    ghost predicate Valid()
      reads this, env
    {
      && blockSize >= 1
      && WellFormed(blocks, blockSize)
      && Known()
      && LiveDisjoint(blocks, env.alive)
      && (env.sealed ==> LiveTracked())
    }

    /** Every instance runs on a configured triple, and the environment knows its process. */
    ghost predicate Known()
      reads this, env
    {
      && env.alive <= env.given.Keys
      && forall x | Holds(blocks, x) :: x.ports in triples && x.proc in env.given && env.given[x.proc] == x.ports.Ports()
    }

    /** Every live process belongs to an instance in the table. */
    ghost predicate LiveTracked()
      reads this, env
    {
      forall p | p in env.alive :: exists x :: Holds(blocks, x) && x.proc == p
    }

    constructor (env: Environment, triples: seq<PortTriple>, blockSize: nat)
      requires blockSize >= 1 && env.alive == {}
      ensures Valid() && this.env == env && this.triples == triples && this.blockSize == blockSize && blocks == []
    {
      this.env, this.triples, this.blockSize := env, triples, blockSize;
      blocks, reservedPorts, shutdownInProgress := [], {}, false;
    }

    /** Between two calls any processes may exit. */
    method LetTimePass()
      requires Valid()
      modifies env`alive
      ensures Valid() && env.alive <= old(env.alive)
    {
      env.Tick();
    }

    // ------------------------------------------------------------------ placement

    method FindFirstBlockWithFreeSlot() returns (b: Option<nat>)
      ensures b == if FirstBlock(blocks) < |blocks| then Some(FirstBlock(blocks)) else None
    {
      var bidx := 0;
      while bidx < |blocks|
        invariant 0 <= bidx <= |blocks|
        invariant forall k | 0 <= k < bidx :: None !in blocks[k]
      {
        if None in blocks[bidx] {
          return Some(bidx);
        }
        bidx := bidx + 1;
      }
      return None;
    }

    method EnsureBlock(blockIdx: nat)
      modifies this`blocks
      ensures blocks == Padded(old(blocks), blockIdx, blockSize)
    {
      while |blocks| <= blockIdx
        invariant Padded(blocks, blockIdx, blockSize) == Padded(old(blocks), blockIdx, blockSize)
        decreases blockIdx + 1 - |blocks|
      {
        blocks := blocks + [EmptyRow(blockSize)];
      }
    }

    /** The first empty slot of the row, looked for from the left. */
    method FindFreeSlot(row: Row) returns (s: nat)
      ensures s == FirstFree(row)
    {
      s := 0;
      while s < |row|
        invariant s <= |row|
        invariant forall k | 0 <= k < s :: row[k].Some?
      {
        if row[s].None? {
          return;
        }
        s := s + 1;
      }
    }

    method AllocateSlot(preferred: Option<int>) returns (r: Result<(nat, nat), Error>)
      requires blockSize >= 1 && WellFormed(blocks, blockSize)
      modifies this`blocks
      ensures r == Allocation(old(blocks), preferred, blockSize).1
      ensures blocks == Allocation(old(blocks), preferred, blockSize).0
    {
      if preferred.Some? {
        if preferred.value < 0 {
          return Failure(NegativeBlock);
        }
        EnsureBlock(preferred.value);
        var slot := FindFreeSlot(blocks[preferred.value]);
        if slot < blockSize {
          return Success((preferred.value, slot));
        }
        return Failure(BlockFull);
      }
      var bidx := FindFirstBlockWithFreeSlot();
      if bidx.Some? {
        var slot := FindFreeSlot(blocks[bidx.value]);
        if slot < blockSize {
          return Success((bidx.value, slot));
        }
      }
      blocks := blocks + [EmptyRow(blockSize)];
      return Success((|blocks| - 1, 0));
    }

    // ---------------------------------------------------------------------- ports

    method PortsListening(t: PortTriple, ghost cover: set<Port>) returns (all: bool)
      modifies env`alive, env`answers
      ensures env.alive <= old(env.alive)
      ensures env.sealed && old(env.Covered(cover)) && all ==> t.Ports() <= cover
      ensures old(env.answers) <= env.answers
      ensures if all then Occupied(env.answers, |old(env.answers)|, t) else PartlySilent(env.answers, |old(env.answers)|, t)
    {
      var ports := t.AsList();
      for i := 0 to |ports|
        invariant env.alive <= old(env.alive) && old(env.answers) <= env.answers
        invariant forall k | 0 <= k < i :: Said(env.answers, |old(env.answers)|, Listening(ports[k]))
        invariant env.sealed && old(env.Covered(cover)) ==> forall k | 0 <= k < i :: ports[k] in cover
      {
        ghost var before := env.answers;
        var listening := env.IsPortListening(ports[i]);
        SaidStays(before, |old(env.answers)|, env.answers, |old(env.answers)|);
        LastSaid(env.answers, |old(env.answers)|);
        if !listening {
          return false;
        }
      }
      assert ports[0] == t.loginPort && ports[1] == t.charPort && ports[2] == t.queryPort;
      return true;
    }

    /** Some port of the triple was seen listening. */
    method SomePortListening(t: PortTriple, ghost cover: set<Port>) returns (some: bool)
      modifies env`alive, env`answers
      ensures env.alive <= old(env.alive)
      ensures env.sealed && old(env.Covered(cover)) && some ==> !(t.Ports() !! cover)
      ensures old(env.answers) <= env.answers
      ensures if some then Busy(env.answers, |old(env.answers)|, t) else Quiet(env.answers, |old(env.answers)|, t)
    {
      var ports := t.AsList();
      for i := 0 to |ports|
        invariant env.alive <= old(env.alive) && old(env.answers) <= env.answers
        invariant forall k | 0 <= k < i :: Said(env.answers, |old(env.answers)|, Silent(ports[k]))
      {
        ghost var before := env.answers;
        var listening := env.IsPortListening(ports[i]);
        SaidStays(before, |old(env.answers)|, env.answers, |old(env.answers)|);
        LastSaid(env.answers, |old(env.answers)|);
        if listening {
          assert ports[i] in t.Ports();
          return true;
        }
      }
      assert ports[0] == t.loginPort && ports[1] == t.charPort && ports[2] == t.queryPort;
      return false;
    }

    /** The process runs, or all its ports are listened on. */
    method InUse(x: Instance, ghost cover: set<Port>) returns (inUse: bool)
      requires Known() && Holds(blocks, x)
      modifies env`alive, env`answers
      ensures env.alive <= old(env.alive)
      ensures !inUse ==> x.proc !in env.alive
      ensures old(env.answers) <= env.answers && (inUse ==> SeenInUse(env.answers, |old(env.answers)|, x))
      ensures !inUse ==> SeenIdle(env.answers, |old(env.answers)|, x)
      ensures env.sealed && old(env.Covered(cover)) && inUse ==> x.ports.Ports() <= cover
    {
      inUse := env.Poll(x.proc);
      LastSaid(env.answers, |old(env.answers)|);
      if !inUse {
        ghost var before := env.answers;
        inUse := PortsListening(x.ports, cover);
        SaidStays(before, |old(env.answers)|, env.answers, |old(env.answers)|);
        SaidStays(env.answers, |before|, env.answers, |old(env.answers)|);
      }
    }

    /** These instances of the table have been seen in use. */
    ghost predicate Used(xs: seq<Instance>, from: nat)
      reads this, env
    {
      forall i | 0 <= i < |xs| :: Holds(blocks, xs[i]) && SeenInUse(env.answers, from, xs[i])
    }

    /** The reserved ports are those of the instances seen in use. */
    method RecomputeReservedPorts(ghost cover: set<Port>) returns (ghost used: seq<Instance>)
      requires WellFormed(blocks, blockSize) && Known()
      modifies this`reservedPorts, env`alive, env`answers
      ensures env.alive <= old(env.alive) && old(env.answers) <= env.answers
      ensures reservedPorts == PortsOf(used) && Used(used, |old(env.answers)|)
      ensures Reserves(blocks, env.alive, reservedPorts)
      ensures env.sealed && old(env.Covered(cover)) ==> reservedPorts <= cover
    {
      var reserved: set<Port> := {};
      used := [];
      for b := 0 to |blocks|
        invariant env.alive <= old(env.alive) && old(env.answers) <= env.answers
        invariant reserved == PortsOf(used) && Used(used, |old(env.answers)|)
        invariant forall x | Holds(blocks, x) && x.block < b && x.proc in env.alive :: x.ports.Ports() <= reserved
        invariant env.sealed && old(env.Covered(cover)) ==> reserved <= cover
      {
        for s := 0 to |blocks[b]|
          invariant env.alive <= old(env.alive) && old(env.answers) <= env.answers
          invariant reserved == PortsOf(used) && Used(used, |old(env.answers)|)
          invariant forall x | Holds(blocks, x) && x.block < b && x.proc in env.alive :: x.ports.Ports() <= reserved
          invariant forall x | Holds(blocks, x) && x.block == b && x.slot < s && x.proc in env.alive :: x.ports.Ports() <= reserved
          invariant env.sealed && old(env.Covered(cover)) ==> reserved <= cover
        {
          var inst := blocks[b][s];
          if inst.Some? {
            ghost var before := env.answers;
            var inUse := InUse(inst.value, cover);
            SaidStays(before, |old(env.answers)|, env.answers, |old(env.answers)|);
            SaidStays(env.answers, |before|, env.answers, |old(env.answers)|);
            if inUse {
              PortsOfSnoc({}, used, inst.value);
              reserved := reserved + inst.value.ports.Ports();
              used := used + [inst.value];
            }
          }
        }
      }
      reservedPorts := reserved;
    }

    /** First fit over the configured triples. */
    method PickFirstAvailableTriple(extra: set<Port>, ghost cover: set<Port>) returns (r: Result<PortTriple, Error>)
      requires WellFormed(blocks, blockSize) && Known()
      modifies this`reservedPorts, env`alive, env`answers
      ensures env.alive <= old(env.alive) && old(env.answers) <= env.answers
      ensures Reserves(blocks, env.alive, reservedPorts)
      ensures if r.Success? then FirstAvailable(env.answers, |old(env.answers)|, triples, reservedPorts + extra, r.value)
              else r.error == NoTriples && Exhausted(env.answers, |old(env.answers)|, triples, reservedPorts + extra)
      ensures r.Failure? && env.sealed && old(env.Covered(cover)) && extra <= cover ==>
        forall t | t in triples :: !(t.Ports() !! cover)
    {
      var _ := RecomputeReservedPorts(cover);
      var reserved := reservedPorts + extra;
      for i := 0 to |triples|
        invariant env.alive <= old(env.alive) && old(env.answers) <= env.answers
        invariant reserved == reservedPorts + extra && Reserves(blocks, env.alive, reservedPorts)
        invariant Exhausted(env.answers, |old(env.answers)|, triples[..i], reserved)
        invariant env.sealed && old(env.Covered(cover)) && extra <= cover ==>
          forall k | 0 <= k < i :: !(triples[k].Ports() !! cover)
      {
        var t := triples[i];
        if t.Ports() !! reserved {
          ghost var before := env.answers;
          var busy := SomePortListening(t, cover);
          SaidStays(before, |old(env.answers)|, env.answers, |old(env.answers)|);
          SaidStays(env.answers, |before|, env.answers, |old(env.answers)|);
          if !busy {
            return Success(t);
          }
        }
        assert triples[..i + 1] == triples[..i] + [t];
      }
      assert triples[..|triples|] == triples;
      return Failure(NoTriples);
    }

    // ------------------------------------------------------------------- starting

    /** Waits while the clock allows polls rounds. */
    method WaitUntilListeningOrExit(p: Process, t: PortTriple, polls: nat) returns (listening: bool, exited: bool)
      modifies env`alive, env`answers
      ensures env.alive <= old(env.alive) && old(env.answers) <= env.answers
      ensures exited ==> p !in env.alive
    {
      var running;
      for i := 0 to polls
        invariant env.alive <= old(env.alive) && old(env.answers) <= env.answers
      {
        running := env.Poll(p);
        if !running {
          return false, true;
        }
        listening := PortsListening(t, {});
        if listening {
          return true, false;
        }
      }
      running := env.Poll(p);
      listening := PortsListening(t, {});
      exited := !running;
    }

    ghost predicate Started(table: Table, preferred: Option<int>, x: Instance)
      reads this
      requires blockSize >= 1 && WellFormed(table, blockSize)
    {
      var (t, place) := Allocation(table, preferred, blockSize);
      && place == Success((x.block, x.slot))
      && x.ports in triples
      && x.block < |t| && x.slot < |t[x.block]| && t[x.block][x.slot] == None
      && blocks == Placed(t, x)
    }

    /** The table with the new instance in it satisfies the invariant, whoever exited meanwhile. */
    lemma StartKeepsValid(table: Table, before: Table, x: Instance, alive: set<Process>, given: map<Process, set<Port>>,
                          reserved: set<Port>)
      requires blockSize >= 1 && WellFormed(table, blockSize) && WellFormed(before, blockSize)
      requires forall y :: Holds(before, y) <==> Holds(table, y)
      requires x.block < |before| && x.slot < blockSize && before[x.block][x.slot] == None && blocks == Placed(before, x)
      requires x.ports in triples && x.ports.Ports() !! reserved && x.proc !in given
      requires LiveDisjoint(table, alive) && Reserves(table, alive, reserved) && alive <= given.Keys
      requires forall y | Holds(table, y) :: y.ports in triples && y.proc in given && given[y.proc] == y.ports.Ports()
      requires env.sealed ==> forall p | p in alive :: exists y :: Holds(table, y) && y.proc == p
      requires env.given == given[x.proc := x.ports.Ports()] && env.alive <= alive + {x.proc}
      ensures Valid()
    {
      forall y ensures Holds(blocks, y) <==> Holds(table, y) || y == x {
        PlacedHolds(before, blockSize, x, y);
      }
      PlacingKeepsLiveDisjoint(before, blockSize, x, alive, env.alive, reserved);
      PlacedHolds(before, blockSize, x, x);
    }

    /** Starts the process, enters it in the table, and waits for it. */
    method Launch(block: nat, slot: nat, ports: PortTriple, polls: nat, ghost table: Table, ghost reserved: set<Port>,
                  ghost cover: set<Port>)
      returns (inst: Instance)
      requires blockSize >= 1 && WellFormed(table, blockSize) && WellFormed(blocks, blockSize)
      requires forall y :: Holds(blocks, y) <==> Holds(table, y)
      requires block < |blocks| && slot < blockSize && blocks[block][slot] == None
      requires ports in triples && ports.Ports() !! reserved
      requires LiveDisjoint(table, env.alive) && Reserves(table, env.alive, reserved) && Known()
      requires env.sealed ==> LiveTracked()
      modifies this`blocks, env`alive, env`given, env`answers
      ensures Valid()
      ensures inst == Instance(block, slot, inst.proc, ports) && blocks == Placed(old(blocks), inst)
      ensures inst.proc !in old(env.given) && env.Since(old(env.alive), old(env.given)) && old(env.answers) <= env.answers
      ensures old(env.Covered(cover)) ==> env.Covered(cover + ports.Ports())
    {
      ghost var before, alive, given := blocks, env.alive, env.given;
      var proc := env.Start(ports.Ports());
      inst := Instance(block, slot, proc, ports);
      blocks := blocks[block := blocks[block][slot := Some(inst)]];
      StartKeepsValid(table, before, inst, alive, given, reserved);

      var _, _ := WaitUntilListeningOrExit(proc, ports, polls);
    }

    /**
     Starts one instance on the first available triple, in the preferred block or the first one with room.
     extra is the caller's set of ports to avoid, to which the new ones are added.
     */
    method StartServer(preferred: Option<int>, extra: Option<set<Port>>, polls: nat, ghost cover: set<Port>)
      returns (r: Result<Instance, Error>, extra': Option<set<Port>>)
      requires Valid()
      modifies this`blocks, this`reservedPorts, env`alive, env`given, env`answers
      ensures Valid()
      ensures r.Failure? ==> extra' == extra && env.alive <= old(env.alive) && env.given == old(env.given)
      ensures r.Failure? ==> blocks == if r.error == NoTriples then old(blocks) else Allocation(old(blocks), preferred, blockSize).0
      ensures r.Failure? && r.error != NoTriples ==> Allocation(old(blocks), preferred, blockSize).1 == Failure(r.error)
      ensures r.Success? ==> Started(old(blocks), preferred, r.value)
      ensures r.Success? ==> r.value.proc !in old(env.given) && r.value.ports.Ports() !! Avoided(extra)
      ensures env.Since(old(env.alive), old(env.given)) && old(env.answers) <= env.answers
      ensures r.Failure? && r.error == NoTriples ==>
        Exhausted(env.answers, |old(env.answers)|, triples, reservedPorts + Avoided(extra))
      ensures r.Success? ==> FirstAvailable(env.answers, |old(env.answers)|, triples,
                                            reservedPorts - r.value.ports.Ports() + Avoided(extra), r.value.ports)
      ensures r.Success? ==> extra' == if extra.Some? then Some(extra.value + r.value.ports.Ports()) else None
      ensures env.sealed && old(env.Covered(cover)) && Avoided(extra) <= cover ==>
        if r.Success? then env.Covered(cover + r.value.ports.Ports())
        else env.Covered(cover) && (r.error == NoTriples ==> forall t | t in triples :: !(t.Ports() !! cover))
    {
      extra' := extra;
      ghost var table := blocks;
      var picked := PickFirstAvailableTriple(Avoided(extra), cover);
      if picked.Failure? {
        r := Failure(picked.error);
        return;
      }
      var ports := picked.value;

      var place := AllocateSlot(preferred);
      AllocationIsEmpty(table, preferred, blockSize);
      if place.Failure? {
        r := Failure(place.error);
        return;
      }
      var (block, slot) := place.value;

      if extra.Some? {
        extra' := Some(extra.value + ports.Ports());
      }
      ghost var reserved, answers := reservedPorts, env.answers;
      reservedPorts := reservedPorts + ports.Ports();
      assert reservedPorts - ports.Ports() == reserved;
      var inst := Launch(block, slot, ports, polls, table, reserved, cover);
      FirstAvailableStays(answers, |old(env.answers)|, env.answers, triples, reserved + Avoided(extra), ports);
      r := Success(inst);
    }

    /** started have been put into row b of table, on new processes, since the moment with these processes. */
    ghost predicate InBatch(table: Table, b: nat, started: seq<Instance>, alive: set<Process>, given: map<Process, set<Port>>)
      reads this, env
    {
      && Batch(table, blocks, b, started)
      && (forall i | 0 <= i < |started| :: started[i].ports in triples)
      && NewProcesses(started, given)
      && env.Since(alive, given)
    }

    /** The first block with an empty slot, or a new block. */
    method ChooseBlock() returns (preferred: nat)
      requires Valid()
      modifies this`blocks
      ensures Valid() && preferred == FirstBlock(old(blocks)) && blocks == WithRoom(old(blocks), blockSize)
      ensures preferred < |blocks|
    {
      var found := FindFirstBlockWithFreeSlot();
      if found.Some? {
        preferred := found.value;
      } else {
        AddedRowHolds(blocks, blockSize);
        blocks := blocks + [EmptyRow(blockSize)];
        preferred := |blocks| - 1;
      }
    }

    lemma OneMoreInBatch(table: Table, before: Table, b: nat, started: seq<Instance>, x: Instance,
                         alive': set<Process>, given': map<Process, set<Port>>, alive: set<Process>, given: map<Process, set<Port>>)
      requires Batch(table, before, b, started)
      requires x.block == b && x.slot < |before[b]| && before[b][x.slot] == None && blocks == Placed(before, x)
      requires x.ports in triples && x.ports.Ports() !! PortsOf(started) && x.proc !in given'
      requires forall i | 0 <= i < |started| :: started[i].ports in triples
      requires NewProcesses(started, given) && env.Since(alive', given')
      requires given.Keys <= given'.Keys && forall p | p in alive' && p in given :: p in alive
      ensures InBatch(table, b, started + [x], alive, given)
      ensures EmptySlots(blocks[b]) < EmptySlots(before[b])
    {
      BatchGrows(table, before, blocks, blockSize, b, started, x);
    }

    /** One round of StartBlock: one more slot of the block is filled. */
    method StartInto(preferred: nat, batchReserved: Option<set<Port>>, polls: nat, ghost cover: set<Port>,
                     ghost table: Table, ghost started: seq<Instance>, ghost alive: set<Process>, ghost given: map<Process, set<Port>>)
      returns (r: Result<Instance, Error>, batchReserved': Option<set<Port>>)
      requires Valid() && preferred < |blocks| && None in blocks[preferred]
      requires InBatch(table, preferred, started, alive, given) && batchReserved == Some(PortsOf(started)) && PortsOf(started) <= cover
      modifies this`blocks, this`reservedPorts, env`alive, env`given, env`answers
      ensures Valid() && preferred < |blocks|
      ensures |started| < blockSize && old(env.answers) <= env.answers
      ensures r.Failure? ==> Exhausted(env.answers, |old(env.answers)|, triples, reservedPorts + PortsOf(started))
      ensures r.Failure? ==> r.error == NoTriples && blocks == old(blocks) && InBatch(table, preferred, started, alive, given)
      ensures r.Success? ==> InBatch(table, preferred, started + [r.value], alive, given)
      ensures r.Success? ==> batchReserved' == Some(PortsOf(started) + r.value.ports.Ports())
      ensures r.Success? ==> EmptySlots(blocks[preferred]) < EmptySlots(old(blocks[preferred]))
      ensures env.sealed && old(env.Covered(cover)) ==>
        if r.Success? then env.Covered(cover + r.value.ports.Ports())
        else env.Covered(cover) && forall t | t in triples :: !(t.Ports() !! cover)
    {
      ghost var before, alive', given' := blocks, env.alive, env.given;
      BatchBound(table, blocks, blockSize, preferred, started);
      AllocationInRow(blocks, preferred, blockSize);
      r, batchReserved' := StartServer(Some(preferred), batchReserved, polls, cover);
      if r.Success? {
        OneMoreInBatch(table, before, preferred, started, r.value, alive', given', alive, given);
      }
    }

    /** The loop of StartBlock: until the block is full. */
    method FillBlock(preferred: nat, polls: nat, ghost cover: set<Port>)
      returns (r: Result<seq<Instance>, Error>, ghost started: seq<Instance>)
      requires Valid() && preferred < |blocks|
      modifies this`blocks, this`reservedPorts, env`alive, env`given, env`answers
      ensures Valid() && InBatch(old(blocks), preferred, started, old(env.alive), old(env.given)) && |started| <= blockSize
      ensures r.Success? ==> r.value == started && None !in blocks[preferred]
      ensures r.Failure? ==> r.error == NoTriples && |started| < blockSize && None in blocks[preferred]
      ensures old(env.answers) <= env.answers
      ensures r.Failure? ==> Exhausted(env.answers, |old(env.answers)|, triples, reservedPorts + PortsOf(started))
      ensures env.sealed && old(env.Covered(cover)) ==>
        && env.Covered(cover + PortsOf(started))
        && (r.Failure? ==> forall t | t in triples :: !(t.Ports() !! cover + PortsOf(started)))
    {
      var batchReserved: Option<set<Port>> := Some({});
      var list: seq<Instance> := [];
      started := [];
      assert cover + {} == cover;
      while None in blocks[preferred]
        invariant Valid() && list == started && preferred < |blocks|
        invariant InBatch(old(blocks), preferred, started, old(env.alive), old(env.given))
        invariant batchReserved == Some(PortsOf(started)) && old(env.answers) <= env.answers
        invariant env.sealed && old(env.Covered(cover)) ==> env.Covered(cover + PortsOf(started))
        decreases EmptySlots(blocks[preferred])
      {
        var inst;
        ghost var from := |env.answers|;
        inst, batchReserved := StartInto(preferred, batchReserved, polls, cover + PortsOf(started), old(blocks), started,
                                         old(env.alive), old(env.given));
        if inst.Failure? {
          ExhaustedStays(env.answers, from, |old(env.answers)|, triples, reservedPorts + PortsOf(started));
          r := Failure(inst.error);
          return;
        }
        PortsOfSnoc(cover, started, inst.value);
        list := list + [inst.value];
        started := started + [inst.value];
      }
      BatchBound(old(blocks), blocks, blockSize, preferred, started);
      r := Success(list);
    }

    /**
     Fills the first block with an empty slot, or a new block. started lists what was started even if
     the triples run out.
     */
    method StartBlock(polls: nat, ghost cover: set<Port>)
      returns (r: Result<seq<Instance>, Error>, ghost started: seq<Instance>)
      requires Valid()
      modifies this`blocks, this`reservedPorts, env`alive, env`given, env`answers
      ensures Valid()
      ensures Batch(WithRoom(old(blocks), blockSize), blocks, FirstBlock(old(blocks)), started)
      ensures forall i | 0 <= i < |started| :: started[i].ports in triples
      ensures r.Success? ==> r.value == started && |started| <= blockSize && None !in blocks[FirstBlock(old(blocks))]
      ensures r.Failure? ==> r.error == NoTriples && |started| < blockSize && None in blocks[FirstBlock(old(blocks))]
      ensures NewProcesses(started, old(env.given)) && env.Since(old(env.alive), old(env.given))
      ensures old(env.answers) <= env.answers
      ensures r.Failure? ==> Exhausted(env.answers, |old(env.answers)|, triples, reservedPorts + PortsOf(started))
      ensures env.sealed && old(env.Covered(cover)) ==>
        && env.Covered(cover + PortsOf(started))
        && (r.Failure? ==> forall t | t in triples :: !(t.Ports() !! cover + PortsOf(started)))
    {
      var preferred := ChooseBlock();
      r, started := FillBlock(preferred, polls, cover);
    }

    method CountFreeTriples(reserved: set<Port>) returns (free: nat)
      ensures free == FreeTriples(triples, reserved)
    {
      free := 0;
      for i := 0 to |triples|
        invariant free == FreeTriples(triples[..i], reserved)
      {
        assert triples[..i + 1][..i] == triples[..i];
        if triples[i].Ports() !! reserved {
          free := free + 1;
        }
      }
      assert triples[..|triples|] == triples;
    }

    /** How many whole blocks the free triples are enough for. */
    method CountPossibleBlocks() returns (n: nat, ghost used: seq<Instance>)
      requires Valid()
      modifies this`reservedPorts, env`alive, env`answers
      ensures Valid() && env.alive <= old(env.alive) && old(env.answers) <= env.answers
      ensures n * blockSize <= FreeTriples(triples, reservedPorts) < n * blockSize + blockSize
      ensures reservedPorts == PortsOf(used) && Used(used, |old(env.answers)|)
      ensures Reserves(blocks, env.alive, reservedPorts)
      ensures env.sealed ==> env.Covered(reservedPorts) && reservedPorts <= old(env.LivePorts())
    {
      ghost var live := env.LivePorts();
      env.LivePortsCover();
      used := RecomputeReservedPorts(live);
      var free := CountFreeTriples(reservedPorts);
      n := free / blockSize;
      Quotient(free, blockSize);
    }

    /** In i blocks, started have been taken, and all live processes are on counted or taken ports. */
    ghost predicate Taken(counted: set<Port>, started: seq<Instance>, i: nat)
      reads this, env
    {
      && |started| <= i * blockSize
      && (forall k | 0 <= k < |started| :: started[k].ports in triples)
      && (env.sealed ==> env.Covered(counted + PortsOf(started)))
    }

    /** One round of StartNBlocks. */
    method StartNext(polls: nat, ghost counted: set<Port>, ghost table: Table, ghost started: seq<Instance>, ghost i: nat, ghost m: int)
      returns (block: Result<seq<Instance>, Error>, ghost picks: seq<Instance>)
      requires Valid() && i < m && m * blockSize <= FreeTriples(triples, counted)
      requires Taken(counted, started, i) && Reserves(table, env.alive, counted)
      requires WellFormed(table, blockSize) && Grown(table, blocks, started)
      modifies this`blocks, this`reservedPorts, env`alive, env`given, env`answers
      ensures Valid() && Grown(table, blocks, started + picks) && NewProcesses(picks, old(env.given))
      ensures old(env.answers) <= env.answers
      ensures if block.Success? then block.value == picks && (AddedRowsFull(table, old(blocks)) ==> AddedRowsFull(table, blocks))
              else |picks| < blockSize && Exhausted(env.answers, |old(env.answers)|, triples, reservedPorts + PortsOf(picks))
      ensures FullRows(blocks) == FullRows(old(blocks)) + if block.Success? then 1 else 0
      ensures block.Success? ==> Taken(counted, started + picks, i + 1)
      ensures old(env.given.Keys) <= env.given.Keys && Reserves(table, env.alive, counted)
      ensures env.sealed && PairwiseDisjoint(triples) ==> block.Success?
    {
      assert forall x | Holds(table, x) :: Holds(blocks, x);
      block, picks := StartBlock(polls, counted + PortsOf(started));
      GrownByBatch(table, old(blocks), blocks, blockSize, started, picks);
      FullRowsOfBatch(old(blocks), blocks, blockSize, picks);
      if block.Success? && AddedRowsFull(table, old(blocks)) {
        AddedRowsOfBatch(table, old(blocks), blocks, blockSize, picks);
      }
      PortsOfAppend(started, picks);
      assert counted + PortsOf(started) + PortsOf(picks) == counted + PortsOf(started + picks);
      NextMultiple(i, blockSize);
      if block.Failure? && env.sealed && PairwiseDisjoint(triples) {
        TripleLeft(triples, blockSize, counted, started, picks, i, m);
      }
    }

    /** n, but no more blocks than the free triples are enough for. */
    method ClampRequest(n: int) returns (m: int)
      requires Valid()
      modifies this`reservedPorts, env`alive, env`answers
      ensures Valid() && env.alive <= old(env.alive) && old(env.answers) <= env.answers
      ensures m <= n && (m > 0 ==> m * blockSize <= FreeTriples(triples, reservedPorts))
      ensures m == n || (m >= 0 && FreeTriples(triples, reservedPorts) < (m + 1) * blockSize)
      ensures Reserves(blocks, env.alive, reservedPorts)
      ensures env.sealed ==> env.Covered(reservedPorts) && reservedPorts <= old(env.LivePorts())
    {
      var blocksPossible, _ := CountPossibleBlocks();
      m := n;
      if m > blocksPossible {
        m := blocksPossible;
      }
      AtMostPossible(FreeTriples(triples, reservedPorts), blockSize, blocksPossible, m);
    }

    /** The loop of StartNBlocks: m blocks, one after the other, or until the triples run out. */
    method StartRounds(m: int, polls: nat, ghost counted: set<Port>)
      returns (started: seq<Instance>, raised: bool, ghost filled: nat, ghost unlisted: seq<Instance>)
      requires Valid() && (m > 0 ==> m * blockSize <= FreeTriples(triples, counted))
      requires Reserves(blocks, env.alive, counted) && (env.sealed ==> env.Covered(counted))
      modifies this`blocks, this`reservedPorts, env`alive, env`given, env`answers
      ensures Valid()
      ensures Grown(old(blocks), blocks, started + unlisted) && NewProcesses(started + unlisted, old(env.given))
      ensures FullRows(blocks) == FullRows(old(blocks)) + filled
      ensures Reserves(old(blocks), env.alive, counted) && old(env.answers) <= env.answers
      ensures if raised then
          filled < m && |unlisted| < blockSize
          && Exhausted(env.answers, |old(env.answers)|, triples, reservedPorts + PortsOf(unlisted))
        else
          filled == (if m < 0 then 0 else m) && unlisted == [] && AddedRowsFull(old(blocks), blocks)
      ensures env.sealed && PairwiseDisjoint(triples) ==> !raised
    {
      started, raised, filled, unlisted := [], false, 0, [];
      assert counted + {} == counted;
      GrownByNothing(blocks);
      var i := 0;
      while i < m
        invariant Valid() && !raised && filled == i >= 0 && (i <= m || i == 0) && unlisted == []
        invariant Taken(counted, started, i)
        invariant Grown(old(blocks), blocks, started) && NewProcesses(started, old(env.given)) && AddedRowsFull(old(blocks), blocks)
        invariant FullRows(blocks) == FullRows(old(blocks)) + filled
        invariant old(env.given.Keys) <= env.given.Keys && Reserves(old(blocks), env.alive, counted)
        invariant old(env.answers) <= env.answers
      {
        var block;
        ghost var picks;
        ghost var from := |env.answers|;
        block, picks := StartNext(polls, counted, old(blocks), started, i, m);
        if block.Failure? {
          raised, unlisted := true, picks;
          ExhaustedStays(env.answers, from, |old(env.answers)|, triples, reservedPorts + PortsOf(unlisted));
          return;
        }
        started := started + block.value;
        i := i + 1;
        filled := i;
      }
      assert started + unlisted == started;
    }

    /**
     Starts up to n blocks, no more than the free triples allow; counted are the ports that were reserved
     when they were counted, and filled is the number of blocks that have become full. raised says that the
     triples ran out all the same; then unlisted are the instances that the last block started and that the
     result does not list. With disjoint triples and nobody else on the ports it never happens, whichever
     processes exit in the meantime, and as many blocks are filled as the ports in use at the call allow.
     */
    method StartNBlocks(n: int, polls: nat)
      returns (started: seq<Instance>, raised: bool, ghost filled: nat, ghost counted: set<Port>, ghost unlisted: seq<Instance>)
      requires Valid()
      modifies this`blocks, this`reservedPorts, env`alive, env`given, env`answers
      ensures Valid()
      ensures Grown(old(blocks), blocks, started + unlisted) && NewProcesses(started + unlisted, old(env.given))
      ensures FullRows(blocks) == FullRows(old(blocks)) + filled
      ensures filled * blockSize <= FreeTriples(triples, counted) && (filled == 0 || filled <= n)
      ensures if raised then
          && filled < n && (filled + 1) * blockSize <= FreeTriples(triples, counted) && |unlisted| < blockSize
          && Exhausted(env.answers, |old(env.answers)|, triples, reservedPorts + PortsOf(unlisted))
        else
          && unlisted == [] && AddedRowsFull(old(blocks), blocks)
          && (filled >= n || FreeTriples(triples, counted) < (filled + 1) * blockSize)
      ensures Reserves(old(blocks), env.alive, counted)
      ensures env.sealed ==> counted <= old(env.LivePorts())
      ensures env.sealed && PairwiseDisjoint(triples) ==>
        && !raised
        && (filled >= n || FreeTriples(triples, old(env.LivePorts())) < (filled + 1) * blockSize)
    {
      ghost var live := env.LivePorts();
      var m := ClampRequest(n);
      counted := reservedPorts;
      ghost var from := |env.answers|;
      started, raised, filled, unlisted := StartRounds(m, polls, counted);
      FilledBounds(FreeTriples(triples, counted), blockSize, m, filled);
      if raised {
        ExhaustedStays(env.answers, from, |old(env.answers)|, triples, reservedPorts + PortsOf(unlisted));
      }
      if env.sealed {
        FreeTriplesAntitone(triples, counted, live);
      }
    }

    // ------------------------------------------------------------------- stopping

    lemma ClearKeepsValid(before: Table, b: nat, s: nat)
      requires blockSize >= 1 && WellFormed(before, blockSize) && b < |before| && s < blockSize && before[b][s].Some?
      requires blocks == Cleared(before, b, s)
      requires LiveDisjoint(before, env.alive) && env.alive <= env.given.Keys
      requires forall x | Holds(before, x) :: x.ports in triples && x.proc in env.given && env.given[x.proc] == x.ports.Ports()
      requires env.sealed ==> before[b][s].value.proc !in env.alive
      requires env.sealed ==> forall p | p in env.alive :: exists x :: Holds(before, x) && x.proc == p
      ensures Valid()
    {
      forall y ensures Holds(blocks, y) <==> Holds(before, y) && !(y.block == b && y.slot == s) {
        ClearedHolds(before, blockSize, b, s, y);
      }
      ClearedHolds(before, blockSize, b, s, before[b][s].value);
      if env.sealed {
        forall p | p in env.alive ensures exists x :: Holds(blocks, x) && x.proc == p {
          var x :| Holds(before, x) && x.proc == p;
          assert Holds(blocks, x);
        }
      }
    }

    method StopServer(blockIdx: int, slotIdx: int) returns (error: Option<Error>)
      requires Valid()
      modifies this`blocks, this`reservedPorts, env`alive, env`answers, env`terminated
      ensures Valid() && env.alive <= old(env.alive)
      ensures error == StopError(old(blocks), blockSize, blockIdx, slotIdx)
      ensures error.None? <==> exists x :: Holds(old(blocks), x) && x.block == blockIdx && x.slot == slotIdx
      ensures error == Some(BlockNotFound) <==> !(0 <= blockIdx < |old(blocks)|)
      ensures error == Some(InvalidSlot) <==> 0 <= blockIdx < |old(blocks)| && !(0 <= slotIdx < blockSize)
      ensures env.terminated == old(env.terminated) + if error.Some? then [] else [old(blocks)[blockIdx][slotIdx].value.proc]
      ensures blocks == if error.Some? then old(blocks) else Cleared(old(blocks), blockIdx, slotIdx)
    {
      if blockIdx < 0 || blockIdx >= |blocks| {
        return Some(BlockNotFound);
      }
      if slotIdx < 0 || slotIdx >= blockSize {
        return Some(InvalidSlot);
      }
      var inst := blocks[blockIdx][slotIdx];
      if inst.None? {
        return Some(EmptySlot);
      }
      env.Terminate(inst.value.proc);
      ghost var before := blocks;
      blocks := blocks[blockIdx := blocks[blockIdx][slotIdx := None]];
      ClearKeepsValid(before, blockIdx, slotIdx);
      var _ := RecomputeReservedPorts({});
      return None;
    }

    method StopBlock(blockIdx: int) returns (error: Option<Error>)
      requires Valid()
      modifies this`blocks, this`reservedPorts, env`alive, env`answers, env`terminated
      ensures Valid() && env.alive <= old(env.alive)
      ensures error == if 0 <= blockIdx < |old(blocks)| then None else Some(BlockNotFound)
      ensures env.terminated == old(env.terminated) + if error.Some? then [] else Processes(old(blocks)[blockIdx])
      ensures blocks == if error.Some? then old(blocks) else old(blocks)[blockIdx := EmptyRow(blockSize)]
    {
      if blockIdx < 0 || blockIdx >= |blocks| {
        return Some(BlockNotFound);
      }
      for slot := 0 to blockSize
        invariant Valid() && env.alive <= old(env.alive) && |blocks| == |old(blocks)|
        invariant forall b | 0 <= b < |blocks| && b != blockIdx :: blocks[b] == old(blocks)[b]
        invariant forall s | 0 <= s < slot :: blocks[blockIdx][s] == None
        invariant forall s | slot <= s < blockSize :: blocks[blockIdx][s] == old(blocks)[blockIdx][s]
        invariant env.terminated == old(env.terminated) + Processes(old(blocks)[blockIdx][..slot])
      {
        assert old(blocks)[blockIdx][..slot + 1][..slot] == old(blocks)[blockIdx][..slot];
        if blocks[blockIdx][slot].Some? {
          var e := StopServer(blockIdx, slot);
        }
      }
      assert blocks[blockIdx] == EmptyRow(blockSize);
      assert old(blocks)[blockIdx][..blockSize] == old(blocks)[blockIdx];
      return None;
    }

    /** The processes of the table that run; all others have exited. */
    method LiveProcesses() returns (procs: seq<Process>)
      requires Valid()
      modifies env`alive, env`answers
      ensures Valid() && env.alive <= old(env.alive)
      ensures forall x | Holds(blocks, x) && x.proc in env.alive :: x.proc in procs
      ensures forall p | p in procs :: Tracked(blocks, old(env.alive), p)
    {
      procs := [];
      for b := 0 to |blocks|
        invariant env.alive <= old(env.alive)
        invariant forall x | Holds(blocks, x) && x.block < b && x.proc in env.alive :: x.proc in procs
        invariant forall p | p in procs :: Tracked(blocks, old(env.alive), p)
      {
        for s := 0 to |blocks[b]|
          invariant env.alive <= old(env.alive)
          invariant forall p | p in procs :: Tracked(blocks, old(env.alive), p)
          invariant forall x | Holds(blocks, x) && x.block < b && x.proc in env.alive :: x.proc in procs
          invariant forall x | Holds(blocks, x) && x.block == b && x.slot < s && x.proc in env.alive :: x.proc in procs
        {
          if blocks[b][s].Some? {
            var running := env.Poll(blocks[b][s].value.proc);
            if running {
              assert Holds(blocks, blocks[b][s].value);
              procs := procs + [blocks[b][s].value.proc];
            }
          }
        }
      }
    }

    method TerminateAll(procs: seq<Process>)
      requires Valid()
      modifies env`alive, env`terminated
      ensures Valid() && env.alive <= old(env.alive) && env.terminated == old(env.terminated) + procs
      ensures env.sealed ==> forall p | p in procs :: p !in env.alive
    {
      for i := 0 to |procs|
        invariant Valid() && env.alive <= old(env.alive) && env.terminated == old(env.terminated) + procs[..i]
        invariant env.sealed ==> forall k | 0 <= k < i :: procs[k] !in env.alive
      {
        env.Terminate(procs[i]);
      }
    }

    method ClearAllSlots()
      requires Valid() && (env.sealed ==> env.alive == {})
      modifies this`blocks
      ensures Valid() && blocks == EmptyTable(|old(blocks)|, blockSize)
    {
      for b := 0 to |blocks|
        invariant |blocks| == |old(blocks)|
        invariant forall k | 0 <= k < b :: blocks[k] == EmptyRow(blockSize)
      {
        blocks := blocks[b := EmptyRow(blockSize)];
      }
      assert blocks == EmptyTable(|old(blocks)|, blockSize);
    }

    /**
     Stops everything, once. If no process of the table runs it is left as it is; otherwise those that run are
     terminated and it is emptied. Either way no later call does anything.
     */
    method StopAll()
      requires Valid()
      modifies this, env`alive, env`answers, env`terminated
      ensures Valid() && shutdownInProgress && env.alive <= old(env.alive)
      ensures old(env.terminated) <= env.terminated
      ensures blocks == if env.terminated == old(env.terminated) then old(blocks) else EmptyTable(|old(blocks)|, blockSize)
      ensures old(shutdownInProgress) ==>
        env.alive == old(env.alive) && reservedPorts == old(reservedPorts) && env.terminated == old(env.terminated)
      ensures !old(shutdownInProgress) && env.sealed ==> env.alive == {}
      ensures !old(shutdownInProgress) ==> forall x | Holds(blocks, x) :: x.proc !in env.alive
      ensures !old(shutdownInProgress) ==>
        forall x | Holds(old(blocks), x) && x.proc in env.alive :: x.proc in env.terminated[|old(env.terminated)|..]
      ensures forall p | p in env.terminated[|old(env.terminated)|..] :: Tracked(old(blocks), old(env.alive), p)
    {
      if shutdownInProgress {
        return;
      }
      shutdownInProgress := true;

      ghost var before := env.terminated;
      var procs := LiveProcesses();
      if procs == [] {
        var _ := RecomputeReservedPorts({});
        return;
      }
      TerminateAll(procs);
      assert env.terminated[|before|..] == procs;
      ClearAllSlots();
      var _ := RecomputeReservedPorts({});
    }
  }
}
