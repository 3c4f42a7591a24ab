/**
 The orchestrator's table of server instances and port triples, as values: first-fit placement, the
 disjointness of live instances, and the counting argument behind starting several blocks.
 */
module Fleet {
  import opened Sets
  import opened Wrappers

  type Process = nat
  type Port = int

  datatype PortTriple = PortTriple(configIndex: int, loginPort: Port, charPort: Port, queryPort: Port) {
    function AsList(): seq<Port> {
      [loginPort, charPort, queryPort]
    }

    function Ports(): set<Port> {
      {loginPort, charPort, queryPort}
    }
  }

  datatype Instance = Instance(block: nat, slot: nat, proc: Process, ports: PortTriple)

  type Row = seq<Option<Instance>>
  type Table = seq<Row>

  // -------------------------------------------------------------------- placement

  /** The first empty slot of a row, or its length. */
  function FirstFree(row: Row): (s: nat)
    ensures s <= |row| && (s < |row| ==> row[s] == None)
    ensures forall k | 0 <= k < s :: row[k].Some?
  {
    if row == [] || row[0].None? then 0 else 1 + FirstFree(row[1..])
  }

  /** The first row with an empty slot, or the number of rows. */
  function FirstBlock(blocks: Table): (b: nat)
    ensures b <= |blocks| && (b < |blocks| ==> None in blocks[b])
    ensures forall k | 0 <= k < b :: None !in blocks[k]
  {
    if blocks == [] || None in blocks[0] then 0 else 1 + FirstBlock(blocks[1..])
  }

  function EmptyRow(blockSize: nat): (row: Row)
    ensures |row| == blockSize
  {
    seq(blockSize, _ => None)
  }

  /** The table with empty rows added until it has row b. */
  function Padded(blocks: Table, b: nat, blockSize: nat): (t: Table)
    ensures |t| == (if |blocks| <= b then b + 1 else |blocks|) && blocks <= t
    ensures forall k | |blocks| <= k < |t| :: t[k] == EmptyRow(blockSize)
    decreases b + 1 - |blocks|
  {
    if |blocks| <= b then Padded(blocks + [EmptyRow(blockSize)], b, blockSize) else blocks
  }

  function Placed(blocks: Table, x: Instance): Table
    requires x.block < |blocks| && x.slot < |blocks[x.block]|
  {
    blocks[x.block := blocks[x.block][x.slot := Some(x)]]
  }

  function Cleared(blocks: Table, b: nat, s: nat): Table
    requires b < |blocks| && s < |blocks[b]|
  {
    blocks[b := blocks[b][s := None]]
  }

  // ------------------------------------------------------------------- invariants

  /** x is in the table, at the place it names. */
  predicate Holds(blocks: Table, x: Instance) {
    x.block < |blocks| && x.slot < |blocks[x.block]| && blocks[x.block][x.slot] == Some(x)
  }

  /** Rows have the right length, and every instance is where it says it is. */
  predicate WellFormed(blocks: Table, blockSize: nat) {
    && (forall b | 0 <= b < |blocks| :: |blocks[b]| == blockSize)
    && (forall b, s | 0 <= b < |blocks| && 0 <= s < |blocks[b]| && blocks[b][s].Some? :: Holds(blocks, blocks[b][s].value)
          && blocks[b][s].value.block == b && blocks[b][s].value.slot == s)
  }

  /** Two instances whose processes are both alive share no port. */
  ghost predicate LiveDisjoint(blocks: Table, alive: set<Process>) {
    forall x, y | Holds(blocks, x) && Holds(blocks, y) && x != y && x.proc in alive && y.proc in alive ::
      x.ports.Ports() !! y.ports.Ports()
  }

  /** All ports of live instances are in reserved. */
  ghost predicate Reserves(blocks: Table, alive: set<Process>, reserved: set<Port>) {
    forall x | Holds(blocks, x) && x.proc in alive :: x.ports.Ports() <= reserved
  }

  /** Every instance that was there is still there. */
  ghost predicate Keeps(blocks: Table, blocks': Table) {
    forall x | Holds(blocks, x) :: Holds(blocks', x)
  }

  lemma PlacedHolds(blocks: Table, blockSize: nat, x: Instance, y: Instance)
    requires WellFormed(blocks, blockSize)
    requires x.block < |blocks| && x.slot < blockSize && blocks[x.block][x.slot] == None
    ensures WellFormed(Placed(blocks, x), blockSize)
    ensures Holds(Placed(blocks, x), y) <==> Holds(blocks, y) || y == x
  {
    var t: Table := Placed(blocks, x);
    forall b, s | 0 <= b < |t| && 0 <= s < |t[b]| && t[b][s].Some?
      ensures Holds(t, t[b][s].value) && t[b][s].value.block == b && t[b][s].value.slot == s
    {
      if b != x.block || s != x.slot {
        assert blocks[b][s] == t[b][s];
      }
    }
  }

  lemma ClearedHolds(blocks: Table, blockSize: nat, b: nat, s: nat, y: Instance)
    requires WellFormed(blocks, blockSize) && b < |blocks| && s < blockSize
    ensures WellFormed(Cleared(blocks, b, s), blockSize)
    ensures Holds(Cleared(blocks, b, s), y) <==> Holds(blocks, y) && !(y.block == b && y.slot == s)
  {
    var t: Table := Cleared(blocks, b, s);
    forall b', s' | 0 <= b' < |t| && 0 <= s' < |t[b']| && t[b'][s'].Some?
      ensures Holds(t, t[b'][s'].value) && t[b'][s'].value.block == b' && t[b'][s'].value.slot == s'
    {
      assert blocks[b'][s'] == t[b'][s'];
    }
  }

  lemma PaddedHolds(blocks: Table, blockSize: nat, b: nat, y: Instance)
    requires WellFormed(blocks, blockSize)
    ensures WellFormed(Padded(blocks, b, blockSize), blockSize)
    ensures Holds(Padded(blocks, b, blockSize), y) <==> Holds(blocks, y)
  {
    var t := Padded(blocks, b, blockSize);
    assert forall k | 0 <= k < |blocks| :: t[k] == blocks[k];
  }

  lemma AddedRowHolds(table: Table, blockSize: nat)
    requires WellFormed(table, blockSize)
    ensures WellFormed(table + [EmptyRow(blockSize)], blockSize)
    ensures forall y :: Holds(table + [EmptyRow(blockSize)], y) <==> Holds(table, y)
  {
  }

  /**
   Placing an instance on ports outside what live instances reserve keeps live instances disjoint,
   whatever processes exit before or after.
   */
  lemma PlacingKeepsLiveDisjoint(blocks: Table, blockSize: nat, x: Instance, alive: set<Process>, alive': set<Process>,
                                 reserved: set<Port>)
    requires WellFormed(blocks, blockSize)
    requires x.block < |blocks| && x.slot < blockSize && blocks[x.block][x.slot] == None
    requires LiveDisjoint(blocks, alive) && Reserves(blocks, alive, reserved)
    requires x.ports.Ports() !! reserved && alive' <= alive + {x.proc}
    requires forall y | Holds(blocks, y) :: y.proc != x.proc
    ensures LiveDisjoint(Placed(blocks, x), alive')
  {
    forall y, z | Holds(Placed(blocks, x), y) && Holds(Placed(blocks, x), z) && y != z && y.proc in alive' && z.proc in alive'
      ensures y.ports.Ports() !! z.ports.Ports()
    {
      PlacedHolds(blocks, blockSize, x, y);
      PlacedHolds(blocks, blockSize, x, z);
    }
  }

  // -------------------------------------------------------------- counting triples

  ghost predicate PairwiseDisjoint(triples: seq<PortTriple>) {
    forall i, j | 0 <= i < j < |triples| :: triples[i].Ports() !! triples[j].Ports()
  }

  /** The triples that have a port in the cover. */
  ghost function Touched(triples: seq<PortTriple>, cover: set<Port>): set<nat> {
    set i: nat | i < |triples| && !(triples[i].Ports() !! cover)
  }

  function FreeTriples(triples: seq<PortTriple>, reserved: set<Port>): nat {
    if triples == [] then 0
    else FreeTriples(triples[..|triples| - 1], reserved) + if triples[|triples| - 1].Ports() !! reserved then 1 else 0
  }

  lemma {:induction false} FreeTriplesAntitone(triples: seq<PortTriple>, fewer: set<Port>, more: set<Port>)
    requires fewer <= more
    ensures FreeTriples(triples, fewer) >= FreeTriples(triples, more)
  {
    if triples != [] {
      FreeTriplesAntitone(triples[..|triples| - 1], fewer, more);
    }
  }

  /** Free triples and touched triples are all of them. */
  lemma {:induction false} FreeOrTouched(triples: seq<PortTriple>, reserved: set<Port>)
    ensures FreeTriples(triples, reserved) + |Touched(triples, reserved)| == |triples|
  {
    if triples != [] {
      var n := |triples| - 1;
      var init := triples[..n];
      FreeOrTouched(init, reserved);
      if triples[n].Ports() !! reserved {
        assert Touched(triples, reserved) == Touched(init, reserved);
      } else {
        assert Touched(triples, reserved) == Touched(init, reserved) + {n};
      }
    }
  }

  /** With disjoint triples, taking one more triple into the cover touches at most one more. */
  lemma TakingTouchesOne(triples: seq<PortTriple>, cover: set<Port>, t: PortTriple)
    requires PairwiseDisjoint(triples) && t in triples
    ensures |Touched(triples, cover + t.Ports())| <= |Touched(triples, cover)| + 1
  {
    var i :| 0 <= i < |triples| && triples[i] == t;
    var before, after := Touched(triples, cover), Touched(triples, cover + t.Ports());
    forall j | j in after ensures j in before + {i} {
      assert j == i || triples[j].Ports() !! triples[i].Ports();
    }
    assert after <= before + {i};
    SubsetSize(after, before + {i});
  }

  /** The ports of several instances together. */
  function PortsOf(xs: seq<Instance>): set<Port> {
    if xs == [] then {} else PortsOf(xs[..|xs| - 1]) + xs[|xs| - 1].ports.Ports()
  }

  lemma {:induction false} PortsOfAll(xs: seq<Instance>)
    ensures forall i | 0 <= i < |xs| :: xs[i].ports.Ports() <= PortsOf(xs)
  {
    if xs != [] {
      PortsOfAll(xs[..|xs| - 1]);
    }
  }

  /** With disjoint triples, starting k instances touches at most k more triples. */
  lemma {:induction false} StartsTouchOneEach(triples: seq<PortTriple>, cover: set<Port>, xs: seq<Instance>)
    requires PairwiseDisjoint(triples) && forall i | 0 <= i < |xs| :: xs[i].ports in triples
    ensures |Touched(triples, cover + PortsOf(xs))| <= |Touched(triples, cover)| + |xs|
  {
    if xs == [] {
      assert cover + {} == cover;
    } else {
      var init, last := xs[..|xs| - 1], xs[|xs| - 1];
      StartsTouchOneEach(triples, cover, init);
      TakingTouchesOne(triples, cover + PortsOf(init), last.ports);
      assert cover + PortsOf(xs) == cover + PortsOf(init) + last.ports.Ports();
    }
  }

  lemma {:induction false} PortsOfAppend(xs: seq<Instance>, ys: seq<Instance>)
    ensures PortsOf(xs + ys) == PortsOf(xs) + PortsOf(ys)
  {
    if ys == [] {
      assert xs + ys == xs;
    } else {
      PortsOfAppend(xs, ys[..|ys| - 1]);
      assert (xs + ys)[..|xs + ys| - 1] == xs + ys[..|ys| - 1];
    }
  }

  lemma {:induction false} NoneFree(triples: seq<PortTriple>, cover: set<Port>)
    requires forall t | t in triples :: !(t.Ports() !! cover)
    ensures FreeTriples(triples, cover) == 0
  {
    if triples != [] {
      NoneFree(triples[..|triples| - 1], cover);
    }
  }

  /**
   The pigeonhole behind starting several blocks: after fewer starts than there were free triples, some
   triple is still outside everything that was reserved or taken, whatever was picked and whoever exited.
   */
  lemma EnoughTriples(triples: seq<PortTriple>, reserved: set<Port>, xs: seq<Instance>)
    requires PairwiseDisjoint(triples) && forall i | 0 <= i < |xs| :: xs[i].ports in triples
    requires |xs| < FreeTriples(triples, reserved)
    ensures exists t | t in triples :: t.Ports() !! reserved + PortsOf(xs)
  {
    var cover := reserved + PortsOf(xs);
    FreeOrTouched(triples, reserved);
    FreeOrTouched(triples, cover);
    StartsTouchOneEach(triples, reserved, xs);
    if forall t | t in triples :: !(t.Ports() !! cover) {
      NoneFree(triples, cover);
      assert false;
    }
  }

  function EmptySlots(row: Row): nat {
    if row == [] then 0 else EmptySlots(row[..|row| - 1]) + if row[|row| - 1].None? then 1 else 0
  }

  lemma {:induction false} FillOne(row: Row, s: nat, x: Instance)
    requires s < |row| && row[s] == None
    ensures EmptySlots(row) == EmptySlots(row[s := Some(x)]) + 1
  {
    var n := |row| - 1;
    if s < n {
      FillOne(row[..n], s, x);
      assert row[s := Some(x)][..n] == row[..n][s := Some(x)];
    } else {
      assert row[s := Some(x)][..n] == row[..n];
    }
  }

  lemma {:induction false} EmptySlotsBound(row: Row)
    ensures EmptySlots(row) <= |row|
    ensures EmptySlots(row) == 0 <==> None !in row
  {
    if row != [] {
      EmptySlotsBound(row[..|row| - 1]);
      assert row == row[..|row| - 1] + [row[|row| - 1]];
    }
  }
}
