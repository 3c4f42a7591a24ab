/**
 Filling whole blocks of the table: what filling one block does, and what filling several, first fit,
 adds up to.
 */
module Batches {
  import opened Wrappers
  import opened Fleet

  // ------------------------------------------------------------------- one block

  predicate DisjointPorts(xs: seq<Instance>) {
    forall i, j | 0 <= i < j < |xs| :: xs[i].ports.Ports() !! xs[j].ports.Ports()
  }

  /** Row b has changed only where it was empty, and there it holds the instances started. */
  ghost predicate OnlyFilled(row: Row, row': Row, b: nat, started: seq<Instance>) {
    && |row'| == |row|
    && (forall s | 0 <= s < |row| :: row'[s] == row[s]
          || (row[s] == None && row'[s].Some? && row'[s].value in started))
    && (forall i | 0 <= i < |started| ::
          started[i].block == b && started[i].slot < |row|
          && row[started[i].slot] == None && row'[started[i].slot] == Some(started[i]))
  }

  /** The table with a new row if no row has room. */
  function WithRoom(table: Table, blockSize: nat): Table {
    if FirstBlock(table) < |table| then table else table + [EmptyRow(blockSize)]
  }

  /** Only row b of table has changed: started have been put into empty slots of it, on disjoint ports. */
  ghost predicate Batch(table: Table, blocks: Table, b: nat, started: seq<Instance>) {
    && b < |table| == |blocks|
    && (forall k | 0 <= k < |table| && k != b :: blocks[k] == table[k])
    && OnlyFilled(table[b], blocks[b], b, started)
    && DisjointPorts(started)
    && |started| + EmptySlots(blocks[b]) == EmptySlots(table[b])
  }

  lemma BatchGrows(table: Table, before: Table, after: Table, blockSize: nat, b: nat, started: seq<Instance>, x: Instance)
    requires Batch(table, before, b, started)
    requires x.block == b && x.slot < |before[b]| && before[b][x.slot] == None && after == Placed(before, x)
    requires x.ports.Ports() !! PortsOf(started)
    ensures Batch(table, after, b, started + [x])
    ensures EmptySlots(after[b]) < EmptySlots(before[b])
  {
    FillOne(before[b], x.slot, x);
    PortsOfAll(started);
  }

  lemma BatchBound(table: Table, blocks: Table, blockSize: nat, b: nat, started: seq<Instance>)
    requires Batch(table, blocks, b, started) && WellFormed(blocks, blockSize)
    ensures |started| <= blockSize
    ensures None in blocks[b] ==> |started| < blockSize
  {
    EmptySlotsBound(table[b]);
    EmptySlotsBound(blocks[b]);
  }

  // -------------------------------------------------------------- several blocks

  /** Nothing was at the place of x, or there was no such place. */
  predicate WasVacant(table: Table, x: Instance) {
    x.block < |table| && x.slot < |table[x.block]| ==> table[x.block][x.slot] == None
  }

  predicate Distinct(xs: seq<Instance>) {
    forall i, j | 0 <= i < j < |xs| :: xs[i] != xs[j]
  }

  predicate Changed(table: Table, blocks: Table, k: nat)
    requires k < |blocks|
  {
    k >= |table| || blocks[k] != table[k]
  }

  /** A row has been added or changed only once all rows before it were full. */
  predicate FirstFit(table: Table, blocks: Table) {
    forall j, k | 0 <= j < k < |blocks| && Changed(table, blocks, k) :: None !in blocks[j]
  }

  /** The table has grown by exactly the instances started, each in a place that was vacant, first fit. */
  ghost predicate Grown(table: Table, blocks: Table, started: seq<Instance>) {
    && |table| <= |blocks|
    && Keeps(table, blocks)
    && (forall x | Holds(blocks, x) :: Holds(table, x) || x in started)
    && (forall i | 0 <= i < |started| :: Holds(blocks, started[i]) && WasVacant(table, started[i]))
    && Distinct(started)
    && FirstFit(table, blocks)
  }

  lemma GrownByNothing(table: Table)
    ensures Grown(table, table, [])
  {
  }

  /** A batch puts instances into vacant places, and does nothing else. */
  lemma BatchHolds(table: Table, blocks: Table, blockSize: nat, b: nat, started: seq<Instance>, x: Instance)
    requires WellFormed(table, blockSize) && Batch(table, blocks, b, started)
    ensures Holds(blocks, x) <==> Holds(table, x) || x in started
    ensures x in started ==> WasVacant(table, x)
  {
  }

  lemma VacantBefore(table: Table, before: Table, blockSize: nat, x: Instance)
    requires WellFormed(table, blockSize) && WellFormed(before, blockSize) && |table| <= |before|
    requires Keeps(table, before) && WasVacant(before, x)
    ensures WasVacant(table, x)
  {
    assert x.block < |table| && x.slot < |table[x.block]| && table[x.block][x.slot].Some? ==>
      Holds(before, table[x.block][x.slot].value);
  }

  /** One more batch: the table has grown by the instances of all of them. */
  lemma GrownByBatch(table: Table, before: Table, after: Table, blockSize: nat, started: seq<Instance>, batch: seq<Instance>)
    requires WellFormed(table, blockSize) && WellFormed(before, blockSize)
    requires Grown(table, before, started)
    requires Batch(WithRoom(before, blockSize), after, FirstBlock(before), batch)
    ensures Grown(table, after, started + batch)
  {
    var all := started + batch;
    BatchOnTop(before, after, blockSize, batch);
    forall i | 0 <= i < |all| ensures Holds(after, all[i]) && WasVacant(table, all[i]) {
      if i < |started| {
        assert all[i] == started[i];
      } else {
        assert all[i] == batch[i - |started|];
        VacantBefore(table, before, blockSize, all[i]);
      }
    }
    DistinctBatch(started, batch, before);
    FirstFitBatch(table, before, after, FirstBlock(before));
  }

  /** What a batch in the first row with room adds to the table. */
  lemma BatchOnTop(before: Table, after: Table, blockSize: nat, batch: seq<Instance>)
    requires WellFormed(before, blockSize)
    requires Batch(WithRoom(before, blockSize), after, FirstBlock(before), batch)
    ensures forall x :: Holds(after, x) <==> Holds(before, x) || x in batch
    ensures forall x | x in batch :: WasVacant(before, x)
  {
    WithRoomHolds(before, blockSize);
    forall x ensures (Holds(after, x) <==> Holds(before, x) || x in batch) && (x in batch ==> WasVacant(before, x)) {
      BatchHolds(WithRoom(before, blockSize), after, blockSize, FirstBlock(before), batch, x);
    }
  }

  /** Changing the first row with room, or adding one when there is none, keeps to first fit. */
  lemma FirstFitBatch(table: Table, before: Table, after: Table, b: nat)
    requires FirstFit(table, before) && |table| <= |before|
    requires b < |after| && (if b < |before| then |after| == |before| && None in before[b] else |after| == |before| + 1 == b + 1)
    requires forall j | 0 <= j < |before| && j != b :: after[j] == before[j]
    requires forall j | 0 <= j < b :: None !in before[j]
    ensures FirstFit(table, after)
  {
    forall j, k | 0 <= j < k < |after| && Changed(table, after, k) ensures None !in after[j] {
      UnchangedBehind(table, before, after, b, k);
      assert after[j] == before[j];
    }
  }

  /** Behind a row with room, nothing has changed. */
  lemma UnchangedBehind(table: Table, before: Table, after: Table, b: nat, k: nat)
    requires FirstFit(table, before)
    requires b < |before| ==> |after| == |before| && None in before[b]
    requires b >= |before| ==> |after| == b + 1
    requires k < |after| && (k < |before| && k != b ==> after[k] == before[k])
    ensures Changed(table, after, k) ==> k <= b
  {
    if b < k {
      assert Changed(table, before, k) == Changed(table, after, k);
    }
  }

  lemma WithRoomHolds(table: Table, blockSize: nat)
    requires WellFormed(table, blockSize)
    ensures WellFormed(WithRoom(table, blockSize), blockSize)
    ensures forall x :: Holds(WithRoom(table, blockSize), x) <==> Holds(table, x)
    ensures forall x :: WasVacant(WithRoom(table, blockSize), x) ==> WasVacant(table, x)
  {
    AddedRowHolds(table, blockSize);
  }

  lemma DistinctBatch(started: seq<Instance>, batch: seq<Instance>, before: Table)
    requires Distinct(started) && DisjointPorts(batch)
    requires forall i | 0 <= i < |started| :: Holds(before, started[i])
    requires forall x | x in batch :: WasVacant(before, x)
    ensures Distinct(started + batch)
  {
    var all := started + batch;
    forall i, j | 0 <= i < j < |all| ensures all[i] != all[j] {
      if i >= |started| {
        assert all[i].ports.loginPort in all[i].ports.Ports();
      } else if j >= |started| {
        assert all[j] in batch;
      }
    }
  }

  /** Every row that has been added is full. */
  predicate AddedRowsFull(table: Table, blocks: Table) {
    forall k | |table| <= k < |blocks| :: None !in blocks[k]
  }

  lemma AddedRowsOfBatch(table: Table, before: Table, after: Table, blockSize: nat, batch: seq<Instance>)
    requires Batch(WithRoom(before, blockSize), after, FirstBlock(before), batch)
    requires AddedRowsFull(table, before) && None !in after[FirstBlock(before)]
    ensures AddedRowsFull(table, after)
  {
    var b := FirstBlock(before);
    forall k | |table| <= k < |after| && k != b ensures None !in after[k] {
      assert after[k] == before[k];
    }
  }

  function FullRows(blocks: Table): nat {
    if blocks == [] then 0 else FullRows(blocks[..|blocks| - 1]) + if None in blocks[|blocks| - 1] then 0 else 1
  }

  lemma {:induction false} FullRowsUpdate(blocks: Table, b: nat, row: Row)
    requires b < |blocks| && None in blocks[b]
    ensures FullRows(blocks[b := row]) == FullRows(blocks) + if None in row then 0 else 1
  {
    var n := |blocks| - 1;
    if b < n {
      FullRowsUpdate(blocks[..n], b, row);
      assert blocks[b := row][..n] == blocks[..n][b := row];
    } else {
      assert blocks[b := row][..n] == blocks[..n];
    }
  }

  /** A batch makes its row full or leaves it with room; no other row becomes full. */
  lemma FullRowsOfBatch(before: Table, after: Table, blockSize: nat, batch: seq<Instance>)
    requires blockSize >= 1
    requires Batch(WithRoom(before, blockSize), after, FirstBlock(before), batch)
    ensures FullRows(after) == FullRows(before) + if None in after[FirstBlock(before)] then 0 else 1
  {
    var roomy, b := WithRoom(before, blockSize), FirstBlock(before);
    assert |roomy| > |before| ==> roomy[..|before|] == before && roomy[|before|][0] == None;
    assert after == roomy[b := after[b]];
    FullRowsUpdate(roomy, b, after[b]);
  }
}
