/** Any sequence of moves of the block-backed cursor, and a run in which a getter answers for another row. */
module SharedCursorRuns {
  import opened Memory
  import opened BlockLayout
  import opened BlockSteps
  import opened SharedBlocks
  import opened Statements
  import opened FillBlock
  import opened SharedCursor

  /** Move a new cursor to the positions in turn. `last` is what a caller can see of the fills: the last successful
      position that was not the current one and not below the block's number of rows. */
  method Visit(c: SqliteSharedResultSet, positions: seq<Int32>) returns (last: nat)
    requires c.Tracked() && c.rowNum == NO_COUNT
    modifies c, c.block, c.block.data, c.stmt
    ensures c.Usable() && old(c.stmt.calls) <= c.stmt.calls
    ensures c.Untroubled(old(c.stmt.calls)) ==> c.Tracked() && c.rowNum != NO_COUNT && last == c.lastFilled
  {
    hide Whole, TableOf, Window, PrefixOk, AllFit, SqliteSharedResultSet.Settled;
    var _ := c.GetRowCount();
    last := 0;
    for i := 0 to |positions|
      invariant c.Usable() && old(c.stmt.calls) <= c.stmt.calls
      invariant c.Untroubled(old(c.stmt.calls)) ==> c.Tracked() && c.rowNum != NO_COUNT && last == c.lastFilled
    {
      ghost var before := c.stmt.calls;
      var position := c.rowPos;
      var rows := c.block.GetRowNum();
      var ok := c.GoToRow(positions[i]);
      if ok && positions[i] != position && positions[i] >= rows { last := positions[i]; }
      if Disturbed(c.stmt.interrupts, old(c.stmt.calls), before) {
        DisturbedWithin(c.stmt.interrupts, old(c.stmt.calls), old(c.stmt.calls), before, c.stmt.calls);
      }
      if Disturbed(c.stmt.interrupts, before, c.stmt.calls) {
        DisturbedWithin(c.stmt.interrupts, old(c.stmt.calls), before, c.stmt.calls, c.stmt.calls);
      }
    }
  }

  /** Then read a column. At a good position, undisturbed: the answer is that of block row `rowPos` of the window that a
      fill for `last` leads to; every column is the query's if `last` lies in the first third of the first block; and a
      column that tells the rows apart is the query's only if it does. */
  method VisitAndRead(c: SqliteSharedResultSet, positions: seq<Int32>, columnIndex: nat) returns (last: nat, r: Read<Cell>)
    requires c.Tracked() && c.rowNum == NO_COUNT && columnIndex < c.columnNum
    modifies c, c.block, c.block.data, c.stmt
    ensures c.Usable() && old(c.stmt.calls) <= c.stmt.calls
    ensures c.Untroubled(old(c.stmt.calls)) && 0 <= c.rowPos < c.rowNum ==>
      var (start, n) := c.WindowFor(last);
      && (c.rowPos >= n ==> r == Missing)
      && (c.rowPos < n ==> start + c.rowPos < |c.stmt.rows| && r == Got(Encode(c.stmt.rows[start + c.rowPos][columnIndex])))
      && (last <= c.resultSetBlockCapacity / 3 ==> r == c.Expected(columnIndex, x => x))
      && (c.Telling(columnIndex, x => x) && r == c.Expected(columnIndex, x => x) ==> last <= c.resultSetBlockCapacity / 3)
  {
    hide Whole, TableOf, Window, PrefixOk, AllFit, SqliteSharedResultSet.Settled, SqliteSharedResultSet.WindowFor, SqliteSharedResultSet.Expected;
    last := Visit(c, positions);
    ghost var before := c.stmt.calls;
    r := c.Cell(columnIndex);
    if Disturbed(c.stmt.interrupts, old(c.stmt.calls), before) {
      DisturbedWithin(c.stmt.interrupts, old(c.stmt.calls), old(c.stmt.calls), before, c.stmt.calls);
    }
    if c.Tracked() && 0 <= c.rowPos < c.rowNum {
      hide SqliteSharedResultSet.Tracked, SqliteSharedResultSet.Answer;
      c.AnswerIsExpectedIff(columnIndex, x => x);
      c.AnswerOfWindow(columnIndex, x => x);
    }
  }

  /** Of a result whose rows do not fit one block, move to the first row that the first block does not hold. */
  method Forth(c: SqliteSharedResultSet)
    requires c.Tracked() && c.rowNum == NO_COUNT && !WholeFits(c.block.data.Length, c.stmt.rows)
    modifies c, c.block, c.block.data, c.stmt
    ensures c.Usable() && old(c.stmt.calls) <= c.stmt.calls
    ensures c.Untroubled(old(c.stmt.calls)) ==>
      && c.Tracked() && 0 < c.rowPos < c.rowNum && c.lastFilled == c.rowPos && 0 < c.windowStart && c.block.View().rows != []
  {
    hide Whole, TableOf, Window, AllFit, PrefixOk, WholeFits, SqliteSharedResultSet.Settled;
    ghost var start := c.stmt.calls;
    var _ := c.GetRowCount();
    ghost var counted := c.stmt.calls;
    var capacity := c.block.GetRowNum();
    if c.Capacity(capacity) { PrefixIsNotWhole(c.block.data.Length, c.stmt.rows, capacity); }
    if capacity >= 0x8000_0000 { return; }
    var _ := c.GoToRow(capacity);
    Calm(c.stmt, start, counted, c.stmt.calls);
  }

  lemma PrefixIsNotWhole(size: int, rows: seq<seq<Value>>, n: nat)
    requires PrefixOk(size, rows, n) && !WholeFits(size, rows)
    ensures n < |rows|
  {
  }

  /** From there back to row 0: the block is not filled again, and the getter answers for a later row. */
  method ForthAndBack(c: SqliteSharedResultSet, columnIndex: nat) returns (r: Read<Cell>)
    requires c.Tracked() && c.rowNum == NO_COUNT && columnIndex < c.columnNum
    requires !WholeFits(c.block.data.Length, c.stmt.rows)
    modifies c, c.block, c.block.data, c.stmt
    ensures c.Usable() && old(c.stmt.calls) <= c.stmt.calls
    ensures c.Untroubled(old(c.stmt.calls)) ==>
      && c.rowPos == 0 && 0 < c.windowStart < |c.stmt.rows|
      && r == Got(Encode(c.stmt.rows[c.windowStart][columnIndex]))
  {
    hide Whole, TableOf, AllFit, PrefixOk, WholeFits, SqliteSharedResultSet.Settled;
    ghost var start := c.stmt.calls;
    Forth(c);
    ghost var there := c.stmt.calls;
    var _ := c.GoToRow(0);
    Calm(c.stmt, start, there, c.stmt.calls);
    ghost var back := c.stmt.calls;
    r := c.Cell(columnIndex);
    Calm(c.stmt, start, back, c.stmt.calls);
  }

  lemma Calm(stmt: Statement, from: nat, mid: nat, to: nat)
    requires from <= mid <= to
    ensures !Disturbed(stmt.interrupts, from, to) ==>
      !Disturbed(stmt.interrupts, from, mid) && !Disturbed(stmt.interrupts, mid, to)
  {
    if Disturbed(stmt.interrupts, from, mid) { DisturbedWithin(stmt.interrupts, from, from, mid, to); }
    if Disturbed(stmt.interrupts, mid, to) { DisturbedWithin(stmt.interrupts, from, mid, to, to); }
  }

  /** Such a run: a block with space for one row, a result of two. At row 0 the cursor answers for row 1. */
  method ReadsAnotherRow() returns (r: Read<Cell>, ghost expected: Read<Cell>)
    ensures expected == Got(Integer(0)) && r == Got(Integer(1))
  {
    hide Whole, TableOf;
    var rows := [[IntValue(0)], [IntValue(1)]];
    var stmt := new Statement(rows, _ => Proceed);
    var block := new SharedBlock(432, false);
    var _ := block.Clear();
    var c := new SqliteSharedResultSet(block, stmt, 1, _ => 0, _ => 0);
    OneRowFits(rows);
    NothingDisturbs(0, 0);
    r := ForthAndBack(c, 0);
    NothingDisturbs(0, stmt.calls);
    expected := c.Expected(0, x => x);
  }

  lemma OneRowFits(rows: seq<seq<Value>>)
    requires rows == [[IntValue(0)], [IntValue(1)]]
    ensures !WholeFits(432, rows) && forall row | row in rows :: FitsEmpty(432, row)
  {
    assert rows[0][1..] == [] && rows[1][1..] == [];
    assert UsedBy(rows, 0) == 420;
    assert CellsUsed(432, rows[0]) == 432;
    assert UsedBy(rows, 1) == 432;
    assert !RowOk(432, rows, 1);
  }

  lemma NothingDisturbs(from: nat, to: nat)
    ensures !Disturbed(_ => Proceed, from, to)
  {
    var calm: nat -> Interrupt := _ => Proceed;
    forall k: nat ensures !BusyTooLong(calm, from, k, to) { assert calm(k) == Proceed; }
  }
}
