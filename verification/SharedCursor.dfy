/** The block-backed cursor: it reads rows from the shared block that a fill has loaded. */
module SharedCursor {
  import opened Memory
  import opened BlockLayout
  import opened BlockSteps
  import opened SharedBlocks
  import opened Statements
  import opened FillBlock

  // ---------------------------------------------------------------- the packed count

  type Int32 = x: int | -0x8000_0000 <= x < 0x8000_0000

  function ToUint32(x: int): int { x % 0x1_0000_0000 }

  /** The start position in the high half, the row total in the low half, as a signed 64-bit number. */
  function GetCombinedData(startPos: Int32, totalRows: Int32): Long {
    var bits := ToUint32(startPos) * 0x1_0000_0000 + ToUint32(totalRows);
    if bits >= 0x8000_0000_0000_0000 then bits - 0x1_0000_0000_0000_0000 else bits
  }

  /** The narrowing conversion to int. */
  function ToInt32(x: Long): Int32 {
    var low := x % 0x1_0000_0000;
    if low >= 0x8000_0000 then low - 0x1_0000_0000 else low
  }

  /** Narrowing the packed count gives back the total, whatever the start position, which is in the high half. */
  lemma NarrowingKeepsTotal(startPos: Int32, totalRows: Int32)
    ensures ToInt32(GetCombinedData(startPos, totalRows)) == totalRows
    ensures ToBits(GetCombinedData(startPos, totalRows)) / 0x1_0000_0000 == ToUint32(startPos)
  {
    var high, low := ToUint32(startPos), ToUint32(totalRows);
    assert (high * 0x1_0000_0000 + low) % 0x1_0000_0000 == low;
    assert (high * 0x1_0000_0000 + low - 0x1_0000_0000_0000_0000) % 0x1_0000_0000 == low by {
      assert high * 0x1_0000_0000 + low - 0x1_0000_0000_0000_0000 == (high - 0x1_0000_0000) * 0x1_0000_0000 + low;
    }
  }

  // ---------------------------------------------------------------- the cursor

  datatype Read<+T> = Got(value: T) | InvalidColumn | InvalidStatement | Missing

  const NO_COUNT: int := -1
  const INIT_POS: int := -1

  class SqliteSharedResultSet {
    const block: SharedBlock
    const stmt: Statement
    const columnNum: nat
    const parse: seq<Byte> -> Long         // strtoll
    const truncate: Bits64 -> Long         // the conversion of a double to a 64-bit integer
    var rowNum: int
    var rowPos: int
    var resultSetBlockCapacity: nat
    var isOnlyFillResultSetBlock: bool
    ghost var windowStart: nat             // the result row that is row 0 of the block
    ghost var lastFilled: nat              // the position the last fill was for

    /** The block is empty, or a window of the result; a count is at most the number of rows. */
    ghost predicate Usable()
      reads this, block, block.data, stmt
    {
      && block.Valid() && !block.readOnly && stmt.pos <= |stmt.rows|
      && 1 <= columnNum <= COL_MAX_NUM && (forall row | row in stmt.rows :: |row| == columnNum)
      && |stmt.rows| < 0x8000_0000 && NO_COUNT <= rowNum <= |stmt.rows|
      && (block.View().rows == [] || Window(block.View(), columnNum, stmt.rows, windowStart, |block.View().rows|))
    }

    /** The block holds the whole result, and its row count is known. */
    ghost predicate Loaded()
      reads this, block, block.data, stmt
    {
      && Usable() && |block.View().rows| == |stmt.rows| == rowNum
      && (stmt.rows != [] ==> windowStart == 0)
    }

    /** The result fits one block, and either nothing has been loaded yet, or all of it. */
    ghost predicate Fitting()
      reads this, block, block.data, stmt
    {
      && Usable() && WholeFits(block.data.Length, stmt.rows)
      && INIT_POS <= rowPos <= |stmt.rows| && (rowNum == NO_COUNT || Loaded())
    }

    ghost predicate Untroubled(from: nat)
      reads stmt
    {
      !Disturbed(stmt.interrupts, from, stmt.calls)
    }

    /** Nothing disturbed the fill, and every row by itself fits a block. */
    ghost predicate Smooth(from: nat)
      reads stmt
    {
      Untroubled(from) && AllFit(block, stmt)
    }

    /** The result row `position` is in the block. */
    ghost predicate Covers(position: int)
      reads this, block, block.data
      requires block.Valid()
    {
      windowStart <= position < windowStart + |block.View().rows|
    }

    /** A fill from row 0 keeps its window there exactly if the rows up to the required one fit together. */
    ghost predicate StaysFirst(requiredPos: nat)
      reads this, block, block.data
      requires block.Valid()
    {
      && (windowStart == 0 <==> PrefixOk(block.data.Length, stmt.rows, requiredPos + 1))
      && (windowStart == 0 ==> PrefixOk(block.data.Length, stmt.rows, |block.View().rows|))
    }

    /** The window is where a fill from `startPos` comes to rest, and holds the rows from there on that fit together. */
    ghost predicate Rests(startPos: nat, requiredPos: nat)
      reads this`windowStart, block, block.data
      requires block.Valid()
    {
      && windowStart == FinalStart(block.data.Length, stmt.rows, startPos, requiredPos)
      && |block.View().rows| == Together(block.data.Length, From(stmt.rows, windowStart))
    }

    /** The rows from `first` to `last` fit a block together. */
    ghost predicate FitTogether(first: nat, last: nat) {
      PrefixOk(block.data.Length, From(stmt.rows, first), last - first + 1)
    }

    /** The count that a fill without counting reports: it stops at the first row that does not fit. */
    ghost function Seen(): int
      reads this, block, block.data
      requires block.Valid()
    {
      var end := windowStart + |block.View().rows|;
      if end < |stmt.rows| then end + 1 else |stmt.rows|
    }

    constructor (block: SharedBlock, stmt: Statement, columnNum: nat, parse: seq<Byte> -> Long, truncate: Bits64 -> Long)
      ensures this.block == block && this.stmt == stmt && this.columnNum == columnNum
      ensures this.parse == parse && this.truncate == truncate && rowNum == NO_COUNT && rowPos == INIT_POS
      ensures !isOnlyFillResultSetBlock
    {
      this.block, this.stmt, this.columnNum, this.parse, this.truncate := block, stmt, columnNum, parse, truncate;
      rowNum, rowPos, resultSetBlockCapacity, isOnlyFillResultSetBlock, windowStart, lastFilled := NO_COUNT, INIT_POS, 0, false, 0, 0;
    }

    /** The fill of one query; the count stays as it was when the statement cannot be prepared or no row was added. */
    method ExecuteForSharedBlock(startPos: nat, requiredPos: nat, isCountAllRows: bool)
      requires Usable() && startPos < 0x8000_0000 && requiredPos < 0x8000_0000
      modifies this`rowNum, this`windowStart, block, block.data, stmt
      ensures Usable() && old(stmt.calls) <= stmt.calls && (old(rowNum) != NO_COUNT ==> rowNum != NO_COUNT)
      ensures startPos == 0 && WholeFits(block.data.Length, stmt.rows) && Untroubled(old(stmt.calls)) ==> Loaded()
      // A smooth fill covers the required row; without counting, it reports how far it saw.
      ensures Smooth(old(stmt.calls)) && startPos <= requiredPos < |stmt.rows| ==>
        startPos <= windowStart && Covers(requiredPos) && rowNum == if isCountAllRows then |stmt.rows| else Seen()
      ensures startPos == 0 && Smooth(old(stmt.calls)) ==> StaysFirst(requiredPos)
      ensures Smooth(old(stmt.calls)) ==> Rests(startPos, requiredPos)
    {
      hide Whole, TableOf, WholeFits, Window, AllFit, PrefixOk, FinalStart, Together;
      var ok := stmt.Prepare();
      if !ok {
        assert stmt.interrupts(stmt.calls - 1) == Fault;
        return;
      }
      ghost var began := stmt.calls;
      var start, added, total := RunFill(startPos, requiredPos, isCountAllRows);
      if Disturbed(stmt.interrupts, began, stmt.calls) {
        DisturbedWithin(stmt.interrupts, old(stmt.calls), began, stmt.calls, stmt.calls);
      }
      stmt.Rewind();
      if total > 0 && added == 0 { return; }
      NarrowingKeepsTotal(start, total);
      rowNum := ToInt32(GetCombinedData(start, total));
    }

    /** Clearing, setting the columns and filling. */
    method RunFill(startPos: nat, requiredPos: nat, isCountAllRows: bool)
      returns (start: nat, added: nat, total: nat)
      requires Usable() && startPos < 0x8000_0000 && requiredPos < 0x8000_0000 && stmt.pos == 0
      modifies this`windowStart, block, block.data, stmt
      ensures Usable() && old(stmt.calls) <= stmt.calls && (old(rowNum) != NO_COUNT ==> rowNum != NO_COUNT)
      ensures added == |block.View().rows| && total <= |stmt.rows| && start == windowStart < 0x8000_0000
      ensures startPos == 0 && WholeFits(block.data.Length, stmt.rows) && Untroubled(old(stmt.calls)) ==>
        windowStart == 0 && added == total == |stmt.rows|
      ensures Smooth(old(stmt.calls)) && startPos <= requiredPos < |stmt.rows| ==>
        startPos <= windowStart && Covers(requiredPos) && total == if isCountAllRows then |stmt.rows| else Seen()
      ensures startPos == 0 && Smooth(old(stmt.calls)) ==> StaysFirst(requiredPos)
      ensures Smooth(old(stmt.calls)) ==> Rests(startPos, requiredPos)
    {
      hide Whole, TableOf, WholeFits, Window, PrefixOk, FinalStart, Together, AllFit, Disturbed, Cleared;
      ClearBlock();
      var info := new FillInfo(startPos, requiredPos, isCountAllRows, columnNum);
      var failed := FillSharedBlock(info, block, stmt);
      windowStart := info.startPos;
      WindowFacts(block.View(), columnNum, stmt.rows, info.startPos, info.addedRows);
      start, added, total := info.startPos, info.addedRows, info.totalRows;
    }

    method ClearBlock()
      requires block.Valid() && !block.readOnly && 1 <= columnNum <= COL_MAX_NUM
      modifies block, block.data
      ensures block.Valid() && Cleared(block) && block.View().cols == columnNum
    {
      hide Whole, TableOf;
      var _ := block.Clear();
      var _ := block.SetColumnNum(columnNum);
    }

    /** The first `c` rows fit a block together, as those of the first fill do. */
    ghost predicate Capacity(c: nat) { 1 <= c <= |stmt.rows| && PrefixOk(block.data.Length, stmt.rows, c) }

    /** Where a fill for a position starts, once the block's capacity is known: a third of it before the position, or
        at the first row. */
    function PickFillBlockStartPosition(resultSetPosition: nat, blockCapacity: nat): (start: nat)
      ensures start <= resultSetPosition <= start + blockCapacity / 3
      ensures start > 0 ==> start + blockCapacity / 3 == resultSetPosition
    {
      if resultSetPosition >= blockCapacity / 3 then resultSetPosition - blockCapacity / 3 else 0
    }

    /** The window is where the last fill brings it: from a third of the first block before its row. */
    ghost predicate Settled()
      reads this`windowStart, this`lastFilled, this`resultSetBlockCapacity, block, block.data
      requires block.Valid()
    {
      Rests(ThirdBefore(lastFilled), lastFilled)
    }

    ghost function ThirdBefore(position: nat): nat
      reads this`resultSetBlockCapacity
    {
      if position < resultSetBlockCapacity / 3 then 0 else position - resultSetBlockCapacity / 3
    }

    /** The first row of the window that a fill for the position leads to, and how many rows it holds. */
    ghost function WindowFor(position: nat): (nat, nat)
      reads this`resultSetBlockCapacity
    {
      var start := FinalStart(block.data.Length, stmt.rows, ThirdBefore(position), position);
      (start, Together(block.data.Length, From(stmt.rows, start)))
    }

    /** A fill that starts at its row stays there; one that starts before it does if the rows up to it fit together. */
    lemma StartIsExact(requiredPos: nat)
      requires AllFit(block, stmt) && requiredPos < |stmt.rows|
      ensures FinalStart(block.data.Length, stmt.rows, requiredPos, requiredPos) == requiredPos
      ensures forall start: nat | start <= requiredPos ::
        FinalStart(block.data.Length, stmt.rows, start, requiredPos) == start <==> FitTogether(start, requiredPos)
    {
      hide RowOk, FitsEmpty, PrefixOk;
      forall start: nat | start <= requiredPos
        ensures FinalStart(block.data.Length, stmt.rows, start, requiredPos) == start <==> FitTogether(start, requiredPos)
      {
        assert From(stmt.rows, start)[0] == stmt.rows[start];
        FirstRowIsOk(block.data.Length, From(stmt.rows, start));
        FinalStartStays(block.data.Length, stmt.rows, start, requiredPos);
      }
    }

    method Fill(requiredPos: nat)
      requires Usable() && requiredPos < 0x8000_0000
      modifies this`rowNum, this`windowStart, this`resultSetBlockCapacity, this`lastFilled, block, block.data, stmt
      ensures Usable() && old(stmt.calls) <= stmt.calls && (old(rowNum) != NO_COUNT ==> rowNum != NO_COUNT)
      ensures (old(rowNum) == NO_COUNT && requiredPos == 0 && WholeFits(block.data.Length, stmt.rows)
               && Untroubled(old(stmt.calls))) ==> Loaded()
      ensures Smooth(old(stmt.calls)) && requiredPos < |stmt.rows| ==>
        Covers(requiredPos) && rowNum == if old(rowNum) == NO_COUNT then |stmt.rows| else Seen()
      ensures lastFilled == requiredPos
      // The first fill is for row 0 and stays there; a later one starts a third of that first block before its row.
      ensures Smooth(old(stmt.calls)) && old(rowNum) == NO_COUNT && requiredPos == 0 && stmt.rows != [] ==>
        windowStart == 0 && Capacity(resultSetBlockCapacity) && resultSetBlockCapacity == |block.View().rows|
      ensures old(rowNum) != NO_COUNT ==> resultSetBlockCapacity == old(resultSetBlockCapacity)
      ensures (Smooth(old(stmt.calls)) && old(rowNum) != NO_COUNT && !isOnlyFillResultSetBlock
               && Capacity(resultSetBlockCapacity) && requiredPos < |stmt.rows|) ==>
        (windowStart == 0 <==> requiredPos <= resultSetBlockCapacity / 3)
      // In general the window comes to rest at that start or, if the rows from there to the required one do not fit
      // together, later.
      ensures Smooth(old(stmt.calls)) && old(rowNum) != NO_COUNT && !isOnlyFillResultSetBlock ==> Settled()
      ensures (Smooth(old(stmt.calls)) && old(rowNum) != NO_COUNT && !isOnlyFillResultSetBlock
               && resultSetBlockCapacity / 3 < requiredPos < |stmt.rows|) ==>
        && windowStart >= requiredPos - resultSetBlockCapacity / 3
        && (windowStart == requiredPos - resultSetBlockCapacity / 3 <==>
              FitTogether(requiredPos - resultSetBlockCapacity / 3, requiredPos))
      ensures (Smooth(old(stmt.calls)) && (old(rowNum) == NO_COUNT || isOnlyFillResultSetBlock) && requiredPos < |stmt.rows|) ==>
        windowStart == requiredPos
      ensures Smooth(old(stmt.calls)) && old(rowNum) == NO_COUNT && requiredPos == 0 ==> Settled()
    {
      hide Whole, TableOf, WholeFits, Window, AllFit, Settled, Capacity, Covers, Seen, FitTogether;
      lastFilled := requiredPos;
      var _ := block.Clear();
      if rowNum == NO_COUNT { FillFirst(requiredPos); } else { FillAgain(requiredPos); }
    }

    /** The first fill, which counts. */
    method FillFirst(requiredPos: nat)
      requires Usable() && requiredPos < 0x8000_0000 && rowNum == NO_COUNT && lastFilled == requiredPos
      modifies this`rowNum, this`windowStart, this`resultSetBlockCapacity, block, block.data, stmt
      ensures Usable() && old(stmt.calls) <= stmt.calls
      ensures requiredPos == 0 && WholeFits(block.data.Length, stmt.rows) && Untroubled(old(stmt.calls)) ==> Loaded()
      ensures Smooth(old(stmt.calls)) && requiredPos < |stmt.rows| ==>
        Covers(requiredPos) && rowNum == |stmt.rows| && windowStart == requiredPos
      ensures Smooth(old(stmt.calls)) && requiredPos == 0 && stmt.rows != [] ==>
        Capacity(resultSetBlockCapacity) && resultSetBlockCapacity == |block.View().rows|
      ensures Smooth(old(stmt.calls)) && requiredPos == 0 ==> Settled()
    {
      hide Whole, TableOf, WholeFits, Window, PrefixOk, AllFit, FinalStart, Together, FitTogether;
      if AllFit(block, stmt) && requiredPos < |stmt.rows| { StartIsExact(requiredPos); }
      ExecuteForSharedBlock(requiredPos, requiredPos, true);
      if block.View().rows != [] { WindowFacts(block.View(), columnNum, stmt.rows, windowStart, |block.View().rows|); }
      resultSetBlockCapacity := block.GetRowNum();
    }

    /** The fill when the count is known. */
    method FillAgain(requiredPos: nat)
      requires Usable() && requiredPos < 0x8000_0000 && rowNum != NO_COUNT && lastFilled == requiredPos
      modifies this`rowNum, this`windowStart, block, block.data, stmt
      ensures Usable() && old(stmt.calls) <= stmt.calls && rowNum != NO_COUNT
      ensures Smooth(old(stmt.calls)) && requiredPos < |stmt.rows| ==> Covers(requiredPos) && rowNum == Seen()
      ensures (Smooth(old(stmt.calls)) && !isOnlyFillResultSetBlock && Capacity(resultSetBlockCapacity) && requiredPos < |stmt.rows|) ==>
        (windowStart == 0 <==> requiredPos <= resultSetBlockCapacity / 3)
      ensures Smooth(old(stmt.calls)) && !isOnlyFillResultSetBlock ==> Settled()
      ensures (Smooth(old(stmt.calls)) && !isOnlyFillResultSetBlock && resultSetBlockCapacity / 3 < requiredPos < |stmt.rows|) ==>
        && windowStart >= requiredPos - resultSetBlockCapacity / 3
        && (windowStart == requiredPos - resultSetBlockCapacity / 3 <==>
              FitTogether(requiredPos - resultSetBlockCapacity / 3, requiredPos))
      ensures Smooth(old(stmt.calls)) && isOnlyFillResultSetBlock && requiredPos < |stmt.rows| ==> windowStart == requiredPos
    {
      hide Whole, TableOf, WholeFits, Window, PrefixOk, AllFit, FinalStart, Together, FitTogether;
      if AllFit(block, stmt) && requiredPos < |stmt.rows| { StartIsExact(requiredPos); }
      if Capacity(resultSetBlockCapacity) && requiredPos <= resultSetBlockCapacity / 3 {
        ShorterPrefix(block.data.Length, stmt.rows, resultSetBlockCapacity, requiredPos + 1);
      }
      var startPos := if isOnlyFillResultSetBlock then requiredPos
                      else PickFillBlockStartPosition(requiredPos, resultSetBlockCapacity);
      ExecuteForSharedBlock(startPos, requiredPos, false);
    }

    method GetRowCount() returns (count: int)
      requires Usable()
      modifies this`rowNum, this`windowStart, this`resultSetBlockCapacity, this`lastFilled, block, block.data, stmt
      ensures Usable() && count == rowNum && old(stmt.calls) <= stmt.calls
      ensures old(rowNum) == NO_COUNT && Smooth(old(stmt.calls)) && stmt.rows != [] ==> count == |stmt.rows|
      ensures old(rowNum) != NO_COUNT ==>
        count == old(rowNum) && stmt.calls == old(stmt.calls) && block.View() == old(block.View())
        && windowStart == old(windowStart) && lastFilled == old(lastFilled) && resultSetBlockCapacity == old(resultSetBlockCapacity)
      ensures old(Fitting()) && Untroubled(old(stmt.calls)) ==> Fitting() && Loaded() && count == |stmt.rows|
      ensures old(Loaded()) ==> Loaded() && stmt.calls == old(stmt.calls)
      ensures old(Tracked()) && Untroubled(old(stmt.calls)) ==>
        Tracked() && rowNum != NO_COUNT && (old(rowNum) == NO_COUNT ==> lastFilled == 0 && resultSetBlockCapacity == |block.View().rows|)
    {
      hide Whole, TableOf, WholeFits, Window, PrefixOk;
      if rowNum == NO_COUNT { Fill(0); }
      count := rowNum;
    }

    method OnGo(newPosition: nat)
      requires Usable() && newPosition < 0x8000_0000
      modifies this`rowNum, this`windowStart, this`resultSetBlockCapacity, this`lastFilled, block, block.data, stmt
      ensures Usable() && old(stmt.calls) <= stmt.calls && (old(rowNum) != NO_COUNT ==> rowNum != NO_COUNT)
      ensures newPosition < |old(block.View()).rows| ==>
        stmt.calls == old(stmt.calls) && block.View() == old(block.View()) && windowStart == old(windowStart)
        && rowNum == old(rowNum) && lastFilled == old(lastFilled) && resultSetBlockCapacity == old(resultSetBlockCapacity)
      ensures Smooth(old(stmt.calls)) && |old(block.View()).rows| <= newPosition < |stmt.rows| ==>
        Covers(newPosition) && rowNum == if old(rowNum) == NO_COUNT then |stmt.rows| else Seen()
      ensures |old(block.View()).rows| <= newPosition ==> lastFilled == newPosition
      ensures old(rowNum) != NO_COUNT ==> resultSetBlockCapacity == old(resultSetBlockCapacity)
      ensures (Smooth(old(stmt.calls)) && old(rowNum) != NO_COUNT && !isOnlyFillResultSetBlock
               && Capacity(resultSetBlockCapacity) && |old(block.View()).rows| <= newPosition < |stmt.rows|) ==>
        (windowStart == 0 <==> newPosition <= resultSetBlockCapacity / 3)
      ensures (Smooth(old(stmt.calls)) && old(rowNum) != NO_COUNT && !isOnlyFillResultSetBlock
               && |old(block.View()).rows| <= newPosition) ==> Settled()
    {
      hide Whole, TableOf, WholeFits, Window, PrefixOk, AllFit;
      var rows := block.GetRowNum();
      if newPosition >= rows { Fill(newPosition); }
    }

    /** With a known count, succeeds exactly for the positions below it. A position outside the block is filled for:
        the window then covers it, and the count is what that fill saw. When the whole result fits, the count is that
        of the result, and nothing is filled again. */
    method GoToRow(position: Int32) returns (ok: bool)
      requires Usable()
      modifies this, block, block.data, stmt
      ensures Usable() && old(stmt.calls) <= stmt.calls && (old(rowNum) != NO_COUNT ==> rowNum != NO_COUNT)
      ensures ok ==> rowPos == position
      ensures !ok ==> if position >= rowNum then rowPos == rowNum else position < 0 && rowPos == INIT_POS
      ensures old(rowNum) != NO_COUNT ==> (ok <==> 0 <= position < old(rowNum))
      ensures old(rowNum) != NO_COUNT ==> resultSetBlockCapacity == old(resultSetBlockCapacity)
      ensures (old(rowNum) != NO_COUNT && ok && (position == old(rowPos) || position < |old(block.View()).rows|)) ==>
        stmt.calls == old(stmt.calls) && block.View() == old(block.View()) && windowStart == old(windowStart) && rowNum == old(rowNum)
      ensures old(rowNum) == NO_COUNT && Smooth(old(stmt.calls)) && stmt.rows != [] ==> (ok <==> 0 <= position < |stmt.rows|)
      ensures old(Tracked()) && Untroubled(old(stmt.calls)) ==> Tracked()
      ensures old(Tracked()) && Untroubled(old(stmt.calls)) && old(rowNum) != NO_COUNT ==>
        lastFilled == if ok && position != old(rowPos) && position >= |old(block.View()).rows| then position else old(lastFilled)
      ensures (old(rowNum) != NO_COUNT && ok && position != old(rowPos) && position >= |old(block.View()).rows|
               && Smooth(old(stmt.calls))) ==> Covers(position) && rowNum == Seen()
      ensures old(Fitting()) && Untroubled(old(stmt.calls)) ==>
        && Fitting() && Loaded() && (ok <==> 0 <= position < |stmt.rows|)
        && rowPos == if ok then position else if position < 0 then INIT_POS else |stmt.rows|
      ensures old(Loaded()) ==> Loaded() && stmt.calls == old(stmt.calls)
    {
      hide Whole, TableOf, WholeFits, Window, PrefixOk, AllFit, Settled;
      ghost var calls := stmt.calls;
      var rowCnt := GetRowCount();
      if position >= rowCnt {
        rowPos := rowCnt;
        return false;
      }
      if position < 0 {
        rowPos := INIT_POS;
        return false;
      }
      ghost var counted := stmt.calls;
      MoveTo(position);
      if Disturbed(stmt.interrupts, calls, counted) { DisturbedWithin(stmt.interrupts, calls, calls, counted, stmt.calls); }
      if Disturbed(stmt.interrupts, counted, stmt.calls) {
        DisturbedWithin(stmt.interrupts, calls, counted, stmt.calls, stmt.calls);
      }
      ok := true;
    }

    /** The end of GoToRow, for a position below the count. */
    method MoveTo(position: nat)
      requires Usable() && position < rowNum
      modifies this, block, block.data, stmt
      ensures Usable() && old(stmt.calls) <= stmt.calls && rowNum != NO_COUNT
      ensures rowPos == position && isOnlyFillResultSetBlock == old(isOnlyFillResultSetBlock)
      ensures position == old(rowPos) || position < |old(block.View()).rows| ==>
        stmt.calls == old(stmt.calls) && block.View() == old(block.View()) && windowStart == old(windowStart)
        && rowNum == old(rowNum) && lastFilled == old(lastFilled) && resultSetBlockCapacity == old(resultSetBlockCapacity)
      ensures (position != old(rowPos) && position >= |old(block.View()).rows|) ==>
        lastFilled == position && (Smooth(old(stmt.calls)) ==> Covers(position) && rowNum == Seen())
      ensures resultSetBlockCapacity == old(resultSetBlockCapacity)
      ensures old(Tracked()) && Untroubled(old(stmt.calls)) ==> Tracked()
    {
      hide Whole, TableOf, WholeFits, Window, PrefixOk, AllFit, Settled;
      if position == rowPos { return; }
      var rows := block.GetRowNum();
      if position >= rows { OnGo(position); }
      rowPos := position;
    }

    // ---------------------------------------------------------------- runs of calls

    /** What undisturbed calls keep, for a result that is not empty and whose rows each fit a block: the window is at
        row 0 exactly if the last fill was for a position in the first third of the first block. */
    ghost predicate Tracked()
      reads this, block, block.data, stmt
    {
      && Usable() && AllFit(block, stmt) && !isOnlyFillResultSetBlock && stmt.rows != [] && rowPos >= INIT_POS
      && (rowNum == NO_COUNT ==> rowPos == INIT_POS)
      && (rowNum != NO_COUNT ==>
            && Capacity(resultSetBlockCapacity) && Covers(lastFilled)
            && (windowStart == 0 <==> lastFilled <= resultSetBlockCapacity / 3) && Settled()
            && (windowStart == 0 && 0 <= rowPos < rowNum ==> rowPos < |block.View().rows|))
    }

    // ---------------------------------------------------------------- getters

    /** What a getter answers in any state: an error for a bad column or position, otherwise its view of block row
        `rowPos`, which is result row `windowStart + rowPos`, if the block has that row. */
    ghost function Answer<T>(columnIndex: int, view: Cell -> T): Read<T>
      reads this, block, block.data, stmt
      requires Usable()
    {
      if !(0 <= columnIndex < columnNum) then InvalidColumn
      else if rowPos < 0 || rowPos >= rowNum then InvalidStatement
      else if rowPos >= |block.View().rows| then Missing
      else Got(view(Encode(stmt.rows[windowStart + rowPos][columnIndex])))
    }

    /** What a getter should answer: its view of the query's row `rowPos`. */
    ghost function Expected<T>(columnIndex: int, view: Cell -> T): Read<T>
      reads this, block, block.data, stmt
      requires Usable()
    {
      if !(0 <= columnIndex < columnNum) then InvalidColumn
      else if rowPos < 0 || rowPos >= |stmt.rows| then InvalidStatement
      else Got(view(Encode(stmt.rows[rowPos][columnIndex])))
    }

    /** The column tells the rows of the result apart. */
    ghost predicate Telling<T(!new)>(columnIndex: nat, view: Cell -> T)
      requires columnIndex < columnNum && forall row | row in stmt.rows :: |row| == columnNum
    {
      forall i: nat, j: nat | i < j < |stmt.rows| ::
        view(Encode(stmt.rows[i][columnIndex])) != view(Encode(stmt.rows[j][columnIndex]))
    }

    /** After any undisturbed calls: at a good position, the answer for a column that tells the rows apart is the
        query's exactly if the last fill was for a position in the first third of the first block; within that third
        the answer for every column is. */
    lemma AnswerIsExpectedIff<T(!new)>(columnIndex: nat, view: Cell -> T)
      requires Tracked() && columnIndex < columnNum && 0 <= rowPos < rowNum
      ensures lastFilled <= resultSetBlockCapacity / 3 ==> Answer(columnIndex, view) == Expected(columnIndex, view)
      ensures Telling(columnIndex, view) ==>
        (Answer(columnIndex, view) == Expected(columnIndex, view) <==> lastFilled <= resultSetBlockCapacity / 3)
    {
      hide PrefixOk, AllFit, Settled;
    }

    /** In any case the answer is that of block row `rowPos` of the window that the last fill leads to. */
    lemma AnswerOfWindow<T>(columnIndex: nat, view: Cell -> T)
      requires Tracked() && columnIndex < columnNum && 0 <= rowPos < rowNum
      ensures var (start, n) := WindowFor(lastFilled);
        if rowPos < n then
          start + rowPos < |stmt.rows| && Answer(columnIndex, view) == Got(view(Encode(stmt.rows[start + rowPos][columnIndex])))
        else Answer(columnIndex, view) == Missing
    {
      hide PrefixOk, AllFit, FinalStart, Together, Whole, TableOf;
    }

    /** When the result fits and is loaded, every answer is the query's. */
    lemma LoadedAnswers<T>(columnIndex: int, view: Cell -> T)
      requires Loaded() && rowPos >= INIT_POS
      ensures Answer(columnIndex, view) == Expected(columnIndex, view)
    {
    }

    /** CheckState, then the cell of the block that the cursor is on. */
    method Cell(columnIndex: int) returns (r: Read<Cell>)
      requires Usable()
      modifies this`rowNum, this`windowStart, this`resultSetBlockCapacity, this`lastFilled, block, block.data, stmt
      ensures Usable() && r == Answer(columnIndex, c => c) && old(stmt.calls) <= stmt.calls
      ensures old(rowNum) != NO_COUNT ==>
        rowNum == old(rowNum) && stmt.calls == old(stmt.calls) && block.View() == old(block.View())
        && windowStart == old(windowStart) && lastFilled == old(lastFilled) && resultSetBlockCapacity == old(resultSetBlockCapacity)
      ensures old(Fitting()) && Untroubled(old(stmt.calls)) ==> Fitting() && r == Expected(columnIndex, c => c)
      ensures old(Tracked()) && Untroubled(old(stmt.calls)) ==> Tracked()
    {
      hide Whole, TableOf, WholeFits, PrefixOk, AllFit, Settled;
      if columnIndex >= columnNum || columnIndex < 0 { return InvalidColumn; }
      var rowCnt := GetRowCount();
      if rowPos < 0 || rowPos >= rowCnt { return InvalidStatement; }
      var found, v := block.ReadCell(rowPos, columnIndex);
      if Loaded() { LoadedAnswers(columnIndex, c => c); }
      if !found { return Missing; }
      r := Got(v);
    }

    /** An integer is itself; text and doubles are converted; anything else is 0. */
    method GetLong(columnIndex: int) returns (r: Read<Long>)
      requires Usable()
      modifies this`rowNum, this`windowStart, this`resultSetBlockCapacity, this`lastFilled, block, block.data, stmt
      ensures Usable() && r == Answer(columnIndex, c => LongOf(c, parse, truncate))
      ensures old(Fitting()) && Untroubled(old(stmt.calls)) ==>
        Fitting() && r == Expected(columnIndex, c => LongOf(c, parse, truncate))
    {
      hide Whole, TableOf, WholeFits, Window;
      var cell := Cell(columnIndex);
      match cell {
        case Got(c) => r := Got(LongOf(c, parse, truncate));
        case InvalidColumn => r := InvalidColumn;
        case InvalidStatement => r := InvalidStatement;
        case Missing => r := Missing;
      }
    }

    /** The bytes of a blob, or of a text with its terminating zero; nothing for other types. */
    method GetBlob(columnIndex: int) returns (r: Read<seq<Byte>>)
      requires Usable()
      modifies this`rowNum, this`windowStart, this`resultSetBlockCapacity, this`lastFilled, block, block.data, stmt
      ensures Usable() && r == Answer(columnIndex, BlobOf)
      ensures old(Fitting()) && Untroubled(old(stmt.calls)) ==> Fitting() && r == Expected(columnIndex, BlobOf)
    {
      hide Whole, TableOf, WholeFits, Window;
      var cell := Cell(columnIndex);
      match cell {
        case Got(c) => r := Got(BlobOf(c));
        case InvalidColumn => r := InvalidColumn;
        case InvalidStatement => r := InvalidStatement;
        case Missing => r := Missing;
      }
    }

    method IsColumnNull(columnIndex: int) returns (r: Read<bool>)
      requires Usable()
      modifies this`rowNum, this`windowStart, this`resultSetBlockCapacity, this`lastFilled, block, block.data, stmt
      ensures Usable() && r == Answer(columnIndex, c => c == Null)
      ensures old(Fitting()) && Untroubled(old(stmt.calls)) ==> Fitting() && r == Expected(columnIndex, c => c == Null)
      ensures old(Fitting()) && Untroubled(old(stmt.calls)) && r.Got? ==>
        0 <= rowPos < |stmt.rows| && 0 <= columnIndex < |stmt.rows[rowPos]|
        && r.value == (stmt.rows[rowPos][columnIndex] == NullValue)
    {
      hide Whole, TableOf, WholeFits, Window;
      var cell := Cell(columnIndex);
      if Fitting() && cell.Got? && 0 <= rowPos < |stmt.rows| { FittingIsStorable(block.data.Length, stmt.rows, rowPos); }
      match cell {
        case Got(c) => r := Got(c == Null);
        case InvalidColumn => r := InvalidColumn;
        case InvalidStatement => r := InvalidStatement;
        case Missing => r := Missing;
      }
    }
  }

  lemma ShorterPrefix(size: int, rows: seq<seq<Value>>, c: int, n: int)
    requires PrefixOk(size, rows, c) && n <= c
    ensures PrefixOk(size, rows, n)
  {
  }

  function LongOf(c: Cell, parse: seq<Byte> -> Long, truncate: Bits64 -> Long): Long {
    match c
    case Integer(x) => x
    case Text(bs) => if |bs| > 1 then parse(bs[..|bs| - 1]) else 0
    case Float(x) => truncate(x)
    case _ => 0
  }

  function BlobOf(c: Cell): seq<Byte> {
    match c
    case Blob(bs) => bs
    case Text(bs) => bs
    case _ => []
  }

  /** The getters' views of a stored value, in terms of the value. */
  lemma ViewsOfValues(v: Value, parse: seq<Byte> -> Long, truncate: Bits64 -> Long)
    ensures LongOf(Encode(v), parse, truncate) == match v
      case IntValue(x) => x
      case TextValue(bs) => if bs != [] then parse(bs) else 0
      case FloatValue(x) => truncate(x)
      case _ => 0
    ensures BlobOf(Encode(v)) == match v
      case BlobValue(bs) => bs
      case TextValue(bs) => bs + [0]
      case _ => []
  {
    if v.TextValue? { assert (v.bytes + [0])[..|v.bytes|] == v.bytes; }
  }

  /** In a result that fits, only nulls are stored as null. */
  lemma FittingIsStorable(size: int, rows: seq<seq<Value>>, k: nat)
    requires WholeFits(size, rows) && k < |rows|
    ensures forall v | v in rows[k] :: Storable(v) && (Encode(v) == Null <==> v == NullValue)
  {
    assert RowOk(size, rows, k);
    FitsStorable(size, PayloadsFrom(UsedBy(rows, k), k, |rows[k]|), rows[k]);
  }
}
