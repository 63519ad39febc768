/** A cursor with random access over a statement that only steps forward. */
module StepCursor {
  import opened Statements

  datatype Column = Got(value: Value) | NotExecuted | InvalidColumn

  datatype Code = Ok | AfterLast | Exceeded | Closed | Failed | BadPosition

  const INIT_POS: int := -1

  class StepResultSet {
    const stmt: Statement      // the statement of the query, while `prepared`
    var prepared: bool
    var rowPos: int
    var rowCount: int
    var isAfterLast: bool
    var isClosed: bool

    /** A prepared statement has advanced exactly rowPos + 1 rows; a known row count is right. */
    ghost predicate Valid()
      reads this, stmt
    {
      && stmt.pos <= |stmt.rows| && rowPos >= INIT_POS
      && (if prepared then stmt.pos == rowPos + 1 else rowPos == INIT_POS)
      && (rowCount == INIT_POS || rowCount == |stmt.rows|)
      && (isClosed ==> !prepared)
    }

    ghost predicate Untroubled(from: nat)
      reads this, stmt
    {
      !Disturbed(stmt.interrupts, from, stmt.calls)
    }

    constructor (stmt: Statement)
      requires stmt.pos <= |stmt.rows|
      ensures Valid() && this.stmt == stmt && rowPos == INIT_POS && rowCount == INIT_POS && !isClosed && !prepared
    {
      this.stmt, prepared, rowPos, rowCount := stmt, false, INIT_POS, INIT_POS;
      isAfterLast, isClosed := false, false;
    }

    method PrepareStep() returns (code: Code)
      requires Valid()
      modifies this`prepared, stmt
      ensures Valid() && old(stmt.calls) <= stmt.calls
      ensures code == Closed <==> isClosed
      ensures code == Ok <==> prepared
      ensures code == Failed ==> Disturbed(stmt.interrupts, old(stmt.calls), stmt.calls)
      ensures code in {Ok, Closed, Failed}
    {
      if isClosed { return Closed; }
      if prepared { return Ok; }
      prepared := stmt.Prepare();
      if !prepared { assert stmt.interrupts(stmt.calls - 1) == Fault; }
      code := if prepared then Ok else Failed;
    }

    method FinishStep()
      modifies this`prepared, this`rowPos
      ensures !prepared && rowPos == if old(prepared) then INIT_POS else old(rowPos)
    {
      if !prepared { return; }
      prepared, rowPos := false, INIT_POS;
    }

    method Reset()
      requires Valid()
      modifies this`rowPos, this`isAfterLast, stmt`pos
      ensures Valid() && rowPos == INIT_POS && !isAfterLast
    {
      if prepared { stmt.Rewind(); }
      rowPos, isAfterLast := INIT_POS, false;
    }

    method Close()
      requires Valid()
      modifies this
      ensures Valid() && isClosed && !prepared && rowPos == INIT_POS && rowCount == old(rowCount)
    {
      if isClosed { return; }
      isClosed := true;
      FinishStep();
    }

    /** Step, and retry while the table is locked; still busy or locked after 52 steps means that the retries ran out. */
    method StepWithRetry() returns (rc: StepCode)
      requires stmt.pos <= |stmt.rows|
      modifies stmt
      ensures stmt.pos == old(stmt.pos) + (if rc == RowReady then 1 else 0) <= |stmt.rows| && old(stmt.calls) <= stmt.calls
      ensures rc == Done ==> stmt.pos == |stmt.rows|
      ensures rc in {LockedCode, BusyCode, ErrorCode} ==> Disturbed(stmt.interrupts, old(stmt.calls), stmt.calls)
      // The retries run out exactly if 52 steps in a row are busy or locked; otherwise the first that is not decides.
      ensures rc in {LockedCode, BusyCode} <==> BusyRun(stmt.interrupts, old(stmt.calls), old(stmt.calls) + RETRY_TIME + 2)
      ensures rc !in {LockedCode, BusyCode} ==>
        && old(stmt.calls) < stmt.calls && BusyRun(stmt.interrupts, old(stmt.calls), stmt.calls - 1)
        && match stmt.interrupts(stmt.calls - 1)
           case Proceed => rc == if old(stmt.pos) < |stmt.rows| then RowReady else Done
           case _ => rc == ErrorCode
    {
      var retryCount := 0;
      rc := stmt.Step();
      while rc == LockedCode || rc == BusyCode
        invariant 0 <= retryCount <= RETRY_TIME + 1 && stmt.calls == old(stmt.calls) + retryCount + 1
        invariant stmt.pos == old(stmt.pos) + (if rc == RowReady then 1 else 0) <= |stmt.rows|
        invariant rc == Done ==> stmt.pos == |stmt.rows|
        invariant BusyRun(stmt.interrupts, old(stmt.calls), stmt.calls - 1)
        invariant rc == LockedCode || rc == BusyCode ==> BusyRun(stmt.interrupts, old(stmt.calls), stmt.calls)
        invariant rc == match stmt.interrupts(stmt.calls - 1)
          case Proceed => if old(stmt.pos) < |stmt.rows| then RowReady else Done
          case Busy => BusyCode
          case Locked => LockedCode
          case Fault => ErrorCode
        decreases RETRY_TIME + 1 - retryCount, rc == LockedCode || rc == BusyCode
      {
        if retryCount > RETRY_TIME {
          assert BusyTooLong(stmt.interrupts, old(stmt.calls), old(stmt.calls), stmt.calls);
          return;
        }
        rc := stmt.Step();
        retryCount := retryCount + 1;
      }
    }

    method GoToNextRow() returns (code: Code)
      requires Valid()
      modifies this, stmt
      ensures Valid() && isClosed == old(isClosed) && old(stmt.calls) <= stmt.calls
      ensures code == Closed <==> isClosed
      ensures code == Ok ==> rowPos == old(rowPos) + 1 && rowCount == old(rowCount)
      ensures code == AfterLast ==> old(rowPos) + 1 == |stmt.rows| && rowPos == INIT_POS && rowCount == |stmt.rows| && isAfterLast
      ensures code == Exceeded ==> rowPos == old(rowPos)
      ensures code == Failed ==> !prepared
      ensures isAfterLast == (code == AfterLast || old(isAfterLast))
      ensures code in {Exceeded, Failed} ==> Disturbed(stmt.interrupts, old(stmt.calls), stmt.calls)
      ensures code in {Exceeded, Failed, Closed} ==> rowCount == old(rowCount)
      ensures code != BadPosition
    {
      code := PrepareStep();
      if code != Ok { return; }
      ghost var began := stmt.calls;
      var rc := StepWithRetry();
      if rc == LockedCode || rc == BusyCode || rc == ErrorCode {
        DisturbedWithin(stmt.interrupts, old(stmt.calls), began, stmt.calls, stmt.calls);
      }
      if rc == LockedCode || rc == BusyCode { return Exceeded; }
      if rc == RowReady {
        rowPos := rowPos + 1;
        return Ok;
      }
      if rc == Done {
        isAfterLast := true;
        rowCount := rowPos + 1;
        FinishStep();
        return AfterLast;
      }
      FinishStep();
      return Failed;
    }

    /** On an open cursor that is not disturbed, succeeds exactly for the positions of rows. */
    method GoToRow(position: int) returns (code: Code)
      requires Valid()
      modifies this, stmt
      ensures Valid() && isClosed == old(isClosed) && old(stmt.calls) <= stmt.calls
      ensures code == Ok ==> 0 <= position < |stmt.rows| && rowPos == position && prepared
      ensures isClosed ==> code == BadPosition && rowPos == old(rowPos)
      ensures !isClosed && position < 0 ==> code == BadPosition && rowPos == INIT_POS && !isAfterLast
      ensures !isClosed && position >= |stmt.rows| && Untroubled(old(stmt.calls)) ==> code == AfterLast && rowPos == INIT_POS
      ensures !isClosed && 0 <= position < |stmt.rows| && Untroubled(old(stmt.calls)) ==> code == Ok
      ensures old(rowCount) != INIT_POS ==> rowCount == old(rowCount)
      decreases rowPos
    {
      if isClosed { return BadPosition; }
      if position < 0 {
        Reset();
        return BadPosition;
      }
      if position == rowPos { return Ok; }
      if position < rowPos {
        Reset();
        code := GoToRow(position);
        return;
      }
      while position != rowPos
        invariant Valid() && !isClosed && rowPos <= position && old(stmt.calls) <= stmt.calls
        invariant rowPos > INIT_POS ==> prepared
        invariant old(rowCount) != INIT_POS ==> rowCount == old(rowCount)
        decreases position - rowPos
      {
        ghost var before := stmt.calls;
        code := GoToNextRow();
        if code != Ok {
          if code in {Exceeded, Failed} {
            DisturbedWithin(stmt.interrupts, old(stmt.calls), before, stmt.calls, stmt.calls);
          }
          return;
        }
      }
      code := Ok;
    }

    /** The number of rows, with the position put back where it was. */
    method GetRowCount() returns (count: int)
      requires Valid()
      modifies this, stmt
      ensures Valid() && isClosed == old(isClosed) && old(stmt.calls) <= stmt.calls
      ensures count == |stmt.rows| || count == INIT_POS
      ensures old(rowCount) != INIT_POS ==> count == |stmt.rows| && rowPos == old(rowPos)
      ensures !isClosed && Untroubled(old(stmt.calls)) ==> count == |stmt.rows| && rowPos == old(rowPos)
    {
      if rowCount != INIT_POS { return rowCount; }
      var oldPosition := rowPos;
      var code := GoToNextRow();
      ghost var before := old(stmt.calls);
      while code == Ok
        invariant Valid() && isClosed == old(isClosed) && old(stmt.calls) <= before <= stmt.calls
        invariant code == Ok ==> rowCount == INIT_POS
        invariant code == Closed <==> isClosed
        invariant code == AfterLast ==> rowCount == |stmt.rows|
        invariant code in {Exceeded, Failed} ==> Disturbed(stmt.interrupts, before, stmt.calls)
        invariant code != BadPosition
        decreases if code == Ok then |stmt.rows| - rowPos else -1
      {
        before := stmt.calls;
        code := GoToNextRow();
      }
      if code in {Exceeded, Failed} {
        DisturbedWithin(stmt.interrupts, old(stmt.calls), before, stmt.calls, stmt.calls);
      }
      count := rowCount;
      ghost var counted := stmt.calls;
      var _ := GoToRow(oldPosition);
      if Disturbed(stmt.interrupts, counted, stmt.calls) {
        DisturbedWithin(stmt.interrupts, old(stmt.calls), counted, stmt.calls, stmt.calls);
      }
      if code in {Exceeded, Failed} {
        DisturbedWithin(stmt.interrupts, old(stmt.calls), old(stmt.calls), counted, stmt.calls);
      }
    }

    /** The typed getters: a column of the row the cursor is on; SQLite takes a negative column for a null. */
    method GetColumn(columnIndex: int) returns (r: Column)
      requires Valid()
      ensures r == if rowPos == INIT_POS then NotExecuted
                   else if columnIndex >= |stmt.rows[rowPos]| then InvalidColumn
                   else Got(if columnIndex < 0 then NullValue else stmt.rows[rowPos][columnIndex])
    {
      if rowPos == INIT_POS { return NotExecuted; }
      var row := stmt.rows[stmt.pos - 1];
      if columnIndex >= |row| { return InvalidColumn; }
      r := Got(if columnIndex < 0 then NullValue else row[columnIndex]);
    }
  }

  // ---------------------------------------------------------------- any run of calls

  datatype CursorCall = Go(position: int) | Next | Count

  /** Where a plain position over `n` rows would be. */
  function Moved(n: nat, pos: int, call: CursorCall): int {
    match call
    case Go(p) => if 0 <= p < n then p else INIT_POS
    case Next => if pos + 1 < n then pos + 1 else INIT_POS
    case Count => pos
  }

  function MovedBy(n: nat, pos: int, calls: seq<CursorCall>): int {
    if calls == [] then pos else Moved(n, MovedBy(n, pos, calls[..|calls| - 1]), calls[|calls| - 1])
  }

  method Perform(c: StepResultSet, calls: seq<CursorCall>)
    requires c.Valid() && !c.isClosed
    modifies c, c.stmt
    ensures c.Valid() && !c.isClosed && old(c.stmt.calls) <= c.stmt.calls
    ensures c.Untroubled(old(c.stmt.calls)) ==> c.rowPos == MovedBy(|c.stmt.rows|, old(c.rowPos), calls)
  {
    for i := 0 to |calls|
      invariant c.Valid() && !c.isClosed && old(c.stmt.calls) <= c.stmt.calls
      invariant c.Untroubled(old(c.stmt.calls)) ==> c.rowPos == MovedBy(|c.stmt.rows|, old(c.rowPos), calls[..i])
    {
      ghost var before := c.stmt.calls;
      match calls[i] {
        case Go(p) => var _ := c.GoToRow(p);
        case Next => var _ := c.GoToNextRow();
        case Count => var _ := c.GetRowCount();
      }
      if Disturbed(c.stmt.interrupts, old(c.stmt.calls), before) {
        DisturbedWithin(c.stmt.interrupts, old(c.stmt.calls), old(c.stmt.calls), before, c.stmt.calls);
      }
      if Disturbed(c.stmt.interrupts, before, c.stmt.calls) {
        DisturbedWithin(c.stmt.interrupts, old(c.stmt.calls), before, c.stmt.calls, c.stmt.calls);
      }
      assert calls[..i + 1][..i] == calls[..i];
    }
    assert calls[..|calls|] == calls;
  }
}
