/** Filling a shared block with a window of the rows of a query. */
module FillBlock {
  import opened Memory
  import opened BlockLayout
  import opened BlockRows
  import opened BlockSteps
  import opened SharedBlocks
  import opened Statements

  predicate Storable(v: Value) { !v.NoText? && !v.Unknown? }

  /** Text is stored with its terminating zero. */
  function Encode(v: Value): Cell {
    match v
    case TextValue(bs) => Text(bs + [0])
    case IntValue(x) => Integer(x)
    case FloatValue(x) => Float(x)
    case BlobValue(bs) => Blob(bs)
    case _ => Null
  }

  function EncodeRow(row: seq<Value>): seq<Cell> { seq(|row|, i requires 0 <= i < |row| => Encode(row[i])) }

  /** The values from some column on can be stored when the block is used up to `used`. */
  predicate CellsFit(size: int, used: int, row: seq<Value>)
    decreases |row|
  {
    row == [] || (Storable(row[0]) && CellFits(size, used, Encode(row[0]))
                  && CellsFit(size, AfterCell(used, Encode(row[0])), row[1..]))
  }

  lemma {:induction false} FitsStorable(size: int, used: int, row: seq<Value>)
    requires CellsFit(size, used, row)
    ensures forall v | v in row :: Storable(v)
    decreases |row|
  {
    if row != [] {
      FitsStorable(size, AfterCell(used, Encode(row[0])), row[1..]);
      assert forall v | v in row :: v == row[0] || v in row[1..];
    }
  }

  /** Where the block is used up to once the values are stored. */
  function CellsUsed(used: int, row: seq<Value>): int
    decreases |row|
  {
    if row == [] then used else CellsUsed(AfterCell(used, Encode(row[0])), row[1..])
  }

  /** The groups that `k` rows need. */
  function Groups(k: nat): int { if k == 0 then 1 else (k - 1) / 100 + 1 }

  /** Where the payloads of row `k` start, when the rows before it have used the block up to `used`. */
  function PayloadsFrom(used: int, k: nat, cols: int): int { Align(AfterGroup(used, k, Groups(k))) + 12 * cols }

  /** How far the first `k` rows fill a cleared block. */
  function UsedBy(rows: seq<seq<Value>>, k: nat): int
    requires k <= |rows|
  {
    if k == 0 then FIRST_FREE
    else CellsUsed(PayloadsFrom(UsedBy(rows, k - 1), k - 1, |rows[k - 1]|), rows[k - 1])
  }

  /** Row `k` fits after the rows before it. */
  predicate RowOk(size: int, rows: seq<seq<Value>>, k: nat)
    requires k < |rows|
  {
    && RowFits(size, UsedBy(rows, k), k, Groups(k), |rows[k]|)
    && CellsFit(size, PayloadsFrom(UsedBy(rows, k), k, |rows[k]|), rows[k])
  }

  /** The first `n` rows fit a cleared block together. */
  predicate PrefixOk(size: int, rows: seq<seq<Value>>, n: int) {
    forall k: nat | k < |rows| && k < n :: RowOk(size, rows, k)
  }

  /** All rows together fit a cleared block. */
  predicate WholeFits(size: int, rows: seq<seq<Value>>) { forall k: nat | k < |rows| :: RowOk(size, rows, k) }

  /** How many rows from the first on fit a cleared block together. */
  ghost function Together(size: int, rows: seq<seq<Value>>): (n: nat)
    ensures n <= |rows| && PrefixOk(size, rows, n) && (n < |rows| ==> !RowOk(size, rows, n))
  {
    TogetherFrom(size, rows, 0)
  }

  ghost function TogetherFrom(size: int, rows: seq<seq<Value>>, k: nat): (n: nat)
    requires k <= |rows| && PrefixOk(size, rows, k)
    ensures k <= n <= |rows| && PrefixOk(size, rows, n) && (n < |rows| ==> !RowOk(size, rows, n))
    decreases |rows| - k
  {
    if k == |rows| || !RowOk(size, rows, k) then k else TogetherFrom(size, rows, k + 1)
  }

  lemma TogetherIs(size: int, rows: seq<seq<Value>>, n: nat)
    requires n <= |rows| && PrefixOk(size, rows, n) && (n < |rows| ==> !RowOk(size, rows, n))
    ensures Together(size, rows) == n
  {
    hide RowOk;
  }

  function From(rows: seq<seq<Value>>, start: nat): seq<seq<Value>> { if start <= |rows| then rows[start..] else [] }

  /** Where the window of a fill comes to rest: it starts over at the row that does not fit any more, until the rows
      that fit together reach past the required one. */
  ghost function FinalStart(size: int, rows: seq<seq<Value>>, start: nat, requiredPos: int): (r: nat)
    ensures start <= r && (r != start ==> r <= requiredPos && r < |rows|)
    decreases |rows| - start
  {
    var n := Together(size, From(rows, start));
    if n == 0 || start + n > requiredPos || start + n >= |rows| then start
    else FinalStart(size, rows, start + n, requiredPos)
  }

  lemma FinalStartRestarts(size: int, rows: seq<seq<Value>>, start: nat, k: nat, requiredPos: int)
    requires 0 < k < |From(rows, start)| && PrefixOk(size, From(rows, start), k) && !RowOk(size, From(rows, start), k)
    requires start + k <= requiredPos
    ensures FinalStart(size, rows, start, requiredPos) == FinalStart(size, rows, start + k, requiredPos)
  {
    hide RowOk;
    TogetherIs(size, From(rows, start), k);
  }

  lemma PrefixGrows(size: int, rows: seq<seq<Value>>, k: nat)
    requires k < |rows| && PrefixOk(size, rows, k) && RowOk(size, rows, k)
    ensures PrefixOk(size, rows, k + 1)
  {
  }

  /** The window stays exactly if all rows up to the required one fit together; else rows in between are lost. */
  lemma FinalStartStays(size: int, rows: seq<seq<Value>>, start: nat, requiredPos: int)
    requires start < |rows| && RowOk(size, From(rows, start), 0)
    ensures FinalStart(size, rows, start, requiredPos) == start <==> PrefixOk(size, From(rows, start), requiredPos - start + 1)
  {
    hide RowOk;
  }

  /** The row fits a cleared block. */
  predicate FitsEmpty(size: int, row: seq<Value>) {
    FIRST_FREE + 12 * |row| <= size && CellsFit(size, FIRST_FREE + 12 * |row|, row)
  }

  // ---------------------------------------------------------------- one row

  datatype FillResult = Success | Full | Fail

  function Partial(row: seq<Value>, i: nat): seq<Cell>
    requires i <= |row|
  {
    EncodeRow(row[..i]) + NullRow(|row| - i)
  }

  lemma PartialGrows(row: seq<Value>, i: nat)
    requires i < |row|
    ensures Partial(row, i)[i := Encode(row[i])] == Partial(row, i + 1)
  {
  }

  method FillCell(b: SharedBlock, row: Word, column: Word, v: Value) returns (r: FillResult)
    requires b.Valid() && !b.readOnly && InTable(b.View(), row, column)
    modifies b.data
    ensures b.Valid() && b.lay == old(b.lay)
    ensures r == Success <==> Storable(v) && CellFits(b.data.Length, old(b.Used()), Encode(v))
    ensures r == Fail <==> v.Unknown?
    ensures r == Success ==> |old(b.View()).rows[row]| == old(b.View()).cols
                             && b.View() == Table(old(b.View()).cols, SetCell(old(b.View()).rows, row, column, Encode(v)))
    ensures r == Success ==> b.Used() == AfterCell(old(b.Used()), Encode(v))
    ensures r != Success ==> b.View() == old(b.View()) && b.Used() == old(b.Used())
  {
    hide Whole, TableOf;
    var s: Status;
    match v {
      case TextValue(bs) => s := b.PutBlobOrString(row, column, Text(bs + [0]));
      case IntValue(x) => s := b.PutLong(row, column, x);
      case FloatValue(x) => s := b.PutDouble(row, column, x);
      case BlobValue(bs) => s := b.PutBlobOrString(row, column, Blob(bs));
      case NullValue => s := b.PutNull(row, column);
      case NoText => return Full;
      case Unknown => return Fail;
    }
    r := if s == Ok then Success else Full;
  }

  method FillOneRow(b: SharedBlock, row: seq<Value>, addedRows: Word) returns (r: FillResult)
    requires b.Valid() && !b.readOnly && b.View().cols == |row| >= 1 && |b.View().rows| == addedRows
    modifies b, b.data
    ensures b.Valid() && b.View().cols == old(b.View()).cols
    ensures r == Success ==> b.View().rows == old(b.View()).rows + [EncodeRow(row)]
    ensures r != Success ==> b.View() == old(b.View())
    ensures r == Fail ==> exists v :: v in row && !Storable(v)
    ensures r == Success ==>
      && b.Used() == CellsUsed(Align(old(AfterGroup(b.Used(), |b.View().rows|, |b.lay.groups|))) + 12 * |row|, row)
      && |b.lay.groups| == GroupsAfter(|old(b.View()).rows|, |old(b.lay.groups)|)
    ensures r == Success <==> old(b.Fits()) && CellsFit(b.data.Length,
      Align(old(AfterGroup(b.Used(), |b.View().rows|, |b.lay.groups|))) + 12 * |row|, row)
  {
    hide Whole, TableOf;
    var s := b.AllocRow();
    if s != Ok { return Full; }
    ghost var rows, start := old(b.View()).rows, b.Used();
    assert Partial(row, 0) == NullRow(|row|);
    r := Success;
    for i := 0 to |row|
      invariant b.Valid() && b.View().cols == |row| && r == Success
      invariant b.View().rows == rows + [Partial(row, i)]
      invariant CellsFit(b.data.Length, start, row) <==> CellsFit(b.data.Length, b.Used(), row[i..])
      invariant CellsUsed(start, row) == CellsUsed(b.Used(), row[i..])
      invariant |b.lay.groups| == GroupsAfter(|rows|, |old(b.lay.groups)|)
    {
      PartialGrows(row, i);
      b.Shape();
      r := FillCell(b, addedRows, i, row[i]);
      if r != Success {
        var _ := b.FreeLastRow();
        return;
      }
      assert row[i..][1..] == row[i + 1..];
    }
    assert Partial(row, |row|) == EncodeRow(row);
  }

  // ---------------------------------------------------------------- the window

  /** The parameters and progress of one fill, as in SharedBlockInfo. */
  class FillInfo {
    const requiredPos: int
    const isCountAllRows: bool
    const columnNum: nat
    var startPos: nat
    var addedRows: nat
    var totalRows: nat
    var isFull: bool
    var hasException: bool

    constructor (startPos: nat, requiredPos: int, isCountAllRows: bool, columnNum: nat)
      ensures this.startPos == startPos && this.requiredPos == requiredPos && this.columnNum == columnNum
      ensures this.isCountAllRows == isCountAllRows && !isFull && !hasException
    {
      this.startPos, this.requiredPos, this.columnNum := startPos, requiredPos, columnNum;
      this.isCountAllRows, addedRows, totalRows, isFull, hasException := isCountAllRows, 0, 0, false, false;
    }
  }

  /** The block rows are the `n` result rows from `start` on. */
  ghost predicate Window(t: Table, cols: int, rows: seq<seq<Value>>, start: int, n: int) {
    && t.cols == cols && |t.rows| == n && 0 <= start && (n > 0 ==> start + n <= |rows|)
    && forall i | 0 <= i < n :: t.rows[i] == EncodeRow(rows[start + i])
  }

  lemma WindowFacts(t: Table, cols: int, rows: seq<seq<Value>>, start: int, n: int)
    requires Window(t, cols, rows, start, n)
    ensures t.cols == cols && |t.rows| == n && (n > 0 ==> start + n <= |rows|)
  {
  }

  lemma EmptyWindow(t: Table, cols: int, rows: seq<seq<Value>>, start: int)
    requires t.cols == cols && t.rows == [] && 0 <= start
    ensures Window(t, cols, rows, start, 0)
  {
  }

  ghost predicate Cleared(b: SharedBlock)
    reads b, b.data
    requires b.Valid()
  {
    b.View().rows == [] && b.Used() == FIRST_FREE && b.lay.groups == [HEADER]
  }

  /** The block is filled by the first `k` rows and nothing else. */
  ghost predicate Tight(b: SharedBlock, rows: seq<seq<Value>>, k: nat)
    reads b, b.data
    requires b.Valid() && k <= |rows|
  {
    b.Used() == UsedBy(rows, k) && |b.lay.groups| == Groups(k)
  }

  lemma ClearedIsTight(b: SharedBlock, rows: seq<seq<Value>>)
    requires b.Valid() && Cleared(b)
    ensures Tight(b, rows, 0)
  {
  }

  lemma GroupsGrow(k: nat)
    ensures GroupsAfter(k, Groups(k)) == Groups(k + 1)
  {
  }

  lemma ClearedFits(b: SharedBlock, row: seq<Value>)
    requires b.Valid() && Cleared(b) && b.View().cols == |row|
    ensures (b.Fits() && CellsFit(b.data.Length,
      Align(AfterGroup(b.Used(), |b.View().rows|, |b.lay.groups|)) + 12 * |row|, row)) <==> FitsEmpty(b.data.Length, row)
  {
    hide Whole, TableOf;
  }

  /** One attempt to put the next row of the window into the block. */
  method TryRow(b: SharedBlock, row: seq<Value>, ghost rows: seq<seq<Value>>, ghost start: nat, k: nat) returns (r: FillResult)
    requires b.Valid() && !b.readOnly && |row| >= 1 && Window(b.View(), |row|, rows, start, k)
    requires start + k < |rows| && rows[start + k] == row
    modifies b, b.data
    ensures b.Valid() && Window(b.View(), |row|, rows, start, if r == Success then k + 1 else k)
    ensures r == Fail ==> !FitsEmpty(b.data.Length, row)
    ensures old(Cleared(b)) ==> (r == Success <==> FitsEmpty(b.data.Length, row))
    ensures old(Tight(b, From(rows, start), k)) ==>
      && (r == Success <==> RowOk(b.data.Length, From(rows, start), k))
      && (r == Success ==> Tight(b, From(rows, start), k + 1))
  {
    hide Whole, TableOf;
    b.Shape();
    if Cleared(b) { ClearedFits(b, row); }
    if FitsEmpty(b.data.Length, row) { FitsStorable(b.data.Length, FIRST_FREE + 12 * |row|, row); }
    GroupsGrow(k);
    hide CellsFit, FitsEmpty, CellsUsed, RowFits, AfterGroup, Groups, GroupsAfter;
    r := FillOneRow(b, row, k);
  }

  method FillRow(info: FillInfo, b: SharedBlock, row: seq<Value>, ghost rows: seq<seq<Value>>)
    requires b.Valid() && !b.readOnly && info.columnNum == |row| >= 1 && |row| <= COL_MAX_NUM
    requires Window(b.View(), |row|, rows, info.startPos, info.addedRows)
    requires info.startPos + info.addedRows < |rows| && rows[info.startPos + info.addedRows] == row
    requires !info.isFull && !info.hasException
    modifies info, b, b.data
    ensures b.Valid() && Window(b.View(), |row|, rows, info.startPos, info.addedRows)
    ensures info.totalRows == old(info.totalRows)
    // Either the row was added, possibly after a restart at this row, or the fill ends with the window as it is.
    ensures info.startPos + info.addedRows ==
      old(info.startPos + info.addedRows) + (if info.isFull || info.hasException then 0 else 1)
    ensures !info.isFull && !info.hasException ==> info.addedRows > 0
    ensures info.startPos == old(info.startPos) || info.startPos == old(info.startPos + info.addedRows) <= info.requiredPos
    ensures FitsEmpty(b.data.Length, row) && (old(info.addedRows) == 0 ==> old(Cleared(b))) ==>
      !info.hasException && (info.isFull ==> info.startPos + info.addedRows > info.requiredPos)
    // The rows from the start on are packed together: the row is added exactly if it fits after them; otherwise the
    // window starts over at it, or the fill ends.
    ensures old(Tight(b, From(rows, info.startPos), info.addedRows)) ==>
      && (RowOk(b.data.Length, From(rows, old(info.startPos)), old(info.addedRows)) <==>
            info.startPos == old(info.startPos) && !info.isFull && !info.hasException)
      && (info.startPos != old(info.startPos) && !info.isFull && !info.hasException ==>
            info.addedRows == 1 && RowOk(b.data.Length, From(rows, info.startPos), 0))
      && (info.startPos != old(info.startPos) && (info.isFull || info.hasException) ==>
            info.addedRows == 0 && !RowOk(b.data.Length, From(rows, info.startPos), 0))
      && (info.startPos != old(info.startPos) ==> old(info.addedRows) > 0)
      && (!info.isFull && !info.hasException ==> Tight(b, From(rows, info.startPos), info.addedRows))
    ensures info.isFull ==> info.addedRows == 0 || info.startPos + info.addedRows > info.requiredPos
  {
    hide Whole, TableOf, Window, RowOk, Tight, FitsEmpty;
    WindowFacts(b.View(), |row|, rows, info.startPos, info.addedRows);
    var r := TryRow(b, row, rows, info.startPos, info.addedRows);
    if r == Full && info.addedRows != 0 && info.startPos + info.addedRows <= info.requiredPos {
      var _ := b.Clear();
      var _ := b.SetColumnNum(info.columnNum);
      info.startPos := info.startPos + info.addedRows;
      info.addedRows := 0;
      EmptyWindow(b.View(), |row|, rows, info.startPos);
      ClearedIsTight(b, From(rows, info.startPos));
      r := TryRow(b, row, rows, info.startPos, info.addedRows);
    }
    if r == Success {
      info.addedRows := info.addedRows + 1;
    } else if r == Full {
      info.isFull := true;
    } else {
      info.hasException := true;
    }
  }

  /** What holds between steps while the block is still being filled. */
  ghost predicate Filling(info: FillInfo, b: SharedBlock, stmt: Statement, start: nat)
    reads info, b, b.data
  {
    && b.Valid() && !b.readOnly && Window(b.View(), info.columnNum, stmt.rows, info.startPos, info.addedRows)
    && info.totalRows <= |stmt.rows|
    && start <= info.startPos && (info.startPos != start ==> info.startPos <= info.requiredPos)
    && (!info.isFull && !info.hasException ==>
          info.startPos + info.addedRows == (if info.startPos < info.totalRows then info.totalRows else info.startPos))
    && (AllFit(b, stmt) ==> !info.hasException)
    && (AllFit(b, stmt) && !info.isFull ==> info.addedRows == 0 ==> Cleared(b))
    && (AllFit(b, stmt) && info.isFull ==> info.startPos + info.addedRows > info.requiredPos)
    && Packing(info, b, stmt, start)
    && (info.isFull ==> info.addedRows == 0 || info.startPos + info.addedRows > info.requiredPos)
  }

  /** The window is on its way to its final start, and its rows fit together; when it is full, the next one does not. */
  ghost predicate Packing(info: FillInfo, b: SharedBlock, stmt: Statement, start: nat)
    reads info`startPos, info`addedRows, info`isFull, info`hasException, b, b.data
  {
    var size, rows := b.data.Length, From(stmt.rows, info.startPos);
    && b.Valid() && FinalStart(size, stmt.rows, info.startPos, info.requiredPos) == FinalStart(size, stmt.rows, start, info.requiredPos)
    && info.addedRows <= |rows| && PrefixOk(size, rows, info.addedRows)
    && if !info.isFull && !info.hasException then Tight(b, rows, info.addedRows)
       else info.addedRows < |rows| && !RowOk(size, rows, info.addedRows)
  }

  ghost predicate AllFit(b: SharedBlock, stmt: Statement) {
    forall row | row in stmt.rows :: FitsEmpty(b.data.Length, row)
  }

  /** Handle one result row: skip it, count it, or put it into the window. */
  method TakeRow(info: FillInfo, b: SharedBlock, stmt: Statement, ghost start: nat)
    requires Filling(info, b, stmt, start) && stmt.pos == info.totalRows + 1 <= |stmt.rows| && !info.hasException
    requires forall row | row in stmt.rows :: |row| == info.columnNum >= 1
    modifies info, b, b.data
    ensures Filling(info, b, stmt, start) && info.totalRows == stmt.pos <= |stmt.rows|
    ensures old(info.isFull) ==> info.isFull && !info.hasException
    ensures !old(info.isFull) && info.isFull ==> info.totalRows == info.startPos + info.addedRows + 1
  {
    hide Whole, TableOf, Cleared, FitsEmpty, Packing, Window;
    info.totalRows := info.totalRows + 1;
    if info.startPos >= info.totalRows || info.isFull { return; }
    assert stmt.rows[stmt.pos - 1] in stmt.rows;
    b.Shape();
    PackRow(info, b, stmt, start);
  }

  /** The row goes into the window, which stays on its way to its final start. */
  method PackRow(info: FillInfo, b: SharedBlock, stmt: Statement, ghost start: nat)
    requires b.Valid() && !b.readOnly && Window(b.View(), info.columnNum, stmt.rows, info.startPos, info.addedRows)
    requires forall row | row in stmt.rows :: |row| == info.columnNum >= 1
    requires info.startPos + info.addedRows == stmt.pos - 1 < |stmt.rows| && !info.isFull && !info.hasException
    requires Packing(info, b, stmt, start)
    modifies info, b, b.data
    ensures b.Valid() && Window(b.View(), info.columnNum, stmt.rows, info.startPos, info.addedRows)
    ensures info.totalRows == old(info.totalRows)
    ensures info.startPos + info.addedRows ==
      old(info.startPos + info.addedRows) + (if info.isFull || info.hasException then 0 else 1)
    ensures !info.isFull && !info.hasException ==> info.addedRows > 0
    ensures info.startPos == old(info.startPos) || info.startPos == old(info.startPos + info.addedRows) <= info.requiredPos
    ensures FitsEmpty(b.data.Length, stmt.rows[stmt.pos - 1]) && (old(info.addedRows) == 0 ==> old(Cleared(b))) ==>
      !info.hasException && (info.isFull ==> info.startPos + info.addedRows > info.requiredPos)
    ensures Packing(info, b, stmt, start) && (info.isFull ==> info.addedRows == 0 || info.startPos + info.addedRows > info.requiredPos)
  {
    hide Whole, TableOf, Cleared, RowOk, Tight, FinalStart, FitsEmpty, Window, PrefixOk, Together, Packing;
    assert stmt.rows[stmt.pos - 1] in stmt.rows;
    b.Shape();
    WindowFacts(b.View(), info.columnNum, stmt.rows, info.startPos, info.addedRows);
    ghost var s, k := info.startPos, info.addedRows;
    Unpacked(info, b, stmt, start);
    FillRow(info, b, stmt.rows[stmt.pos - 1], stmt.rows);
    Repacked(info, b, stmt, start, s, k);
  }

  lemma Unpacked(info: FillInfo, b: SharedBlock, stmt: Statement, start: nat)
    requires Packing(info, b, stmt, start) && !info.isFull && !info.hasException
    ensures Packed(info.requiredPos, b.data.Length, stmt.rows, start, info.startPos, info.addedRows)
    ensures b.Valid() && Tight(b, From(stmt.rows, info.startPos), info.addedRows)
  {
  }

  ghost predicate Packed(requiredPos: int, size: int, rows: seq<seq<Value>>, start: nat, s: nat, k: nat) {
    && FinalStart(size, rows, s, requiredPos) == FinalStart(size, rows, start, requiredPos)
    && k <= |From(rows, s)| && PrefixOk(size, From(rows, s), k)
  }

  /** After a row was tried with the window at `s` holding `k` rows. */
  lemma Repacked(info: FillInfo, b: SharedBlock, stmt: Statement, start: nat, s: nat, k: nat)
    requires b.Valid() && Packed(info.requiredPos, b.data.Length, stmt.rows, start, s, k) && k < |From(stmt.rows, s)|
    requires info.startPos == s || info.startPos == s + k <= info.requiredPos
    requires info.startPos + info.addedRows == s + k + (if info.isFull || info.hasException then 0 else 1)
    requires RowOk(b.data.Length, From(stmt.rows, s), k) <==> info.startPos == s && !info.isFull && !info.hasException
    requires info.startPos != s ==> k > 0 && (RowOk(b.data.Length, From(stmt.rows, info.startPos), 0) <==> !info.isFull && !info.hasException)
    requires !info.isFull && !info.hasException ==> info.addedRows <= |From(stmt.rows, info.startPos)| && Tight(b, From(stmt.rows, info.startPos), info.addedRows)
    ensures Packing(info, b, stmt, start)
  {
    hide RowOk, Tight, FinalStart, PrefixOk, Together, Whole, TableOf;
    var size, rows := b.data.Length, From(stmt.rows, s);
    if RowOk(size, rows, k) {
      PrefixGrows(size, rows, k);
    } else if info.startPos != s {
      FinalStartRestarts(size, stmt.rows, s, k, info.requiredPos);
      FirstPrefix(size, From(stmt.rows, info.startPos));
    }
  }

  lemma FirstPrefix(size: int, rows: seq<seq<Value>>)
    ensures PrefixOk(size, rows, 0) && (rows != [] && RowOk(size, rows, 0) ==> PrefixOk(size, rows, 1))
  {
  }

  /** The window has come to rest at its final start, and holds the rows from there on that fit together. */
  ghost predicate Final(info: FillInfo, b: SharedBlock, stmt: Statement, start: nat)
    reads info
  {
    && info.startPos == FinalStart(b.data.Length, stmt.rows, start, info.requiredPos)
    && info.addedRows == Together(b.data.Length, From(stmt.rows, info.startPos))
  }

  /** Fill a freshly cleared block; `failed` is the loop's own exception flag. */
  method FillSharedBlock(info: FillInfo, b: SharedBlock, stmt: Statement) returns (failed: bool)
    requires b.Valid() && !b.readOnly && Cleared(b) && b.View().cols == info.columnNum
    requires !info.isFull && !info.hasException && stmt.pos == 0
    requires forall row | row in stmt.rows :: |row| == info.columnNum >= 1
    modifies info, b, b.data, stmt
    ensures b.Valid() && Window(b.View(), info.columnNum, stmt.rows, info.startPos, info.addedRows)
    ensures info.totalRows == stmt.pos <= |stmt.rows| && old(stmt.calls) <= stmt.calls
    ensures old(info.startPos) <= info.startPos && (info.startPos != old(info.startPos) ==> info.startPos <= info.requiredPos)
    // All rows are counted if asked for, otherwise up to the first that did not fit.
    ensures !failed && (info.isCountAllRows || !info.isFull) ==> info.totalRows == |stmt.rows|
    ensures !failed && !info.isCountAllRows && info.isFull ==> info.totalRows == info.startPos + info.addedRows + 1
    ensures !failed && !info.isFull && info.startPos < |stmt.rows| ==> info.startPos + info.addedRows == |stmt.rows|
    ensures failed ==> !AllFit(b, stmt) || Disturbed(stmt.interrupts, old(stmt.calls), stmt.calls)
    ensures Disturbed(stmt.interrupts, old(stmt.calls), stmt.calls) ==> failed
    // The window is exactly the rows that fit together from its final start on.
    ensures !failed ==> Final(info, b, stmt, old(info.startPos))
    // From the first row on, the block holds the whole result exactly if it fits.
    ensures old(info.startPos) == 0 && !failed ==>
      (info.startPos == 0 && info.addedRows == info.totalRows == |stmt.rows| <==> WholeFits(b.data.Length, stmt.rows))
    ensures old(info.startPos) == 0 && failed ==>
      !WholeFits(b.data.Length, stmt.rows) || Disturbed(stmt.interrupts, old(stmt.calls), stmt.calls)
    ensures !failed && AllFit(b, stmt) && old(info.startPos) <= info.requiredPos < |stmt.rows| ==>
      info.startPos <= info.requiredPos < info.startPos + info.addedRows
    // From the first row on, the window stays at the first row exactly if the rows up to the required one fit.
    ensures old(info.startPos) == 0 && !failed && AllFit(b, stmt) ==>
      (info.startPos == 0 <==> PrefixOk(b.data.Length, stmt.rows, info.requiredPos + 1))
    ensures old(info.startPos) == 0 && info.startPos == 0 ==> PrefixOk(b.data.Length, stmt.rows, info.addedRows)
  {
    hide Whole, TableOf, Filling, FinalStart, Together, PrefixOk, Window, AllFit, WholeFits, Cleared;
    var retryCount := 0;
    info.totalRows, info.addedRows := 0, 0;
    var isFull := false;
    failed := false;
    FillingStarts(info, b, stmt);
    while !failed && (!isFull || info.isCountAllRows)
      invariant Filling(info, b, stmt, old(info.startPos)) && info.totalRows == stmt.pos <= |stmt.rows|
      invariant isFull == info.isFull && (info.hasException ==> failed)
      invariant isFull && !info.isCountAllRows ==> info.totalRows == info.startPos + info.addedRows + 1
      invariant 0 <= retryCount <= RETRY_TIME + 1
      invariant old(stmt.calls) + retryCount <= stmt.calls
      invariant !failed ==> BusyRun(stmt.interrupts, stmt.calls - retryCount, stmt.calls)
      invariant !failed ==> Calm(stmt.interrupts, old(stmt.calls), stmt.calls, retryCount)
      invariant failed ==> info.hasException || Disturbed(stmt.interrupts, old(stmt.calls), stmt.calls)
      decreases |stmt.rows| - stmt.pos, RETRY_TIME + 1 - retryCount, !failed
    {
      var err := stmt.Step();
      CalmStep(stmt.interrupts, old(stmt.calls), stmt.calls - 1, retryCount);
      if err == RowReady {
        retryCount := 0;
        TakeRow(info, b, stmt, old(info.startPos));
        isFull := info.isFull;
        failed := info.hasException;
      } else if err == Done {
        break;
      } else if err == LockedCode || err == BusyCode {
        if retryCount > RETRY_TIME {
          assert BusyTooLong(stmt.interrupts, old(stmt.calls), stmt.calls - RETRY_TIME - 2, stmt.calls);
          failed := true;
        } else {
          retryCount := retryCount + 1;
        }
      } else {
        assert stmt.interrupts(stmt.calls - 1) == Fault;
        failed := true;
      }
    }
    FillingEnds(info, b, stmt, old(info.startPos));
    if old(info.startPos) == 0 { FillingFromFirst(info, b, stmt); }
  }

  /** Nothing has disturbed the steps so far, and the busy or locked ones at their end are the last `retryCount`. */
  ghost predicate Calm(interrupts: nat -> Interrupt, from: nat, to: nat, retryCount: int) {
    && 0 <= retryCount <= to - from && !Disturbed(interrupts, from, to)
    && (from < to - retryCount ==> interrupts(to - retryCount - 1) == Proceed)
  }

  lemma CalmStep(interrupts: nat -> Interrupt, from: nat, to: nat, retryCount: int)
    requires Calm(interrupts, from, to, retryCount) && retryCount <= RETRY_TIME + 1
    ensures interrupts(to) == Proceed ==> Calm(interrupts, from, to + 1, 0)
    ensures interrupts(to) in {Busy, Locked} && retryCount <= RETRY_TIME ==> Calm(interrupts, from, to + 1, retryCount + 1)
  {
    if interrupts(to) == Proceed || (interrupts(to) in {Busy, Locked} && retryCount <= RETRY_TIME) {
      assert forall k: nat | from <= k < to :: interrupts(k) != Fault;
      var last, next := if interrupts(to) == Proceed then to else to - retryCount - 1, to + 1;
      forall k: nat ensures !BusyTooLong(interrupts, from, k, next) {
        assert !BusyTooLong(interrupts, from, k, to);
        assert from <= k && k + RETRY_TIME + 2 == next ==> k <= last && interrupts(last) == Proceed;
      }
    }
  }

  lemma FillingStarts(info: FillInfo, b: SharedBlock, stmt: Statement)
    requires b.Valid() && !b.readOnly && Cleared(b) && b.View().cols == info.columnNum
    requires !info.isFull && !info.hasException && info.addedRows == info.totalRows == 0
    ensures Filling(info, b, stmt, info.startPos)
  {
    hide Whole, TableOf, FinalStart, RowOk;
  }

  /** What a fill leaves behind, when it ends without exception at the end of the result or at a full block. */
  lemma FillingEnds(info: FillInfo, b: SharedBlock, stmt: Statement, start: nat)
    requires Filling(info, b, stmt, start)
    ensures b.Valid() && Window(b.View(), info.columnNum, stmt.rows, info.startPos, info.addedRows)
    ensures info.totalRows <= |stmt.rows|
    ensures start <= info.startPos && (info.startPos != start ==> info.startPos <= info.requiredPos)
    ensures AllFit(b, stmt) ==> !info.hasException
    ensures !info.hasException && (info.isFull || info.totalRows == |stmt.rows|) ==>
      && Final(info, b, stmt, start)
      && (!info.isFull && info.startPos < |stmt.rows| ==> info.startPos + info.addedRows == |stmt.rows|)
      && (AllFit(b, stmt) && start <= info.requiredPos < |stmt.rows| ==>
            info.startPos <= info.requiredPos < info.startPos + info.addedRows)
  {
    hide Whole, TableOf, Window, RowOk, Cleared, Tight, FitsEmpty;
  }

  /** The same of a fill from the first row on. */
  lemma FillingFromFirst(info: FillInfo, b: SharedBlock, stmt: Statement)
    requires Filling(info, b, stmt, 0)
    ensures info.startPos == 0 ==> PrefixOk(b.data.Length, stmt.rows, info.addedRows)
    ensures info.hasException ==> !WholeFits(b.data.Length, stmt.rows)
    ensures !info.hasException && (info.isFull || info.totalRows == |stmt.rows|) ==>
      && (info.startPos == 0 && info.addedRows == |stmt.rows| <==> WholeFits(b.data.Length, stmt.rows))
      && (info.isFull ==> !WholeFits(b.data.Length, stmt.rows))
      && (AllFit(b, stmt) ==> (info.startPos == 0 <==> PrefixOk(b.data.Length, stmt.rows, info.requiredPos + 1)))
  {
    hide Whole, TableOf, Window, RowOk, Cleared, Tight, FinalStart;
    FillingEnds(info, b, stmt, 0);
    assert From(stmt.rows, 0) == stmt.rows;
    if stmt.rows != [] && AllFit(b, stmt) {
      FirstRowIsOk(b.data.Length, stmt.rows);
      FinalStartStays(b.data.Length, stmt.rows, 0, info.requiredPos);
    }
    FinalStartOfWhole(b.data.Length, stmt.rows, info.requiredPos);
  }

  lemma FirstRowIsOk(size: int, rows: seq<seq<Value>>)
    requires rows != [] && FitsEmpty(size, rows[0])
    ensures RowOk(size, rows, 0)
  {
  }

  /** A result that fits is never left: the window stays at its first row. */
  lemma FinalStartOfWhole(size: int, rows: seq<seq<Value>>, requiredPos: int)
    ensures WholeFits(size, rows) ==> FinalStart(size, rows, 0, requiredPos) == 0 && Together(size, rows) == |rows|
  {
    hide RowOk;
    assert From(rows, 0) == rows;
  }
}
