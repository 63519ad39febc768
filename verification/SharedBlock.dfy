/** The shared block: a bump allocator in one byte buffer that behaves as a bounded table. */
module SharedBlocks {
  import opened Memory
  import opened BlockLayout
  import opened BlockRows
  import opened BlockSteps

  predicate InTable(t: Table, row: int, column: int) { 0 <= row < |t.rows| && 0 <= column < t.cols }

  /** What a Put call answers and what it leaves behind. */
  ghost predicate Put(size: int, readOnly: bool, t: Table, used: int, row: int, column: int, v: Cell,
                      s: Status, t': Table, used': int)
  {
    && s == (if readOnly then InvalidOperation
             else if !InTable(t, row, column) then BadValue
             else if !CellFits(size, used, v) then NoMemory else Ok)
    && (s != Ok ==> t' == t && used' == used)
    && (s == Ok ==> |t.rows[row]| == t.cols && t' == Table(t.cols, SetCell(t.rows, row, column, v))
                    && used' == AfterCell(used, v))
  }

  class SharedBlock {
    const data: array<Byte>
    const readOnly: bool
    ghost var lay: Layout

    constructor (size: nat, isReadOnly: bool)
      requires FIRST_FREE <= size <= 0xFFFF_FFFC
      ensures Sized() && fresh(data) && data.Length == size && readOnly == isReadOnly
    {
      data := new Byte[size](_ => 0);
      readOnly := isReadOnly;
      lay := Layout([], []);
    }

    ghost predicate Sized() { FIRST_FREE <= data.Length <= 0xFFFF_FFFC }

    ghost predicate Valid()
      reads this, data
    {
      Sized() && Whole(data[..], lay)
    }

    ghost function View(): Table
      reads this, data
      requires Valid()
    {
      TableOf(data[..], lay)
    }

    ghost function Used(): int
      reads data
      requires Sized()
    {
      WordAt(data[..], 0)
    }

    ghost predicate Fits()
      reads this, data
      requires Valid()
    {
      RowFits(data.Length, Used(), |View().rows|, |lay.groups|, View().cols)
    }

    /** Row numbers fit the 32-bit header field, and every row is as wide as the table. */
    lemma Shape()
      requires Valid()
      ensures |View().rows| <= 100 * |lay.groups| < 0xFFFF_FFFC && 0 <= View().cols <= COL_MAX_NUM
      ensures forall r | 0 <= r < |View().rows| :: |View().rows[r]| == View().cols
      ensures FIRST_FREE <= Used() <= data.Length
    {
      hide WordAt, Sound;
      GroupsBound(data[..], lay);
    }

    method Clear() returns (s: Status)
      requires Sized()
      modifies this, data
      ensures readOnly ==> s == InvalidOperation && data[..] == old(data[..]) && lay == old(lay)
      ensures !readOnly ==> s == Ok && Valid() && View() == Table(0, []) && Used() == FIRST_FREE && lay.groups == [HEADER]
    {
      hide Whole, WordAt, PutWord, TableOf, SameOutside;
      if readOnly { return InvalidOperation; }
      StoreWord(data, UNUSED, FIRST_FREE);
      ghost var m1 := data[..];
      StoreWord(data, FIRST_GROUP, HEADER);
      ghost var m2 := data[..];
      StoreWord(data, ROW_NUMS, 0);
      ghost var m3 := data[..];
      StoreWord(data, COLUMN_NUMS, 0);
      ghost var m4 := data[..];
      StoreWord(data, HEADER + 400, 0);
      lay := Layout([HEADER], []);
      FiveWrites(m1, m2, m3, m4, data[..]);
      ClearedIsEmpty(data[..]);
      s := Ok;
    }

    method SetColumnNum(n: Word) returns (s: Status)
      requires Valid()
      modifies data
      ensures Valid() && Used() == old(Used())
      ensures s == Ok <==> !readOnly && n <= COL_MAX_NUM && (old(View()).cols == n || old(View()) == Table(0, []))
      ensures s == Ok ==> View() == Table(n, old(View()).rows)
      ensures s != Ok ==> s == InvalidOperation && View() == old(View())
    {
      hide Good, WordAt, PutWord, Contents;
      if readOnly { return InvalidOperation; }
      ghost var m := data[..];
      GoodFacts(m, lay);
      var cur := LoadWord(data, COLUMN_NUMS);
      var rows := LoadWord(data, ROW_NUMS);
      if (cur > 0 || rows > 0) && cur != n { return InvalidOperation; }
      if n > COL_MAX_NUM { return InvalidOperation; }
      StoreWord(data, COLUMN_NUMS, n);
      ColumnsStep(m, lay, n);
      s := Ok;
    }

    method FreeLastRow() returns (s: Status)
      requires Valid()
      modifies this, data
      ensures Valid() && Used() == old(Used()) && lay.groups == old(lay.groups)
      ensures readOnly ==> s == InvalidOperation && View() == old(View())
      ensures !readOnly ==> s == Ok && View() == WithoutLast(old(View()))
    {
      hide Good, WordAt, PutWord, Contents;
      if readOnly { return InvalidOperation; }
      ghost var m := data[..];
      GoodFacts(m, lay);
      var rows := LoadWord(data, ROW_NUMS);
      if rows > 0 {
        StoreWord(data, ROW_NUMS, rows - 1);
        RowNumsStep(m, lay, rows - 1);
        if lay.dirs != [] {
          DropStep(data[..], lay);
          lay := lay.(dirs := lay.dirs[..|lay.dirs| - 1]);
        }
      }
      s := Ok;
    }

    /** Bump allocation; 0 when the block is full. */
    method Alloc(size: nat, aligned: bool) returns (offset: Word)
      requires Sized() && Good(data[..], lay)
      modifies data
      ensures var o := if aligned then Align(old(Used())) else old(Used());
        if o + size > data.Length then offset == 0 && data[..] == old(data[..])
        else offset == o && data[..] == PutWord(old(data[..]), 0, o + size)
    {
      hide Good, WordAt, PutWord;
      GoodFacts(data[..], lay);
      var unused := LoadWord(data, UNUSED);
      var padding := if aligned then (4 - unused % 4) % 4 else 0;
      if unused + padding + size > data.Length { return 0; }
      offset := unused + padding;
      StoreWord(data, UNUSED, offset + size);
    }

    /** Walk the chain with `>=`: the slot of an existing row. */
    method GetRowOffset(row: Word) returns (slot: int)
      requires Sized() && Good(data[..], lay) && row < 100 * |lay.groups|
      ensures slot == Slot(lay.groups, row)
    {
      hide Good, WordAt;
      GoodFacts(data[..], lay);
      var rowPos: int := row;
      var group: int := LoadWord(data, FIRST_GROUP);
      ghost var k := 0;
      while rowPos >= 100
        invariant 0 <= rowPos && rowPos + 100 * k == row
        invariant 0 <= k < |lay.groups| && group == lay.groups[k]
      {
        GroupFacts(data[..], lay, k);
        group := LoadWord(data, group + 400);
        rowPos := rowPos - 100;
        k := k + 1;
      }
      slot := group + 4 * rowPos;
    }

    /** The group behind `group`, allocated if there is none; its own link is cleared. 0 when full. */
    method NextGroup(group: int, ghost k: int) returns (next: int)
      requires Sized() && Good(data[..], lay) && 0 <= k < |lay.groups| && group == lay.groups[k]
      requires |lay.dirs| <= 100 * (k + 1)
      modifies this, data
      ensures lay.dirs == old(lay.dirs) && Keeps(old(data[..]), old(lay), data[..], lay, 0)
      ensures next == 0 <==> k + 1 == old(|lay.groups|) && Align(old(Used())) + 404 > data.Length
      ensures next == 0 ==> lay == old(lay) && Used() == old(Used())
      ensures next != 0 ==>
        && lay.groups == old(lay.groups)[..k + 1] + [next]
        && Used() == if k + 1 == old(|lay.groups|) then Align(old(Used())) + 404 else old(Used())
    {
      hide Good, WordAt, PutWord, Contents;
      ghost var m, groups := data[..], lay.groups;
      GoodFacts(m, lay);
      GroupFacts(m, lay, k);
      next := LoadWord(data, group + 400);
      if next == 0 {
        next := Alloc(404, true);
        StoreWord(data, group + 400, next);
        if next == 0 {
          CutStep(m, lay, k);
          assert groups[..k + 1] == groups;
          return 0;
        }
        LinkStep(m, lay, next, group);
        StoreWord(data, next + 400, 0);
        lay := lay.(groups := groups + [next]);
      } else {
        GroupFacts(m, lay, k + 1);
        CutStep(m, lay, k + 1);
        StoreWord(data, next + 400, 0);
        lay := lay.(groups := groups[..k + 2]);
      }
    }

    /** Walk the chain with `>`, adding a group at a boundary: the slot of a new row, 0 when full. */
    method AllocRowOffset() returns (slot: int)
      requires Valid()
      modifies this, data
      ensures lay.dirs == old(lay.dirs) && Good(data[..], lay)
      ensures Contents(data[..], lay) == old(Contents(data[..], lay)) && WordAt(data[..], 12) == old(WordAt(data[..], 12))
      ensures slot == 0 <==> old(AfterGroup(Used(), WordAt(data[..], 8), |lay.groups|)) > data.Length
      ensures slot == 0 ==> lay == old(lay) && Used() == old(Used()) && WordAt(data[..], 8) == old(WordAt(data[..], 8))
      ensures slot != 0 ==>
        && WordAt(data[..], 8) == old(WordAt(data[..], 8)) + 1 <= 100 * |lay.groups|
        && slot == Slot(lay.groups, old(WordAt(data[..], 8)))
        && Used() == old(AfterGroup(Used(), WordAt(data[..], 8), |lay.groups|))
        && |lay.groups| == GroupsAfter(old(WordAt(data[..], 8)), |old(lay.groups)|)
      ensures KeepsSlots(old(lay.groups), lay.groups, old(WordAt(data[..], 8)))
    {
      hide Good, WordAt, PutWord, Contents;
      ghost var groups, m := lay.groups, data[..];
      GoodFacts(m, lay);
      var rows := LoadWord(data, ROW_NUMS);
      var rowPos: int := rows;
      var group: int := LoadWord(data, FIRST_GROUP);
      ghost var k := 0;
      while rowPos > 100
        invariant 0 <= rowPos && rowPos + 100 * k == rows && (k > 0 ==> rowPos > 0)
        invariant 0 <= k < |groups| && group == groups[k]
        invariant data[..] == m && lay == old(lay)
      {
        GroupFacts(m, lay, k);
        group := LoadWord(data, group + 400);
        rowPos := rowPos - 100;
        k := k + 1;
      }
      if rowPos == 100 {
        group := NextGroup(group, k);
        if group == 0 { return 0; }
        rowPos := 0;
        k := k + 1;
      }
      GoodFacts(data[..], lay);
      RowNumsStep(data[..], lay, rows + 1);
      StoreWord(data, ROW_NUMS, rows + 1);
      slot := group + 4 * rowPos;
      GoodFacts(data[..], lay);
      GroupFacts(data[..], lay, k);
    }

    method AllocRow() returns (s: Status)
      requires Valid()
      modifies this, data
      ensures Valid() && View().cols == old(View()).cols
      ensures readOnly ==> s == InvalidOperation && View() == old(View()) && Used() == old(Used()) && lay == old(lay)
      ensures s == Ok <==> !readOnly && old(View()).cols > 0 && old(Fits())
      ensures s == Ok ==> View().rows == old(View()).rows + [NullRow(View().cols)]
      ensures s == Ok ==> Used() == Align(old(AfterGroup(Used(), |View().rows|, |lay.groups|))) + 12 * View().cols
      ensures s == Ok ==> |lay.groups| == GroupsAfter(|old(View()).rows|, |old(lay.groups)|)
      ensures !readOnly ==>
        (s, Used(), |lay.groups|) == RowOutcome(data.Length, old(Used()), |old(View()).rows|, |old(lay.groups)|, View().cols)
      // A failed call leaves the table unchanged, except that with no columns the row count was already raised.
      ensures s != Ok && !readOnly ==>
        View().rows == (if old(View()).cols == 0 && old(Fits()) then old(View()).rows + [[]] else old(View()).rows)
      ensures KeepsSlots(old(lay.groups), lay.groups, |old(View()).rows|)
    {
      hide Good, WordAt, Contents, Slot;
      GoodFacts(data[..], lay);
      if readOnly { return InvalidOperation; }
      var slot := AllocRowOffset();
      if slot == 0 { return NoMemory; }
      s := AllocDirectory(slot);
    }

    /** The directory of the row whose slot was just allocated, entered in that slot. */
    method AllocDirectory(slot: int) returns (s: Status)
      requires Sized() && Good(data[..], lay)
      requires 1 <= WordAt(data[..], 8) <= 100 * |lay.groups| && slot == Slot(lay.groups, WordAt(data[..], 8) - 1)
      requires |lay.dirs| == if WordAt(data[..], 12) == 0 then 0 else WordAt(data[..], 8) - 1
      modifies this, data
      ensures Valid() && lay.groups == old(lay.groups) && View().cols == old(WordAt(data[..], 12))
      ensures (s, Used()) == DirectoryOutcome(data.Length, old(Used()), View().cols)
      ensures View().cols > 0 ==>
        View().rows == old(Contents(data[..], lay)) + if s == Ok then [NullRow(View().cols)] else []
      ensures View().cols == 0 ==>
        View().rows == seq(if Align(old(Used())) <= data.Length then old(WordAt(data[..], 8)) else old(WordAt(data[..], 8)) - 1, _ => [])
    {
      hide Good, WordAt, PutWord, Contents, Patch, Slot;
      ghost var m := data[..];
      GoodFacts(m, lay);
      var cols := LoadWord(data, COLUMN_NUMS);
      var dir := Alloc(12 * cols, true);
      if dir == 0 {
        LowerRowNum();
        return NoMemory;
      }
      BumpStep(m, lay, dir, 12 * cols);
      if dir >= data.Length { return BadValue; }     // OffsetToPtr
      if cols == 0 { return NoMemory; }              // memset_s refuses an empty destination
      EnterDirectory(m, dir, slot, cols);
      s := Ok;
    }

    /** Take back the row whose directory could not be allocated. */
    method LowerRowNum()
      requires Sized() && Good(data[..], lay) && 1 <= WordAt(data[..], 8) <= 100 * |lay.groups|
      requires |lay.dirs| == if WordAt(data[..], 12) == 0 then 0 else WordAt(data[..], 8) - 1
      modifies data
      ensures Valid() && Used() == old(Used()) && View().cols == old(WordAt(data[..], 12))
      ensures View().rows == if View().cols == 0 then seq(old(WordAt(data[..], 8)) - 1, _ => []) else old(Contents(data[..], lay))
    {
      hide Good, WordAt, PutWord, Contents;
      ghost var m := data[..];
      GoodFacts(m, lay);
      var rows := LoadWord(data, ROW_NUMS);
      StoreWord(data, ROW_NUMS, rows - 1);
      RowNumsStep(m, lay, rows - 1);
    }

    /** Clear the allocated directory and enter it in its slot; `m` is the memory before the allocation. */
    method EnterDirectory(ghost m: Mem, dir: Word, slot: int, cols: Word)
      requires Sized() && |m| == data.Length && Good(m, lay) && cols == WordAt(m, 12) > 0
      requires WordAt(m, 0) <= dir && dir + 12 * cols <= |m| && data[..] == PutWord(m, 0, dir + 12 * cols)
      requires |lay.dirs| + 1 == WordAt(m, 8) <= 100 * |lay.groups| && slot == Slot(lay.groups, |lay.dirs|)
      modifies this, data
      ensures Valid() && lay.groups == old(lay.groups) && Used() == dir + 12 * cols
      ensures View() == Table(cols, Contents(m, old(lay)) + [NullRow(cols)])
    {
      hide Good, WordAt, PutWord, Contents, Patch, Slot;
      EnterStep(m, lay, dir, slot);
      CopyIn(data, dir, Zeros(12 * cols));
      StoreWord(data, slot, dir);
      lay := lay.(dirs := lay.dirs + [dir]);
    }

    method GetRowNum() returns (n: Word)
      requires Valid()
      ensures n == |View().rows|
    {
      hide Good, WordAt, Contents;
      GoodFacts(data[..], lay);
      n := LoadWord(data, ROW_NUMS);
    }

    /** The offset of a cell unit, 0 when the table has no such cell. */
    method GetCellUnit(row: Word, column: Word) returns (p: int)
      requires Valid()
      ensures p != 0 <==> InTable(View(), row, column)
      ensures p != 0 ==> row < |lay.dirs| && p == At(lay.dirs, row, column)
      ensures p != 0 ==> FIRST_FREE <= p && p + 12 <= Used() <= data.Length
    {
      hide Good, WordAt, Contents;
      GoodFacts(data[..], lay);
      var rows := LoadWord(data, ROW_NUMS);
      var cols := LoadWord(data, COLUMN_NUMS);
      if row >= rows || column >= cols { return 0; }
      CellBounds(data[..], lay, row, column);
      var slot := GetRowOffset(row);
      var dir := LoadWord(data, slot);
      if dir >= data.Length { return 0; }            // OffsetToPtr
      p := dir + 12 * column;
    }

    method PutUnitAt(p: int, kind: Word, lo: Word, hi: Word)
      requires 0 <= p && p + 12 <= data.Length
      modifies data
      ensures data[..] == PutUnit(old(data[..]), p, kind, lo, hi)
    {
      StoreWord(data, p, kind);
      StoreWord(data, p + 4, lo);
      StoreWord(data, p + 8, hi);
    }

    method PutBlobOrString(row: Word, column: Word, v: Cell) returns (s: Status)
      requires Valid() && (v.Text? || v.Blob?)
      modifies data
      ensures Valid() && Put(data.Length, readOnly, old(View()), old(Used()), row, column, v, s, View(), Used())
    {
      hide Good, WordAt, PutWord, Contents, Patch, PutUnit;
      if readOnly { return InvalidOperation; }
      var p := GetCellUnit(row, column);
      if p == 0 { return BadValue; }
      ghost var m := data[..];
      GoodFacts(m, lay);
      var offset := Alloc(|v.bytes|, false);
      if offset == 0 { return NoMemory; }
      BumpStep(m, lay, offset, |v.bytes|);
      if offset >= data.Length { return NoMemory; }  // OffsetToPtr
      PayloadStep(m, lay, row, column, v, offset);
      CopyIn(data, offset, v.bytes);
      PutUnitAt(p, if v.Text? then 3 else 4, offset, |v.bytes|);
      s := Ok;
    }

    method PutLong(row: Word, column: Word, value: Long) returns (s: Status)
      requires Valid()
      modifies data
      ensures Valid() && Put(data.Length, readOnly, old(View()), old(Used()), row, column, Integer(value), s, View(), Used())
    {
      LongRoundTrip(value);
      s := PutScalar(row, column, 1, Low(ToBits(value)), High(ToBits(value)), Integer(value));
    }

    method PutDouble(row: Word, column: Word, bits: Bits64) returns (s: Status)
      requires Valid()
      modifies data
      ensures Valid() && Put(data.Length, readOnly, old(View()), old(Used()), row, column, Float(bits), s, View(), Used())
    {
      s := PutScalar(row, column, 2, Low(bits), High(bits), Float(bits));
    }

    method PutNull(row: Word, column: Word) returns (s: Status)
      requires Valid()
      modifies data
      ensures Valid() && Put(data.Length, readOnly, old(View()), old(Used()), row, column, Null, s, View(), Used())
    {
      s := PutScalar(row, column, 0, 0, 0, Null);
    }

    /** The common body of PutLong, PutDouble and PutNull. */
    method PutScalar(row: Word, column: Word, kind: Word, lo: Word, hi: Word, ghost v: Cell) returns (s: Status)
      requires Valid()
      requires match kind case 0 => v == Null case 1 => v == Integer(FromBits(Join(lo, hi))) case 2 => v == Float(Join(lo, hi)) case _ => false
      modifies data
      ensures Valid() && Put(data.Length, readOnly, old(View()), old(Used()), row, column, v, s, View(), Used())
    {
      hide Good, WordAt, PutWord, Contents, PutUnit;
      if readOnly { return InvalidOperation; }
      var p := GetCellUnit(row, column);
      if p == 0 { return BadValue; }
      GoodFacts(data[..], lay);
      ScalarStep(data[..], lay, row, column, kind, lo, hi, v);
      PutUnitAt(p, kind, lo, hi);
      s := Ok;
    }

    /** Read a cell back: the unit's words, then the payload they point at. */
    method ReadCell(row: Word, column: Word) returns (found: bool, v: Cell)
      requires Valid()
      ensures found <==> InTable(View(), row, column)
      ensures found ==> |View().rows[row]| == View().cols && v == View().rows[row][column]
    {
      hide Good, WordAt, Contents;
      v := Null;
      var p := GetCellUnit(row, column);
      if p == 0 { return false, v; }
      GoodFacts(data[..], lay);
      ReadFacts(data[..], lay, row, column);
      var kind := LoadWord(data, p);
      var lo := LoadWord(data, p + 4);
      var hi := LoadWord(data, p + 8);
      found := true;
      if kind == 1 {
        v := Integer(FromBits(Join(lo, hi)));
      } else if kind == 2 {
        v := Float(Join(lo, hi));
      } else if kind == 3 || kind == 4 {
        // OffsetToPtr(offset, size), with its 32-bit sum
        if lo < data.Length && (lo + hi) % 0x1_0000_0000 <= data.Length {
          v := if kind == 3 then Text(data[lo..lo + hi]) else Blob(data[lo..lo + hi]);
        }
      }
    }
  }

  // ---------------------------------------------------------------- every operation sequence

  datatype Op =
    | ClearBlock
    | Columns(n: Word)
    | NewRow
    | DropLast
    | PutCell(row: Word, column: Word, v: Cell)

  /** What an operation means for a plain table. */
  function Apply(t: Table, op: Op): Table {
    match op
    case ClearBlock => Table(0, [])
    case Columns(n) => Table(n, t.rows)
    case NewRow => Table(t.cols, t.rows + [NullRow(t.cols)])
    case DropLast => WithoutLast(t)
    case PutCell(r, c, v) =>
      if r < |t.rows| && c < |t.rows[r]| then Table(t.cols, SetCell(t.rows, r, c, v)) else t
  }

  /** The answer, as far as it does not depend on the space left: only new rows, texts and blobs can find the
      block full. */
  predicate Answers(readOnly: bool, t: Table, op: Op, s: Status) {
    if readOnly then s == InvalidOperation
    else
      match op
      case ClearBlock => s == Ok
      case Columns(n) => s == if n <= COL_MAX_NUM && (t.cols == n || t == Table(0, [])) then Ok else InvalidOperation
      case NewRow => t.cols == 0 ==> s != Ok
      case DropLast => s == Ok
      case PutCell(r, c, v) =>
        if !InTable(t, r, c) then s == BadValue else s == Ok || (s == NoMemory && (v.Text? || v.Blob?))
  }

  /** A successful operation acts as on a table; a failed one changes nothing, save the empty row of a
      table without columns. */
  ghost predicate Acts(readOnly: bool, t: Table, op: Op, s: Status, t': Table) {
    && Answers(readOnly, t, op, s)
    && if s == Ok then t' == Apply(t, op)
       else t' == t || (op == NewRow && !readOnly && t.cols == 0 && t' == Table(0, t.rows + [[]]))
  }

  /** A bounded table: the table, how far the block is used, and how many groups it has. */
  datatype Level = Level(t: Table, used: int, groups: int)

  /** Answer and effect of an operation on a block of `size` bytes. */
  function Effect(size: int, readOnly: bool, l: Level, op: Op): (Status, Level) {
    if readOnly then (InvalidOperation, l)
    else
      var t := l.t;
      match op
      case ClearBlock => (Ok, Level(Table(0, []), FIRST_FREE, 1))
      case Columns(n) =>
        if n <= COL_MAX_NUM && (t.cols == n || t == Table(0, [])) then (Ok, l.(t := Table(n, t.rows))) else (InvalidOperation, l)
      case NewRow =>
        var (s, used, groups) := RowOutcome(size, l.used, |t.rows|, l.groups, t.cols);
        var more := if s == Ok || (t.cols == 0 && RowFits(size, l.used, |t.rows|, l.groups, 0)) then [NullRow(t.cols)] else [];
        (s, Level(Table(t.cols, t.rows + more), used, groups))
      case DropLast => (Ok, l.(t := WithoutLast(t)))
      case PutCell(r, c, v) =>
        if !InTable(t, r, c) || c >= |t.rows[r]| then (BadValue, l)
        else if !CellFits(size, l.used, v) then (NoMemory, l)
        else (Ok, l.(t := Table(t.cols, SetCell(t.rows, r, c, v)), used := AfterCell(l.used, v)))
  }

  ghost function LevelOf(b: SharedBlock): Level
    reads b, b.data
    requires b.Valid()
  {
    Level(b.View(), b.Used(), |b.lay.groups|)
  }

  /** The effect on the table alone: a successful operation acts as on a plain table. */
  lemma EffectActs(size: int, readOnly: bool, l: Level, op: Op)
    requires forall r | 0 <= r < |l.t.rows| :: |l.t.rows[r]| == l.t.cols
    ensures var (s, l') := Effect(size, readOnly, l, op); Acts(readOnly, l.t, op, s, l'.t)
  {
    if op == NewRow && l.t.cols == 0 { assert NullRow(0) == []; }
    assert l.t.rows + [] == l.t.rows;
  }

  /** Over any operation sequence the bytes behave exactly as a bounded table: each answer, and each next level, is
      the specified effect of the operation. */
  method Run(b: SharedBlock, ops: seq<Op>) returns (answers: seq<Status>, ghost trace: seq<Level>)
    requires b.Valid()
    modifies b, b.data
    ensures b.Valid() && |answers| == |ops| && |trace| == |ops| + 1
    ensures trace[0] == old(LevelOf(b)) && trace[|ops|] == LevelOf(b)
    ensures forall i | 0 <= i < |ops| :: (answers[i], trace[i + 1]) == Effect(b.data.Length, b.readOnly, trace[i], ops[i])
    ensures forall i | 0 <= i < |ops| :: Acts(b.readOnly, trace[i].t, ops[i], answers[i], trace[i + 1].t)
  {
    hide Effect, Acts, Whole, TableOf;
    answers, trace := [], [LevelOf(b)];
    for i := 0 to |ops|
      invariant b.Valid() && |answers| == i && |trace| == i + 1
      invariant trace[0] == old(LevelOf(b)) && trace[i] == LevelOf(b)
      invariant forall k | 0 <= k < i :: (answers[k], trace[k + 1]) == Effect(b.data.Length, b.readOnly, trace[k], ops[k])
      invariant forall k | 0 <= k < i :: Acts(b.readOnly, trace[k].t, ops[k], answers[k], trace[k + 1].t)
    {
      b.Shape();
      EffectActs(b.data.Length, b.readOnly, LevelOf(b), ops[i]);
      var s := Step(b, ops[i]);
      answers, trace := answers + [s], trace + [LevelOf(b)];
    }
  }

  method Step(b: SharedBlock, op: Op) returns (s: Status)
    requires b.Valid()
    modifies b, b.data
    ensures b.Valid() && (s, LevelOf(b)) == Effect(b.data.Length, b.readOnly, old(LevelOf(b)), op)
  {
    hide Whole, TableOf, RowOutcome, RowFits;
    b.Shape();
    match op
    case ClearBlock => s := b.Clear();
    case Columns(n) => s := b.SetColumnNum(n);
    case NewRow => s := NewRowStep(b);
    case DropLast => s := b.FreeLastRow();
    case PutCell(r, c, v) =>
      match v
      case Null => s := b.PutNull(r, c);
      case Integer(x) => s := b.PutLong(r, c, x);
      case Float(x) => s := b.PutDouble(r, c, x);
      case Text(_) => s := b.PutBlobOrString(r, c, v);
      case Blob(_) => s := b.PutBlobOrString(r, c, v);
  }

  method NewRowStep(b: SharedBlock) returns (s: Status)
    requires b.Valid()
    modifies b, b.data
    ensures b.Valid() && (s, LevelOf(b)) == Effect(b.data.Length, b.readOnly, old(LevelOf(b)), NewRow)
  {
    hide Whole, TableOf, RowOutcome, RowFits;
    ghost var rows := b.View().rows;
    s := b.AllocRow();
    assert rows + [] == rows;
    assert NullRow(0) == [];
  }
}
