/** Each elementary write sequence of a shared block, as a step on the encoded table. */
module BlockSteps {
  import opened Memory
  import opened BlockLayout
  import opened BlockRows

  datatype Status = Ok | BadValue | NoMemory | InvalidOperation

  // Header fields, at the start of the buffer.
  const UNUSED: int := 0
  const FIRST_GROUP: int := 4
  const ROW_NUMS: int := 8
  const COLUMN_NUMS: int := 12

  function Align(o: int): int { o + (4 - o % 4) % 4 }

  /** The least multiple of four that is not smaller. */
  lemma AlignIs(o: int)
    ensures Align(o) % 4 == 0 && o <= Align(o) < o + 4 && (o % 4 == 0 ==> Align(o) == o)
  {
  }

  /** Where the directory of a new row starts, and whether a group must be allocated for it first. */
  function NeedsGroup(rows: int, groups: int): bool { rows > 0 && rows % 100 == 0 && groups == rows / 100 }
  function AfterGroup(used: int, rows: int, groups: int): int {
    if NeedsGroup(rows, groups) then Align(used) + 404 else used
  }

  /** How many groups the chain has after a new row. */
  function GroupsAfter(rows: int, groups: int): int {
    if rows > 0 && rows % 100 == 0 then rows / 100 + 1 else groups
  }

  /** What AllocRow answers, how far the block is used then, and how many groups there are. */
  function RowOutcome(size: int, used: int, rows: int, groups: int, cols: int): (Status, int, int) {
    var used', groups' := AfterGroup(used, rows, groups), GroupsAfter(rows, groups);
    if used' > size then (NoMemory, used, groups)
    else var (s, end) := DirectoryOutcome(size, used', cols); (s, end, groups')
  }

  /** The part of it that allocates and clears the directory. */
  function DirectoryOutcome(size: int, used: int, cols: int): (Status, int) {
    if Align(used) + 12 * cols > size then (NoMemory, used)
    else if cols == 0 then (if Align(used) < size then NoMemory else BadValue, Align(used))
    else (Ok, Align(used) + 12 * cols)
  }

  /** A new row fits: first the group it may need, then its directory. */
  predicate RowFits(size: int, used: int, rows: int, groups: int, cols: int) {
    AfterGroup(used, rows, groups) <= size && Align(AfterGroup(used, rows, groups)) + 12 * cols <= size
  }

  /** The space a cell value takes outside its directory. */
  predicate CellFits(size: int, used: int, v: Cell) {
    (v.Text? || v.Blob?) ==> used + |v.bytes| <= size && used < size
  }
  function AfterCell(used: int, v: Cell): int {
    if v.Text? || v.Blob? then used + |v.bytes| else used
  }

  ghost predicate HeaderOk(m: Mem) {
    && FIRST_FREE <= |m| <= 0xFFFF_FFFC
    && WordAt(m, 4) == HEADER
    && WordAt(m, 12) <= COL_MAX_NUM
  }

  ghost predicate Good(m: Mem, lay: Layout) {
    HeaderOk(m) && Sound(m, WordAt(m, 0), WordAt(m, 12), lay)
  }

  ghost predicate Whole(m: Mem, lay: Layout) {
    && Good(m, lay)
    && |lay.dirs| == (if WordAt(m, 12) == 0 then 0 else WordAt(m, 8))
    && WordAt(m, 8) <= 100 * |lay.groups|
  }

  ghost function Contents(m: Mem, lay: Layout): seq<seq<Cell>>
    requires Good(m, lay)
  {
    Rows(m, WordAt(m, 0), WordAt(m, 12), lay)
  }

  ghost function TableOf(m: Mem, lay: Layout): Table
    requires Whole(m, lay)
  {
    Table(WordAt(m, 12), if WordAt(m, 12) == 0 then seq(WordAt(m, 8), _ => []) else Contents(m, lay))
  }

  lemma HeaderWrite(m: Mem, n: Mem, lay: Layout, h: int, w: Word)
    requires Good(m, lay) && h in {0, 4, 8, 12} && n == PutWord(m, h, w)
    ensures WordAt(n, h) == w && forall k | k in {0, 4, 8, 12} && k != h :: WordAt(n, k) == WordAt(m, k)
    ensures Sound(n, WordAt(m, 0), WordAt(m, 12), lay)
    ensures Rows(n, WordAt(m, 0), WordAt(m, 12), lay) == Contents(m, lay)
  {
    hide WordAt;
    PutWordReads(m, h, w);
    forall k | k in {0, 4, 8, 12} && k != h ensures WordAt(n, k) == WordAt(m, k) { WordFrame(m, n, h, h + 4, k); }
    FreshWrite(m, n, WordAt(m, 0), WordAt(m, 12), lay, h, h + 4);
  }

  /** Writes past the header leave the header alone. */
  lemma HeaderKept(m: Mem, n: Mem, lo: int, hi: int)
    requires SameOutside(m, n, lo, hi) && HEADER <= lo && HEADER <= |m|
    ensures forall k | k in {0, 4, 8, 12} :: WordAt(n, k) == WordAt(m, k)
  {
    forall k | k in {0, 4, 8, 12} ensures WordAt(n, k) == WordAt(m, k) { WordFrame(m, n, lo, hi, k); }
  }

  lemma FiveWrites(m1: Mem, m2: Mem, m3: Mem, m4: Mem, m5: Mem)
    requires |m1| >= FIRST_FREE && WordAt(m1, 0) == FIRST_FREE
    requires SameOutside(m1, m2, 4, 8) && WordAt(m2, 4) == HEADER
    requires SameOutside(m2, m3, 8, 12) && WordAt(m3, 8) == 0
    requires SameOutside(m3, m4, 12, 16) && WordAt(m4, 12) == 0
    requires SameOutside(m4, m5, 416, 420)
    ensures WordAt(m5, 0) == FIRST_FREE && WordAt(m5, 4) == HEADER && WordAt(m5, 8) == 0 && WordAt(m5, 12) == 0
  {
    hide WordAt;
    WordFrame(m1, m2, 4, 8, 0);
    WordFrame(m2, m3, 8, 12, 0);
    WordFrame(m2, m3, 8, 12, 4);
    WordFrame(m3, m4, 12, 16, 0);
    WordFrame(m3, m4, 12, 16, 4);
    WordFrame(m3, m4, 12, 16, 8);
    HeaderKept(m4, m5, 416, 420);
  }

  /** A cleared block is an empty table. */
  lemma ClearedIsEmpty(m: Mem)
    requires FIRST_FREE <= |m| <= 0xFFFF_FFFC
    requires WordAt(m, 0) == FIRST_FREE && WordAt(m, 4) == HEADER && WordAt(m, 8) == 0 && WordAt(m, 12) == 0
    requires WordAt(m, 416) == 0
    ensures Whole(m, Layout([HEADER], [])) && TableOf(m, Layout([HEADER], [])) == Table(0, [])
  {
    hide WordAt;
    var lay := Layout([HEADER], []);
    assert Chain(m, FIRST_FREE, lay.groups);
    assert Sound(m, FIRST_FREE, 0, lay);
  }

  /** With no rows, any column count describes the same empty table. */
  lemma ColumnsOfEmpty(m: Mem, used: int, cols: int, cols': int, lay: Layout)
    requires Sound(m, used, cols, lay) && lay.dirs == [] && 0 <= cols'
    ensures Sound(m, used, cols', lay) && Rows(m, used, cols', lay) == []
  {
    hide WordAt;
  }

  function WithoutLast(t: Table): Table {
    if t.rows == [] then t else Table(t.cols, t.rows[..|t.rows| - 1])
  }

  /** The chain is too short for row numbers to overflow. */
  lemma {:induction false} GroupsAreSpaced(groups: seq<int>, i: nat)
    requires |groups| >= 1 && groups[0] == HEADER && i < |groups|
    requires forall i, j | 0 <= i < j < |groups| :: groups[i] + 404 <= groups[j]
    ensures groups[i] >= HEADER + 404 * i
  {
    if i > 0 { GroupsAreSpaced(groups, i - 1); }
  }

  /** Linking the group just allocated at `g` behind the last group. */
  lemma LinkNewGroup(m: Mem, used: int, cols: int, lay: Layout, g: int, last: int)
    requires Sound(m, used, cols, lay) && used <= g && g + 404 <= |m| <= 0xFFFF_FFFC
    requires last == lay.groups[|lay.groups| - 1]
    ensures last + 404 <= used
    ensures var n := PutWord(PutWord(m, last + 400, g), g + 400, 0);
      && HEADER <= last && SameHeader(m, n)
      && Sound(n, g + 404, cols, lay.(groups := lay.groups + [g]))
      && Rows(n, g + 404, cols, lay.(groups := lay.groups + [g])) == Rows(m, used, cols, lay)
  {
    hide WordAt, PutWord;
    PutWordReads(m, g + 400, 0);
    PutWordReads(m, last + 400, g);
    var m1, m2 := PutWord(m, g + 400, 0), PutWord(m, last + 400, g);
    PutWordReads(m2, g + 400, 0);
    var n := PutWord(m2, g + 400, 0);
    FreshWrite(m, m1, used, cols, lay, g + 400, g + 404);
    WordFrame(m2, n, g + 400, g + 404, last + 400);
    assert SameOutside(m1, n, last + 400, last + 404) by { SameBytes(m, g + 400, 0, m2); }
    ExtendChain(m1, n, used, cols, lay, g);
    HeaderKept(m, m2, last + 400, last + 404);
    HeaderKept(m2, n, g + 400, g + 404);
  }

  lemma SameBytes(m: Mem, o: int, w: Word, n: Mem)
    requires |m| == |n| && 0 <= o && o + 4 <= |m|
    ensures forall i | o <= i < o + 4 :: PutWord(m, o, w)[i] == PutWord(n, o, w)[i]
  {
  }

  ghost predicate SameHeader(m: Mem, n: Mem)
    requires |m| >= HEADER
  {
    |n| == |m| && forall k | k in {0, 4, 8, 12} :: WordAt(n, k) == WordAt(m, k)
  }

  /** Zeroing a new directory and entering it in the next slot adds a row of nulls. */
  lemma EnterRow(m: Mem, m1: Mem, n: Mem, used: int, cols: int, lay: Layout, d: Word, used': int)
    requires Sound(m, used, cols, lay) && |lay.dirs| < 100 * |lay.groups|
    requires used <= d && d + 12 * cols == used' <= |m| && m1 == Patch(m, d, Zeros(12 * cols))
    requires var slot := Slot(lay.groups, |lay.dirs|); 0 <= slot && slot + 4 <= |m| && n == PutWord(m1, slot, d)
    ensures SameHeader(m, n)
    ensures Sound(n, used', cols, lay.(dirs := lay.dirs + [d]))
    ensures Rows(n, used', cols, lay.(dirs := lay.dirs + [d])) == Rows(m, used, cols, lay) + [NullRow(cols)]
  {
    hide WordAt, PutWord, Patch;
    var slot := Slot(lay.groups, |lay.dirs|);
    PatchReads(m, d, Zeros(12 * cols));
    FreshWrite(m, m1, used, cols, lay, d, used');
    NextSlotIsIdle(m1, used, cols, lay);
    PutWordReads(m1, slot, d);
    IdleWrite(m1, n, used, cols, lay, slot, slot + 4);
    forall i | d <= i < used' ensures n[i] == 0 { assert n[i] == m1[i] == m1[d..used'][i - d]; }
    AddRow(n, used, cols, lay, d, used');
    HeaderKept(m, m1, d, used');
    HeaderKept(m1, n, slot, slot + 4);
  }

  /** Rows below `n` keep their slots although the chain changed from `groups` to `groups'`. */
  ghost predicate KeepsSlots(groups: seq<int>, groups': seq<int>, n: int) {
    && n <= 100 * |groups| && n <= 100 * |groups'|
    && forall r | 0 <= r < n :: Slot(groups', r) == Slot(groups, r)
  }

  // ---------------------------------------------------------------- steps

  lemma GoodFacts(m: Mem, lay: Layout)
    requires Good(m, lay)
    ensures FIRST_FREE <= WordAt(m, 0) <= |m| <= 0xFFFF_FFFC && WordAt(m, 4) == HEADER && WordAt(m, 12) <= COL_MAX_NUM
    ensures |lay.groups| >= 1 && lay.groups[0] == HEADER && |lay.dirs| <= 100 * |lay.groups|
    ensures |Contents(m, lay)| == |lay.dirs|
    ensures 100 * |lay.groups| < 0xFFFF_FFFC
  {
    hide WordAt;
    GroupsAreSpaced(lay.groups, |lay.groups| - 1);
  }

  lemma GroupsBound(m: Mem, lay: Layout)
    requires Good(m, lay)
    ensures 100 * |lay.groups| < 0xFFFF_FFFC && 0 <= WordAt(m, 12) && FIRST_FREE <= WordAt(m, 0) <= |m|
    ensures |Contents(m, lay)| == |lay.dirs|
    ensures forall r | 0 <= r < |lay.dirs| :: |Contents(m, lay)[r]| == WordAt(m, 12)
  {
    hide WordAt;
    GoodFacts(m, lay);
    forall r | 0 <= r < |lay.dirs| ensures |Contents(m, lay)[r]| == WordAt(m, 12) {
      assert Contents(m, lay)[r] == Row(m, WordAt(m, 0), WordAt(m, 12), lay, r);
    }
  }

  lemma GroupFacts(m: Mem, lay: Layout, k: int)
    requires Good(m, lay) && 0 <= k < |lay.groups|
    ensures HEADER <= lay.groups[k] && lay.groups[k] + 404 <= WordAt(m, 0) <= |m|
    ensures WordAt(m, lay.groups[k] + 400) == Link(lay.groups, k)
    ensures k + 1 < |lay.groups| ==> Link(lay.groups, k) != 0
  {
    hide WordAt;
    if k + 1 < |lay.groups| { assert HEADER <= lay.groups[k + 1]; }
  }

  ghost predicate SameBut(m: Mem, n: Mem, h: int)
    requires |m| >= HEADER
  {
    |n| == |m| && forall k | k in {0, 4, 8, 12} && k != h :: WordAt(n, k) == WordAt(m, k)
  }

  /** The same rows under the same header, except for header field `h`. */
  ghost predicate Keeps(m: Mem, lay: Layout, n: Mem, lay': Layout, h: int)
    requires Good(m, lay)
  {
    SameBut(m, n, h) && Good(n, lay') && Contents(n, lay') == Contents(m, lay)
  }

  lemma BumpStep(m: Mem, lay: Layout, o: int, size: int)
    requires Good(m, lay) && WordAt(m, 0) <= o <= o + size <= |m|
    ensures Keeps(m, lay, PutWord(m, 0, o + size), lay, 0) && WordAt(PutWord(m, 0, o + size), 0) == o + size
    ensures Sound(PutWord(m, 0, o + size), WordAt(m, 0), WordAt(m, 12), lay)
    ensures Rows(PutWord(m, 0, o + size), WordAt(m, 0), WordAt(m, 12), lay) == Contents(m, lay)
  {
    hide WordAt, PutWord;
    PutWordReads(m, 0, o + size);
    var n := PutWord(m, 0, o + size);
    HeaderWrite(m, n, lay, 0, o + size);
    Grow(n, WordAt(m, 0), o + size, WordAt(m, 12), lay);
  }

  lemma RowNumsStep(m: Mem, lay: Layout, w: Word)
    requires Good(m, lay)
    ensures Keeps(m, lay, PutWord(m, 8, w), lay, 8) && WordAt(PutWord(m, 8, w), 8) == w
  {
    hide WordAt, PutWord;
    PutWordReads(m, 8, w);
    HeaderWrite(m, PutWord(m, 8, w), lay, 8, w);
  }

  lemma CutStep(m: Mem, lay: Layout, k: int)
    requires Good(m, lay) && 0 <= k < |lay.groups| && |lay.dirs| <= 100 * (k + 1)
    ensures HEADER <= lay.groups[k] && lay.groups[k] + 404 <= |m|
    ensures Keeps(m, lay, PutWord(m, lay.groups[k] + 400, 0), lay.(groups := lay.groups[..k + 1]), -1)
  {
    hide WordAt, PutWord;
    GroupFacts(m, lay, k);
    PutWordReads(m, lay.groups[k] + 400, 0);
    var n := PutWord(m, lay.groups[k] + 400, 0);
    CutChain(m, n, WordAt(m, 0), WordAt(m, 12), lay, k);
    HeaderKept(m, n, lay.groups[k] + 400, lay.groups[k] + 404);
  }

  lemma LinkStep(m: Mem, lay: Layout, g: int, last: int)
    requires Good(m, lay) && WordAt(m, 0) <= g && g + 404 <= |m| && last == lay.groups[|lay.groups| - 1]
    ensures HEADER <= last && last + 404 <= g
    ensures var n := PutWord(PutWord(PutWord(m, 0, g + 404), last + 400, g), g + 400, 0);
      && Keeps(m, lay, n, lay.(groups := lay.groups + [g]), 0) && WordAt(n, 0) == g + 404
  {
    hide WordAt, PutWord, Rows;
    BumpStep(m, lay, g, 404);
    PutWordReads(m, 0, g + 404);
    LinkNewGroup(PutWord(m, 0, g + 404), WordAt(m, 0), WordAt(m, 12), lay, g, last);
  }

  lemma EnterStep(m: Mem, lay: Layout, d: int, slot: int)
    requires Good(m, lay) && |lay.dirs| < 100 * |lay.groups| && slot == Slot(lay.groups, |lay.dirs|)
    requires WordAt(m, 0) <= d && d + 12 * WordAt(m, 12) <= |m|
    ensures HEADER <= slot && slot + 4 <= |m|
    ensures var n := PutWord(Patch(PutWord(m, 0, d + 12 * WordAt(m, 12)), d, Zeros(12 * WordAt(m, 12))), slot, d);
      && SameBut(m, n, 0) && WordAt(n, 0) == d + 12 * WordAt(m, 12)
      && Good(n, lay.(dirs := lay.dirs + [d]))
      && Contents(n, lay.(dirs := lay.dirs + [d])) == Contents(m, lay) + [NullRow(WordAt(m, 12))]
  {
    hide WordAt, PutWord, Patch, Rows;
    var cols := WordAt(m, 12);
    BumpStep(m, lay, d, 12 * cols);
    PutWordReads(m, 0, d + 12 * cols);
    var m1 := PutWord(m, 0, d + 12 * cols);
    SlotBounds(m, lay, |lay.dirs|);
    PatchReads(m1, d, Zeros(12 * cols));
    var m2 := Patch(m1, d, Zeros(12 * cols));
    EnterRow(m1, m2, PutWord(m2, slot, d), WordAt(m, 0), cols, lay, d, d + 12 * cols);
  }

  lemma SlotBounds(m: Mem, lay: Layout, r: int)
    requires Good(m, lay) && 0 <= r < 100 * |lay.groups|
    ensures HEADER <= Slot(lay.groups, r) && Slot(lay.groups, r) + 4 <= WordAt(m, 0) <= |m|
  {
    hide WordAt;
    GroupFacts(m, lay, r / 100);
    SlotInGroup(lay.groups, r);
  }

  lemma DropStep(m: Mem, lay: Layout)
    requires Good(m, lay) && lay.dirs != []
    ensures Good(m, lay.(dirs := lay.dirs[..|lay.dirs| - 1]))
    ensures Contents(m, lay.(dirs := lay.dirs[..|lay.dirs| - 1])) == Contents(m, lay)[..|lay.dirs| - 1]
  {
    hide WordAt;
    DropRow(m, WordAt(m, 0), WordAt(m, 12), lay);
  }

  lemma ColumnsStep(m: Mem, lay: Layout, cols: Word)
    requires Good(m, lay) && cols <= COL_MAX_NUM && (lay.dirs == [] || cols == WordAt(m, 12))
    ensures Keeps(m, lay, PutWord(m, 12, cols), lay, 12) && WordAt(PutWord(m, 12, cols), 12) == cols
  {
    hide WordAt, PutWord;
    PutWordReads(m, 12, cols);
    var n := PutWord(m, 12, cols);
    HeaderWrite(m, n, lay, 12, cols);
    if lay.dirs == [] { ColumnsOfEmpty(n, WordAt(m, 0), WordAt(m, 12), cols, lay); }
  }

  /** The three words of a cell unit. */
  function PutUnit(m: Mem, p: int, kind: Word, lo: Word, hi: Word): Mem
    requires 0 <= p && p + 12 <= |m|
  {
    PutWord(PutWord(PutWord(m, p, kind), p + 4, lo), p + 8, hi)
  }

  lemma UnitReads(m: Mem, p: int, kind: Word, lo: Word, hi: Word)
    requires 0 <= p && p + 12 <= |m|
    ensures var n := PutUnit(m, p, kind, lo, hi);
      SameOutside(m, n, p, p + 12) && WordAt(n, p) == kind && WordAt(n, p + 4) == lo && WordAt(n, p + 8) == hi
  {
    hide WordAt, PutWord;
    PutWordReads(m, p, kind);
    var m1 := PutWord(m, p, kind);
    PutWordReads(m1, p + 4, lo);
    var m2 := PutWord(m1, p + 4, lo);
    PutWordReads(m2, p + 8, hi);
    WordFrame(m1, m2, p + 4, p + 8, p);
    WordFrame(m2, PutWord(m2, p + 8, hi), p + 8, p + 12, p);
    WordFrame(m2, PutWord(m2, p + 8, hi), p + 8, p + 12, p + 4);
  }

  function SetCell(rows: seq<seq<Cell>>, r: int, c: int, v: Cell): seq<seq<Cell>>
    requires 0 <= r < |rows| && 0 <= c < |rows[r]|
  {
    rows[r := rows[r][c := v]]
  }

  lemma CellBounds(m: Mem, lay: Layout, r: int, c: int)
    requires Good(m, lay) && 0 <= r < |lay.dirs| && 0 <= c < WordAt(m, 12)
    ensures FIRST_FREE <= At(lay.dirs, r, c) && At(lay.dirs, r, c) + 12 <= WordAt(m, 0) <= |m|
    ensures |Contents(m, lay)[r]| == WordAt(m, 12)
    ensures 0 <= Slot(lay.groups, r) && Slot(lay.groups, r) + 4 <= |m| && WordAt(m, Slot(lay.groups, r)) == lay.dirs[r]
  {
    hide WordAt;
    SlotBounds(m, lay, r);
    assert Contents(m, lay)[r] == Row(m, WordAt(m, 0), WordAt(m, 12), lay, r);
  }

  /** Writing a null, an integer or a float into a cell unit. */
  lemma ScalarStep(m: Mem, lay: Layout, r: int, c: int, kind: Word, lo: Word, hi: Word, v: Cell)
    requires Good(m, lay) && 0 <= r < |lay.dirs| && 0 <= c < WordAt(m, 12)
    requires match kind case 0 => v == Null case 1 => v == Integer(FromBits(Join(lo, hi))) case 2 => v == Float(Join(lo, hi)) case _ => false
    ensures FIRST_FREE <= At(lay.dirs, r, c) && At(lay.dirs, r, c) + 12 <= |m|
    ensures |Contents(m, lay)| == |lay.dirs| && |Contents(m, lay)[r]| == WordAt(m, 12)
    ensures var n := PutUnit(m, At(lay.dirs, r, c), kind, lo, hi);
      SameBut(m, n, -1) && Good(n, lay) && Contents(n, lay) == SetCell(Contents(m, lay), r, c, v)
  {
    hide WordAt, PutUnit;
    CellBounds(m, lay, r, c);
    var p := At(lay.dirs, r, c);
    UnitReads(m, p, kind, lo, hi);
    var n := PutUnit(m, p, kind, lo, hi);
    WriteCell(m, n, WordAt(m, 0), WordAt(m, 0), WordAt(m, 12), lay, r, c);
    HeaderKept(m, n, p, p + 12);
  }

  /** Copying a payload into fresh space and pointing a cell unit at it. */
  lemma PayloadStep(m: Mem, lay: Layout, r: int, c: int, v: Cell, o: int)
    requires Good(m, lay) && 0 <= r < |lay.dirs| && 0 <= c < WordAt(m, 12)
    requires (v.Text? || v.Blob?) && o == WordAt(m, 0) < |m| && o + |v.bytes| <= |m|
    ensures FIRST_FREE <= At(lay.dirs, r, c) && At(lay.dirs, r, c) + 12 <= |m|
    ensures |Contents(m, lay)| == |lay.dirs| && |Contents(m, lay)[r]| == WordAt(m, 12)
    ensures var n := PutUnit(Patch(PutWord(m, 0, o + |v.bytes|), o, v.bytes), At(lay.dirs, r, c),
                             if v.Text? then 3 else 4, o, |v.bytes|);
      && SameBut(m, n, 0) && WordAt(n, 0) == o + |v.bytes|
      && Good(n, lay) && Contents(n, lay) == SetCell(Contents(m, lay), r, c, v)
  {
    hide WordAt, PutUnit, PutWord, Patch, Rows, Sound;
    CellBounds(m, lay, r, c);
    var p, size, used, cols := At(lay.dirs, r, c), |v.bytes|, WordAt(m, 0), WordAt(m, 12);
    var kind: Word := if v.Text? then 3 else 4;
    BumpStep(m, lay, o, size);
    PutWordReads(m, 0, o + size);
    var m1 := PutWord(m, 0, o + size);
    PatchReads(m1, o, v.bytes);
    var m2 := Patch(m1, o, v.bytes);
    FreshWrite(m1, m2, used, cols, lay, o, o + size);
    HeaderKept(m1, m2, o, o + size);
    UnitReads(m2, p, kind, o, size);
    var n := PutUnit(m2, p, kind, o, size);
    HeaderKept(m2, n, p, p + 12);
    PayloadValue(m2, n, p, v, o);
    WriteCell(m2, n, used, o + size, cols, lay, r, c);
  }

  lemma PayloadValue(m: Mem, n: Mem, p: int, v: Cell, o: int)
    requires (v.Text? || v.Blob?) && SameOutside(m, n, p, p + 12) && 0 <= p && p + 12 <= o < |m|
    requires o + |v.bytes| <= |m| && m[o..o + |v.bytes|] == v.bytes
    requires WordAt(n, p) == (if v.Text? then 3 else 4) && WordAt(n, p + 4) == o && WordAt(n, p + 8) == |v.bytes|
    ensures PayLo(n, p) == o && PayHi(n, p) == o + |v.bytes| && CellAt(n, p) == v
  {
    hide WordAt;
    assert n[o..o + |v.bytes|] == m[o..o + |v.bytes|];
  }

  /** What reading the words of a live cell unit yields. */
  lemma ReadFacts(m: Mem, lay: Layout, r: int, c: int)
    requires Good(m, lay) && 0 <= r < |lay.dirs| && 0 <= c < WordAt(m, 12)
    ensures var p := At(lay.dirs, r, c);
      && FIRST_FREE <= p && p + 12 <= |m| && |Contents(m, lay)| == |lay.dirs| && |Contents(m, lay)[r]| == WordAt(m, 12)
      && WordAt(m, p) <= 4 && 0 <= PayLo(m, p) <= PayHi(m, p) <= |m| && (WordAt(m, p) in {3, 4} ==> PayLo(m, p) < |m|)
      && Contents(m, lay)[r][c] == CellAt(m, p)
  {
    hide WordAt;
    CellBounds(m, lay, r, c);
    assert Contents(m, lay)[r] == Row(m, WordAt(m, 0), WordAt(m, 12), lay, r);
    assert Clear(m, WordAt(m, 0), WordAt(m, 12), lay, At(lay.dirs, r, c));
  }

  // ---------------------------------------------------------------- live regions

  datatype Region = Header | Group(i: int) | Directory(r: int) | Payload(r: int, c: int)

  predicate Scalar(v: Cell) { v.Null? || v.Integer? || v.Float? }

  ghost predicate Live(m: Mem, lay: Layout, a: Region)
    requires Good(m, lay)
  {
    match a
    case Header => true
    case Group(i) => 0 <= i < |lay.groups|
    case Directory(r) => 0 <= r < |lay.dirs|
    case Payload(r, c) => 0 <= r < |lay.dirs| && 0 <= c < WordAt(m, 12) && !Scalar(Contents(m, lay)[r][c])
  }

  ghost function Extent(m: Mem, lay: Layout, a: Region): (int, int)
    requires Good(m, lay) && Live(m, lay, a)
  {
    match a
    case Header => (0, HEADER)
    case Group(i) => (lay.groups[i], lay.groups[i] + 404)
    case Directory(r) => (lay.dirs[r], lay.dirs[r] + 12 * WordAt(m, 12))
    case Payload(r, c) =>
      CellBounds(m, lay, r, c);
      (PayLo(m, At(lay.dirs, r, c)), PayHi(m, At(lay.dirs, r, c)))
  }

  /** Header, groups, directories and payloads stay pairwise disjoint, all below unusedOffset. */
  lemma LiveRegionsAreDisjoint(m: Mem, lay: Layout, a: Region, b: Region)
    requires Good(m, lay) && Live(m, lay, a) && Live(m, lay, b) && a != b
    ensures 0 <= Extent(m, lay, a).0 <= Extent(m, lay, a).1 <= WordAt(m, 0) <= |m|
    ensures Apart(Extent(m, lay, a).0, Extent(m, lay, a).1, Extent(m, lay, b).0, Extent(m, lay, b).1)
  {
    hide WordAt;
    if a.Payload? { assert Clear(m, WordAt(m, 0), WordAt(m, 12), lay, At(lay.dirs, a.r, a.c)); }
    if b.Payload? { assert Clear(m, WordAt(m, 0), WordAt(m, 12), lay, At(lay.dirs, b.r, b.c)); }
    if a.Payload? && b.Payload? { assert PayApart(m, At(lay.dirs, a.r, a.c), At(lay.dirs, b.r, b.c)); }
  }
}
