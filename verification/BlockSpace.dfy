/** How much room rows take: the layout wastes at most three bytes for each allocation. */
module BlockSpace {
  import opened Memory
  import opened BlockLayout
  import opened BlockSteps
  import opened Statements
  import opened FillBlock

  /** The bytes of a value outside its directory. */
  function Bytes(v: Value): nat {
    match v
    case TextValue(bs) => |bs| + 1
    case BlobValue(bs) => |bs|
    case _ => 0
  }

  function RowBytes(row: seq<Value>): nat { if row == [] then 0 else Bytes(row[0]) + RowBytes(row[1..]) }

  /** The bytes that the first `k` rows need: the header, a group of 4 + 100 * 4 bytes for each hundred rows begun, and
      for each row its directory of twelve bytes a column and its payloads. */
  function Need(rows: seq<seq<Value>>, k: nat): int
    requires k <= |rows|
  {
    16 + 404 * Hundreds(k) + Content(rows, k)
  }

  function Hundreds(k: nat): int { if k == 0 then 1 else (k + 99) / 100 }

  function Content(rows: seq<seq<Value>>, k: nat): nat
    requires k <= |rows|
  {
    if k == 0 then 0 else Content(rows, k - 1) + 12 * |rows[k - 1]| + RowBytes(rows[k - 1])
  }

  /** The allocations of the first `k` rows that are aligned: their directories, and the groups after the first. */
  function Alignments(k: nat): int { k + Hundreds(k) - 1 }

  lemma {:induction false} CellsUsedIs(used: int, row: seq<Value>)
    ensures CellsUsed(used, row) == used + RowBytes(row)
    decreases |row|
  {
    if row != [] { CellsUsedIs(AfterCell(used, Encode(row[0])), row[1..]); }
  }

  /** A row begins a group exactly after each hundred rows. */
  lemma GroupOfRow(used: int, k: nat)
    ensures AfterGroup(used, k, Groups(k)) == if Hundreds(k + 1) > Hundreds(k) then Align(used) + 404 else used
    ensures Groups(k) == Hundreds(k) <= Hundreds(k + 1) <= Hundreds(k) + 1
  {
  }

  /** The rows use what they need, and at most three bytes more for each alignment. */
  lemma {:induction false} UsedIsNeeded(rows: seq<seq<Value>>, k: nat)
    requires k <= |rows|
    ensures Need(rows, k) <= UsedBy(rows, k) <= Need(rows, k) + 3 * Alignments(k)
  {
    if k > 0 {
      UsedIsNeeded(rows, k - 1);
      GroupOfRow(UsedBy(rows, k - 1), k - 1);
      hide AfterGroup, Groups, Hundreds, Align;
      CellsUsedIs(PayloadsFrom(UsedBy(rows, k - 1), k - 1, |rows[k - 1]|), rows[k - 1]);
      AlignIs(UsedBy(rows, k - 1));
      AlignIs(AfterGroup(UsedBy(rows, k - 1), k - 1, Groups(k - 1)));
    }
  }

  predicate Proper(v: Value) { Storable(v) && v != BlobValue([]) }

  /** Values that can be stored, none of them an empty blob: an empty blob needs a byte that it does not use. */
  predicate ProperRow(row: seq<Value>) { forall v | v in row :: Proper(v) }

  /** Such values fit exactly if their bytes do. */
  lemma {:induction false} ProperCellsFitIff(size: int, used: int, row: seq<Value>)
    requires ProperRow(row) && used <= size
    ensures CellsFit(size, used, row) <==> used + RowBytes(row) <= size
    decreases |row|
  {
    if row != [] {
      assert row[0] in row && forall v | v in row[1..] :: v in row;
      if used + Bytes(row[0]) <= size { ProperCellsFitIff(size, AfterCell(used, Encode(row[0])), row[1..]); }
    }
  }

  lemma ProperRowOkIff(size: int, rows: seq<seq<Value>>, k: nat)
    requires k < |rows| && ProperRow(rows[k])
    ensures RowOk(size, rows, k) <==> UsedBy(rows, k + 1) <= size
  {
    hide CellsFit, ProperRow, AfterGroup, Align, CellsUsed;
    var from := PayloadsFrom(UsedBy(rows, k), k, |rows[k]|);
    if from <= size { ProperCellsFitIff(size, from, rows[k]); }
    CellsUsedIs(from, rows[k]);
    AlignIs(AfterGroup(UsedBy(rows, k), k, Groups(k)));
  }

  lemma {:induction false} UsedGrows(rows: seq<seq<Value>>, k: nat, n: nat)
    requires k <= n <= |rows|
    ensures UsedBy(rows, k) <= UsedBy(rows, n)
    decreases n
  {
    if k < n {
      hide Align;
      UsedGrows(rows, k, n - 1);
      CellsUsedIs(PayloadsFrom(UsedBy(rows, n - 1), n - 1, |rows[n - 1]|), rows[n - 1]);
      AlignIs(UsedBy(rows, n - 1));
      AlignIs(AfterGroup(UsedBy(rows, n - 1), n - 1, Groups(n - 1)));
    }
  }

  /** Such rows fit a cleared block together exactly if the bytes they use, which are those they need and at most three
      more for each alignment, are not more than it has. */
  lemma FitIff(size: int, rows: seq<seq<Value>>, n: nat)
    requires n <= |rows| && 420 <= size && forall row | row in rows :: ProperRow(row)
    ensures PrefixOk(size, rows, n) <==> UsedBy(rows, n) <= size
    ensures Need(rows, n) <= UsedBy(rows, n) <= Need(rows, n) + 3 * Alignments(n)
  {
    hide UsedBy, Need, ProperRow, Alignments, RowOk;
    UsedIsNeeded(rows, n);
    forall k: nat | k < n
      ensures RowOk(size, rows, k) <==> UsedBy(rows, k + 1) <= size
      ensures UsedBy(rows, k + 1) <= UsedBy(rows, n)
    {
      assert rows[k] in rows;
      ProperRowOkIff(size, rows, k);
      UsedGrows(rows, k + 1, n);
    }
    if n == 0 { NothingUsed(rows); }
    if PrefixOk(size, rows, n) && n > 0 { assert RowOk(size, rows, n - 1); }
  }

  lemma NothingUsed(rows: seq<seq<Value>>)
    ensures UsedBy(rows, 0) == 420
  {
  }

  predicate Scalar(row: seq<Value>) { forall v | v in row :: v.IntValue? || v.FloatValue? || v.NullValue? }

  lemma {:induction false} ScalarBytes(row: seq<Value>)
    requires Scalar(row)
    ensures RowBytes(row) == 0
  {
    if row != [] {
      assert row[0] in row && forall v | v in row[1..] :: v in row;
      ScalarBytes(row[1..]);
    }
  }

  lemma {:induction false} ScalarsWasteNothing(rows: seq<seq<Value>>, k: nat)
    requires k <= |rows| && forall row | row in rows :: Scalar(row)
    ensures UsedBy(rows, k) == Need(rows, k) && UsedBy(rows, k) % 4 == 0
  {
    if k > 0 {
      ScalarsWasteNothing(rows, k - 1);
      assert rows[k - 1] in rows;
      ScalarBytes(rows[k - 1]);
      AlignedStep(UsedBy(rows, k - 1), k - 1, |rows[k - 1]|);
      hide PayloadsFrom, Hundreds;
      CellsUsedIs(PayloadsFrom(UsedBy(rows, k - 1), k - 1, |rows[k - 1]|), rows[k - 1]);
    }
  }

  lemma AlignedStep(used: int, k: nat, cols: nat)
    requires used % 4 == 0
    ensures var from := PayloadsFrom(used, k, cols);
      from == used + 404 * (Hundreds(k + 1) - Hundreds(k)) + 12 * cols && from % 4 == 0
  {
    GroupOfRow(used, k);
    hide AfterGroup, Groups, Hundreds, Align;
    AlignIs(used);
    AlignIs(AfterGroup(used, k, Groups(k)));
  }

  /** Rows without texts and blobs waste nothing: they fit exactly if the block has the bytes they need. */
  lemma ScalarsFitIff(size: int, rows: seq<seq<Value>>, n: nat)
    requires n <= |rows| && 420 <= size && forall row | row in rows :: Scalar(row)
    ensures PrefixOk(size, rows, n) <==> Need(rows, n) <= size
  {
    hide UsedBy, Need, PrefixOk;
    ScalarsWasteNothing(rows, n);
    FitIff(size, rows, n);
  }
}
