/** How a shared block lays out row groups, field directories and payloads in its bytes,
    and which writes leave the table that they encode unchanged. */
module BlockLayout {
  import opened Memory

  // Sizes that stand as numbers below, where arithmetic needs them: a group of 404 bytes has 100 row offsets of 4
  // bytes each and, at 400, the link to the next group; a packed cell unit has 12 bytes.
  const HEADER: int := 16          // sizeof(SharedBlockHeader)
  const FIRST_FREE: int := 420     // unusedOffset of a cleared block
  const COL_MAX_NUM: int := 32767

  datatype Cell =
    | Null
    | Integer(long: Long)
    | Float(bits: Bits64)
    | Text(bytes: seq<Byte>)       // includes the terminating zero
    | Blob(bytes: seq<Byte>)

  /** The plain two-dimensional table a block stands for. */
  datatype Table = Table(cols: nat, rows: seq<seq<Cell>>)

  /** Where the live structures of a block are: the group chain and one directory per row. */
  datatype Layout = Layout(groups: seq<int>, dirs: seq<int>)

  ghost predicate Apart(lo: int, hi: int, lo': int, hi': int) { hi <= lo' || hi' <= lo }

  function Slot(groups: seq<int>, row: int): int
    requires 0 <= row < 100 * |groups|
  {
    groups[row / 100] + 4 * (row % 100)
  }

  function Link(groups: seq<int>, i: int): int
    requires 0 <= i < |groups|
  {
    if i + 1 < |groups| then groups[i + 1] else 0
  }

  function At(dirs: seq<int>, r: int, c: int): int
    requires 0 <= r < |dirs|
  {
    dirs[r] + 12 * c
  }

  /** The payload interval of the cell unit at `p`; scalars own the empty interval at FIRST_FREE. */
  function PayLo(m: Mem, p: int): int
    requires 0 <= p && p + 12 <= |m|
  {
    if WordAt(m, p) in {3, 4} then WordAt(m, p + 4) else FIRST_FREE
  }

  function PayHi(m: Mem, p: int): int
    requires 0 <= p && p + 12 <= |m|
  {
    if WordAt(m, p) in {3, 4} then WordAt(m, p + 4) + WordAt(m, p + 8) else FIRST_FREE
  }

  /** The value stored in the cell unit at `p`. */
  function CellAt(m: Mem, p: int): Cell
    requires 0 <= p && p + 12 <= |m|
    requires 0 <= PayLo(m, p) <= PayHi(m, p) <= |m|
  {
    match WordAt(m, p)
    case 1 => Integer(FromBits(Join(WordAt(m, p + 4), WordAt(m, p + 8))))
    case 2 => Float(Join(WordAt(m, p + 4), WordAt(m, p + 8)))
    case 3 => Text(m[PayLo(m, p)..PayHi(m, p)])
    case 4 => Blob(m[PayLo(m, p)..PayHi(m, p)])
    case _ => Null
  }

  // ---------------------------------------------------------------- the invariant

  ghost predicate Chain(m: Mem, used: int, groups: seq<int>) {
    && |groups| >= 1 && groups[0] == HEADER
    && FIRST_FREE <= used <= |m|
    && (forall i | 0 <= i < |groups| :: HEADER <= groups[i] && groups[i] + 404 <= used)
    && (forall i, j | 0 <= i < j < |groups| :: groups[i] + 404 <= groups[j])
    && (forall i {:trigger Link(groups, i)} | 0 <= i < |groups| :: WordAt(m, groups[i] + 400) == Link(groups, i))
  }

  ghost predicate Directories(m: Mem, used: int, cols: int, lay: Layout)
    requires Chain(m, used, lay.groups)
  {
    && |lay.dirs| <= 100 * |lay.groups|
    && (forall r | 0 <= r < |lay.dirs| ::
          FIRST_FREE <= lay.dirs[r] && lay.dirs[r] + 12 * cols <= used)
    && (forall r, s | 0 <= r < s < |lay.dirs| :: lay.dirs[r] + 12 * cols <= lay.dirs[s])
    && (forall r, i | 0 <= r < |lay.dirs| && 0 <= i < |lay.groups| ::
          Apart(lay.dirs[r], lay.dirs[r] + 12 * cols, lay.groups[i], lay.groups[i] + 404))
    && (forall r | 0 <= r < |lay.dirs| :: WordAt(m, Slot(lay.groups, r)) == lay.dirs[r])
  }

  /** The payload of the cell at `p` lies in the used part, clear of every group and directory. */
  ghost predicate Clear(m: Mem, used: int, cols: int, lay: Layout, p: int)
    requires 0 <= p && p + 12 <= |m|
  {
    && FIRST_FREE <= PayLo(m, p) <= PayHi(m, p) <= used
    && (WordAt(m, p) in {3, 4} ==> PayLo(m, p) < |m|)
    && (forall i | 0 <= i < |lay.groups| ::
          Apart(PayLo(m, p), PayHi(m, p), lay.groups[i], lay.groups[i] + 404))
    && (forall r | 0 <= r < |lay.dirs| ::
          Apart(PayLo(m, p), PayHi(m, p), lay.dirs[r], lay.dirs[r] + 12 * cols))
  }

  /** The cells at `p` and `q` share no payload byte. */
  ghost predicate PayApart(m: Mem, p: int, q: int)
    requires 0 <= p && p + 12 <= |m| && 0 <= q && q + 12 <= |m|
  {
    Apart(PayLo(m, p), PayHi(m, p), PayLo(m, q), PayHi(m, q))
  }

  ghost predicate Payloads(m: Mem, used: int, cols: int, lay: Layout)
    requires Chain(m, used, lay.groups) && Directories(m, used, cols, lay)
  {
    && (forall r, c | 0 <= r < |lay.dirs| && 0 <= c < cols :: WordAt(m, At(lay.dirs, r, c)) <= 4)
    && (forall r, c | 0 <= r < |lay.dirs| && 0 <= c < cols :: Clear(m, used, cols, lay, At(lay.dirs, r, c)))
    && (forall r, c, s, d | 0 <= r < |lay.dirs| && 0 <= c < cols && 0 <= s < |lay.dirs| && 0 <= d < cols
                         && (r != s || c != d) ::
          PayApart(m, At(lay.dirs, r, c), At(lay.dirs, s, d)))
  }

  /** Everything a block promises about the bytes past its header. */
  ghost predicate Sound(m: Mem, used: int, cols: int, lay: Layout) {
    && 0 <= cols
    && Chain(m, used, lay.groups)
    && Directories(m, used, cols, lay)
    && Payloads(m, used, cols, lay)
  }

  ghost function Row(m: Mem, used: int, cols: int, lay: Layout, r: int): (row: seq<Cell>)
    requires Sound(m, used, cols, lay) && 0 <= r < |lay.dirs|
    ensures |row| == cols
    ensures forall c | 0 <= c < cols :: 
      var p := At(lay.dirs, r, c); Clear(m, used, cols, lay, p) && row[c] == CellAt(m, p)
  {
    seq(cols, c requires 0 <= c < cols =>
      assert Clear(m, used, cols, lay, At(lay.dirs, r, c)); CellAt(m, At(lay.dirs, r, c)))
  }

  ghost function Rows(m: Mem, used: int, cols: int, lay: Layout): (rows: seq<seq<Cell>>)
    requires Sound(m, used, cols, lay)
    ensures |rows| == |lay.dirs|
    ensures forall r | 0 <= r < |rows| :: rows[r] == Row(m, used, cols, lay, r)
  {
    seq(|lay.dirs|, r requires 0 <= r < |lay.dirs| => Row(m, used, cols, lay, r))
  }

  // ---------------------------------------------------------------- frames

  /** `[lo, hi)` touches no link word, no slot of a live row, no directory and no payload. */
  ghost predicate Idle(m: Mem, used: int, cols: int, lay: Layout, lo: int, hi: int)
    requires Sound(m, used, cols, lay)
  {
    && (forall i | 0 <= i < |lay.groups| :: Apart(lo, hi, lay.groups[i] + 400, lay.groups[i] + 404))
    && (forall r | 0 <= r < |lay.dirs| :: Apart(lo, hi, Slot(lay.groups, r), Slot(lay.groups, r) + 4))
    && (forall r | 0 <= r < |lay.dirs| :: Apart(lo, hi, lay.dirs[r], lay.dirs[r] + 12 * cols))
    && (forall r, c | 0 <= r < |lay.dirs| && 0 <= c < cols ::
          Apart(lo, hi, PayLo(m, At(lay.dirs, r, c)), PayHi(m, At(lay.dirs, r, c))))
  }

  lemma CellFrame(m: Mem, n: Mem, lo: int, hi: int, p: int)
    requires SameOutside(m, n, lo, hi)
    requires 0 <= p && p + 12 <= |m|
    requires Apart(lo, hi, p, p + 12)
    ensures WordAt(n, p) == WordAt(m, p) && PayLo(n, p) == PayLo(m, p) && PayHi(n, p) == PayHi(m, p)
    ensures 0 <= PayLo(m, p) <= PayHi(m, p) <= |m| && Apart(lo, hi, PayLo(m, p), PayHi(m, p))
            ==> CellAt(n, p) == CellAt(m, p)
  {
    hide WordAt;
    WordFrame(m, n, lo, hi, p);
    WordFrame(m, n, lo, hi, p + 4);
    WordFrame(m, n, lo, hi, p + 8);
    var a, b := PayLo(m, p), PayHi(m, p);
    if 0 <= a <= b <= |m| && Apart(lo, hi, a, b) { SliceFrame(m, n, lo, hi, a, b); }
  }

  lemma SliceFrame(m: Mem, n: Mem, lo: int, hi: int, a: int, b: int)
    requires SameOutside(m, n, lo, hi) && 0 <= a <= b <= |m| && Apart(lo, hi, a, b)
    ensures m[a..b] == n[a..b]
  {
  }

  /** The cell unit at `p` describes the same value in `m` and `n`. */
  ghost predicate SameCell(m: Mem, n: Mem, p: int) {
    && |m| == |n| && 0 <= p && p + 12 <= |m|
    && WordAt(n, p) == WordAt(m, p) && PayLo(n, p) == PayLo(m, p) && PayHi(n, p) == PayHi(m, p)
    && (0 <= PayLo(m, p) <= PayHi(m, p) <= |m| ==> CellAt(n, p) == CellAt(m, p))
  }

  ghost predicate SameCells(m: Mem, n: Mem, cols: int, dirs: seq<int>) {
    forall r, c | 0 <= r < |dirs| && 0 <= c < cols :: SameCell(m, n, At(dirs, r, c))
  }

  lemma PayloadsFrame(m: Mem, n: Mem, used: int, cols: int, lay: Layout)
    requires Sound(m, used, cols, lay)
    requires |m| == |n| && Chain(n, used, lay.groups) && Directories(n, used, cols, lay)
    requires SameCells(m, n, cols, lay.dirs)
    ensures Sound(n, used, cols, lay)
    ensures Rows(n, used, cols, lay) == Rows(m, used, cols, lay)
  {
    hide WordAt;
    forall r, c | 0 <= r < |lay.dirs| && 0 <= c < cols
      ensures WordAt(n, At(lay.dirs, r, c)) <= 4 && Clear(n, used, cols, lay, At(lay.dirs, r, c))
    {
      assert SameCell(m, n, At(lay.dirs, r, c)) && Clear(m, used, cols, lay, At(lay.dirs, r, c));
    }
    PayApartFrame(m, n, used, cols, lay);
    forall r | 0 <= r < |lay.dirs| ensures Row(n, used, cols, lay, r) == Row(m, used, cols, lay, r) {
      SameRow(m, n, used, cols, lay, r);
    }
  }

  lemma SameRow(m: Mem, n: Mem, used: int, cols: int, lay: Layout, r: int)
    requires Sound(m, used, cols, lay) && Sound(n, used, cols, lay) && 0 <= r < |lay.dirs|
    requires forall c | 0 <= c < cols :: SameCell(m, n, At(lay.dirs, r, c))
    ensures Row(n, used, cols, lay, r) == Row(m, used, cols, lay, r)
  {
    hide WordAt;
    forall c | 0 <= c < cols ensures Row(n, used, cols, lay, r)[c] == Row(m, used, cols, lay, r)[c] {
      assert SameCell(m, n, At(lay.dirs, r, c));
    }
  }

  lemma ChainFrame(m: Mem, n: Mem, used: int, groups: seq<int>, lo: int, hi: int)
    requires Chain(m, used, groups) && SameOutside(m, n, lo, hi)
    requires forall i | 0 <= i < |groups| :: Apart(lo, hi, groups[i] + 400, groups[i] + 404)
    ensures Chain(n, used, groups)
  {
    forall i | 0 <= i < |groups| ensures WordAt(n, groups[i] + 400) == Link(groups, i) {
      WordFrame(m, n, lo, hi, groups[i] + 400);
    }
  }

  lemma DirectoriesFrame(m: Mem, n: Mem, used: int, cols: int, lay: Layout, lo: int, hi: int)
    requires Chain(m, used, lay.groups) && Directories(m, used, cols, lay) && SameOutside(m, n, lo, hi)
    requires Chain(n, used, lay.groups)
    requires forall r | 0 <= r < |lay.dirs| :: Apart(lo, hi, Slot(lay.groups, r), Slot(lay.groups, r) + 4)
    ensures Directories(n, used, cols, lay)
  {
    forall r | 0 <= r < |lay.dirs| ensures WordAt(n, Slot(lay.groups, r)) == lay.dirs[r] {
      WordFrame(m, n, lo, hi, Slot(lay.groups, r));
    }
  }

  lemma CellsFrame(m: Mem, n: Mem, used: int, cols: int, lay: Layout, lo: int, hi: int)
    requires Sound(m, used, cols, lay) && SameOutside(m, n, lo, hi)
    requires forall r | 0 <= r < |lay.dirs| :: Apart(lo, hi, lay.dirs[r], lay.dirs[r] + 12 * cols)
    requires forall r, c | 0 <= r < |lay.dirs| && 0 <= c < cols ::
               Apart(lo, hi, PayLo(m, At(lay.dirs, r, c)), PayHi(m, At(lay.dirs, r, c)))
    ensures SameCells(m, n, cols, lay.dirs)
  {
    forall r, c | 0 <= r < |lay.dirs| && 0 <= c < cols ensures SameCell(m, n, At(lay.dirs, r, c)) {
      assert Clear(m, used, cols, lay, At(lay.dirs, r, c));
      CellFrame(m, n, lo, hi, At(lay.dirs, r, c));
    }
  }

  /** A write to an idle interval changes neither the layout's soundness nor any row. */
  lemma IdleWrite(m: Mem, n: Mem, used: int, cols: int, lay: Layout, lo: int, hi: int)
    requires Sound(m, used, cols, lay) && Idle(m, used, cols, lay, lo, hi)
    requires SameOutside(m, n, lo, hi)
    ensures Sound(n, used, cols, lay)
    ensures Rows(n, used, cols, lay) == Rows(m, used, cols, lay)
  {
    hide WordAt;
    ChainFrame(m, n, used, lay.groups, lo, hi);
    DirectoriesFrame(m, n, used, cols, lay, lo, hi);
    CellsFrame(m, n, used, cols, lay, lo, hi);
    PayloadsFrame(m, n, used, cols, lay);
  }

  lemma FreshIsIdle(m: Mem, used: int, cols: int, lay: Layout, lo: int, hi: int)
    requires Sound(m, used, cols, lay)
    requires hi <= HEADER || used <= lo
    ensures Idle(m, used, cols, lay, lo, hi)
  {
    hide WordAt;
    forall r, c | 0 <= r < |lay.dirs| && 0 <= c < cols
      ensures Apart(lo, hi, PayLo(m, At(lay.dirs, r, c)), PayHi(m, At(lay.dirs, r, c)))
    {
      assert Clear(m, used, cols, lay, At(lay.dirs, r, c));
    }
  }

  /** Writing the header, or bytes no structure owns yet, is invisible. */
  lemma FreshWrite(m: Mem, n: Mem, used: int, cols: int, lay: Layout, lo: int, hi: int)
    requires Sound(m, used, cols, lay) && SameOutside(m, n, lo, hi)
    requires hi <= HEADER || used <= lo
    ensures Sound(n, used, cols, lay)
    ensures Rows(n, used, cols, lay) == Rows(m, used, cols, lay)
  {
    FreshIsIdle(m, used, cols, lay, lo, hi);
    IdleWrite(m, n, used, cols, lay, lo, hi);
  }

  lemma Grow(m: Mem, used: int, used': int, cols: int, lay: Layout)
    requires Sound(m, used, cols, lay) && used <= used' <= |m|
    ensures Sound(m, used', cols, lay)
    ensures Rows(m, used', cols, lay) == Rows(m, used, cols, lay)
  {
    hide WordAt;
    forall r, c | 0 <= r < |lay.dirs| && 0 <= c < cols
      ensures Clear(m, used', cols, lay, At(lay.dirs, r, c))
    {
      assert Clear(m, used, cols, lay, At(lay.dirs, r, c));
    }
    assert Payloads(m, used', cols, lay);
    forall r | 0 <= r < |lay.dirs| ensures Row(m, used', cols, lay, r) == Row(m, used, cols, lay, r) {}
  }

  // ---------------------------------------------------------------- the chain of groups

  /** Replacing the chain by another that agrees on the groups of all live rows keeps every row. */
  lemma Rechain(m: Mem, n: Mem, used: int, cols: int, lay: Layout, groups: seq<int>, keep: nat)
    requires Sound(m, used, cols, lay) && |m| == |n| && Chain(n, used, groups)
    requires keep <= |groups| && keep <= |lay.groups| && groups[..keep] == lay.groups[..keep]
    requires |lay.dirs| <= 100 * keep
    requires forall r | 0 <= r < |lay.dirs| :: WordAt(n, Slot(lay.groups, r)) == lay.dirs[r]
    requires SameCells(m, n, cols, lay.dirs)
    requires forall i | keep <= i < |groups| :: ClearOfGroup(m, cols, lay, groups[i])
    ensures Sound(n, used, cols, lay.(groups := groups))
    ensures Rows(n, used, cols, lay.(groups := groups)) == Rows(m, used, cols, lay)
  {
    hide WordAt;
    forall i | 0 <= i < keep ensures groups[i] == lay.groups[i] {
      assert groups[i] == groups[..keep][i] == lay.groups[..keep][i];
    }
    RechainDirectories(m, n, used, cols, lay, groups, keep);
    forall r, c | 0 <= r < |lay.dirs| && 0 <= c < cols
      ensures WordAt(n, At(lay.dirs, r, c)) <= 4 && Clear(n, used, cols, lay.(groups := groups), At(lay.dirs, r, c))
    {
      RechainClear(m, n, used, cols, lay, groups, keep, r, c);
    }
    PayApartFrame(m, n, used, cols, lay);
    RechainRows(m, n, used, cols, lay, lay.(groups := groups));
  }

  lemma RechainClear(m: Mem, n: Mem, used: int, cols: int, lay: Layout, groups: seq<int>, keep: nat, r: int, c: int)
    requires Sound(m, used, cols, lay) && |m| == |n| && 0 <= r < |lay.dirs| && 0 <= c < cols
    requires keep <= |groups| && keep <= |lay.groups|
    requires forall i | 0 <= i < keep :: groups[i] == lay.groups[i]
    requires SameCell(m, n, At(lay.dirs, r, c))
    requires forall i | keep <= i < |groups| :: ClearOfGroup(m, cols, lay, groups[i])
    ensures WordAt(n, At(lay.dirs, r, c)) <= 4 && Clear(n, used, cols, lay.(groups := groups), At(lay.dirs, r, c))
  {
    hide WordAt;
    var p := At(lay.dirs, r, c);
    assert Clear(m, used, cols, lay, p);
    forall i | 0 <= i < |groups| ensures Apart(PayLo(n, p), PayHi(n, p), groups[i], groups[i] + 404) {
      if i < keep {
        assert Apart(PayLo(m, p), PayHi(m, p), lay.groups[i], lay.groups[i] + 404);
      } else {
        assert ClearOfGroup(m, cols, lay, groups[i]);
      }
    }
  }

  lemma PayApartFrame(m: Mem, n: Mem, used: int, cols: int, lay: Layout)
    requires Sound(m, used, cols, lay) && |m| == |n| && SameCells(m, n, cols, lay.dirs)
    ensures forall r, c, s, d | 0 <= r < |lay.dirs| && 0 <= c < cols && 0 <= s < |lay.dirs| && 0 <= d < cols
              && (r != s || c != d) :: PayApart(n, At(lay.dirs, r, c), At(lay.dirs, s, d))
  {
    hide WordAt;
    forall r, c, s, d | 0 <= r < |lay.dirs| && 0 <= c < cols && 0 <= s < |lay.dirs| && 0 <= d < cols
                     && (r != s || c != d)
      ensures PayApart(n, At(lay.dirs, r, c), At(lay.dirs, s, d))
    {
      assert SameCell(m, n, At(lay.dirs, r, c)) && SameCell(m, n, At(lay.dirs, s, d));
      assert PayApart(m, At(lay.dirs, r, c), At(lay.dirs, s, d));
    }
  }

  lemma RechainRows(m: Mem, n: Mem, used: int, cols: int, lay: Layout, lay': Layout)
    requires Sound(m, used, cols, lay) && Sound(n, used, cols, lay') && lay'.dirs == lay.dirs
    requires SameCells(m, n, cols, lay.dirs)
    ensures Rows(n, used, cols, lay') == Rows(m, used, cols, lay)
  {
    hide WordAt;
    forall r | 0 <= r < |lay.dirs| ensures Row(n, used, cols, lay', r) == Row(m, used, cols, lay, r) {
      forall c | 0 <= c < cols ensures Row(n, used, cols, lay', r)[c] == Row(m, used, cols, lay, r)[c] {
        assert SameCell(m, n, At(lay.dirs, r, c));
      }
    }
  }

  lemma RechainDirectories(m: Mem, n: Mem, used: int, cols: int, lay: Layout, groups: seq<int>, keep: nat)
    requires Chain(m, used, lay.groups) && Directories(m, used, cols, lay) && |m| == |n| && Chain(n, used, groups)
    requires keep <= |groups| && keep <= |lay.groups|
    requires forall i | 0 <= i < keep :: groups[i] == lay.groups[i]
    requires |lay.dirs| <= 100 * keep
    requires forall r | 0 <= r < |lay.dirs| :: WordAt(n, Slot(lay.groups, r)) == lay.dirs[r]
    requires forall i, r | keep <= i < |groups| && 0 <= r < |lay.dirs| ::
               Apart(lay.dirs[r], lay.dirs[r] + 12 * cols, groups[i], groups[i] + 404)
    ensures Directories(n, used, cols, lay.(groups := groups))
  {
    hide WordAt, Apart;
    forall r | 0 <= r < |lay.dirs| ensures WordAt(n, Slot(groups, r)) == lay.dirs[r] {
      SameSlot(lay.groups, groups, keep, r);
    }
    forall r, i | 0 <= r < |lay.dirs| && 0 <= i < |groups|
      ensures Apart(lay.dirs[r], lay.dirs[r] + 12 * cols, groups[i], groups[i] + 404)
    {
      if i < keep { assert groups[i] == lay.groups[i]; }
    }
  }

  lemma SameSlot(a: seq<int>, b: seq<int>, keep: nat, r: nat)
    requires keep <= |a| && keep <= |b| && r < 100 * keep && forall i | 0 <= i < keep :: b[i] == a[i]
    ensures Slot(b, r) == Slot(a, r)
  {
    assert b[r / 100] == a[r / 100];
  }

  /** No directory and no payload overlaps a group at `g`. */
  ghost predicate ClearOfGroup(m: Mem, cols: int, lay: Layout, g: int) {
    && (forall r | 0 <= r < |lay.dirs| :: Apart(lay.dirs[r], lay.dirs[r] + 12 * cols, g, g + 404))
    && (forall r, c | 0 <= r < |lay.dirs| && 0 <= c < cols ::
          var p := At(lay.dirs, r, c);
          0 <= p && p + 12 <= |m| && Apart(PayLo(m, p), PayHi(m, p), g, g + 404))
  }

  /** The bytes of a chained group hold no directory and no payload. */
  lemma GroupIsClear(m: Mem, used: int, cols: int, lay: Layout, k: int)
    requires Sound(m, used, cols, lay) && 0 <= k < |lay.groups|
    ensures ClearOfGroup(m, cols, lay, lay.groups[k])
  {
    hide WordAt;
    forall r, c | 0 <= r < |lay.dirs| && 0 <= c < cols
      ensures Apart(PayLo(m, At(lay.dirs, r, c)), PayHi(m, At(lay.dirs, r, c)),
                    lay.groups[k], lay.groups[k] + 404)
    {
      assert Clear(m, used, cols, lay, At(lay.dirs, r, c));
    }
  }

  lemma FreshGroupIsClear(m: Mem, used: int, cols: int, lay: Layout, g: int)
    requires Sound(m, used, cols, lay) && used <= g
    ensures ClearOfGroup(m, cols, lay, g)
  {
    hide WordAt;
    forall r, c | 0 <= r < |lay.dirs| && 0 <= c < cols
      ensures Apart(PayLo(m, At(lay.dirs, r, c)), PayHi(m, At(lay.dirs, r, c)), g, g + 404)
    {
      assert Clear(m, used, cols, lay, At(lay.dirs, r, c));
    }
  }

  /** The slots of live rows never overlap a link word. */
  lemma SlotOffLink(m: Mem, used: int, groups: seq<int>, r: int, k: int)
    requires Chain(m, used, groups) && 0 <= r < 100 * |groups| && 0 <= k < |groups|
    ensures HEADER <= Slot(groups, r) && Slot(groups, r) + 4 <= used
    ensures Apart(Slot(groups, r), Slot(groups, r) + 4, groups[k] + 400, groups[k] + 404)
  {
  }

  lemma SlotsFrame(m: Mem, n: Mem, used: int, cols: int, lay: Layout, k: int)
    requires Chain(m, used, lay.groups) && Directories(m, used, cols, lay) && 0 <= k < |lay.groups|
    requires SameOutside(m, n, lay.groups[k] + 400, lay.groups[k] + 404)
    ensures forall r | 0 <= r < |lay.dirs| :: WordAt(n, Slot(lay.groups, r)) == lay.dirs[r]
  {
    forall r | 0 <= r < |lay.dirs| ensures WordAt(n, Slot(lay.groups, r)) == lay.dirs[r] {
      SlotOffLink(m, used, lay.groups, r, k);
      WordFrame(m, n, lay.groups[k] + 400, lay.groups[k] + 404, Slot(lay.groups, r));
    }
  }

  /** Writing one link word leaves the other links alone. */
  lemma LinkFrame(m: Mem, n: Mem, used: int, groups: seq<int>, k: int, i: int)
    requires Chain(m, used, groups) && 0 <= i < |groups| && 0 <= k < |groups| && i != k
    requires SameOutside(m, n, groups[k] + 400, groups[k] + 404)
    ensures WordAt(n, groups[i] + 400) == Link(groups, i)
  {
    hide WordAt;
    assert groups[i] + 404 <= groups[k] || groups[k] + 404 <= groups[i];
    WordFrame(m, n, groups[k] + 400, groups[k] + 404, groups[i] + 400);
  }

  lemma CutLinks(m: Mem, n: Mem, used: int, groups: seq<int>, k: int)
    requires Chain(m, used, groups) && 0 <= k < |groups|
    requires SameOutside(m, n, groups[k] + 400, groups[k] + 404)
    requires WordAt(n, groups[k] + 400) == 0
    ensures Chain(n, used, groups[..k + 1])
  {
    hide WordAt;
    var short := groups[..k + 1];
    forall i | 0 <= i < |short| ensures WordAt(n, short[i] + 400) == Link(short, i) {
      if i < k { LinkFrame(m, n, used, groups, k, i); }
    }
  }

  /** Writing zero to the link of group `k` cuts the chain there. */
  lemma CutChain(m: Mem, n: Mem, used: int, cols: int, lay: Layout, k: int)
    requires Sound(m, used, cols, lay) && 0 <= k < |lay.groups| && |lay.dirs| <= 100 * (k + 1)
    requires SameOutside(m, n, lay.groups[k] + 400, lay.groups[k] + 404)
    requires WordAt(n, lay.groups[k] + 400) == 0
    ensures Sound(n, used, cols, lay.(groups := lay.groups[..k + 1]))
    ensures Rows(n, used, cols, lay.(groups := lay.groups[..k + 1])) == Rows(m, used, cols, lay)
  {
    hide WordAt;
    CutLinks(m, n, used, lay.groups, k);
    SlotsFrame(m, n, used, cols, lay, k);
    GroupIsClear(m, used, cols, lay, k);
    CellsFrame(m, n, used, cols, lay, lay.groups[k] + 400, lay.groups[k] + 404);
    Rechain(m, n, used, cols, lay, lay.groups[..k + 1], k + 1);
  }

  lemma ExtendLinks(m: Mem, n: Mem, used: int, groups: seq<int>, g: int)
    requires Chain(m, used, groups) && used <= g && g + 404 <= |m|
    requires var last := groups[|groups| - 1];
             SameOutside(m, n, last + 400, last + 404) && WordAt(n, last + 400) == g && WordAt(n, g + 400) == 0
    ensures Chain(n, g + 404, groups + [g])
  {
    var k := |groups| - 1;
    var long := groups + [g];
    forall i | 0 <= i < |long| ensures WordAt(n, long[i] + 400) == Link(long, i) {
      if i < k { LinkFrame(m, n, used, groups, k, i); }
    }
    assert forall i | 0 <= i < |long| :: long[i] == if i <= k then groups[i] else g;
  }

  /** Linking a new group, whose own link is clear, behind the last one extends the chain. */
  lemma ExtendChain(m: Mem, n: Mem, used: int, cols: int, lay: Layout, g: int)
    requires Sound(m, used, cols, lay) && used <= g && g + 404 <= |m|
    requires var last := lay.groups[|lay.groups| - 1];
             SameOutside(m, n, last + 400, last + 404) && WordAt(n, last + 400) == g && WordAt(n, g + 400) == 0
    ensures Sound(n, g + 404, cols, lay.(groups := lay.groups + [g]))
    ensures Rows(n, g + 404, cols, lay.(groups := lay.groups + [g])) == Rows(m, used, cols, lay)
  {
    hide WordAt;
    var k := |lay.groups| - 1;
    ExtendLinks(m, n, used, lay.groups, g);
    SlotsFrame(m, n, used, cols, lay, k);
    GroupIsClear(m, used, cols, lay, k);
    FreshGroupIsClear(m, used, cols, lay, g);
    CellsFrame(m, n, used, cols, lay, lay.groups[k] + 400, lay.groups[k] + 404);
    Grow(m, used, g + 404, cols, lay);
    Rechain(m, n, g + 404, cols, lay, lay.groups + [g], k + 1);
  }
}
