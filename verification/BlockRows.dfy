/** What adding a row, dropping a row and writing one cell do to the table a block encodes. */
module BlockRows {
  import opened Memory
  import opened BlockLayout

  function NullRow(cols: nat): seq<Cell> { seq(cols, _ => Null) }

  /** Two different slots never overlap. */
  lemma SlotsApart(m: Mem, used: int, groups: seq<int>, r: int, s: int)
    requires Chain(m, used, groups) && 0 <= r < s < 100 * |groups|
    ensures Slot(groups, r) + 4 <= Slot(groups, s)
  {
    assert r / 100 == s / 100 || groups[r / 100] + 404 <= groups[s / 100];
  }

  /** The slot of the next row is free: no structure of the block lies over it. */
  lemma NextSlotIsIdle(m: Mem, used: int, cols: int, lay: Layout)
    requires Sound(m, used, cols, lay) && |lay.dirs| < 100 * |lay.groups|
    ensures var s := Slot(lay.groups, |lay.dirs|); HEADER <= s && s + 4 <= used && Idle(m, used, cols, lay, s, s + 4)
  {
    hide WordAt;
    var s := Slot(lay.groups, |lay.dirs|);
    var k := |lay.dirs| / 100;
    forall i | 0 <= i < |lay.groups| ensures Apart(s, s + 4, lay.groups[i] + 400, lay.groups[i] + 404) {
      SlotOffLink(m, used, lay.groups, |lay.dirs|, i);
    }
    SlotOffLink(m, used, lay.groups, |lay.dirs|, k);
    forall r | 0 <= r < |lay.dirs| ensures Apart(s, s + 4, Slot(lay.groups, r), Slot(lay.groups, r) + 4) {
      SlotsApart(m, used, lay.groups, r, |lay.dirs|);
    }
    GroupIsClear(m, used, cols, lay, k);
    SlotInGroup(lay.groups, |lay.dirs|);
  }

  lemma SlotInGroup(groups: seq<int>, r: int)
    requires 0 <= r < 100 * |groups|
    ensures groups[r / 100] <= Slot(groups, r) && Slot(groups, r) + 4 <= groups[r / 100] + 400
  {
  }

  /** A zeroed directory behind everything in use, entered in the next slot, adds a row of nulls. */
  lemma AddRow(m: Mem, used: int, cols: int, lay: Layout, d: int, used': int)
    requires Sound(m, used, cols, lay) && |lay.dirs| < 100 * |lay.groups|
    requires used <= d && d + 12 * cols == used' <= |m|
    requires forall i | d <= i < used' :: m[i] == 0
    requires WordAt(m, Slot(lay.groups, |lay.dirs|)) == d
    ensures Sound(m, used', cols, lay.(dirs := lay.dirs + [d]))
    ensures Rows(m, used', cols, lay.(dirs := lay.dirs + [d])) == Rows(m, used, cols, lay) + [NullRow(cols)]
  {
    hide WordAt;
    var dirs := lay.dirs + [d];
    AddDirectory(m, used, cols, lay, d, used');
    forall r, c | 0 <= r < |dirs| && 0 <= c < cols
      ensures WordAt(m, At(dirs, r, c)) <= 4 && Clear(m, used', cols, lay.(dirs := dirs), At(dirs, r, c))
    {
      AddCell(m, used, cols, lay, d, used', r, c);
    }
    forall r, c, s, e | 0 <= r < |dirs| && 0 <= c < cols && 0 <= s < |dirs| && 0 <= e < cols && (r != s || c != e)
      ensures PayApart(m, At(dirs, r, c), At(dirs, s, e))
    {
      AddPayApart(m, used, cols, lay, d, used', r, c, s, e);
    }
    AddedRows(m, used, cols, lay, d, used');
  }

  lemma AddDirectory(m: Mem, used: int, cols: int, lay: Layout, d: int, used': int)
    requires 0 <= cols && Chain(m, used, lay.groups) && Directories(m, used, cols, lay)
    requires |lay.dirs| < 100 * |lay.groups|
    requires used <= d && d + 12 * cols == used' <= |m|
    requires WordAt(m, Slot(lay.groups, |lay.dirs|)) == d
    ensures Chain(m, used', lay.groups) && Directories(m, used', cols, lay.(dirs := lay.dirs + [d]))
  {
    hide WordAt;
    var dirs := lay.dirs + [d];
    forall r | 0 <= r < |dirs| ensures WordAt(m, Slot(lay.groups, r)) == dirs[r] {}
  }

  lemma AddCell(m: Mem, used: int, cols: int, lay: Layout, d: int, used': int, r: int, c: int)
    requires Sound(m, used, cols, lay) && used <= d && d + 12 * cols == used' <= |m|
    requires forall i | d <= i < used' :: m[i] == 0
    requires Chain(m, used', lay.groups) && Directories(m, used', cols, lay.(dirs := lay.dirs + [d]))
    requires 0 <= r < |lay.dirs| + 1 && 0 <= c < cols
    ensures var lay' := lay.(dirs := lay.dirs + [d]);
            WordAt(m, At(lay'.dirs, r, c)) <= 4 && Clear(m, used', cols, lay', At(lay'.dirs, r, c))
  {
    hide WordAt;
    if r < |lay.dirs| {
      assert Clear(m, used, cols, lay, At(lay.dirs, r, c));
      assert At(lay.dirs + [d], r, c) == At(lay.dirs, r, c);
    } else {
      ZeroCell(m, d, cols, c);
    }
  }

  lemma AddPayApart(m: Mem, used: int, cols: int, lay: Layout, d: int, used': int, r: int, c: int, s: int, e: int)
    requires Sound(m, used, cols, lay) && used <= d && d + 12 * cols == used' <= |m|
    requires forall i | d <= i < used' :: m[i] == 0
    requires 0 <= r < |lay.dirs| + 1 && 0 <= c < cols && 0 <= s < |lay.dirs| + 1 && 0 <= e < cols
    requires r != s || c != e
    ensures var dirs := lay.dirs + [d];
      0 <= At(dirs, r, c) <= |m| - 12 && 0 <= At(dirs, s, e) <= |m| - 12 && PayApart(m, At(dirs, r, c), At(dirs, s, e))
  {
    hide WordAt;
    if r < |lay.dirs| { assert Clear(m, used, cols, lay, At(lay.dirs, r, c)); } else { ZeroCell(m, d, cols, c); }
    if s < |lay.dirs| { assert Clear(m, used, cols, lay, At(lay.dirs, s, e)); } else { ZeroCell(m, d, cols, e); }
    if r < |lay.dirs| && s < |lay.dirs| { assert PayApart(m, At(lay.dirs, r, c), At(lay.dirs, s, e)); }
  }

  lemma AddedRows(m: Mem, used: int, cols: int, lay: Layout, d: int, used': int)
    requires Sound(m, used, cols, lay) && Sound(m, used', cols, lay.(dirs := lay.dirs + [d]))
    requires used <= d && used' == d + 12 * cols <= |m| && forall i | d <= i < used' :: m[i] == 0
    ensures Rows(m, used', cols, lay.(dirs := lay.dirs + [d])) == Rows(m, used, cols, lay) + [NullRow(cols)]
  {
    hide WordAt;
    var lay' := lay.(dirs := lay.dirs + [d]);
    forall r | 0 <= r < |lay.dirs| ensures Row(m, used', cols, lay', r) == Row(m, used, cols, lay, r) {
      forall c | 0 <= c < cols ensures Row(m, used', cols, lay', r)[c] == Row(m, used, cols, lay, r)[c] {
        assert At(lay'.dirs, r, c) == At(lay.dirs, r, c);
      }
    }
    forall c | 0 <= c < cols ensures Row(m, used', cols, lay', |lay.dirs|)[c] == Null {
      ZeroCell(m, d, cols, c);
    }
    assert Row(m, used', cols, lay', |lay.dirs|) == NullRow(cols);
  }

  lemma ZeroCell(m: Mem, d: int, cols: int, c: int)
    requires 0 <= d && d + 12 * cols <= |m| && 0 <= c < cols
    requires forall i | d <= i < d + 12 * cols :: m[i] == 0
    ensures WordAt(m, d + 12 * c) == 0
  {
  }

  lemma DropRow(m: Mem, used: int, cols: int, lay: Layout)
    requires Sound(m, used, cols, lay) && |lay.dirs| > 0
    ensures var lay' := lay.(dirs := lay.dirs[..|lay.dirs| - 1]);
            Sound(m, used, cols, lay') && Rows(m, used, cols, lay') == Rows(m, used, cols, lay)[..|lay.dirs| - 1]
  {
    hide WordAt;
    var n := |lay.dirs| - 1;
    var dirs := lay.dirs[..n];
    var lay' := lay.(dirs := dirs);
    DropDirectory(m, used, cols, lay);
    forall r, c | 0 <= r < n && 0 <= c < cols
      ensures WordAt(m, At(dirs, r, c)) <= 4 && Clear(m, used, cols, lay', At(dirs, r, c))
    {
      assert At(dirs, r, c) == At(lay.dirs, r, c);
      assert Clear(m, used, cols, lay, At(lay.dirs, r, c));
    }
    forall r, c, s, e | 0 <= r < n && 0 <= c < cols && 0 <= s < n && 0 <= e < cols && (r != s || c != e)
      ensures PayApart(m, At(dirs, r, c), At(dirs, s, e))
    {
      assert PayApart(m, At(lay.dirs, r, c), At(lay.dirs, s, e));
    }
    DroppedRows(m, used, cols, lay);
  }

  lemma DropDirectory(m: Mem, used: int, cols: int, lay: Layout)
    requires Chain(m, used, lay.groups) && Directories(m, used, cols, lay) && |lay.dirs| > 0
    ensures Directories(m, used, cols, lay.(dirs := lay.dirs[..|lay.dirs| - 1]))
  {
  }

  lemma DroppedRows(m: Mem, used: int, cols: int, lay: Layout)
    requires Sound(m, used, cols, lay) && |lay.dirs| > 0
    requires Sound(m, used, cols, lay.(dirs := lay.dirs[..|lay.dirs| - 1]))
    ensures Rows(m, used, cols, lay.(dirs := lay.dirs[..|lay.dirs| - 1])) == Rows(m, used, cols, lay)[..|lay.dirs| - 1]
  {
    var lay' := lay.(dirs := lay.dirs[..|lay.dirs| - 1]);
    forall r | 0 <= r < |lay'.dirs| ensures Row(m, used, cols, lay', r) == Row(m, used, cols, lay, r) {
      forall c | 0 <= c < cols ensures Row(m, used, cols, lay', r)[c] == Row(m, used, cols, lay, r)[c] {
        assert At(lay'.dirs, r, c) == At(lay.dirs, r, c);
      }
    }
  }

  /** Different cells of the table occupy different bytes. */
  lemma CellsApart(m: Mem, used: int, cols: int, lay: Layout, r: int, c: int, s: int, d: int)
    requires Chain(m, used, lay.groups) && Directories(m, used, cols, lay)
    requires 0 <= r < |lay.dirs| && 0 <= c < cols && 0 <= s < |lay.dirs| && 0 <= d < cols && (r != s || c != d)
    ensures Apart(At(lay.dirs, r, c), At(lay.dirs, r, c) + 12, At(lay.dirs, s, d), At(lay.dirs, s, d) + 12)
  {
    if r < s {
      assert lay.dirs[r] + 12 * cols <= lay.dirs[s];
    } else if s < r {
      assert lay.dirs[s] + 12 * cols <= lay.dirs[r];
    }
  }

  /** The new content of a cell unit: a scalar, or a payload freshly allocated in `[used, used')`. */
  ghost predicate FreshCell(n: Mem, p: int, used: int, used': int)
    requires 0 <= p && p + 12 <= |n|
  {
    && WordAt(n, p) <= 4
    && (if WordAt(n, p) in {3, 4}
        then used <= PayLo(n, p) <= PayHi(n, p) <= used' && PayLo(n, p) < |n|
        else true)
  }

  /** Rewriting one cell unit replaces that cell of the table and no other. */
  lemma WriteCell(m: Mem, n: Mem, used: int, used': int, cols: int, lay: Layout, r: int, c: int)
    requires Sound(m, used, cols, lay) && 0 <= r < |lay.dirs| && 0 <= c < cols && used <= used' <= |m|
    requires var p := At(lay.dirs, r, c); SameOutside(m, n, p, p + 12) && FreshCell(n, p, used, used')
    ensures Sound(n, used', cols, lay)
    ensures var p := At(lay.dirs, r, c);
      && 0 <= PayLo(n, p) <= PayHi(n, p) <= |n|
      && var rows := Rows(m, used, cols, lay);
         Rows(n, used', cols, lay) == rows[r := rows[r][c := CellAt(n, p)]]
  {
    hide WordAt;
    var p := At(lay.dirs, r, c);
    WriteFrame(m, n, used, used', cols, lay, r, c);
    forall s, d | 0 <= s < |lay.dirs| && 0 <= d < cols
      ensures WordAt(n, At(lay.dirs, s, d)) <= 4 && Clear(n, used', cols, lay, At(lay.dirs, s, d))
      ensures (s == r && d == c) || SameCell(m, n, At(lay.dirs, s, d))
    {
      if s == r && d == c {
        WrittenCell(m, n, used, used', cols, lay, r, c);
      } else {
        OtherCell(m, n, used, used', cols, lay, r, c, s, d);
      }
    }
    forall s, d, s', d' | 0 <= s < |lay.dirs| && 0 <= d < cols && 0 <= s' < |lay.dirs| && 0 <= d' < cols
                       && (s != s' || d != d')
      ensures PayApart(n, At(lay.dirs, s, d), At(lay.dirs, s', d'))
    {
      WritePayApart(m, n, used, used', cols, lay, r, c, s, d, s', d');
    }
    WrittenRows(m, n, used, used', cols, lay, r, c);
  }

  lemma WriteFrame(m: Mem, n: Mem, used: int, used': int, cols: int, lay: Layout, r: int, c: int)
    requires 0 <= cols && Chain(m, used, lay.groups) && Directories(m, used, cols, lay)
    requires 0 <= r < |lay.dirs| && 0 <= c < cols && used <= used' <= |m|
    requires var p := At(lay.dirs, r, c); SameOutside(m, n, p, p + 12)
    ensures Chain(n, used', lay.groups) && Directories(n, used', cols, lay)
  {
    hide WordAt;
    var p := At(lay.dirs, r, c);
    forall i | 0 <= i < |lay.groups|
      ensures Apart(p, p + 12, lay.groups[i], lay.groups[i] + 404)
    {
      assert Apart(lay.dirs[r], lay.dirs[r] + 12 * cols, lay.groups[i], lay.groups[i] + 404);
    }
    ChainFrame(m, n, used, lay.groups, p, p + 12);
    forall s | 0 <= s < |lay.dirs| ensures Apart(p, p + 12, Slot(lay.groups, s), Slot(lay.groups, s) + 4) {
      SlotInGroup(lay.groups, s);
    }
    DirectoriesFrame(m, n, used, cols, lay, p, p + 12);
    GrowFrame(n, used, used', cols, lay);
  }

  lemma GrowFrame(m: Mem, used: int, used': int, cols: int, lay: Layout)
    requires Chain(m, used, lay.groups) && Directories(m, used, cols, lay) && used <= used' <= |m|
    ensures Chain(m, used', lay.groups) && Directories(m, used', cols, lay)
  {
  }

  lemma WrittenCell(m: Mem, n: Mem, used: int, used': int, cols: int, lay: Layout, r: int, c: int)
    requires Chain(m, used, lay.groups) && Directories(m, used, cols, lay) && |m| == |n|
    requires 0 <= r < |lay.dirs| && 0 <= c < cols && used <= used' <= |m|
    requires FreshCell(n, At(lay.dirs, r, c), used, used')
    ensures Clear(n, used', cols, lay, At(lay.dirs, r, c))
  {
    hide WordAt;
  }

  lemma OtherCell(m: Mem, n: Mem, used: int, used': int, cols: int, lay: Layout, r: int, c: int, s: int, d: int)
    requires Sound(m, used, cols, lay) && used <= used' <= |m|
    requires 0 <= r < |lay.dirs| && 0 <= c < cols && 0 <= s < |lay.dirs| && 0 <= d < cols && (r != s || c != d)
    requires var p := At(lay.dirs, r, c); SameOutside(m, n, p, p + 12)
    ensures SameCell(m, n, At(lay.dirs, s, d))
    ensures WordAt(n, At(lay.dirs, s, d)) <= 4 && Clear(n, used', cols, lay, At(lay.dirs, s, d))
  {
    hide WordAt;
    var p, q := At(lay.dirs, r, c), At(lay.dirs, s, d);
    assert Clear(m, used, cols, lay, q);
    CellsApart(m, used, cols, lay, r, c, s, d);
    assert Apart(PayLo(m, q), PayHi(m, q), lay.dirs[r], lay.dirs[r] + 12 * cols);
    CellFrame(m, n, p, p + 12, q);
  }

  lemma WritePayApart(m: Mem, n: Mem, used: int, used': int, cols: int, lay: Layout, r: int, c: int,
                      s: int, d: int, s': int, d': int)
    requires Sound(m, used, cols, lay) && used <= used' <= |m|
    requires 0 <= r < |lay.dirs| && 0 <= c < cols
    requires 0 <= s < |lay.dirs| && 0 <= d < cols && 0 <= s' < |lay.dirs| && 0 <= d' < cols && (s != s' || d != d')
    requires var p := At(lay.dirs, r, c); SameOutside(m, n, p, p + 12) && FreshCell(n, p, used, used')
    ensures PayApart(n, At(lay.dirs, s, d), At(lay.dirs, s', d'))
  {
    hide WordAt;
    var q, q' := At(lay.dirs, s, d), At(lay.dirs, s', d');
    assert Clear(m, used, cols, lay, q) && Clear(m, used, cols, lay, q') && PayApart(m, q, q');
    if (s, d) != (r, c) { OtherCell(m, n, used, used', cols, lay, r, c, s, d); }
    if (s', d') != (r, c) { OtherCell(m, n, used, used', cols, lay, r, c, s', d'); }
  }

  lemma WrittenRows(m: Mem, n: Mem, used: int, used': int, cols: int, lay: Layout, r: int, c: int)
    requires Sound(m, used, cols, lay) && Sound(n, used', cols, lay) && 0 <= r < |lay.dirs| && 0 <= c < cols
    requires forall s, d | 0 <= s < |lay.dirs| && 0 <= d < cols ::
               (s == r && d == c) || SameCell(m, n, At(lay.dirs, s, d))
    ensures var p := At(lay.dirs, r, c);
      && 0 <= PayLo(n, p) <= PayHi(n, p) <= |n|
      && var rows := Rows(m, used, cols, lay);
         Rows(n, used', cols, lay) == rows[r := rows[r][c := CellAt(n, p)]]
  {
    hide WordAt;
    var p := At(lay.dirs, r, c);
    assert Clear(n, used', cols, lay, p);
    var rows := Rows(m, used, cols, lay);
    forall s | 0 <= s < |lay.dirs|
      ensures Row(n, used', cols, lay, s) == if s == r then rows[r][c := CellAt(n, p)] else rows[s]
    {
      forall d | 0 <= d < cols
        ensures Row(n, used', cols, lay, s)[d] == if s == r && d == c then CellAt(n, p) else Row(m, used, cols, lay, s)[d]
      {
        assert (s == r && d == c) || SameCell(m, n, At(lay.dirs, s, d));
      }
    }
  }
}
