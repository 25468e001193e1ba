/**
  Hit-testing a pointer position against the grid: the cell is found by
  dividing the position by the cell size, and positions beyond the last
  row or column are ignored.
 */
module HitTest {
  import opened Options
  import opened KeyTable
  import opened Layout

  /** The grid rectangle of cell `c` for cells `w` wide and `h` tall,
      whether or not a region was created for it. */
  predicate InCell(c: Cell, w: nat, h: nat, ex: nat, ey: nat) {
    c.row * h <= ey < (c.row + 1) * h && c.col * w <= ex < (c.col + 1) * w
  }

  /** `mx = event.x / w`, `my = event.y / h`, and no cell when
      `mx >= 14 || my >= 4`.  The division needs non-zero cell sizes. */
  function GridCell(ex: nat, ey: nat, w: nat, h: nat): (r: Option<Cell>)
    requires w > 0 && h > 0
    ensures r.Some? <==> ex < Columns * w && ey < Rows * h
    ensures r.Some? ==> InGrid(r.value) && InCell(r.value, w, h, ex, ey)
  {
    var mx, my := ex / w, ey / h;
    QuotientBound(ex, w, Columns);
    QuotientBound(ey, h, Rows);
    if mx >= Columns || my >= Rows then None else Some(Cell(my, mx))
  }

  /** The quotient `a / d` lies below `n` exactly when `a` lies below `n * d`,
      and `a` lies in the `d`-wide slot the quotient names. */
  lemma QuotientBound(a: nat, d: nat, n: nat)
    requires d > 0
    ensures (a / d) * d <= a < (a / d + 1) * d
    ensures a / d < n <==> a < n * d
  {
    var q := a / d;
    assert q * d + a % d == a;
    if q < n {
      assert q + 1 <= n;
      assert (q + 1) * d <= n * d;
    } else {
      assert n * d <= q * d;
    }
  }

  /** The quotient `a / d` is the `k` whose `d`-wide slot holds `a`. */
  lemma {:induction false} CellQuotient(a: nat, d: nat, k: nat)
    requires d > 0 && k * d <= a < (k + 1) * d
    ensures a / d == k
  {
    QuotientBound(a, d, k);
    QuotientBound(a, d, k + 1);
  }

  /** Hit-test and layout agree: a point of the grid hits cell `c` exactly
      when it lies in `c`'s rectangle. */
  lemma {:induction false} HitIffInCell(c: Cell, w: nat, h: nat, ex: nat, ey: nat)
    requires w > 0 && h > 0 && InGrid(c)
    ensures GridCell(ex, ey, w, h) == Some(c) <==> InCell(c, w, h, ex, ey)
  {
    if InCell(c, w, h, ex, ey) {
      CellQuotient(ex, w, c.col);
      CellQuotient(ey, h, c.row);
    }
  }

  /** The rectangle of a laid-out region is the rectangle of its cell. */
  lemma RegionIsCell(c: Cell, w: nat, h: nat, ex: nat, ey: nat)
    requires InGrid(c) && HasLabel(c.row, c.col)
    ensures Contains(RegionFor(c, w, h), ex, ey) <==> InCell(c, w, h, ex, ey)
  {
    assert c.row * h + h == (c.row + 1) * h;
    assert c.col * w + w == (c.col + 1) * w;
  }

  /** No point lies in the regions of two different cells. */
  lemma {:induction false} RegionsDisjoint(c: Cell, d: Cell, w: nat, h: nat, ex: nat, ey: nat)
    requires InGrid(c) && HasLabel(c.row, c.col)
    requires InGrid(d) && HasLabel(d.row, d.col)
    requires c != d
    ensures !(Contains(RegionFor(c, w, h), ex, ey) && Contains(RegionFor(d, w, h), ex, ey))
  {
    RegionIsCell(c, w, h, ex, ey);
    RegionIsCell(d, w, h, ex, ey);
    if w > 0 && h > 0 {
      HitIffInCell(c, w, h, ex, ey);
      HitIffInCell(d, w, h, ex, ey);
    }
  }
}
