/**
  Layout of the key table on the screen: the cell size, the rectangle and
  label position of each key's region, and its checkerboard background.
 */
module Layout {
  import opened KeyTable

  /** A grid position: row `y`, column `x`. */
  datatype Cell = Cell(row: nat, col: nat)

  /** The colour pairs the program defines. */
  datatype Colour = WhiteBlack | BlackWhite | BlackGreen

  /** A key's sub-window: its rectangle on the screen, the label painted
      into it and at which offsets, and its background colour. */
  datatype Region = Region(
    top: nat, left: nat, height: nat, width: nat,
    labelRow: nat, labelCol: nat, text: CString,
    colour: Colour)

  predicate InGrid(c: Cell) {
    c.row < Rows && c.col < Columns
  }

  /** Every cell of the 4 x 14 grid. */
  const AllCells: set<Cell> := set y, x | 0 <= y < Rows && 0 <= x < Columns :: Cell(y, x)

  /** `w = COLS / 14`: the widest cell of which 14 fit across the screen. */
  function CellWidth(cols: nat): (w: nat)
    ensures w * Columns <= cols < (w + 1) * Columns
  {
    cols / Columns
  }

  /** `h = LINES / 4`: the tallest cell of which 4 fit down the screen. */
  function CellHeight(lines: nat): (h: nat)
    ensures h * Rows <= lines < (h + 1) * Rows
  {
    lines / Rows
  }

  /** The column at which a label of `len` bytes starts in a cell `w`
      wide: centred, with any odd column on the right, and at 0 when the
      label is wider than the cell. */
  function LabelColumn(w: nat, len: nat): (tx: nat)
    ensures len <= w ==> tx + len + tx <= w <= tx + len + tx + 1
    ensures w < len ==> tx == 0
  {
    if len <= w then (w - len) / 2 else 0
  }

  /** The checkerboard background: odd `x + y` is white on black, even
      `x + y` black on white. */
  function BaseColour(c: Cell): (colour: Colour)
    ensures colour != BlackGreen
  {
    if (c.col + c.row) % 2 == 1 then WhiteBlack else BlackWhite
  }

  /** The background depends on the parity of `x + y` and on nothing else. */
  lemma BaseColourParity(c: Cell, d: Cell)
    ensures BaseColour(c) == BaseColour(d) <==> (c.row + c.col) % 2 == (d.row + d.col) % 2
  {
  }

  /** Horizontally and vertically adjacent keys never share a background. */
  lemma {:induction false} NeighboursDiffer(c: Cell)
    ensures BaseColour(c) != BaseColour(Cell(c.row, c.col + 1))
    ensures BaseColour(c) != BaseColour(Cell(c.row + 1, c.col))
  {
    BaseColourParity(c, Cell(c.row, c.col + 1));
    BaseColourParity(c, Cell(c.row + 1, c.col));
  }

  /** The region created for a labelled cell, `subwin(stdscr, h, w, y*h, x*w)`,
      with its label at row `h/2` and its checkerboard background. */
  function RegionFor(c: Cell, w: nat, h: nat): Region
    requires InGrid(c) && HasLabel(c.row, c.col)
  {
    var name := KeyAt(c.row, c.col).displayName.value;
    Region(c.row * h, c.col * w, h, w, h / 2, LabelColumn(w, |name|), name, BaseColour(c))
  }

  /** Whether the screen point at column `ex`, row `ey` lies in the region. */
  predicate Contains(r: Region, ex: nat, ey: nat) {
    r.top <= ey < r.top + r.height && r.left <= ex < r.left + r.width
  }

  /** The regions after layout: one for each cell with a display name, and
      none for the zero-initialised cells. */
  function Regions(w: nat, h: nat): (m: map<Cell, Region>)
    ensures forall c :: c in m <==> InGrid(c) && HasLabel(c.row, c.col)
    ensures forall c :: c in m ==> m[c] == RegionFor(c, w, h)
  {
    map c | c in AllCells && HasLabel(c.row, c.col) :: RegionFor(c, w, h)
  }

  /** A region's label starts inside it: on its middle row and, when it
      fits, wholly within its width. */
  lemma LabelInsideRegion(c: Cell, w: nat, h: nat)
    requires InGrid(c) && HasLabel(c.row, c.col) && h > 0
    ensures var r := RegionFor(c, w, h);
      r.labelRow < r.height && (|r.text| <= r.width ==> r.labelCol + |r.text| <= r.width)
  {
  }

  /** Every region lies within the screen it was laid out on. */
  lemma {:induction false} RegionOnScreen(c: Cell, cols: nat, lines: nat)
    requires InGrid(c) && HasLabel(c.row, c.col)
    ensures var r := RegionFor(c, CellWidth(cols), CellHeight(lines));
      r.top + r.height <= lines && r.left + r.width <= cols
  {
    CellFits(c.row, Rows, CellHeight(lines), lines);
    CellFits(c.col, Columns, CellWidth(cols), cols);
  }

  /** Cell `i` of `n` cells of size `size` ends within `total` when all `n` fit. */
  lemma CellFits(i: nat, n: nat, size: nat, total: nat)
    requires i < n && size * n <= total
    ensures i * size + size <= total
  {
    assert i * size + size == (i + 1) * size;
    assert (i + 1) * size <= n * size;
  }

  /** `(w - strlen(name)) / 2` as the C code computes it: `w` is converted
      to the 64-bit unsigned `size_t`, the difference wraps modulo 2^64,
      the quotient is converted to a 32-bit `int` (modulo 2^32, as GCC
      defines it), and a negative result is then clamped to 0. */
  function LabelColumnAsWritten(w: nat, len: nat): int
    requires w < 0x8000_0000 && len < 0x8000_0000
  {
    var difference := (w - len) % 0x1_0000_0000_0000_0000;
    var quotient := difference / 2;
    var low := quotient % 0x1_0000_0000;
    var tx := if low < 0x8000_0000 then low else low - 0x1_0000_0000;
    if tx < 0 then 0 else tx
  }

  /** With a 64-bit `size_t` and a 32-bit `int` the unsigned wrap-around is
      harmless: whenever the label is wider than the cell, the wrapped
      quotient reads as a negative `int` and is clamped to 0, so the C code
      computes exactly LabelColumn. */
  lemma {:induction false} LabelColumnWrapClamps(w: nat, len: nat)
    requires w < 0x8000_0000 && len < 0x8000_0000
    ensures LabelColumnAsWritten(w, len) == LabelColumn(w, len)
  {
    var difference := (w - len) % 0x1_0000_0000_0000_0000;
    var quotient := difference / 2;
    if len > w {
      var d := len - w;
      var e := (d + 1) / 2;
      assert difference == 0x1_0000_0000_0000_0000 - d;
      assert quotient == 0x8000_0000_0000_0000 - e;
      assert quotient == 0x7FFF_FFFF * 0x1_0000_0000 + (0x1_0000_0000 - e);
      assert quotient % 0x1_0000_0000 == 0x1_0000_0000 - e;
    }
  }

  /** The same computation where `size_t` and `int` are both 32 bits wide:
      the difference wraps modulo 2^32, and the quotient, below 2^31, is
      already a non-negative `int`, so the clamp never applies. */
  function LabelColumnAsWritten32(w: nat, len: nat): int
    requires w < 0x8000_0000 && len < 0x8000_0000
  {
    var difference := (w - len) % 0x1_0000_0000;
    var quotient := difference / 2;
    var tx := if quotient < 0x8000_0000 then quotient else quotient - 0x1_0000_0000;
    if tx < 0 then 0 else tx
  }

  /** With a 32-bit `size_t`, a label wider than its cell gets a column of
      at least 2^30 instead of 0, so it is placed far outside the region.
      On an 80-column screen the cells are 5 wide and BACKSPACE (9 bytes)
      lands at column 2^31 - 2. */
  lemma {:induction false} LabelColumnWrap32Overflows(w: nat, len: nat)
    requires w < len < 0x8000_0000
    ensures LabelColumnAsWritten32(w, len) >= 0x4000_0000
    ensures LabelColumnAsWritten32(w, len) > LabelColumn(w, len) == 0
    ensures LabelColumnAsWritten32(5, 9) == 0x7FFF_FFFE && CellWidth(80) == 5
  {
    var d := len - w;
    var difference := (w - len) % 0x1_0000_0000;
    assert difference == 0x1_0000_0000 - d;
    assert difference / 2 >= 0x4000_0000;
    assert (5 - 9) % 0x1_0000_0000 == 0xFFFF_FFFC;
  }
}
