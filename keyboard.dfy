/**
  The keyboard program: it lays the key table out as sub-windows of the
  screen, then reads input until `q`, and for each button-1 press on a key
  writes that key's bytes to file descriptor 3 while flashing the key.

  The screen is a map from cells to their regions (a cell has a region
  exactly when its `win` is non-NULL) and file descriptor 3 is the sequence
  of bytes written to it.
 */
module Keyboard {
  import opened Options
  import opened KeyTable
  import opened Layout
  import opened HitTest

  /** `BUTTON1_PRESSED` in an ncurses `mmask_t`. */
  const Button1Pressed: bv32 := 0x2

  /** A mouse event as `getmouse` reports it: the screen column and row and
      the button state bits. */
  datatype MouseEvent = MouseEvent(x: nat, y: nat, bstate: bv32)

  /** What one turn of the input loop reads: a character from `getch`, or
      `KEY_MOUSE` together with the result of `getmouse` (None when it does
      not return OK). */
  datatype Input = Typed(ch: int) | MouseReport(event: Option<MouseEvent>)

  /** The input that ends the loop. */
  predicate IsQuit(i: Input) {
    i.Typed? && i.ch == 'q' as int
  }

  /** A mouse report with button 1 pressed: the only input that acts. */
  predicate IsPress(i: Input) {
    i.MouseReport? && i.event.Some? && i.event.value.bstate & Button1Pressed != 0
  }

  /** The press handler divides by the cell size without a check, so a
      press needs non-zero cell sizes. */
  predicate PressDefined(i: Input, w: nat, h: nat) {
    IsPress(i) ==> w > 0 && h > 0
  }

  /** Every input the loop reads, up to the first `q`, is defined. */
  predicate InputsDefined(inputs: seq<Input>, w: nat, h: nat)
    decreases |inputs|
  {
    inputs == [] || IsQuit(inputs[0])
    || (PressDefined(inputs[0], w, h) && InputsDefined(inputs[1..], w, h))
  }

  /** The cell whose region a press at the event's position hits: the grid
      cell of the position, when it is inside the grid and has a region. */
  function PressedCell(e: MouseEvent, w: nat, h: nat, regions: map<Cell, Region>): (r: Option<Cell>)
    requires w > 0 && h > 0
    ensures r.Some? ==> r.value in regions && InGrid(r.value) && InCell(r.value, w, h, e.x, e.y)
    ensures forall c :: c in regions && InGrid(c) && InCell(c, w, h, e.x, e.y) ==> r == Some(c)
  {
    var hit := GridCell(e.x, e.y, w, h);
    assert forall c :: InGrid(c) && InCell(c, w, h, e.x, e.y) ==> hit == Some(c) by {
      forall c | InGrid(c) && InCell(c, w, h, e.x, e.y) ensures hit == Some(c) {
        HitIffInCell(c, w, h, e.x, e.y);
      }
    }
    if hit.Some? && hit.value in regions then hit else None
  }

  /** The bytes written for a button-1 press on the laid-out keyboard. */
  function PressOutput(e: MouseEvent, w: nat, h: nat): seq<Byte>
    requires w > 0 && h > 0
  {
    match PressedCell(e, w, h, Regions(w, h))
    case None => []
    case Some(c) => Payload(KeyAt(c.row, c.col))
  }

  /** The bytes written in answer to one input on the laid-out keyboard. */
  function Response(i: Input, w: nat, h: nat): seq<Byte>
    requires PressDefined(i, w, h)
  {
    if IsPress(i) then PressOutput(i.event.value, w, h) else []
  }

  /** The bytes written for a sequence of inputs: the responses to the
      inputs before the first `q`. */
  function Transcript(inputs: seq<Input>, w: nat, h: nat): seq<Byte>
    requires InputsDefined(inputs, w, h)
    decreases |inputs|
  {
    if inputs == [] || IsQuit(inputs[0]) then []
    else Response(inputs[0], w, h) + Transcript(inputs[1..], w, h)
  }

  /** An input other than `q` at the head of the inputs is answered, and
      the rest follow. */
  lemma TranscriptCons(inputs: seq<Input>, w: nat, h: nat)
    requires inputs != [] && !IsQuit(inputs[0]) && InputsDefined(inputs, w, h)
    ensures PressDefined(inputs[0], w, h) && InputsDefined(inputs[1..], w, h)
    ensures Transcript(inputs, w, h) == Response(inputs[0], w, h) + Transcript(inputs[1..], w, h)
  {
  }

  /** A press on a key writes exactly that key's escape sequence, or its
      display name when it has none; anything else (another character, a
      failed `getmouse`, a report without button 1, a position outside
      every key) writes nothing. */
  lemma {:induction false} ResponseToPress(i: Input, w: nat, h: nat)
    requires PressDefined(i, w, h)
    ensures forall c :: (IsPress(i) && InGrid(c) && HasLabel(c.row, c.col)
                         && InCell(c, w, h, i.event.value.x, i.event.value.y))
                         ==> Response(i, w, h) == Payload(KeyAt(c.row, c.col))
    ensures (!IsPress(i) || (forall c :: InGrid(c) && HasLabel(c.row, c.col)
                                       ==> !InCell(c, w, h, i.event.value.x, i.event.value.y)))
            ==> Response(i, w, h) == []
  {
    if IsPress(i) {
      var e := i.event.value;
      var r := PressedCell(e, w, h, Regions(w, h));
      if r.Some? {
        assert HasLabel(r.value.row, r.value.col);
      }
    }
  }

  /** What a press writes, in the terms Press computes it: the grid cell is
      the quotient of the position by the cell size. */
  lemma PressOutputByQuotient(e: MouseEvent, w: nat, h: nat)
    requires w > 0 && h > 0
    ensures PressOutput(e, w, h) ==
      if e.x / w < Columns && e.y / h < Rows && Cell(e.y / h, e.x / w) in Regions(w, h)
      then Payload(KeyAt(e.y / h, e.x / w)) else []
  {
  }

  /** A press beyond the last column or the last row writes nothing. */
  lemma {:induction false} PressOutsideGrid(e: MouseEvent, w: nat, h: nat)
    requires w > 0 && h > 0
    requires e.x >= Columns * w || e.y >= Rows * h
    ensures PressOutput(e, w, h) == []
  {
    var hit := GridCell(e.x, e.y, w, h);
    assert hit.None?;
  }

  /** On a 140 x 40 screen the cells are 10 x 10: a press at column 45,
      row 15 hits `r` (row 1, column 4), one at column 135, row 5 hits
      BACKSPACE and writes a backspace byte, and one at column 135, row 35
      falls on the empty last cell of row 3. */
  lemma {:induction false} PressExamples()
    ensures PressOutput(MouseEvent(45, 15, Button1Pressed), 10, 10) == Ascii("r")
    ensures PressOutput(MouseEvent(135, 5, Button1Pressed), 10, 10) == [8]
    ensures PressOutput(MouseEvent(135, 35, Button1Pressed), 10, 10) == []
  {
    var r, backspace, empty := Cell(1, 4), Cell(0, 13), Cell(3, 13);
    EscapeSequences(1, 4);
    EscapeSequences(0, 13);
    OccupiedCells(1, 4);
    OccupiedCells(3, 13);
    HitIffInCell(r, 10, 10, 45, 15);
    HitIffInCell(backspace, 10, 10, 135, 5);
    HitIffInCell(empty, 10, 10, 135, 35);
    assert KeyAt(1, 4) == Plain("r");
  }

  /** The inputs before `q` decide the transcript, whatever follows. */
  lemma {:induction false} TranscriptAppend(a: seq<Input>, b: seq<Input>, w: nat, h: nat)
    requires forall k :: 0 <= k < |a| ==> !IsQuit(a[k]) && PressDefined(a[k], w, h)
    requires InputsDefined(b, w, h)
    ensures InputsDefined(a, w, h) && InputsDefined(a + b, w, h)
    ensures Transcript(a + b, w, h) == Transcript(a, w, h) + Transcript(b, w, h)
    decreases |a|
  {
    if a == [] {
      assert a + b == b;
    } else {
      var tail := a[1..];
      TailQuiet(a, w, h);
      TranscriptAppend(tail, b, w, h);
      TranscriptSplit(a, b, w, h);
    }
  }

  /** The inputs after the first of a run without `q` are without `q`. */
  lemma TailQuiet(a: seq<Input>, w: nat, h: nat)
    requires a != [] && forall k :: 0 <= k < |a| ==> !IsQuit(a[k]) && PressDefined(a[k], w, h)
    ensures forall k :: 0 <= k < |a[1..]| ==> !IsQuit(a[1..][k]) && PressDefined(a[1..][k], w, h)
  {
    forall k | 0 <= k < |a[1..]|
      ensures !IsQuit(a[1..][k]) && PressDefined(a[1..][k], w, h)
    {
      assert a[1..][k] == a[k + 1];
    }
  }

  /** The step of TranscriptAppend: if it holds for the inputs after the
      first, it holds for all of them. */
  lemma TranscriptSplit(a: seq<Input>, b: seq<Input>, w: nat, h: nat)
    requires a != [] && !IsQuit(a[0]) && PressDefined(a[0], w, h)
    requires InputsDefined(a[1..], w, h) && InputsDefined(b, w, h) && InputsDefined(a[1..] + b, w, h)
    requires Transcript(a[1..] + b, w, h) == Transcript(a[1..], w, h) + Transcript(b, w, h)
    ensures InputsDefined(a, w, h) && InputsDefined(a + b, w, h)
    ensures Transcript(a + b, w, h) == Transcript(a, w, h) + Transcript(b, w, h)
  {
    assert (a + b)[0] == a[0];
    assert (a + b)[1..] == a[1..] + b;
    var r := Response(a[0], w, h);
    assert Transcript(a + b, w, h) == r + Transcript(a[1..] + b, w, h);
    assert Transcript(a, w, h) == r + Transcript(a[1..], w, h);
    Associative(r, Transcript(a[1..], w, h), Transcript(b, w, h));
  }

  /** Appending bytes is associative. */
  lemma Associative(x: seq<Byte>, y: seq<Byte>, z: seq<Byte>)
    ensures x + (y + z) == (x + y) + z
  {
  }

  /** Nothing after the first `q` is ever written. */
  lemma {:induction false} TranscriptStopsAtQuit(a: seq<Input>, b: seq<Input>, w: nat, h: nat)
    requires forall k :: 0 <= k < |a| ==> !IsQuit(a[k]) && PressDefined(a[k], w, h)
    ensures InputsDefined(a, w, h) && InputsDefined(a + [Typed('q' as int)] + b, w, h)
    ensures Transcript(a + [Typed('q' as int)] + b, w, h) == Transcript(a, w, h)
  {
    var rest := [Typed('q' as int)] + b;
    assert a + [Typed('q' as int)] + b == a + rest;
    TranscriptAppend(a, rest, w, h);
  }

  /** Whether the layout loop, about to visit row `y`, column `x`, has
      already visited cell `c`. */
  predicate Visited(c: Cell, y: nat, x: nat) {
    c.row < y || (c.row == y && c.col < x)
  }

  /** The regions after the layout loop has visited the cells before row
      `y`, column `x`: the labelled visited cells have their regions, every
      other cell keeps the window it had before the loop. */
  ghost predicate LaidOut(regions: map<Cell, Region>, initial: map<Cell, Region>,
                          w: nat, h: nat, y: nat, x: nat)
  {
    && (forall c :: c in regions <==>
          c in initial || (InGrid(c) && HasLabel(c.row, c.col) && Visited(c, y, x)))
    && (forall c :: c in regions ==>
          regions[c] == if InGrid(c) && HasLabel(c.row, c.col) && Visited(c, y, x)
                        then RegionFor(c, w, h) else initial[c])
  }

  /** One visit of the inner loop to a labelled cell: it gets its region. */
  lemma LaidOutVisit(regions: map<Cell, Region>, initial: map<Cell, Region>,
                     w: nat, h: nat, y: nat, x: nat)
    requires y < Rows && x < Columns && HasLabel(y, x)
    requires LaidOut(regions, initial, w, h, y, x)
    ensures LaidOut(regions[Cell(y, x) := RegionFor(Cell(y, x), w, h)], initial, w, h, y, x + 1)
  {
    var updated := regions[Cell(y, x) := RegionFor(Cell(y, x), w, h)];
    forall c
      ensures c in updated <==>
        c in initial || (InGrid(c) && HasLabel(c.row, c.col) && Visited(c, y, x + 1))
      ensures c in updated ==>
        updated[c] == if InGrid(c) && HasLabel(c.row, c.col) && Visited(c, y, x + 1)
                      then RegionFor(c, w, h) else initial[c]
    {
      if c != Cell(y, x) {
        assert Visited(c, y, x + 1) == Visited(c, y, x);
      }
    }
  }

  /** One visit of the inner loop to an unlabelled cell: nothing changes. */
  lemma LaidOutSkip(regions: map<Cell, Region>, initial: map<Cell, Region>,
                    w: nat, h: nat, y: nat, x: nat)
    requires y < Rows && x < Columns && !HasLabel(y, x)
    requires LaidOut(regions, initial, w, h, y, x)
    ensures LaidOut(regions, initial, w, h, y, x + 1)
  {
    forall c
      ensures c in regions <==>
        c in initial || (InGrid(c) && HasLabel(c.row, c.col) && Visited(c, y, x + 1))
      ensures c in regions ==>
        regions[c] == if InGrid(c) && HasLabel(c.row, c.col) && Visited(c, y, x + 1)
                      then RegionFor(c, w, h) else initial[c]
    {
      if c != Cell(y, x) {
        assert Visited(c, y, x + 1) == Visited(c, y, x);
      }
    }
  }

  /** Finishing a row is starting the next one. */
  lemma LaidOutRow(regions: map<Cell, Region>, initial: map<Cell, Region>,
                   w: nat, h: nat, y: nat)
    requires LaidOut(regions, initial, w, h, y, Columns)
    ensures LaidOut(regions, initial, w, h, y + 1, 0)
  {
    forall c | InGrid(c)
      ensures Visited(c, y + 1, 0) == Visited(c, y, Columns)
    {
    }
  }

  /** Once every cell is visited, the regions are the layout over the old ones. */
  lemma LaidOutAll(regions: map<Cell, Region>, initial: map<Cell, Region>, w: nat, h: nat)
    requires LaidOut(regions, initial, w, h, Rows, 0)
    ensures regions == initial + Regions(w, h)
  {
    var laid := initial + Regions(w, h);
    assert forall c :: c in regions <==> c in laid;
    assert forall c :: c in regions ==> regions[c] == laid[c];
  }

  class Keyboard {
    /** The cell size: `w = COLS / 14` and `h = LINES / 4`. */
    const w: nat
    const h: nat
    /** The `win` of each cell whose `win` is non-NULL. */
    var regions: map<Cell, Region>
    /** Everything written to file descriptor 3. */
    var output: seq<Byte>

    /** The state after layout, which the input loop keeps. */
    ghost predicate Valid()
      reads this
    {
      regions == Regions(w, h)
    }

    /** The screen is `cols` wide and `lines` tall; no cell has a window
        yet and nothing has been written. */
    constructor (cols: nat, lines: nat)
      ensures w == CellWidth(cols) && h == CellHeight(lines)
      ensures regions == map[] && output == []
    {
      w := cols / Columns;
      h := lines / Rows;
      regions := map[];
      output := [];
    }

    /** The layout loop: a region for every labelled cell, in row-major
        order; the `win` of an unlabelled cell is left as it was. */
    method LayOut()
      modifies this`regions
      ensures regions == old(regions) + Regions(w, h)
    {
      ghost var initial := regions;
      for y := 0 to Rows
        invariant LaidOut(regions, initial, w, h, y, 0)
      {
        for x := 0 to Columns
          invariant LaidOut(regions, initial, w, h, y, x)
        {
          if !HasLabel(y, x) {
            LaidOutSkip(regions, initial, w, h, y, x);
            continue;
          }
          LaidOutVisit(regions, initial, w, h, y, x);
          regions := regions[Cell(y, x) := RegionFor(Cell(y, x), w, h)];
        }
        LaidOutRow(regions, initial, w, h, y);
      }
      LaidOutAll(regions, initial, w, h);
    }

    /** `wbkgd(win, COLOR_PAIR(colour))` followed by `wrefresh(win)`. */
    method Paint(c: Cell, colour: Colour)
      requires c in regions
      modifies this`regions
      ensures regions == old(regions)[c := old(regions)[c].(colour := colour)]
    {
      regions := regions[c := regions[c].(colour := colour)];
    }

    /** `write(3, bytes, strlen(bytes))`, which writes every byte. */
    method Write(bytes: CString)
      modifies this`output
      ensures output == old(output) + bytes
    {
      output := output + bytes;
    }

    /** The button-1 branch of the input loop: hit-test the position,
        flash the key green, write its bytes, and restore its checkerboard
        background, which leaves every region as it was. */
    method Press(e: MouseEvent)
      requires Valid() && w > 0 && h > 0
      modifies this
      ensures Valid() && regions == old(regions)
      ensures output == old(output) + PressOutput(e, w, h)
    {
      PressOutputByQuotient(e, w, h);
      var mx := e.x / w;
      var my := e.y / h;
      if mx >= Columns || my >= Rows {
        return;
      }
      var c := Cell(my, mx);
      if c !in regions {
        return;
      }
      ghost var before := regions;
      Paint(c, BlackGreen);
      var key := KeyAt(my, mx);
      var bytes := if key.escapeSequence.Some? then key.escapeSequence.value else key.displayName.value;
      Write(bytes);
      Paint(c, BaseColour(c));
      assert regions == before;
    }

    /** One turn of the input loop for an input other than `q`. */
    method Handle(i: Input)
      requires Valid() && PressDefined(i, w, h)
      modifies this
      ensures Valid() && regions == old(regions)
      ensures output == old(output) + Response(i, w, h)
    {
      match i
      case Typed(_) =>
      case MouseReport(event) =>
        if event.None? {
          return;
        }
        if event.value.bstate & Button1Pressed != 0 {
          Press(event.value);
        }
    }

    /** The input loop: handle each input until `q` or the end of input. */
    method Run(inputs: seq<Input>)
      requires Valid() && InputsDefined(inputs, w, h)
      modifies this
      ensures Valid() && regions == old(regions)
      ensures output == old(output) + Transcript(inputs, w, h)
    {
      var k := 0;
      while k < |inputs| && !IsQuit(inputs[k])
        invariant 0 <= k <= |inputs|
        invariant Valid() && regions == old(regions)
        invariant InputsDefined(inputs[k..], w, h)
        invariant old(output) + Transcript(inputs, w, h) == output + Transcript(inputs[k..], w, h)
        decreases |inputs| - k
      {
        assert inputs[k..][1..] == inputs[k + 1..];
        TranscriptCons(inputs[k..], w, h);
        Associative(output, Response(inputs[k], w, h), Transcript(inputs[k + 1..], w, h));
        Handle(inputs[k]);
        k := k + 1;
      }
    }
  }

  /** The program from the computation of the cell size on: lay out the
      keyboard on a `cols` x `lines` screen and answer the inputs; the
      result is everything written to file descriptor 3. */
  method Session(cols: nat, lines: nat, inputs: seq<Input>) returns (written: seq<Byte>)
    requires InputsDefined(inputs, CellWidth(cols), CellHeight(lines))
    ensures written == Transcript(inputs, CellWidth(cols), CellHeight(lines))
  {
    var keyboard := new Keyboard(cols, lines);
    keyboard.LayOut();
    keyboard.Run(inputs);
    written := keyboard.output;
  }
}
