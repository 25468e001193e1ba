# console-keyboard-basic, modelled in Dafny

`console-keyboard-basic` is an on-screen keyboard for a text terminal. It
draws a 4 x 14 grid of keys with curses, waits for mouse input, and when
button 1 is pressed on a key it writes that key's bytes to file descriptor 3,
flashing the key green while it does. Typing `q` ends the program.

This project models the whole of `src/console-keyboard-basic.c`:

- `keytable.dfy`, module `KeyTable`: the `keyboard_matrix` table. Each cell
  has a display name and an escape sequence, both C strings that may be NULL.
  Cells the initialiser leaves out are zero-initialised. Strings are NUL-free
  byte sequences (`CString`), so `strlen` is their length. The non-ASCII labels
  (`§`, `ü`, `¨`, `ö`, `ä`) are their two UTF-8 bytes.
- `layout.dfy`, module `Layout`: the cell size `COLS / 14` by `LINES / 4`.
  Also each key's region: its rectangle, the row and column of its label, and
  its checkerboard background.
- `hittest.dfy`, module `HitTest`: `event.x / w`, `event.y / h` and the
  out-of-grid check, with the proofs that hit-test and layout agree.
- `keyboard.dfy`, module `Keyboard`: the program state as a class
  `Keyboard`. It holds the cell size, a map from cells to regions (a cell is
  in the map exactly when its `win` is non-NULL) and the bytes written to file
  descriptor 3. It has the layout loop (`LayOut`), the button-1 handler
  (`Press`), one turn of the input loop (`Handle`) and the loop itself (`Run`).
  Beside them are the functions that specify what gets written:
  `PressOutput`, `Response` and `Transcript`.
- `options.dfy`, module `Options`: an `Option` type that stands for a
  pointer that may be NULL.

The program has no shift or ctrl state, no display modes, no resize
handling and no key-injection service, so none of them is modelled. Two
points about the program itself:

- A key's bytes are its escape sequence, or its display name when it has
  none. There are no symbolic key names.
- The cell size is not clamped to at least 1. With fewer than 14 columns
  or 4 lines, the press handler divides by zero. The model makes non-zero
  cell sizes a precondition of a button-1 press (`PressDefined`).

## Model

| member | source | states |
|---|---|---|
| KeyTable.Row | src/console-keyboard-basic.c:13-18 | a table row is the spelled-out keys followed by zero-initialised cells up to 14 columns |
| KeyTable.OccupiedCells | src/console-keyboard-basic.c:14-17 | a cell has a display name exactly when it is in row 0 or 1, among the first 13 of row 2, or among the first 12 of row 3 |
| KeyTable.EscapeSequences | src/console-keyboard-basic.c:14-15 | only BACKSPACE, TAB and ENTER carry an escape sequence, and those are the single bytes 8, 9 and 10 |
| Layout.CellWidth | src/console-keyboard-basic.c:42-44 | the cell width is the largest `w` with `14 * w <= COLS` |
| Layout.CellHeight | src/console-keyboard-basic.c:43-45 | the cell height is the largest `h` with `4 * h <= LINES` |
| Layout.LabelColumn | src/console-keyboard-basic.c:51-52 | the label column is never negative; a label that fits is centred with any spare column on the right; a label wider than the cell starts at column 0 |
| Layout.LabelColumnWrapClamps | src/console-keyboard-basic.c:51-52 | with a 64-bit `size_t` and a 32-bit `int`, the C computation (unsigned difference, wrapped quotient converted to `int`, clamped at 0) equals LabelColumn for every width and length below 2^31 |
| Layout.LabelColumnWrap32Overflows | src/console-keyboard-basic.c:51-52 | with a 32-bit `size_t`, a label wider than its cell gets a column of at least 2^30 instead of 0; BACKSPACE in the 5-wide cells of an 80-column screen lands at column 2^31 - 2 |
| Layout.BaseColour | src/console-keyboard-basic.c:54 | the checkerboard colour is never the highlight colour BLACK_GREEN |
| Layout.BaseColourParity | src/console-keyboard-basic.c:54 | two cells share a background exactly when their `x + y` have the same parity |
| Layout.NeighboursDiffer | src/console-keyboard-basic.c:54 | horizontally or vertically adjacent cells have different backgrounds |
| Layout.Regions | src/console-keyboard-basic.c:46-55 | after layout a cell has a region exactly when it is in the grid and has a display name, and that region is at `(y*h, x*w)`, `h` by `w`, with its label and checkerboard colour |
| Layout.LabelInsideRegion | src/console-keyboard-basic.c:51-53 | the label is on row `h/2`, inside the region, and a label that fits ends within the region's width |
| Layout.RegionOnScreen | src/console-keyboard-basic.c:44-50 | every region lies within the `COLS` x `LINES` screen |
| HitTest.GridCell | src/console-keyboard-basic.c:70-73 | the hit-test finds a cell exactly when the point is left of column `14*w` and above row `4*h`; the point then lies in that cell's rectangle |
| HitTest.HitIffInCell | src/console-keyboard-basic.c:70-71 | a point hits cell `c` exactly when `x*w <= ex < (x+1)*w` and `y*h <= ey < (y+1)*h` |
| HitTest.RegionIsCell | src/console-keyboard-basic.c:50 | a point lies in a key's region exactly when it lies in that key's grid rectangle |
| HitTest.RegionsDisjoint | src/console-keyboard-basic.c:50 | no point lies in the regions of two different keys |
| Keyboard.PressedCell | src/console-keyboard-basic.c:70-75 | a press selects a cell only if that cell has a region and its rectangle holds the point; and it selects every such cell |
| Keyboard.ResponseToPress | src/console-keyboard-basic.c:65-87 | a button-1 press inside a labelled key writes exactly that key's escape sequence, or its display name when it has none; any other input, or a press outside every key, writes nothing |
| Keyboard.PressOutsideGrid | src/console-keyboard-basic.c:72-73 | a press at or beyond column `14*w` or row `4*h` writes nothing |
| Keyboard.PressExamples | src/console-keyboard-basic.c:70-81 | on a 140 x 40 screen, presses at (45, 15), (135, 5) and (135, 35) write `r`, the backspace byte, and nothing |
| Keyboard.TranscriptAppend | src/console-keyboard-basic.c:63 | for inputs without `q`, the bytes written for `a` followed by `b` are those for `a` followed by those for `b` |
| Keyboard.TranscriptStopsAtQuit | src/console-keyboard-basic.c:63 | nothing after the first `q` is written |
| Keyboard.Keyboard.constructor | src/console-keyboard-basic.c:42-45 | the cell size is `COLS / 14` by `LINES / 4`, no cell has a window and nothing has been written |
| Keyboard.Keyboard.LayOut | src/console-keyboard-basic.c:46-56 | the loop gives every labelled cell its region and leaves the `win` of every other cell as it was |
| Keyboard.Keyboard.Paint | src/console-keyboard-basic.c:76-77 | setting a region's background changes that region's colour and nothing else |
| Keyboard.Keyboard.Write | src/console-keyboard-basic.c:81 | writing a C string appends all its bytes to file descriptor 3 |
| Keyboard.Keyboard.Press | src/console-keyboard-basic.c:70-86 | a press appends PressOutput to the output, and the key's region is back on its checkerboard colour, so the region map is unchanged |
| Keyboard.Keyboard.Handle | src/console-keyboard-basic.c:64-88 | one input other than `q` appends its Response and leaves the regions unchanged; a failed `getmouse` or a report without button 1 does nothing |
| Keyboard.Keyboard.Run | src/console-keyboard-basic.c:62-90 | the input loop appends the Transcript of its inputs and keeps the laid-out regions |
| Keyboard.Session | src/console-keyboard-basic.c:42-90 | laying out a `cols` x `lines` screen and running the loop writes exactly the Transcript of the inputs |

## Left out

- Curses itself is not modelled: `initscr` and its failure path, `start_color`, `init_pair`, `color_set`, `clear`, `noecho`, `cbreak`, `refresh`, `keypad`, `mousemask` and `endwin`. The screen is the region map.
- `subwin` is taken to succeed. Curses' own reading of a zero height or width (`COLS < 14` or `LINES < 4`) as "up to the edge of the screen" is not modelled.
- `init_pair(0, …)`: curses reserves colour pair 0, so the model's `WhiteBlack` is only a name for the pair the code asks for.
- `write(3, …)` is taken to write every byte. Partial writes and errors are not modelled.
- Keyboard.Keyboard.Press: its contract states only the state after the restore. The green highlight is painted and then undone, with `sleep(1)` between them, and neither the highlight nor the sleep is stated.
- `getch` and `getmouse` are the input sequence given to `Run`. Running out of inputs stops the model where the program would block.
- Mouse positions are `nat`: curses reports screen coordinates, which are never negative. C's truncating division of a negative position is therefore not modelled.
- Label length is the UTF-8 byte length, as `strlen` counts it. Display width is not modelled.
- `BUTTON1_PRESSED` is bit `0x2` of a 32-bit `bstate`, as ncurses defines it. The other mouse bits are not interpreted.
- Layout.LabelColumn: states the clamped signed result. Layout.LabelColumnWrapClamps connects it to the `size_t` arithmetic only for a 64-bit `size_t`, a 32-bit `int`, and widths and lengths below 2^31. With a 32-bit `size_t` the code computes something else; see Findings.

## Findings

| source | as written | input that shows it | evidently intended | confidence | as-written member | corrected member |
|---|---|---|---|---|---|---|
| src/console-keyboard-basic.c:51-52 | `(w - strlen(label)) / 2` is computed in `size_t`. With a 32-bit `size_t`, a label wider than its cell makes the difference wrap to nearly 2^32. Half of that is still a non-negative `int`, so the `< 0` clamp never fires | `COLS` 80 gives `w` 5; BACKSPACE has 9 bytes; `tx` becomes 2^31 - 2, and the label is drawn outside its window, so it does not appear | a label wider than its cell starts at column 0, as the clamp intends and as happens with a 64-bit `size_t` | not executed; medium (only on targets with a 32-bit `size_t`) | Layout.LabelColumnWrap32Overflows | Layout.LabelColumn |
