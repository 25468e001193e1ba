/**
  The fixed 4 x 14 key table of the keyboard.  Each cell holds a display
  name and an escape sequence, both C strings that may be NULL; cells that
  the table does not spell out are zero-initialised (no name, no sequence).
  The third member of the C struct, the window handle, is the region map of
  module Keyboard.
 */
module KeyTable {
  import opened Options

  /** One byte of a C string. */
  newtype Byte = b: int | 0 <= b < 256

  /** A C string: its bytes up to, not including, the terminating NUL.
      Its `strlen` is its length. */
  type CString = s: seq<Byte> | forall i :: 0 <= i < |s| ==> s[i] != 0

  /** One cell of the table: `display_name` and `escape_sequence`. */
  datatype Key = Key(displayName: Option<CString>, escapeSequence: Option<CString>)

  const Rows: nat := 4
  const Columns: nat := 14

  /** A zero-initialised cell. */
  const Empty: Key := Key(None, None)

  /** The bytes of a plain ASCII literal. */
  function Ascii(s: string): (r: CString)
    requires forall i :: 0 <= i < |s| ==> 0 < s[i] as int < 128
    ensures |r| == |s|
    ensures forall i :: 0 <= i < |s| ==> r[i] as int == s[i] as int
  {
    seq(|s|, i requires 0 <= i < |s| => s[i] as int as Byte)
  }

  /** A key with a label and no escape sequence: `{"q"}`. */
  function Plain(s: string): Key
    requires forall i :: 0 <= i < |s| ==> 0 < s[i] as int < 128
  {
    Key(Some(Ascii(s)), None)
  }

  /** A key with a label and an escape sequence: `{"TAB", "\t"}`. */
  function Special(s: string, e: string): Key
    requires forall i :: 0 <= i < |s| ==> 0 < s[i] as int < 128
    requires forall i :: 0 <= i < |e| ==> 0 < e[i] as int < 128
  {
    Key(Some(Ascii(s)), Some(Ascii(e)))
  }

  /** A key whose label is a non-ASCII character, given by its UTF-8 bytes. */
  function Utf8(bytes: CString): Key {
    Key(Some(bytes), None)
  }

  /** One row of the table: the keys it spells out, then zero-initialised
      cells up to 14 columns. */
  function Row(keys: seq<Key>): (r: seq<Key>)
    requires |keys| <= Columns
    ensures |r| == Columns
    ensures forall x :: 0 <= x < |keys| ==> r[x] == keys[x]
    ensures forall x :: |keys| <= x < Columns ==> r[x] == Empty
  {
    keys + seq(Columns - |keys|, _ => Empty)
  }

  const Row0: seq<Key> := [
    Utf8([0xC2, 0xA7]), Plain("1"), Plain("2"), Plain("3"), Plain("4"),
    Plain("5"), Plain("6"), Plain("7"), Plain("8"), Plain("9"), Plain("0"),
    Plain("'"), Plain("^"), Special("BACKSPACE", "\U{8}")]

  const Row1: seq<Key> := [
    Special("TAB", "\t"), Plain("q"), Plain("w"), Plain("e"), Plain("r"),
    Plain("t"), Plain("z"), Plain("u"), Plain("i"), Plain("o"), Plain("p"),
    Utf8([0xC3, 0xBC]), Utf8([0xC2, 0xA8]), Special("ENTER", "\n")]

  const Row2: seq<Key> := [
    Plain("CAPS"), Plain("a"), Plain("s"), Plain("d"), Plain("f"),
    Plain("g"), Plain("h"), Plain("j"), Plain("k"), Plain("l"),
    Utf8([0xC3, 0xB6]), Utf8([0xC3, 0xA4]), Plain("$")]

  const Row3: seq<Key> := [
    Plain("SHIFT"), Plain("<"), Plain("y"), Plain("x"), Plain("c"),
    Plain("v"), Plain("b"), Plain("n"), Plain("m"), Plain(","),
    Plain("."), Plain("-")]

  /** `keyboard_matrix`, without its window handles. */
  const Table: seq<seq<Key>> := [Row(Row0), Row(Row1), Row(Row2), Row(Row3)]

  /** Every cell the table spells out has a display name. */
  predicate Labelled(keys: seq<Key>) {
    forall x :: 0 <= x < |keys| ==> keys[x].displayName.Some?
  }

  /** The key at row `y`, column `x`. */
  function KeyAt(y: nat, x: nat): Key
    requires y < Rows && x < Columns
  {
    Table[y][x]
  }

  /** Whether the cell has a display name (a non-NULL `display_name`). */
  predicate HasLabel(y: nat, x: nat)
    requires y < Rows && x < Columns
  {
    KeyAt(y, x).displayName.Some?
  }

  /** The bytes a press of the key writes: its escape sequence, or its
      display name when it has none. */
  function Payload(k: Key): CString
    requires k.displayName.Some?
  {
    if k.escapeSequence.Some? then k.escapeSequence.value else k.displayName.value
  }

  /** Which cells are occupied: rows 0 and 1 are full, row 2 holds 13 keys
      and row 3 holds 12. */
  lemma {:induction false} OccupiedCells(y: nat, x: nat)
    requires y < Rows && x < Columns
    ensures HasLabel(y, x) <==> y < 2 || (y == 2 && x < 13) || (y == 3 && x < 12)
  {
    assert Labelled(Row0) && Labelled(Row1) && Labelled(Row2) && Labelled(Row3);
    assert |Row0| == 14 && |Row1| == 14 && |Row2| == 13 && |Row3| == 12;
    if y == 0 {
      assert KeyAt(y, x) == Row0[x];
    } else if y == 1 {
      assert KeyAt(y, x) == Row1[x];
    } else if y == 2 {
      if x < 13 { assert KeyAt(y, x) == Row2[x]; } else { assert KeyAt(y, x) == Empty; }
    } else {
      if x < 12 { assert KeyAt(y, x) == Row3[x]; } else { assert KeyAt(y, x) == Empty; }
    }
  }

  /** Only BACKSPACE, TAB and ENTER carry an escape sequence: a backspace,
      a tab and a newline byte. */
  lemma {:induction false} EscapeSequences(y: nat, x: nat)
    requires y < Rows && x < Columns
    ensures KeyAt(y, x).escapeSequence.Some? <==> (y, x) in {(0, 13), (1, 0), (1, 13)}
    ensures (y, x) == (0, 13) ==> KeyAt(y, x) == Key(Some(Ascii("BACKSPACE")), Some([8]))
    ensures (y, x) == (1, 0) ==> KeyAt(y, x) == Key(Some(Ascii("TAB")), Some([9]))
    ensures (y, x) == (1, 13) ==> KeyAt(y, x) == Key(Some(Ascii("ENTER")), Some([10]))
  {
    if y == 0 {
      assert KeyAt(y, x) == Row0[x];
      assert Ascii("\U{8}") == [8] by { assert Ascii("\U{8}")[0] == 8; }
    } else if y == 1 {
      assert KeyAt(y, x) == Row1[x];
      assert Ascii("\t") == [9] by { assert Ascii("\t")[0] == 9; }
      assert Ascii("\n") == [10] by { assert Ascii("\n")[0] == 10; }
    } else if y == 2 {
      if x < 13 { assert KeyAt(y, x) == Row2[x]; } else { assert KeyAt(y, x) == Empty; }
    } else {
      if x < 12 { assert KeyAt(y, x) == Row3[x]; } else { assert KeyAt(y, x) == Empty; }
    }
  }
}
