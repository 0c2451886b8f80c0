/** The worksheet the program reads and writes through openpyxl, as an
    in-memory map from (row, column), both counted from 1, to a cell value. */
module Grid {
  import opened Wrappers

  /** What a cell can hold here: nothing (Python None), a string, an integer
      or a number with a fractional part (kept exact, not as a float). */
  datatype Cell = Empty | Text(s: string) | Int(i: int) | Real(x: real)

  /** Python truthiness of a cell value: `not value` holds exactly for None,
      the empty string and zero. */
  predicate Truthy(c: Cell)
  {
    match c
    case Empty => false
    case Text(s) => s != ""
    case Int(i) => i != 0
    case Real(x) => x != 0.0
  }

  /** A worksheet. `maxRow` and `maxCol` play openpyxl's `max_row` and
      `max_column`: the largest row and column holding a cell, and 1 for a
      sheet without cells. */
  datatype Worksheet = Worksheet(title: string, cells: map<(int, int), Cell>, maxRow: nat, maxCol: nat)

  function Max(a: int, b: int): int
  {
    if a < b then b else a
  }

  function Min(a: int, b: int): int
  {
    if a < b then a else b
  }

  /** The active sheet of a fresh `Workbook()`. */
  function NewWorksheet(): (w: Worksheet)
    ensures w.cells == map[] && w.maxRow == 1 && w.maxCol == 1
  {
    Worksheet("Sheet", map[], 1, 1)
  }

  /** The cell at (r, c), if one was ever written there. */
  function CellAt(w: Worksheet, r: int, c: int): Option<Cell>
  {
    if (r, c) in w.cells then Some(w.cells[(r, c)]) else None
  }

  /** `ws.cell(row=r, column=c).value`: None where nothing was written. */
  function Read(w: Worksheet, r: int, c: int): (v: Cell)
    ensures CellAt(w, r, c) == Some(v) || (CellAt(w, r, c) == None && v == Empty)
  {
    if (r, c) in w.cells then w.cells[(r, c)] else Empty
  }

  /** `ws.cell(row=r, column=c, value=v)`: the one cell changes and the sheet
      grows to cover it. */
  function Write(w: Worksheet, r: int, c: int, v: Cell): (w': Worksheet)
    requires r >= 1 && c >= 1
    ensures CellAt(w', r, c) == Some(v)
    ensures forall r', c' :: r' != r || c' != c ==> CellAt(w', r', c') == CellAt(w, r', c')
    ensures w'.maxRow == Max(w.maxRow, r) && w'.maxCol == Max(w.maxCol, c)
    ensures w'.title == w.title
  {
    Worksheet(w.title, w.cells[(r, c) := v], Max(w.maxRow, r), Max(w.maxCol, c))
  }
}
