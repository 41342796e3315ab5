/** How a database row becomes the fields of an entity: typed scan cells, then assignment. */
module RowCodec {
  import opened Schema

  /** The destinations `scanValues` allocates for the driver. */
  datatype Cell =
    | NullInt(valid: bool, i: int)
    | NullFloat(valid: bool, r: real)
    | NullBool(valid: bool, b: bool)
    | NullText(valid: bool, s: string)
    | NullTime(valid: bool, t: int)
    | Bytes(doc: string)
    | Unknown(v: Value)

  /** A freshly allocated destination for a column. */
  function BlankCell(c: Column): Cell {
    match KindOf(c)
    case IntKind => NullInt(false, 0)
    case FloatKind => NullFloat(false, 0.0)
    case BoolKind => NullBool(false, false)
    case TextKind => NullText(false, "")
    case TimeKind => NullTime(false, 0)
    case JsonKind => Bytes("")
    case UnknownKind => Unknown(Null)
  }

  /** The driver scans a database value into a destination of a matching type. */
  function Scan(cell: Cell, v: Value): Cell {
    match (cell, v)
    case (NullInt(_, _), IntV(i)) => NullInt(true, i)
    case (NullFloat(_, _), FloatV(r)) => NullFloat(true, r)
    case (NullBool(_, _), BoolV(b)) => NullBool(true, b)
    case (NullText(_, _), TextV(s)) => NullText(true, s)
    case (NullTime(_, _), TimeV(t)) => NullTime(true, t)
    case (Bytes(_), JsonV(doc)) => Bytes(doc)
    case (Unknown(_), _) => Unknown(v)
    case _ => cell
  }

  /** The type assertions of `assignValues`: the default branch takes any cell. */
  predicate CellFits(c: Column, cell: Cell) {
    match KindOf(c)
    case IntKind => cell.NullInt?
    case FloatKind => cell.NullFloat?
    case BoolKind => cell.NullBool?
    case TextKind => cell.NullText?
    case TimeKind => cell.NullTime?
    case JsonKind => cell.Bytes?
    case UnknownKind => true
  }

  /** One iteration of `assignValues`. The id is assigned even from an invalid cell; any other
      column only from a valid one. */
  function AssignCell(fields: Row, c: Column, cell: Cell): Row
    requires CellFits(c, cell)
  {
    if c.Id? then fields[c := IntV(cell.i)]
    else
      match cell
      case NullInt(valid, i) => if valid && !c.Other? then fields[c := IntV(i)] else fields
      case NullFloat(valid, r) => if valid && !c.Other? then fields[c := FloatV(r)] else fields
      case NullBool(valid, b) => if valid && !c.Other? then fields[c := BoolV(b)] else fields
      case NullText(valid, s) => if valid && !c.Other? then fields[c := TextV(s)] else fields
      case NullTime(valid, t) => if valid && !c.Other? then fields[c := TimeV(t)] else fields
      case Bytes(doc) => if doc != "" && !c.Other? then fields[c := JsonV(doc)] else fields
      case Unknown(_) => fields
  }

  function AssignCells(fields: Row, columns: seq<Column>, cells: seq<Cell>): Row
    requires |columns| <= |cells|
    requires forall i | 0 <= i < |columns| :: CellFits(columns[i], cells[i])
  {
    if columns == [] then fields
    else
      var n := |columns| - 1;
      AssignCell(AssignCells(fields, columns[..n], cells), columns[n], cells[n])
  }

  /** `scanValues`. */
  method ScanValues(columns: seq<Column>) returns (values: seq<Cell>)
    ensures |values| == |columns|
    ensures forall i | 0 <= i < |columns| :: values[i] == BlankCell(columns[i])
    ensures forall i | 0 <= i < |columns| :: CellFits(columns[i], values[i])
  {
    values := [];
    for i := 0 to |columns|
      invariant |values| == i
      invariant forall j | 0 <= j < i :: values[j] == BlankCell(columns[j])
    {
      values := values + [BlankCell(columns[i])];
    }
  }

  /** The driver fills the destinations from one row; a column the row lacks reads as NULL. */
  function FillCells(cells: seq<Cell>, columns: seq<Column>, row: Row): (filled: seq<Cell>)
    requires |cells| == |columns|
    ensures |filled| == |columns|
  {
    seq(|columns|, i requires 0 <= i < |columns| =>
      Scan(cells[i], if columns[i] in row then row[columns[i]] else Null))
  }

  /** What `assignValues` receives for one row. */
  function ScanRow(columns: seq<Column>, row: Row): (cells: seq<Cell>)
    ensures |cells| == |columns|
    ensures forall i | 0 <= i < |columns| :: CellFits(columns[i], cells[i])
  {
    FillCells(seq(|columns|, i requires 0 <= i < |columns| => BlankCell(columns[i])), columns, row)
  }

  /** A row whose values have the types of their columns and whose id, if any, is not NULL. */
  ghost predicate TypedRow(row: Row) {
    forall c | c in row :: HasKind(row[c], KindOf(c)) && (c.Id? ==> !row[c].Null?)
  }

  /** The selected values of a row that are not NULL. */
  ghost function NonNull(columns: seq<Column>, row: Row): Row {
    map c | c in row && c in columns && !row[c].Null? && !c.Other? :: row[c]
  }

  lemma AssignScanned(fields: Row, c: Column, row: Row)
    requires TypedRow(row) && c in row
    ensures AssignCell(fields, c, Scan(BlankCell(c), row[c])) ==
            if row[c].Null? || c.Other? then fields else fields[c := row[c]]
  {
  }

  /** Scanning a row and assigning its cells stores exactly the non-NULL values of the selected columns. */
  lemma {:induction false} DecodesRow(columns: seq<Column>, row: Row)
    requires TypedRow(row) && (forall c | c in columns :: c in row)
    ensures AssignCells(map[], columns, ScanRow(columns, row)) == NonNull(columns, row)
  {
    if columns != [] {
      var n := |columns| - 1;
      var front, c := columns[..n], columns[n];
      assert columns == front + [c];
      DecodesRow(front, row);
      AssignCellsPrefix(map[], front, ScanRow(columns, row), ScanRow(front, row));
      AssignScanned(AssignCells(map[], front, ScanRow(front, row)), c, row);
      NonNullSnoc(front, c, row);
    }
  }

  lemma NonNullSnoc(columns: seq<Column>, c: Column, row: Row)
    requires c in row
    ensures NonNull(columns + [c], row) ==
            if row[c].Null? || c.Other? then NonNull(columns, row) else NonNull(columns, row)[c := row[c]]
  {
  }

  lemma {:induction false} AssignCellsPrefix(fields: Row, columns: seq<Column>, a: seq<Cell>, b: seq<Cell>)
    requires |columns| <= |a| && |columns| <= |b|
    requires forall i | 0 <= i < |columns| :: a[i] == b[i] && CellFits(columns[i], a[i])
    ensures AssignCells(fields, columns, a) == AssignCells(fields, columns, b)
  {
    if columns != [] {
      AssignCellsPrefix(fields, columns[..|columns| - 1], a, b);
    }
  }
}
