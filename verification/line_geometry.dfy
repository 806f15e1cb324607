/**
 * Board geometry of lines (the static functions of docs/translated/line.js).
 *
 * A square is `row << 4 | col` with row and col in 0..14.  A line is named
 * by `direction << 5 | index`: rows (direction 0) and columns (1) are
 * indexed 0..14, the two diagonal directions (2 and 3) 0..28, and a square's
 * offset is its position along the line from the line's first cell.
 */
module LineGeometry {

  const LEFT_RIGHT := 0
  const TOP_DOWN := 1
  const LTOP_RDOWN := 2
  const RTOP_LDOWN := 3

  /** `square >> 4`. */
  function Row(sq: nat): nat { sq / 16 }

  /** `square & 0xf`. */
  function Col(sq: nat): nat { sq % 16 }

  /** A square is fixed by its row and column. */
  lemma SameSquare(x: nat, y: nat)
    requires Row(x) == Row(y) && Col(x) == Col(y)
    ensures x == y
  {
  }

  /** A square of the 15 x 15 board. */
  predicate OnBoard(sq: nat)
  {
    Row(sq) < 15 && Col(sq) < 15
  }

  /** `row << 4 | col` for a column below 16. */
  function SquareAt(row: nat, col: nat): (sq: nat)
    requires col < 16
    ensures Row(sq) == row && Col(sq) == col
  {
    row * 16 + col
  }

  /** A line number that some board square lies on. */
  predicate ValidLine(number: nat)
  {
    var d := number / 32;
    var n := number % 32;
    ((d == LEFT_RIGHT || d == TOP_DOWN) && n < 15) || ((d == LTOP_RDOWN || d == RTOP_LDOWN) && n < 29)
  }

  /** `Line.lineNumber(direction, square)`; 0 for an unknown direction. */
  function LineNumber(direction: int, sq: nat): (number: nat)
    requires OnBoard(sq)
    ensures 0 <= direction < 4 ==> ValidLine(number) && number / 32 == direction
  {
    var row := Row(sq);
    var col := Col(sq);
    if direction == LEFT_RIGHT then 32 * direction + row
    else if direction == TOP_DOWN then 32 * direction + col
    else if direction == LTOP_RDOWN then 32 * direction + (col - row + 14)
    else if direction == RTOP_LDOWN then 32 * direction + (col + row)
    else 0
  }

  /** `Line.onSameLine(number, square)`: the square's line in the number's direction is that line. */
  predicate OnSameLine(number: nat, sq: nat)
    requires OnBoard(sq)
  {
    number == LineNumber(number / 32, sq)
  }

  /** `Line.lineLength(number)`: 15 for rows and columns, fewer towards a diagonal's corner. */
  function LineLength(number: nat): (len: int)
    ensures ValidLine(number) ==> 1 <= len <= 15
  {
    var direction := number / 32;
    if direction == LTOP_RDOWN || direction == RTOP_LDOWN then
      var i := number % 32;
      if i > 14 then 29 - i else i + 1
    else 15
  }

  /** `Line.lineOffset(direction, square)`: the square's position along its line. */
  function LineOffset(direction: int, sq: nat): (offset: nat)
    requires OnBoard(sq)
    ensures 0 <= direction < 4 ==> offset < LineLength(LineNumber(direction, sq))
  {
    var col := Col(sq);
    var row := Row(sq);
    if direction == LEFT_RIGHT then col
    else if direction == TOP_DOWN then row
    else if direction == LTOP_RDOWN then (if col > row then row else col)
    else if direction == RTOP_LDOWN then (if col + row > 14 then 14 - col else row)
    else 0
  }

  /** `Line.posSquare(number, offset)`: the square at an offset of a line. */
  function PosSquare(number: nat, offset: nat): (sq: nat)
    requires ValidLine(number) && offset < LineLength(number)
    ensures OnBoard(sq)
  {
    var direction := number / 32;
    var n := number % 32;
    if direction == LEFT_RIGHT then SquareAt(n, offset)
    else if direction == TOP_DOWN then SquareAt(offset, n)
    else if direction == LTOP_RDOWN then
      (if n > 14 then SquareAt(offset, n + offset - 14) else SquareAt(offset - n + 14, offset))
    else
      (if n > 14 then SquareAt(n + offset - 14, 14 - offset) else SquareAt(offset, n - offset))
  }

  /** Every board square lies on its line in each direction, at its offset. */
  lemma SquareOnLines(direction: int, sq: nat)
    requires OnBoard(sq) && 0 <= direction < 4
    ensures OnSameLine(LineNumber(direction, sq), sq)
    ensures PosSquare(LineNumber(direction, sq), LineOffset(direction, sq)) == sq
  {
    var sq' := PosSquare(LineNumber(direction, sq), LineOffset(direction, sq));
    assert Row(sq') == Row(sq) && Col(sq') == Col(sq);
  }

  /** The offsets of a line lead to distinct squares on it, and back to the same offset. */
  lemma PosSquareOnLine(number: nat, offset: nat)
    requires ValidLine(number) && offset < LineLength(number)
    ensures OnSameLine(number, PosSquare(number, offset))
    ensures LineOffset(number / 32, PosSquare(number, offset)) == offset
  {
  }

  /** A square is on a line exactly when some offset of the line leads to it. */
  lemma OnSameLineIff(number: nat, sq: nat)
    requires ValidLine(number) && OnBoard(sq)
    ensures OnSameLine(number, sq) <==>
      exists offset: nat :: offset < LineLength(number) && PosSquare(number, offset) == sq
  {
    if OnSameLine(number, sq) {
      SquareOnLines(number / 32, sq);
    }
    if exists offset: nat :: offset < LineLength(number) && PosSquare(number, offset) == sq {
      var offset: nat :| offset < LineLength(number) && PosSquare(number, offset) == sq;
      PosSquareOnLine(number, offset);
    }
  }
}
