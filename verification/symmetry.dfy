/**
 * The eight symmetries of the board (docs/translated/layout.js): a
 * transposition code names one of them, `transSquare` moves a square by
 * it, `transMultiple` composes two codes, and `checkLines` / `transCode`
 * find the code under which two positions hold the same stones.
 *
 * Codes: 0 identity, 1 transpose (row and column swapped), 2 upside down,
 * 3 quarter turn, 4 half turn, 5 anti-transpose, 6 left-right mirror and
 * 7 the quarter turn the other way.  Codes 3 and 7 undo each other; every
 * other code undoes itself.
 */
module Symmetry {
  import opened LineGeometry

  // ---------------------------------------------------------------------
  // transSquare
  // ---------------------------------------------------------------------

  /**
   * `Layout.transSquare(square, code, back)`: the square moved by the
   * symmetry `code`, or by its inverse when `back`; any other code leaves
   * the square where it is.
   */
  function TransSquare(sq: nat, code: int, back: bool): (r: nat)
    requires OnBoard(sq)
    ensures OnBoard(r)
  {
    var row := Row(sq);
    var col := Col(sq);
    if code == 1 then SquareAt(col, row)
    else if code == 2 then SquareAt(14 - row, col)
    else if code == 3 then (if back then SquareAt(14 - col, row) else SquareAt(col, 14 - row))
    else if code == 4 then SquareAt(14 - row, 14 - col)
    else if code == 5 then SquareAt(14 - col, 14 - row)
    else if code == 6 then SquareAt(row, 14 - col)
    else if code == 7 then (if back then SquareAt(col, 14 - row) else SquareAt(14 - col, row))
    else sq
  }

  /** A square is `row << 4 | col` of its own row and column. */
  lemma SquareOfRowCol(sq: nat)
    ensures SquareAt(Row(sq), Col(sq)) == sq
  {
  }

  /** Codes other than 3 and 7 are their own inverse, whichever way they are applied. */
  lemma TransSquareInvolution(sq: nat, code: int, back: bool, back': bool)
    requires OnBoard(sq) && code != 3 && code != 7
    ensures TransSquare(TransSquare(sq, code, back), code, back') == sq
  {
    SquareOfRowCol(sq);
  }

  /** Applying code 3 or 7 backwards undoes applying it forwards, and the other way round. */
  lemma TransSquareBack(sq: nat, code: int)
    requires OnBoard(sq) && (code == 3 || code == 7)
    ensures TransSquare(TransSquare(sq, code, false), code, true) == sq
    ensures TransSquare(TransSquare(sq, code, true), code, false) == sq
  {
    SquareOfRowCol(sq);
  }

  /** The quarter turns: code 3 backwards is code 7 forwards, and code 7 backwards is code 3. */
  lemma QuarterTurns(sq: nat)
    requires OnBoard(sq)
    ensures TransSquare(sq, 3, true) == TransSquare(sq, 7, false)
    ensures TransSquare(sq, 7, true) == TransSquare(sq, 3, false)
  {
  }

  /** Every symmetry is one to one on the board. */
  lemma TransSquareInjective(sq: nat, sq': nat, code: int, back: bool)
    requires OnBoard(sq) && OnBoard(sq')
    requires TransSquare(sq, code, back) == TransSquare(sq', code, back)
    ensures sq == sq'
  {
    SquareOfRowCol(sq);
    SquareOfRowCol(sq');
  }

  // ---------------------------------------------------------------------
  // transMultiple
  // ---------------------------------------------------------------------

  /** The tables of `Layout.transMultiple`. */
  const MirrorCode: seq<int> := [6, 3, 4, 1, 2, 7, 0, 5]
  const Turns: seq<int> := [0, 3, 2, 1, 2, 1, 0, 3]
  const Rotate0: seq<int> := [0, 3, 4, 7]
  const Rotate1: seq<int> := [6, 5, 2, 1]

  /** The codes that mirror the board: 6, 5, 2 and 1. */
  predicate Mirrors(code: int)
  {
    code == 6 || code == 5 || code == 2 || code == 1
  }

  /**
   * `Layout.transMultiple(code1, code2)`: the single code of doing code1
   * and then code2.
   */
  function TransMultiple(code1: int, code2: int): (r: int)
    requires 0 <= code1 < 8 && 0 <= code2 < 8
    ensures 0 <= r < 8
    ensures Mirrors(r) <==> Mirrors(code1) != Mirrors(code2)
  {
    var c1 := if Mirrors(code2) then MirrorCode[code1] else code1;
    var rotor := (Turns[c1] + Turns[code2]) % 4;
    if Mirrors(c1) then Rotate1[rotor] else Rotate0[rotor]
  }

  /** Code 0 is neutral on both sides. */
  lemma TransMultipleIdentity(code: int)
    requires 0 <= code < 8
    ensures TransMultiple(0, code) == code && TransMultiple(code, 0) == code
  {
    assert 0 <= code < 8;
  }

  /** Where a symmetry sends (row, col), as a pair: `transSquare` without the packing into a square. */
  function Moved(row: int, col: int, code: int, back: bool): (int, int)
  {
    if code == 1 then (col, row)
    else if code == 2 then (14 - row, col)
    else if code == 3 then (if back then (14 - col, row) else (col, 14 - row))
    else if code == 4 then (14 - row, 14 - col)
    else if code == 5 then (14 - col, 14 - row)
    else if code == 6 then (row, 14 - col)
    else if code == 7 then (if back then (col, 14 - row) else (14 - col, row))
    else (row, col)
  }

  lemma TransSquareMoved(sq: nat, code: int, back: bool)
    requires OnBoard(sq)
    ensures Row(TransSquare(sq, code, back)) == Moved(Row(sq), Col(sq), code, back).0
    ensures Col(TransSquare(sq, code, back)) == Moved(Row(sq), Col(sq), code, back).1
  {
  }

  lemma MovedComposes(row: int, col: int, code1: int, code2: int)
    requires 0 <= code1 < 8 && 0 <= code2 < 8
    ensures var p := Moved(row, col, code1, false); Moved(p.0, p.1, code2, false) == Moved(row, col, TransMultiple(code1, code2), false)
  {
    if code2 < 4 {
      MovedComposesLow(row, col, code1, code2);
    } else {
      MovedComposesHigh(row, col, code1, code2);
    }
  }

  lemma MovedComposesBack(row: int, col: int, code1: int, code2: int)
    requires 0 <= code1 < 8 && 0 <= code2 < 8
    ensures var p := Moved(row, col, code2, true); Moved(p.0, p.1, code1, true) == Moved(row, col, TransMultiple(code1, code2), true)
  {
    if code2 < 4 {
      MovedComposesBackLow(row, col, code1, code2);
    } else {
      MovedComposesBackHigh(row, col, code1, code2);
    }
  }

  /** The forward composition, case by case, for the second codes 0 to 3. */
  lemma MovedComposesLow(row: int, col: int, code1: int, code2: int)
    requires 0 <= code1 < 8 && 0 <= code2 < 4
    ensures var p := Moved(row, col, code1, false); Moved(p.0, p.1, code2, false) == Moved(row, col, TransMultiple(code1, code2), false)
  {
  }

  /** The forward composition, case by case, for the second codes 4 to 7. */
  lemma MovedComposesHigh(row: int, col: int, code1: int, code2: int)
    requires 0 <= code1 < 8 && 4 <= code2 < 8
    ensures var p := Moved(row, col, code1, false); Moved(p.0, p.1, code2, false) == Moved(row, col, TransMultiple(code1, code2), false)
  {
  }

  /** The backward composition, case by case, for the second codes 0 to 3. */
  lemma MovedComposesBackLow(row: int, col: int, code1: int, code2: int)
    requires 0 <= code1 < 8 && 0 <= code2 < 4
    ensures var p := Moved(row, col, code2, true); Moved(p.0, p.1, code1, true) == Moved(row, col, TransMultiple(code1, code2), true)
  {
  }

  /** The backward composition, case by case, for the second codes 4 to 7. */
  lemma MovedComposesBackHigh(row: int, col: int, code1: int, code2: int)
    requires 0 <= code1 < 8 && 4 <= code2 < 8
    ensures var p := Moved(row, col, code2, true); Moved(p.0, p.1, code1, true) == Moved(row, col, TransMultiple(code1, code2), true)
  {
  }

  /**
   * The composed code moves every square as the two codes do one after
   * the other: code1 then code2 forwards, and code2 then code1 backwards.
   */
  lemma TransMultipleComposes(sq: nat, code1: int, code2: int)
    requires OnBoard(sq) && 0 <= code1 < 8 && 0 <= code2 < 8
    ensures TransSquare(TransSquare(sq, code1, false), code2, false) == TransSquare(sq, TransMultiple(code1, code2), false)
    ensures TransSquare(TransSquare(sq, code2, true), code1, true) == TransSquare(sq, TransMultiple(code1, code2), true)
  {
    var c := TransMultiple(code1, code2);
    MovedComposes(Row(sq), Col(sq), code1, code2);
    MovedComposesBack(Row(sq), Col(sq), code1, code2);
    var s1 := TransSquare(sq, code1, false);
    TransSquareMoved(sq, code1, false);
    TransSquareMoved(s1, code2, false);
    TransSquareMoved(sq, c, false);
    SquareOfRowCol(TransSquare(s1, code2, false));
    SquareOfRowCol(TransSquare(sq, c, false));
    var s2 := TransSquare(sq, code2, true);
    TransSquareMoved(sq, code2, true);
    TransSquareMoved(s2, code1, true);
    TransSquareMoved(sq, c, true);
    SquareOfRowCol(TransSquare(s2, code1, true));
    SquareOfRowCol(TransSquare(sq, c, true));
  }
}
