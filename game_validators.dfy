/**
 * The board queries of chess/src/utils/gameValidators.ts: finding a king, deciding whether a
 * king is attacked, and playing a move on a copy of the board.
 *
 * `findKing` and `isKingInCheck` scan the board row by row with nested loops and return as
 * soon as they find what they look for; each is a method with those loops, proved equal to a
 * scan function (`KingFrom`, `AttackedFrom`) that resumes the row-major scan at a given
 * square. What the scans mean is stated by lemmas about those functions.
 */
module GameValidators {
  import opened Wrappers
  import opened Types
  import opened BoardUtil
  import opened MoveCalculator

  /** Square `a` comes at or after square `(row, col)` in the row-major scan order. */
  predicate AtOrAfter(a: Pos, row: int, col: int) {
    a.row > row || (a.row == row && a.col >= col)
  }

  /** The square holds the king of `color`. */
  predicate IsKingOf(s: Square, color: Color) {
    s == Some(Piece(King, color))
  }

  // ---------------------------------------------------------------------------------------
  // findKing

  /** The first king of `color` met by the row-major scan resumed at `(row, col)`. */
  function KingFrom(b: Board, color: Color, row: nat, col: nat): Option<Pos>
    requires row <= 8 && col <= 8
    decreases 8 - row, 8 - col
  {
    if row == 8 then None
    else if col == 8 then KingFrom(b, color, row + 1, 0)
    else if IsKingOf(b[row][col], color) then Some(Pos(row, col))
    else KingFrom(b, color, row, col + 1)
  }

  /** The scan starts at the top-left corner. */
  const FIRST_ROW: nat := 0
  const FIRST_COL: nat := 0

  /** What `findKing` returns. */
  function KingSquare(b: Board, color: Color): Option<Pos> {
    KingFrom(b, color, FIRST_ROW, FIRST_COL)
  }

  /** `findKing` */
  method FindKing(b: Board, color: Color) returns (r: Option<Pos>)
    ensures r == KingSquare(b, color)
  {
    var row := 0;
    while row < 8
      invariant 0 <= row <= 8
      invariant KingSquare(b, color) == KingFrom(b, color, row, 0)
    {
      var col := 0;
      while col < 8
        invariant 0 <= col <= 8
        invariant KingSquare(b, color) == KingFrom(b, color, row, col)
      {
        var piece := b[row][col];
        if piece.Some? && piece.value.kind == King && piece.value.color == color {
          return Some(Pos(row, col));
        }
        col := col + 1;
      }
      row := row + 1;
    }
    return None;
  }

  /**
   * The resumed scan finds the first king at or after its start: a found square holds the
   * king and no square between the start and it does; finding nothing means no square at or
   * after the start holds the king.
   */
  lemma {:induction false} KingFromMeaning(b: Board, color: Color, row: nat, col: nat)
    requires row <= 8 && col <= 8
    ensures KingFrom(b, color, row, col).Some? ==>
      var k := KingFrom(b, color, row, col).value;
      && IsValidPosition(k) && AtOrAfter(k, row, col) && IsKingOf(At(b, k), color)
      && forall q | IsValidPosition(q) && AtOrAfter(q, row, col) && !AtOrAfter(q, k.row, k.col) ::
           !IsKingOf(At(b, q), color)
    ensures KingFrom(b, color, row, col).None? ==>
      forall q | IsValidPosition(q) && AtOrAfter(q, row, col) :: !IsKingOf(At(b, q), color)
    decreases 8 - row, 8 - col
  {
    if row < 8 {
      if col == 8 {
        KingFromMeaning(b, color, row + 1, 0);
      } else if !IsKingOf(b[row][col], color) {
        KingFromMeaning(b, color, row, col + 1);
      }
    }
  }

  /**
   * `findKing` returns the first square in row-major order that holds the king of `color`,
   * and returns nothing exactly when no square holds it.
   */
  lemma KingSquareMeaning(b: Board, color: Color)
    ensures KingSquare(b, color).Some? ==>
      var k := KingSquare(b, color).value;
      && IsValidPosition(k) && IsKingOf(At(b, k), color)
      && forall q | IsValidPosition(q) && !AtOrAfter(q, k.row, k.col) :: !IsKingOf(At(b, q), color)
    ensures KingSquare(b, color).None? <==> forall q | IsValidPosition(q) :: !IsKingOf(At(b, q), color)
  {
    KingFromMeaning(b, color, FIRST_ROW, FIRST_COL);
  }

  /** With exactly one king of a colour on the board, `findKing` returns its square. */
  lemma KingSquareOfUniqueKing(b: Board, color: Color, k: Pos)
    requires IsValidPosition(k) && IsKingOf(At(b, k), color)
    requires forall q | IsValidPosition(q) && IsKingOf(At(b, q), color) :: q == k
    ensures KingSquare(b, color) == Some(k)
  {
    KingSquareMeaning(b, color);
  }

  // ---------------------------------------------------------------------------------------
  // isKingInCheck

  /** The piece on `p` is of colour `enemy` and its generated moves include `target`. */
  predicate Attacks(b: Board, p: Pos, target: Pos, enemy: Color, hasKingMoved: KingMoved, hasRookMoved: CastlingRights)
    requires IsValidPosition(p)
  {
    HoldsColor(At(b, p), enemy) && target in PossibleMoves(b, p, hasKingMoved, hasRookMoved)
  }

  /** Whether some piece of colour `enemy` at or after `(row, col)` in the scan attacks `target`. */
  function AttackedFrom(b: Board, target: Pos, enemy: Color, hasKingMoved: KingMoved, hasRookMoved: CastlingRights,
                        row: nat, col: nat): bool
    requires row <= 8 && col <= 8
    decreases 8 - row, 8 - col
  {
    if row == 8 then false
    else if col == 8 then AttackedFrom(b, target, enemy, hasKingMoved, hasRookMoved, row + 1, 0)
    else (Attacks(b, Pos(row, col), target, enemy, hasKingMoved, hasRookMoved)
          || AttackedFrom(b, target, enemy, hasKingMoved, hasRookMoved, row, col + 1))
  }

  /** What `isKingInCheck` returns: a missing king counts as being in check. */
  function InCheck(b: Board, color: Color, hasKingMoved: KingMoved, hasRookMoved: CastlingRights): bool {
    match KingSquare(b, color)
    case None => true
    case Some(k) => AttackedFrom(b, k, GetOppositeColor(color), hasKingMoved, hasRookMoved, FIRST_ROW, FIRST_COL)
  }

  /** `isKingInCheck` */
  method IsKingInCheck(b: Board, color: Color, hasKingMoved: KingMoved, hasRookMoved: CastlingRights)
    returns (r: bool)
    ensures r == InCheck(b, color, hasKingMoved, hasRookMoved)
  {
    var kingPos := FindKing(b, color);
    if kingPos.None? {
      return true;
    }
    var enemyColor := GetOppositeColor(color);
    ghost var attacked := AttackedFrom(b, kingPos.value, enemyColor, hasKingMoved, hasRookMoved, FIRST_ROW, FIRST_COL);
    var row := 0;
    while row < 8
      invariant 0 <= row <= 8
      invariant attacked == AttackedFrom(b, kingPos.value, enemyColor, hasKingMoved, hasRookMoved, row, 0)
    {
      var col := 0;
      while col < 8
        invariant 0 <= col <= 8
        invariant attacked == AttackedFrom(b, kingPos.value, enemyColor, hasKingMoved, hasRookMoved, row, col)
      {
        var piece := b[row][col];
        if piece.Some? && piece.value.color == enemyColor {
          var moves := GetAllPossibleMoves(b, Pos(row, col), hasKingMoved, hasRookMoved);
          if kingPos.value in moves {
            return true;
          }
        }
        col := col + 1;
      }
      row := row + 1;
    }
    return false;
  }

  /** The resumed attack scan holds exactly when some attacker stands at or after its start. */
  lemma {:induction false} AttackedFromMeaning(b: Board, target: Pos, enemy: Color, hasKingMoved: KingMoved,
                                               hasRookMoved: CastlingRights, row: nat, col: nat)
    requires row <= 8 && col <= 8
    ensures AttackedFrom(b, target, enemy, hasKingMoved, hasRookMoved, row, col)
        <==> exists p | IsValidPosition(p) && AtOrAfter(p, row, col) ::
               Attacks(b, p, target, enemy, hasKingMoved, hasRookMoved)
    decreases 8 - row, 8 - col
  {
    if row < 8 {
      if col == 8 {
        AttackedFromMeaning(b, target, enemy, hasKingMoved, hasRookMoved, row + 1, 0);
      } else {
        AttackedFromMeaning(b, target, enemy, hasKingMoved, hasRookMoved, row, col + 1);
        if exists p | IsValidPosition(p) && AtOrAfter(p, row, col) :: Attacks(b, p, target, enemy, hasKingMoved, hasRookMoved) {
          var p :| IsValidPosition(p) && AtOrAfter(p, row, col) && Attacks(b, p, target, enemy, hasKingMoved, hasRookMoved);
          if p != Pos(row, col) {
            assert AtOrAfter(p, row, col + 1);
          }
        }
      }
    }
  }

  /**
   * A colour is in check exactly when it has no king, or a piece of the other colour has the
   * square `findKing` returns among its generated moves.
   */
  lemma InCheckMeaning(b: Board, color: Color, hasKingMoved: KingMoved, hasRookMoved: CastlingRights)
    ensures InCheck(b, color, hasKingMoved, hasRookMoved)
        <==> || KingSquare(b, color).None?
             || exists p | IsValidPosition(p) ::
                  Attacks(b, p, KingSquare(b, color).value, GetOppositeColor(color), hasKingMoved, hasRookMoved)
  {
    if KingSquare(b, color).Some? {
      var k, enemy := KingSquare(b, color).value, GetOppositeColor(color);
      AttackedFromMeaning(b, k, enemy, hasKingMoved, hasRookMoved, FIRST_ROW, FIRST_COL);
      if exists p | IsValidPosition(p) :: Attacks(b, p, k, enemy, hasKingMoved, hasRookMoved) {
        var p :| IsValidPosition(p) && Attacks(b, p, k, enemy, hasKingMoved, hasRookMoved);
        assert AtOrAfter(p, FIRST_ROW, FIRST_COL);
      }
    }
  }

  // ---------------------------------------------------------------------------------------
  // applyMove

  /** The piece that lands on `to`: a pawn reaching row 0 or row 7 becomes a queen of its colour. */
  function Landed(s: Square, to: Pos): Square {
    if s.Some? && s.value.kind == Pawn && (to.row == 0 || to.row == 7) then Some(Piece(Queen, s.value.color))
    else s
  }

  /**
   * The board after `applyMove(board, from, to)`, square by square: the moved (possibly
   * promoted) piece on `to`, `from` emptied, every other square as before. When `from == to`
   * the emptying of `from` comes after the write to `to`, so only a promotion survives.
   */
  function AppliedBoard(b: Board, from: Pos, to: Pos): (r: Board)
    requires IsValidPosition(from) && IsValidPosition(to)
    ensures from != to ==> At(r, to) == Landed(At(b, from), to) && At(r, from) == None
    ensures from == to ==> At(r, to) == (if Landed(At(b, from), to) != At(b, from) then Landed(At(b, from), to) else None)
    ensures forall q | IsValidPosition(q) && q != from && q != to :: At(r, q) == At(b, q)
  {
    var piece := At(b, from);
    seq(8, i requires 0 <= i < 8 =>
      seq(8, j requires 0 <= j < 8 =>
        if Pos(i, j) == to && Landed(piece, to) != piece then Landed(piece, to)
        else if Pos(i, j) == from then None
        else if Pos(i, j) == to then piece
        else b[i][j]))
  }

  /** `applyMove`: writes on a copy of the board, in the source's order. */
  method ApplyMove(b: Board, from: Pos, to: Pos) returns (newBoard: Board)
    requires IsValidPosition(from) && IsValidPosition(to)
    ensures newBoard == AppliedBoard(b, from, to)
  {
    newBoard := b;
    var piece := newBoard[from.row][from.col];
    newBoard := Put(newBoard, to, piece);
    newBoard := Put(newBoard, from, None);
    if piece.Some? && piece.value.kind == Pawn && (to.row == 0 || to.row == 7) {
      newBoard := Put(newBoard, to, Some(Piece(Queen, piece.value.color)));
    }
    BoardsEqualByCells(newBoard, AppliedBoard(b, from, to));
  }

  /** Two boards that agree on every square are equal. */
  lemma BoardsEqualByCells(b1: Board, b2: Board)
    requires forall q | IsValidPosition(q) :: At(b1, q) == At(b2, q)
    ensures b1 == b2
  {
    forall i | 0 <= i < 8
      ensures b1[i] == b2[i]
    {
      forall j | 0 <= j < 8
        ensures b1[i][j] == b2[i][j]
      {
        assert At(b1, Pos(i, j)) == At(b2, Pos(i, j));
      }
    }
  }
}
