/** The fixed tables of chess/src/utils/constants.ts. */
module Constants {
  import opened Wrappers
  import opened Types
  import opened BoardUtil

  function BackRank(c: Color): seq<Square> {
    [Some(Piece(Castle, c)), Some(Piece(Horse, c)), Some(Piece(Bishop, c)), Some(Piece(Queen, c)),
     Some(Piece(King, c)), Some(Piece(Bishop, c)), Some(Piece(Horse, c)), Some(Piece(Castle, c))]
  }

  /** `INITIAL_BOARD` */
  const INITIAL_BOARD: Board := [
    BackRank(Black),
    seq(8, _ => Some(Piece(Pawn, Black))),
    seq(8, _ => None),
    seq(8, _ => None),
    seq(8, _ => None),
    seq(8, _ => None),
    seq(8, _ => Some(Piece(Pawn, White))),
    BackRank(White)
  ]

  /** `KNIGHT_MOVES` */
  const KNIGHT_MOVES: seq<Pos> := [
    Pos(-2, -1), Pos(-1, -2), Pos(-2, 1), Pos(-1, 2),
    Pos(2, -1), Pos(1, -2), Pos(2, 1), Pos(1, 2)
  ]

  /** `KING_MOVES` */
  const KING_MOVES: seq<Pos> := [
    Pos(-1, -1), Pos(-1, 0), Pos(-1, 1), Pos(0, -1),
    Pos(0, 1), Pos(1, -1), Pos(1, 0), Pos(1, 1)
  ]

  function Abs(x: int): nat { if x < 0 then -x else x }

  /** An L-shaped jump: one coordinate changes by one, the other by two. */
  predicate IsKnightOffset(d: Pos) {
    (Abs(d.row) == 1 && Abs(d.col) == 2) || (Abs(d.row) == 2 && Abs(d.col) == 1)
  }

  /** A step to one of the eight neighbouring squares. */
  predicate IsKingOffset(d: Pos) {
    Abs(d.row) <= 1 && Abs(d.col) <= 1 && d != Pos(0, 0)
  }

  /** Rows 2 to 5 are empty, row 1 holds black pawns and row 6 white pawns. */
  lemma InitialMiddleRows()
    ensures forall r, c | 2 <= r < 6 && 0 <= c < 8 :: At(INITIAL_BOARD, Pos(r, c)) == None
    ensures forall c | 0 <= c < 8 :: At(INITIAL_BOARD, Pos(1, c)) == Some(Piece(Pawn, Black))
    ensures forall c | 0 <= c < 8 :: At(INITIAL_BOARD, Pos(6, c)) == Some(Piece(Pawn, White))
  {
  }

  /** Each colour has exactly one king: Black's on (0,4) and White's on (7,4). */
  lemma InitialKings(p: Pos)
    requires IsValidPosition(p)
    ensures At(INITIAL_BOARD, p) == Some(Piece(King, Black)) <==> p == Pos(0, 4)
    ensures At(INITIAL_BOARD, p) == Some(Piece(King, White)) <==> p == Pos(7, 4)
  {
  }

  /** The knight table lists eight distinct L-shaped offsets, and every L-shaped offset. */
  lemma KnightMovesTable(d: Pos)
    ensures |KNIGHT_MOVES| == 8
    ensures forall i, j | 0 <= i < j < 8 :: KNIGHT_MOVES[i] != KNIGHT_MOVES[j]
    ensures d in KNIGHT_MOVES <==> IsKnightOffset(d)
  {
  }

  /** The king table lists the eight distinct offsets in {-1,0,1}^2 other than (0,0). */
  lemma KingMovesTable(d: Pos)
    ensures |KING_MOVES| == 8
    ensures forall i, j | 0 <= i < j < 8 :: KING_MOVES[i] != KING_MOVES[j]
    ensures d in KING_MOVES <==> IsKingOffset(d)
  {
  }
}
