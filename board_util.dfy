/** Square queries of chess/src/utils/boardUtil.ts, and cell access on the value board. */
module BoardUtil {
  import opened Wrappers
  import opened Types

  /** `isValidPosition` */
  predicate IsValidPosition(p: Pos) {
    p.row >= 0 && p.row < 8 && p.col >= 0 && p.col < 8
  }

  /** The valid positions are exactly the cells that can be indexed on a board. */
  lemma ValidPositionIsIndexable(b: Board, p: Pos)
    ensures IsValidPosition(p) <==> (0 <= p.row < |b| && 0 <= p.col < |b[p.row]|)
  {
  }

  /** `getOppositeColor` */
  function GetOppositeColor(c: Color): (r: Color)
    ensures r != c
    ensures c == White <==> r == Black
  {
    if c == White then Black else White
  }

  /** Flipping the colour twice gives the colour back. */
  lemma OppositeColorInvolution(c: Color)
    ensures GetOppositeColor(GetOppositeColor(c)) == c
  {
  }

  /** `board[row][col]` */
  function At(b: Board, p: Pos): Square
    requires IsValidPosition(p)
  {
    b[p.row][p.col]
  }

  /** `board[row][col] = s` on a copy of the board. */
  function Put(b: Board, p: Pos, s: Square): (r: Board)
    requires IsValidPosition(p)
    ensures At(r, p) == s
    ensures forall q | IsValidPosition(q) && q != p :: At(r, q) == At(b, q)
  {
    b[p.row := b[p.row][p.col := s]]
  }

  /** The square is occupied by a piece of colour `c`. */
  predicate HoldsColor(s: Square, c: Color) {
    s.Some? && s.value.color == c
  }
}
