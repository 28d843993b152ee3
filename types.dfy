/**
 * The data model of the chess client (chess/src/utils/types.ts): colours, piece kinds,
 * pieces, squares, positions, the 8x8 board, castling flags, game state and the
 * capture ledger.
 */
module Types {
  import opened Wrappers

  /** "w" and "b" in the source. */
  datatype Color = White | Black

  /** The source's piece tags; `Castle` is the rook and `Horse` the knight. */
  datatype PieceKind = Pawn | Castle | Horse | Bishop | Queen | King

  /** A piece carries no position; the display-only image path is not modelled. */
  datatype Piece = Piece(kind: PieceKind, color: Color)

  /** A board cell: `None` is the source's `null`. */
  type Square = Option<Piece>

  /** A [row, col] pair. Coordinates are unbounded: generated candidates may be off-board. */
  datatype Pos = Pos(row: int, col: int)

  /** Eight rows of eight squares, row 0 being Black's back rank. */
  ghost predicate IsGrid(b: seq<seq<Square>>) {
    |b| == 8 && forall r | 0 <= r < 8 :: |b[r]| == 8
  }

  type Board = b: seq<seq<Square>> | IsGrid(b)
    witness seq(8, _ => seq(8, _ => None))

  /** A pair of values, one per colour, as the source's `{ w: ..., b: ... }` records. */
  datatype ByColor<T> = ByColor(w: T, b: T) {
    function Get(c: Color): T {
      match c
      case White => w
      case Black => b
    }

    function Set(c: Color, v: T): (r: ByColor<T>)
      ensures r.Get(c) == v
    {
      match c
      case White => this.(w := v)
      case Black => this.(b := v)
    }
  }

  /** Whether the queenside (`left`, file 0) and kingside (`right`, file 7) rook has moved. */
  datatype RookSides = RookSides(left: bool, right: bool)

  /** `hasKingMoved` */
  type KingMoved = ByColor<bool>

  /** `hasRookMoved` (the source's `CastlingRights`) */
  type CastlingRights = ByColor<RookSides>

  /** The flags of a fresh game: nothing has moved. */
  const NO_KING_MOVED: KingMoved := ByColor(false, false)
  const NO_ROOK_MOVED: CastlingRights := ByColor(RookSides(false, false), RookSides(false, false))

  /** `GameState`: the board, the side to move and who (if anyone) is in check. */
  datatype GameState = GameState(board: Board, currentPlayer: Color, isInCheck: Option<Color>)

  /** One entry of the capture ledger `capturedHistory`. */
  datatype Capture = Capture(capturedBy: Color, piece: Piece)
}
