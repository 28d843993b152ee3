/**
 * What the generator of chess/src/utils/moveCalculator.ts offers White in the starting position
 * of chess/src/utils/constants.ts with no king or rook moved: two moves for each pawn and each
 * knight, none for the other pieces, twenty in all.
 */
module InitialPosition {
  import opened Wrappers
  import opened Types
  import opened BoardUtil
  import opened Constants
  import opened MoveCalculator
  import opened GameValidators
  import opened MoveValidation

  /** The number of moves generated for a piece of `color` on `p`; other squares count 0. */
  function SquareCount(b: Board, color: Color, km: KingMoved, rm: CastlingRights, p: Pos): nat {
    if IsValidPosition(p) && HoldsColor(At(b, p), color) then |PossibleMoves(b, p, km, rm)| else 0
  }

  /** The count of every square, as one function. */
  function MoveCounts(b: Board, color: Color, km: KingMoved, rm: CastlingRights): Pos -> nat {
    p => SquareCount(b, color, km, rm, p)
  }

  /** The sum of `count` over the squares from `(row, col)` on, in row-major order. */
  function SumFrom(count: Pos -> nat, row: nat, col: nat): nat
    requires row <= 8 && col <= 8
    decreases 8 - row, 8 - col
  {
    if row == 8 then 0
    else if col == 8 then SumFrom(count, row + 1, 0)
    else count(Pos(row, col)) + SumFrom(count, row, col + 1)
  }

  /** All pseudo-legal moves of the pieces of `color`, counted over the whole board. */
  function PseudoMoveCount(b: Board, color: Color, km: KingMoved, rm: CastlingRights): nat {
    SumFrom(MoveCounts(b, color, km, rm), FIRST_ROW, FIRST_COL)
  }

  /** Directions whose first square is off the board or holds an own piece give no sliding move. */
  lemma {:induction false} SlidingBlocked(b: Board, p: Pos, directions: seq<Pos>, color: Color)
    requires forall k | 0 <= k < |directions| :: !IsValidPosition(Shift(p, directions[k]))
                                                 || HoldsColor(At(b, Shift(p, directions[k])), color)
    ensures Sliding(b, p, directions, color) == []
    decreases |directions|
  {
    if directions != [] {
      var init := directions[..|directions| - 1];
      assert forall k | 0 <= k < |init| :: init[k] == directions[k];
      SlidingBlocked(b, p, init, color);
    }
  }

  /** Offsets that all lead off the board or onto an own piece give no leap. */
  lemma {:induction false} LeapsBlocked(b: Board, p: Pos, color: Color, offsets: seq<Pos>)
    requires forall k | 0 <= k < |offsets| :: !IsValidPosition(Shift(p, offsets[k]))
                                              || HoldsColor(At(b, Shift(p, offsets[k])), color)
    ensures Leaps(b, p, color, offsets) == []
    decreases |offsets|
  {
    if offsets != [] {
      var init := offsets[..|offsets| - 1];
      assert forall k | 0 <= k < |init| :: init[k] == offsets[k];
      LeapsBlocked(b, p, color, init);
    }
  }

  /** A white pawn on its start square may step one or two squares forward, in that order. */
  lemma InitialPawnMoves(col: int)
    requires 0 <= col < 8
    ensures PossibleMoves(INITIAL_BOARD, Pos(6, col), NO_KING_MOVED, NO_ROOK_MOVED) == [Pos(5, col), Pos(4, col)]
  {
    InitialMiddleRows();
    var b, p := INITIAL_BOARD, Pos(6, col);
    assert PAWN_CAPTURE_COLS[..1] == [-1];
    assert PawnCaptures(b, p, White, [-1]) == CaptureAt(b, p, White, -1) == [];
    assert PawnCaptures(b, p, White, PAWN_CAPTURE_COLS) == [];
    assert PawnAdvance(b, p, White) == [Pos(5, col), Pos(4, col)];
  }

  /** One more offset adds its square when it is on the board and not an own piece. */
  lemma LeapsSnoc(b: Board, p: Pos, color: Color, offsets: seq<Pos>, d: Pos)
    ensures Leaps(b, p, color, offsets + [d])
         == Leaps(b, p, color, offsets)
            + if IsValidPosition(Shift(p, d)) && IsOpenFor(At(b, Shift(p, d)), color) then [Shift(p, d)] else []
  {
    assert (offsets + [d])[..|offsets|] == offsets;
  }

  /** The knight table splits into four upward jumps and four jumps off the bottom edge. */
  lemma KnightTableHalves()
    ensures KNIGHT_MOVES == [Pos(-2, -1), Pos(-1, -2), Pos(-2, 1), Pos(-1, 2)] + KNIGHT_MOVES[4..]
    ensures forall k | 0 <= k < 4 :: KNIGHT_MOVES[4..][k].row >= 1
  {
  }

  /** Leaps over a concatenation of offset lists are the leaps of each list, in order. */
  lemma {:induction false} LeapsAppend(b: Board, p: Pos, color: Color, o1: seq<Pos>, o2: seq<Pos>)
    ensures Leaps(b, p, color, o1 + o2) == Leaps(b, p, color, o1) + Leaps(b, p, color, o2)
    decreases |o2|
  {
    if o2 == [] {
      assert o1 + o2 == o1;
    } else {
      var init, last := o2[..|o2| - 1], o2[|o2| - 1];
      assert o1 + o2 == (o1 + init) + [last];
      assert o2 == init + [last];
      LeapsSnoc(b, p, color, o1 + init, last);
      LeapsSnoc(b, p, color, init, last);
      LeapsAppend(b, p, color, o1, init);
    }
  }

  /** A white knight on row 7 jumps to whichever of its four upward squares are on the board and open. */
  lemma KnightFromBackRank(col: int)
    requires 0 <= col < 8
    ensures Leaps(INITIAL_BOARD, Pos(7, col), White, KNIGHT_MOVES)
         == Leaps(INITIAL_BOARD, Pos(7, col), White, [Pos(-2, -1), Pos(-1, -2), Pos(-2, 1), Pos(-1, 2)])
  {
    var b, p := INITIAL_BOARD, Pos(7, col);
    KnightTableHalves();
    LeapsAppend(b, p, White, [Pos(-2, -1), Pos(-1, -2), Pos(-2, 1), Pos(-1, 2)], KNIGHT_MOVES[4..]);
    LeapsBlocked(b, p, White, KNIGHT_MOVES[4..]);
  }

  /** The queenside white knight may jump to the two squares of row 5 it reaches. */
  lemma InitialQueensideKnightMoves()
    ensures PossibleMoves(INITIAL_BOARD, Pos(7, 1), NO_KING_MOVED, NO_ROOK_MOVED) == [Pos(5, 0), Pos(5, 2)]
  {
    InitialMiddleRows();
    var b, p := INITIAL_BOARD, Pos(7, 1);
    var d1, d2, d3, d4 := Pos(-2, -1), Pos(-1, -2), Pos(-2, 1), Pos(-1, 2);
    assert [d1, d2, d3, d4] == [] + [d1] + [d2] + [d3] + [d4];
    KnightFromBackRank(1);
    LeapsSnoc(b, p, White, [], d1);
    LeapsSnoc(b, p, White, [d1], d2);
    LeapsSnoc(b, p, White, [d1, d2], d3);
    LeapsSnoc(b, p, White, [d1, d2, d3], d4);
  }

  /** The kingside white knight may jump to the two squares of row 5 it reaches. */
  lemma InitialKingsideKnightMoves()
    ensures PossibleMoves(INITIAL_BOARD, Pos(7, 6), NO_KING_MOVED, NO_ROOK_MOVED) == [Pos(5, 5), Pos(5, 7)]
  {
    InitialMiddleRows();
    var b, p := INITIAL_BOARD, Pos(7, 6);
    var d1, d2, d3, d4 := Pos(-2, -1), Pos(-1, -2), Pos(-2, 1), Pos(-1, 2);
    assert [d1, d2, d3, d4] == [] + [d1] + [d2] + [d3] + [d4];
    KnightFromBackRank(6);
    LeapsSnoc(b, p, White, [], d1);
    LeapsSnoc(b, p, White, [d1], d2);
    LeapsSnoc(b, p, White, [d1, d2], d3);
    LeapsSnoc(b, p, White, [d1, d2, d3], d4);
  }

  /** Every square of the white back rank holds a white piece. */
  lemma InitialWhiteBackRank()
    ensures forall c | 0 <= c < 8 :: HoldsColor(At(INITIAL_BOARD, Pos(7, c)), White)
  {
  }

  /** The queenside white rook, hemmed in by the edge, the knight and the pawn, has no move. */
  lemma InitialQueensideRookBlocked()
    ensures PossibleMoves(INITIAL_BOARD, Pos(7, 0), NO_KING_MOVED, NO_ROOK_MOVED) == []
  {
    InitialMiddleRows();
    InitialWhiteBackRank();
    SlidingBlocked(INITIAL_BOARD, Pos(7, 0), ROOK_DIRECTIONS, White);
  }

  /** The kingside white rook has no move. */
  lemma InitialKingsideRookBlocked()
    ensures PossibleMoves(INITIAL_BOARD, Pos(7, 7), NO_KING_MOVED, NO_ROOK_MOVED) == []
  {
    InitialMiddleRows();
    InitialWhiteBackRank();
    SlidingBlocked(INITIAL_BOARD, Pos(7, 7), ROOK_DIRECTIONS, White);
  }

  /** The white bishops have no move. */
  lemma InitialBishopsBlocked(col: int)
    requires col == 2 || col == 5
    ensures PossibleMoves(INITIAL_BOARD, Pos(7, col), NO_KING_MOVED, NO_ROOK_MOVED) == []
  {
    InitialMiddleRows();
    SlidingBlocked(INITIAL_BOARD, Pos(7, col), BISHOP_DIRECTIONS, White);
  }

  /** The white queen has no move. */
  lemma InitialQueenBlocked()
    ensures PossibleMoves(INITIAL_BOARD, Pos(7, 3), NO_KING_MOVED, NO_ROOK_MOVED) == []
  {
    InitialMiddleRows();
    InitialWhiteBackRank();
    SlidingBlocked(INITIAL_BOARD, Pos(7, 3), QUEEN_DIRECTIONS, White);
  }

  /** The white king has no move: its neighbours are own pieces and both castling paths are blocked. */
  lemma InitialKingBlocked()
    ensures PossibleMoves(INITIAL_BOARD, Pos(7, 4), NO_KING_MOVED, NO_ROOK_MOVED) == []
  {
    InitialMiddleRows();
    InitialWhiteBackRank();
    LeapsBlocked(INITIAL_BOARD, Pos(7, 4), White, KING_MOVES);
    assert At(INITIAL_BOARD, Pos(7, 5)).Some? && At(INITIAL_BOARD, Pos(7, 1)).Some?;
  }

  /** The rows of the white pawns and of the white back rank. */
  const PAWN_ROW: nat := 6
  const BACK_ROW: nat := 7

  /** The reference count: two moves on each pawn square and each knight square, none elsewhere. */
  function OpeningCount(p: Pos): nat {
    if p.row == 6 || p == Pos(7, 1) || p == Pos(7, 6) then 2 else 0
  }

  /** Rows `row` to `stop - 1` counting nothing, the sum from inside them is the sum from `stop` on. */
  lemma {:induction false} SumSkipsZeroRows(count: Pos -> nat, stop: nat, row: nat, col: nat)
    requires row < stop <= 8 && col <= 8
    requires forall r, c | row <= r < stop && 0 <= c < 8 :: count(Pos(r, c)) == 0
    ensures SumFrom(count, row, col) == SumFrom(count, stop, 0)
    decreases 8 - row, 8 - col
  {
    if col == 8 {
      if row + 1 < stop {
        SumSkipsZeroRows(count, stop, row + 1, 0);
      }
    } else {
      SumSkipsZeroRows(count, stop, row, col + 1);
    }
  }

  /** A row counting two on every square adds two per remaining column. */
  lemma {:induction false} SumOfPawnRow(count: Pos -> nat, row: nat, col: nat)
    requires row < 8 && col <= 8
    requires forall c | 0 <= c < 8 :: count(Pos(row, c)) == 2
    ensures SumFrom(count, row, col) == 2 * (8 - col) + SumFrom(count, row + 1, 0)
    decreases 8 - col
  {
    if col < 8 {
      SumOfPawnRow(count, row, col + 1);
    }
  }

  /** A row counting two on columns 1 and 6 and nothing elsewhere adds four from column 0 or 1 on. */
  lemma {:induction false} SumOfBackRank(count: Pos -> nat, row: nat, col: nat)
    requires row < 8 && col <= 8
    requires forall c | 0 <= c < 8 :: count(Pos(row, c)) == if c == 1 || c == 6 then 2 else 0
    ensures SumFrom(count, row, col) == (if col <= 1 then 4 else if col <= 6 then 2 else 0) + SumFrom(count, row + 1, 0)
    decreases 8 - col
  {
    if col < 8 {
      SumOfBackRank(count, row, col + 1);
    }
  }

  /** On the starting board each white piece has exactly the reference number of moves. */
  lemma InitialCountsAreOpeningCounts()
    ensures forall p | IsValidPosition(p) ::
      MoveCounts(INITIAL_BOARD, White, NO_KING_MOVED, NO_ROOK_MOVED)(p) == OpeningCount(p)
  {
    forall p | IsValidPosition(p)
      ensures SquareCount(INITIAL_BOARD, White, NO_KING_MOVED, NO_ROOK_MOVED, p) == OpeningCount(p)
    {
      InitialMiddleRows();
      if p.row < 6 {
        assert !HoldsColor(At(INITIAL_BOARD, p), White);
      } else if p.row == 6 {
        InitialPawnMoves(p.col);
      } else if p.col == 1 {
        InitialQueensideKnightMoves();
      } else if p.col == 6 {
        InitialKingsideKnightMoves();
      } else if p.col == 0 {
        InitialQueensideRookBlocked();
      } else if p.col == 7 {
        InitialKingsideRookBlocked();
      } else if p.col == 2 || p.col == 5 {
        InitialBishopsBlocked(p.col);
      } else if p.col == 3 {
        InitialQueenBlocked();
      } else {
        InitialKingBlocked();
      }
    }
  }

  /** A count agreeing with the reference count adds nothing over rows 0 to 5. */
  lemma OpeningUpperRows(count: Pos -> nat)
    requires forall p | IsValidPosition(p) :: count(p) == OpeningCount(p)
    ensures SumFrom(count, FIRST_ROW, FIRST_COL) == SumFrom(count, PAWN_ROW, FIRST_COL)
  {
    assert forall r, c | 0 <= r < PAWN_ROW && 0 <= c < 8 :: count(Pos(r, c)) == OpeningCount(Pos(r, c)) == 0;
    SumSkipsZeroRows(count, PAWN_ROW, FIRST_ROW, FIRST_COL);
  }

  /** A count agreeing with the reference count adds sixteen over the pawn row. */
  lemma OpeningPawnRow(count: Pos -> nat)
    requires forall p | IsValidPosition(p) :: count(p) == OpeningCount(p)
    ensures SumFrom(count, PAWN_ROW, FIRST_COL) == 16 + SumFrom(count, BACK_ROW, FIRST_COL)
  {
    assert forall c | 0 <= c < 8 :: count(Pos(PAWN_ROW, c)) == OpeningCount(Pos(PAWN_ROW, c)) == 2;
    SumOfPawnRow(count, PAWN_ROW, FIRST_COL);
  }

  /** A count agreeing with the reference count adds four over the back rank. */
  lemma OpeningBackRank(count: Pos -> nat)
    requires forall p | IsValidPosition(p) :: count(p) == OpeningCount(p)
    ensures SumFrom(count, BACK_ROW, FIRST_COL) == 4 + SumFrom(count, BACK_ROW + 1, FIRST_COL)
  {
    assert forall c | 0 <= c < 8 :: count(Pos(BACK_ROW, c)) == OpeningCount(Pos(BACK_ROW, c));
    SumOfBackRank(count, BACK_ROW, FIRST_COL);
  }

  /** Any count that agrees with the reference count on the board sums to twenty. */
  lemma OpeningTotal(count: Pos -> nat)
    requires forall p | IsValidPosition(p) :: count(p) == OpeningCount(p)
    ensures SumFrom(count, FIRST_ROW, FIRST_COL) == 20
  {
    OpeningUpperRows(count);
    OpeningPawnRow(count);
    OpeningBackRank(count);
    assert SumFrom(count, BACK_ROW + 1, FIRST_COL) == 0;
  }

  /** The white pieces have twenty opening moves: sixteen pawn moves and four knight moves. */
  lemma InitialWhiteMoveCount()
    ensures PseudoMoveCount(INITIAL_BOARD, White, NO_KING_MOVED, NO_ROOK_MOVED) == 20
  {
    InitialCountsAreOpeningCounts();
    OpeningTotal(MoveCounts(INITIAL_BOARD, White, NO_KING_MOVED, NO_ROOK_MOVED));
  }

  // ---------------------------------------------------------------------------------------
  // No opening move exposes the white king

  /**
   * A board on which Black has not moved: row 1 is full of black pawns, no black piece stands
   * below row 1, no white piece above row 4, and the white king is on (7, 4).
   */
  ghost predicate BlackUnmoved(b: Board) {
    && (forall c | 0 <= c < 8 :: At(b, Pos(1, c)) == Some(Piece(Pawn, Black)))
    && (forall p | IsValidPosition(p) && HoldsColor(At(b, p), Black) :: p.row <= 1)
    && (forall p | IsValidPosition(p) && HoldsColor(At(b, p), White) :: p.row >= 4)
    && At(b, Pos(7, 4)) == Some(Piece(King, White))
  }

  /** The black back rank of the starting position. */
  lemma InitialBlackBackRank()
    ensures forall c | 0 <= c < 8 :: HoldsColor(At(INITIAL_BOARD, Pos(0, c)), Black)
  {
  }

  /** The starting position is one on which Black has not moved. */
  lemma InitialBlackUnmoved()
    ensures BlackUnmoved(INITIAL_BOARD)
  {
    InitialMiddleRows();
    InitialWhiteBackRank();
    InitialBlackBackRank();
    InitialKings(Pos(7, 4));
  }

  /** A walk along a row stays on that row. */
  lemma {:induction false} WalkAlongRow(b: Board, q: Pos, d: Pos, color: Color, i: nat)
    requires d.row == 0
    ensures forall x | x in Walk(b, q, d, color, i) :: x.row == q.row
    decreases STEP_LIMIT - i
  {
    if i < STEP_LIMIT && IsValidPosition(q) && At(b, q).None? {
      WalkAlongRow(b, Shift(q, d), d, color, i + 1);
    }
  }

  /**
   * A ray from row 0 with row 1 fully occupied stays on rows 0 and 1: going down it stops on
   * row 1, going up it leaves the board, and sideways it keeps to row 0.
   */
  lemma RayFromBackRank(b: Board, p: Pos, d: Pos, color: Color, q: Pos)
    requires p.row == 0 && IsKingOffset(d)
    requires forall c | 0 <= c < 8 :: At(b, Pos(1, c)).Some?
    requires q in Ray(b, p, d, color)
    ensures q.row <= 1
  {
    var start := Shift(p, d);
    if d.row == 0 {
      WalkAlongRow(b, start, d, color, FIRST_STEP);
    } else if d.row == 1 && IsValidPosition(start) {
      assert At(b, Pos(1, start.col)).Some?;
    }
  }

  /** Sliding from row 0 with row 1 fully occupied stays on rows 0 and 1. */
  lemma SlidingFromBackRank(b: Board, p: Pos, directions: seq<Pos>, color: Color, q: Pos)
    requires p.row == 0 && forall d | d in directions :: IsKingOffset(d)
    requires forall c | 0 <= c < 8 :: At(b, Pos(1, c)).Some?
    requires q in Sliding(b, p, directions, color)
    ensures q.row <= 1
  {
    SlidingOnSomeRay(b, p, directions, color, q);
    var k :| 0 <= k < |directions| && q in Ray(b, p, directions[k], color);
    RayFromBackRank(b, p, directions[k], color, q);
  }

  /** A black piece on rows 0 and 1, behind an unbroken row of black pawns, reaches no further than row 3. */
  lemma HomePieceStaysHome(b: Board, p: Pos, km: KingMoved, rm: CastlingRights, q: Pos)
    requires IsValidPosition(p) && p.row <= 1 && HoldsColor(At(b, p), Black)
    requires forall c | 0 <= c < 8 :: At(b, Pos(1, c)) == Some(Piece(Pawn, Black))
    requires q in PossibleMoves(b, p, km, rm)
    ensures q.row <= 3
  {
    var piece := At(b, p).value;
    assert At(b, Pos(1, p.col)) == Some(Piece(Pawn, Black));
    match piece.kind
    case Pawn =>
      PawnMovesMeaning(b, p, Black, q);
    case Horse =>
      KnightMovesShape(b, p, Black, q);
    case King =>
      if !IsKingOffset(Pos(q.row - p.row, q.col - p.col)) {
        KingFarMovesAreCastling(b, p, Black, km.Get(Black), rm.Get(Black), q);
      }
    case Castle =>
      SlidingFromBackRank(b, p, ROOK_DIRECTIONS, Black, q);
    case Bishop =>
      SlidingFromBackRank(b, p, BISHOP_DIRECTIONS, Black, q);
    case Queen =>
      SlidingFromBackRank(b, p, QUEEN_DIRECTIONS, Black, q);
  }

  /** While Black has not moved, no black piece reaches below row 3. */
  lemma BlackMovesStayHome(b: Board, p: Pos, km: KingMoved, rm: CastlingRights, q: Pos)
    requires BlackUnmoved(b) && IsValidPosition(p) && HoldsColor(At(b, p), Black)
    requires q in PossibleMoves(b, p, km, rm)
    ensures q.row <= 3
  {
    HomePieceStaysHome(b, p, km, rm, q);
  }

  /** While Black has not moved, White is not in check, whatever the flags. */
  lemma BlackUnmovedKingSafe(b: Board, km: KingMoved, rm: CastlingRights)
    requires BlackUnmoved(b)
    ensures !InCheck(b, White, km, rm)
  {
    KingSquareMeaning(b, White);
    InCheckMeaning(b, White, km, rm);
    assert IsKingOf(At(b, Pos(7, 4)), White);
    var k := KingSquare(b, White).value;
    forall p | IsValidPosition(p)
      ensures !Attacks(b, p, k, Black, km, rm)
    {
      if HoldsColor(At(b, p), Black) && k in PossibleMoves(b, p, km, rm) {
        BlackMovesStayHome(b, p, km, rm, k);
      }
    }
  }

  /** A white move from the starting position onto row 4 or 5, other than by the king, leaves Black unmoved. */
  lemma OpeningMoveKeepsBlackUnmoved(from: Pos, to: Pos)
    requires IsValidPosition(from) && IsValidPosition(to) && HoldsColor(At(INITIAL_BOARD, from), White)
    requires from != Pos(7, 4) && 4 <= to.row <= 5
    ensures BlackUnmoved(AppliedBoard(INITIAL_BOARD, from, to))
  {
    InitialBlackUnmoved();
    var a := AppliedBoard(INITIAL_BOARD, from, to);
    assert from.row >= 4;
    assert At(a, to) == At(INITIAL_BOARD, from);
  }

  /** The white opening moves land on rows 4 and 5, and the king has none. */
  lemma InitialMovesLandMidBoard(p: Pos)
    requires IsValidPosition(p) && HoldsColor(At(INITIAL_BOARD, p), White)
    ensures forall q | q in PossibleMoves(INITIAL_BOARD, p, NO_KING_MOVED, NO_ROOK_MOVED) ::
      4 <= q.row <= 5 && p != Pos(7, 4)
  {
    InitialMiddleRows();
    InitialBlackBackRank();
    assert p.row >= 6;
    if p.row == 6 {
      InitialPawnMoves(p.col);
    } else if p.col == 1 {
      InitialQueensideKnightMoves();
    } else if p.col == 6 {
      InitialKingsideKnightMoves();
    } else if p.col == 0 {
      InitialQueensideRookBlocked();
    } else if p.col == 7 {
      InitialKingsideRookBlocked();
    } else if p.col == 2 || p.col == 5 {
      InitialBishopsBlocked(p.col);
    } else if p.col == 3 {
      InitialQueenBlocked();
    } else {
      InitialKingBlocked();
    }
  }

  /** The filter keeps every candidate when none of them leaves the king in check. */
  lemma {:induction false} SafeMovesKeepsAll(b: Board, from: Pos, color: Color, km: KingMoved, rm: CastlingRights,
                                             moves: seq<Pos>)
    requires IsValidPosition(from)
    requires forall m | m in moves :: IsValidPosition(m) && !LeavesKingInCheck(b, from, m, color, km, rm)
    ensures SafeMoves(b, from, color, km, rm, moves) == moves
    decreases |moves|
  {
    if moves != [] {
      var init, last := moves[..|moves| - 1], moves[|moves| - 1];
      assert moves == init + [last];
      SafeMovesKeepsAll(b, from, color, km, rm, init);
    }
  }

  /** In the starting position every generated white move is legal. */
  lemma InitialLegalMovesAreGenerated(p: Pos)
    requires IsValidPosition(p) && HoldsColor(At(INITIAL_BOARD, p), White)
    ensures LegalMoves(INITIAL_BOARD, p, NO_KING_MOVED, NO_ROOK_MOVED)
         == PossibleMoves(INITIAL_BOARD, p, NO_KING_MOVED, NO_ROOK_MOVED)
  {
    var moves := PossibleMoves(INITIAL_BOARD, p, NO_KING_MOVED, NO_ROOK_MOVED);
    InitialMovesLandMidBoard(p);
    PossibleMovesSound(INITIAL_BOARD, p, NO_KING_MOVED, NO_ROOK_MOVED);
    forall m | m in moves
      ensures !LeavesKingInCheck(INITIAL_BOARD, p, m, White, NO_KING_MOVED, NO_ROOK_MOVED)
    {
      OpeningMoveKeepsBlackUnmoved(p, m);
      BlackUnmovedKingSafe(AppliedBoard(INITIAL_BOARD, p, m), NO_KING_MOVED, NO_ROOK_MOVED);
    }
    SafeMovesKeepsAll(INITIAL_BOARD, p, White, NO_KING_MOVED, NO_ROOK_MOVED, moves);
  }

  /** The number of legal moves of a piece of `color` on `p`; other squares count 0. */
  function LegalSquareCount(b: Board, color: Color, km: KingMoved, rm: CastlingRights, p: Pos): nat {
    if IsValidPosition(p) && HoldsColor(At(b, p), color) then |LegalMoves(b, p, km, rm)| else 0
  }

  /** The legal count of every square, as one function. */
  function LegalMoveCounts(b: Board, color: Color, km: KingMoved, rm: CastlingRights): Pos -> nat {
    p => LegalSquareCount(b, color, km, rm, p)
  }

  /** All legal moves of the pieces of `color`, counted over the whole board. */
  function LegalMoveCount(b: Board, color: Color, km: KingMoved, rm: CastlingRights): nat {
    SumFrom(LegalMoveCounts(b, color, km, rm), FIRST_ROW, FIRST_COL)
  }

  /** White has twenty legal moves in the starting position. */
  lemma InitialWhiteLegalMoveCount()
    ensures LegalMoveCount(INITIAL_BOARD, White, NO_KING_MOVED, NO_ROOK_MOVED) == 20
  {
    var count := LegalMoveCounts(INITIAL_BOARD, White, NO_KING_MOVED, NO_ROOK_MOVED);
    InitialCountsAreOpeningCounts();
    forall p | IsValidPosition(p)
      ensures count(p) == OpeningCount(p)
    {
      assert MoveCounts(INITIAL_BOARD, White, NO_KING_MOVED, NO_ROOK_MOVED)(p) == OpeningCount(p);
      if HoldsColor(At(INITIAL_BOARD, p), White) {
        InitialLegalMovesAreGenerated(p);
      }
    }
    OpeningTotal(count);
  }
}
