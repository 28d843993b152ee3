/**
 * The single-file engine of chess/src/BeforRefactor.tsx, the component the refactored client
 * replaced: its own move generator `getPossibleMoves`, the legal-move filter of
 * `showValidMoves`, `isKingInCheck`, `hasLegalMove`, the `handleNewMove` transition with its
 * checkmate, stalemate and insufficient-material verdicts, and `undoMove` over four parallel
 * history stacks.
 *
 * The component's `useState` slots are the fields of `LegacyGame`. Its helpers read the
 * castling flags of the render they were created in, so every check that `handleNewMove` and
 * `undoMove` run after changing the board still sees the flags from before the change; the
 * model passes those flags explicitly.
 */
module BeforRefactor {
  import opened Wrappers
  import opened Types
  import opened BoardUtil
  import opened Constants
  import opened MoveCalculator
  import opened GameValidators
  import opened MoveValidation
  import opened App
  import opened InitialPosition

  // ---------------------------------------------------------------------------------------
  // getPossibleMoves

  /** `boardToCheck[row]?.[col]`: `None` is `undefined`, what an off-board lookup yields. */
  function Lookup(b: Board, row: int, col: int): (r: Option<Square>)
    ensures r.Some? <==> IsValidPosition(Pos(row, col))
    ensures r.Some? ==> r.value == At(b, Pos(row, col))
  {
    if 0 <= row < 8 && 0 <= col < 8 then Some(b[row][col]) else None
  }

  /** The pawn's diagonal square at column offset `dCol`, kept when `target && target.color !== color`. */
  function LegacyCaptureAt(b: Board, p: Pos, color: Color, dCol: int): seq<Pos> {
    var target := Lookup(b, p.row + PawnDirection(color), p.col + dCol);
    if target.Some? && target.value.Some? && target.value.value.color != color
    then [Pos(p.row + PawnDirection(color), p.col + dCol)]
    else []
  }

  /** The capture loop `for (const dCol of [-1, 1])`, over the offsets `dCols`. */
  function LegacyCaptures(b: Board, p: Pos, color: Color, dCols: seq<int>): seq<Pos>
    decreases |dCols|
  {
    if dCols == [] then []
    else LegacyCaptures(b, p, color, dCols[..|dCols| - 1]) + LegacyCaptureAt(b, p, color, dCols[|dCols| - 1])
  }

  /** The `pawn` case: pushes guarded by `=== null` lookups, then the diagonal captures. */
  function LegacyPawnMoves(b: Board, p: Pos, color: Color): seq<Pos> {
    var dir := PawnDirection(color);
    var advance :=
      if Lookup(b, p.row + dir, p.col) == Some(None) then
        [Pos(p.row + dir, p.col)]
        + if p.row == StartRow(color) && Lookup(b, p.row + dir * 2, p.col) == Some(None)
          then [Pos(p.row + dir * 2, p.col)] else []
      else [];
    advance + LegacyCaptures(b, p, color, PAWN_CAPTURE_COLS)
  }

  /** The ray loops of the `castle` case, in source order: down, up, right, left. */
  const LEGACY_ROOK_DIRECTIONS: seq<Pos> := [Pos(1, 0), Pos(-1, 0), Pos(0, 1), Pos(0, -1)]
  /** The ray loops of the `bishop` case, in source order. */
  const LEGACY_BISHOP_DIRECTIONS: seq<Pos> := [Pos(1, 1), Pos(1, -1), Pos(-1, -1), Pos(-1, 1)]

  /**
   * King castling without any test of where the king stands: only the king flag, that side's
   * rook flag, the empty squares and the own rook in the corner are looked at.
   */
  function LegacyCastling(b: Board, color: Color, kingMoved: bool, rook: RookSides): seq<Pos> {
    var kr := KingRow(color);
    (if !kingMoved && KingsideOpen(b, color, rook) then [Pos(kr, 6)] else [])
    + (if !kingMoved && QueensideOpen(b, color, rook) then [Pos(kr, 2)] else [])
  }

  /**
   * What `getPossibleMoves(type, color, row, col, board)` returns for `piece` standing on `p`.
   * The knight and king offset tables of this file list the same offsets in the same order as
   * `KNIGHT_MOVES` and `KING_MOVES`.
   */
  function LegacyMoves(b: Board, p: Pos, piece: Piece, hasKingMoved: KingMoved, hasRookMoved: CastlingRights)
    : seq<Pos>
  {
    match piece.kind
    case Pawn => LegacyPawnMoves(b, p, piece.color)
    case Castle => Sliding(b, p, LEGACY_ROOK_DIRECTIONS, piece.color)
    case Bishop => Sliding(b, p, LEGACY_BISHOP_DIRECTIONS, piece.color)
    case Queen => Sliding(b, p, LEGACY_ROOK_DIRECTIONS, piece.color) + Sliding(b, p, LEGACY_BISHOP_DIRECTIONS, piece.color)
    case Horse => Leaps(b, p, piece.color, KNIGHT_MOVES)
    case King =>
      Leaps(b, p, piece.color, KING_MOVES)
      + LegacyCastling(b, piece.color, hasKingMoved.Get(piece.color), hasRookMoved.Get(piece.color))
  }

  /**
   * One ray loop, such as `for (let i = row + 1; i < 8; i++)`: step along `d` while on the
   * board, pushing empty squares, then an enemy square, and stop at the first occupied square.
   */
  method SlideLoop(b: Board, position: Pos, d: Pos, color: Color) returns (moves: seq<Pos>)
    requires IsValidPosition(position) && IsKingOffset(d)
    ensures moves == Ray(b, position, d, color)
  {
    moves := [];
    var i := FIRST_STEP;
    var newPos := Shift(position, d);
    while IsValidPosition(newPos)
      invariant 1 <= i <= 8 && newPos == Step(position, d, i)
      invariant moves + Walk(b, newPos, d, color, i) == Ray(b, position, d, color)
      decreases 8 - i
    {
      var stop;
      moves, stop := SlideStep(b, position, d, color, i, newPos, moves);
      if stop {
        break;
      }
      i, newPos := i + 1, Shift(newPos, d);
    }
  }

  /** The body of a ray loop: push `newPos` if it is empty or an enemy, and stop at an occupied square. */
  method SlideStep(b: Board, position: Pos, d: Pos, color: Color, i: nat, newPos: Pos, moves: seq<Pos>)
    returns (moves': seq<Pos>, stop: bool)
    requires IsValidPosition(position) && IsKingOffset(d)
    requires i >= 1 && newPos == Step(position, d, i) && IsValidPosition(newPos)
    ensures i < 8 && Shift(newPos, d) == Step(position, d, i + 1)
    ensures moves' + (if stop then [] else Walk(b, Shift(newPos, d), d, color, i + 1))
         == moves + Walk(b, newPos, d, color, i)
  {
    UnitStepsLeaveBoard(position, d, i);
    StepShift(position, d, i);
    var target := b[newPos.row][newPos.col];
    if target.None? {
      moves', stop := moves + [newPos], false;
    } else {
      moves' := if target.value.color != color then moves + [newPos] else moves;
      stop := true;
    }
  }

  /** One more step along `d` from step `i` is step `i + 1`. */
  lemma {:induction false} StepShift(p: Pos, d: Pos, i: nat)
    ensures Step(p, d, i + 1) == Shift(Step(p, d, i), d)
    decreases i
  {
    if i > 0 {
      StepShift(Shift(p, d), d, i - 1);
    }
  }

  /** Seven steps along a unit direction take any square off the board. */
  lemma UnitStepsLeaveBoard(p: Pos, d: Pos, i: nat)
    requires IsValidPosition(p) && IsKingOffset(d)
    requires IsValidPosition(Step(p, d, i))
    ensures i < 8
  {
    StepIsScaledOffset(p, d, i);
    if d.row == 1 {
      assert p.row + d.row * i == p.row + i;
    } else if d.row == -1 {
      assert p.row + d.row * i == p.row - i;
    } else if d.col == 1 {
      assert p.col + d.col * i == p.col + i;
    } else {
      assert p.col + d.col * i == p.col - i;
    }
  }

  /** Four direction loops one after the other concatenate their rays. */
  lemma ConcatRaysOfFour(d1: Pos, d2: Pos, d3: Pos, d4: Pos, ray: Pos -> seq<Pos>)
    ensures ConcatRays([d1, d2, d3, d4], ray) == ray(d1) + ray(d2) + ray(d3) + ray(d4)
  {
    var ds := [d1, d2, d3, d4];
    assert ds[..3] == [d1, d2, d3];
    assert [d1, d2, d3][..2] == [d1, d2];
    assert [d1, d2][..1] == [d1];
    assert [d1][..0] == [];
    assert ConcatRays([d1], ray) == ray(d1);
    assert ConcatRays([d1, d2], ray) == ray(d1) + ray(d2);
    assert ConcatRays([d1, d2, d3], ray) == ray(d1) + ray(d2) + ray(d3);
  }

  /** The four loops of the `castle` case. */
  method RookSlides(b: Board, position: Pos, color: Color) returns (moves: seq<Pos>)
    requires IsValidPosition(position)
    ensures moves == Sliding(b, position, LEGACY_ROOK_DIRECTIONS, color)
  {
    var down := SlideLoop(b, position, Pos(1, 0), color);
    var up := SlideLoop(b, position, Pos(-1, 0), color);
    var right := SlideLoop(b, position, Pos(0, 1), color);
    var left := SlideLoop(b, position, Pos(0, -1), color);
    moves := down + up + right + left;
    ConcatRaysOfFour(Pos(1, 0), Pos(-1, 0), Pos(0, 1), Pos(0, -1), d => Ray(b, position, d, color));
  }

  /** The four loops of the `bishop` case. */
  method BishopSlides(b: Board, position: Pos, color: Color) returns (moves: seq<Pos>)
    requires IsValidPosition(position)
    ensures moves == Sliding(b, position, LEGACY_BISHOP_DIRECTIONS, color)
  {
    var downRight := SlideLoop(b, position, Pos(1, 1), color);
    var downLeft := SlideLoop(b, position, Pos(1, -1), color);
    var upLeft := SlideLoop(b, position, Pos(-1, -1), color);
    var upRight := SlideLoop(b, position, Pos(-1, 1), color);
    moves := downRight + downLeft + upLeft + upRight;
    ConcatRaysOfFour(Pos(1, 1), Pos(1, -1), Pos(-1, -1), Pos(-1, 1), d => Ray(b, position, d, color));
  }

  /** The `pawn` case. */
  method LegacyCalculatePawnMoves(b: Board, position: Pos, color: Color) returns (moves: seq<Pos>)
    ensures moves == LegacyPawnMoves(b, position, color)
  {
    moves := [];
    var direction := PawnDirection(color);
    var startRow := StartRow(color);
    if Lookup(b, position.row + direction, position.col) == Some(None) {
      moves := moves + [Pos(position.row + direction, position.col)];
      if position.row == startRow && Lookup(b, position.row + direction * 2, position.col) == Some(None) {
        moves := moves + [Pos(position.row + direction * 2, position.col)];
      }
    }
    var captures := LegacyCalculateCaptures(b, position, color, PAWN_CAPTURE_COLS);
    moves := moves + captures;
  }

  /** The capture loop of the `pawn` case, over the column offsets `dCols`. */
  method LegacyCalculateCaptures(b: Board, position: Pos, color: Color, dCols: seq<int>) returns (moves: seq<Pos>)
    ensures moves == LegacyCaptures(b, position, color, dCols)
  {
    moves := [];
    var direction := PawnDirection(color);
    var k := 0;
    while k < |dCols|
      invariant 0 <= k <= |dCols|
      invariant moves == LegacyCaptures(b, position, color, dCols[..k])
    {
      var target := Lookup(b, position.row + direction, position.col + dCols[k]);
      if target.Some? && target.value.Some? && target.value.value.color != color {
        moves := moves + [Pos(position.row + direction, position.col + dCols[k])];
      }
      assert dCols[..k + 1][..k] == dCols[..k];
      k := k + 1;
    }
    assert dCols[..k] == dCols;
  }

  /** `getPossibleMoves`; every caller passes an on-board square and the piece standing there. */
  method GetPossibleMoves(piece: Piece, position: Pos, b: Board, hasKingMoved: KingMoved,
                          hasRookMoved: CastlingRights) returns (moves: seq<Pos>)
    requires IsValidPosition(position)
    ensures moves == LegacyMoves(b, position, piece, hasKingMoved, hasRookMoved)
  {
    var color := piece.color;
    match piece.kind
    case Pawn =>
      moves := LegacyCalculatePawnMoves(b, position, color);
    case Castle =>
      moves := RookSlides(b, position, color);
    case Bishop =>
      moves := BishopSlides(b, position, color);
    case Queen =>
      var rookMoves := RookSlides(b, position, color);
      var bishopMoves := BishopSlides(b, position, color);
      moves := rookMoves + bishopMoves;
    case Horse =>
      moves := CalculateLeaps(b, position, color, KNIGHT_MOVES);
    case King =>
      moves := CalculateLeaps(b, position, color, KING_MOVES);
      var kingRow := KingRow(color);
      var kingMoved, rook := hasKingMoved.Get(color), hasRookMoved.Get(color);
      if !kingMoved && !rook.right && b[kingRow][5].None? && b[kingRow][6].None?
         && b[kingRow][7].Some? && b[kingRow][7].value.kind == Castle && b[kingRow][7].value.color == color
      {
        moves := moves + [Pos(kingRow, 6)];
      }
      if !kingMoved && !rook.left && b[kingRow][1].None? && b[kingRow][2].None? && b[kingRow][3].None?
         && b[kingRow][0].Some? && b[kingRow][0].value.kind == Castle && b[kingRow][0].value.color == color
      {
        moves := moves + [Pos(kingRow, 2)];
      }
  }

  // ---------------------------------------------------------------------------------------
  // What the generator promises, and how it compares with moveCalculator.ts

  /** The `?.` lookups of the pawn case test exactly what `calculatePawnMoves` tests. */
  lemma {:induction false} LegacyCapturesAgree(b: Board, p: Pos, color: Color, dCols: seq<int>)
    ensures LegacyCaptures(b, p, color, dCols) == PawnCaptures(b, p, color, dCols)
    decreases |dCols|
  {
    if dCols != [] {
      LegacyCapturesAgree(b, p, color, dCols[..|dCols| - 1]);
    }
  }

  /**
   * The pawn case yields the list `calculatePawnMoves` yields; in particular an off-board
   * lookup yields `undefined`, so no pawn destination is ever off the board.
   */
  lemma LegacyPawnAgrees(b: Board, p: Pos, color: Color)
    ensures LegacyPawnMoves(b, p, color) == PawnMoves(b, p, color)
    ensures forall q | q in LegacyPawnMoves(b, p, color) :: IsValidPosition(q) && IsOpenFor(At(b, q), color)
  {
    LegacyCapturesAgree(b, p, color, PAWN_CAPTURE_COLS);
    PawnMovesSound(b, p, color);
  }

  /** Sliding along a set of directions reaches no square that sliding along a superset misses. */
  lemma SlidingWithinDirections(b: Board, p: Pos, d1: seq<Pos>, d2: seq<Pos>, color: Color, q: Pos)
    requires forall d | d in d1 :: d in d2
    ensures q in Sliding(b, p, d1, color) ==> q in Sliding(b, p, d2, color)
  {
    if q in Sliding(b, p, d1, color) {
      SlidingOnSomeRay(b, p, d1, color, q);
      var k :| 0 <= k < |d1| && q in Ray(b, p, d1[k], color);
      assert d1[k] in d2;
      var j :| 0 <= j < |d2| && d2[j] == d1[k];
      SlidingCoversRays(b, p, d2, color, j);
    }
  }

  /** Two direction lists with the same members slide to the same squares, whatever their order. */
  lemma SlidingSameDirections(b: Board, p: Pos, d1: seq<Pos>, d2: seq<Pos>, color: Color, q: Pos)
    requires forall d :: d in d1 <==> d in d2
    ensures q in Sliding(b, p, d1, color) <==> q in Sliding(b, p, d2, color)
  {
    SlidingWithinDirections(b, p, d1, d2, color, q);
    SlidingWithinDirections(b, p, d2, d1, color, q);
  }

  /** Castling squares, when offered, are on the board and empty. */
  lemma LegacyCastlingSound(b: Board, color: Color, kingMoved: bool, rook: RookSides)
    ensures forall q | q in LegacyCastling(b, color, kingMoved, rook) :: IsValidPosition(q) && At(b, q).None?
  {
  }

  /**
   * Every destination of the old generator is on the board and not a piece of the mover's
   * colour, castling squares included.
   */
  lemma LegacyMovesSound(b: Board, p: Pos, piece: Piece, hasKingMoved: KingMoved, hasRookMoved: CastlingRights)
    ensures forall q | q in LegacyMoves(b, p, piece, hasKingMoved, hasRookMoved) ::
      IsValidPosition(q) && IsOpenFor(At(b, q), piece.color)
  {
    var color := piece.color;
    match piece.kind
    case Pawn => LegacyPawnAgrees(b, p, color);
    case Castle => SlidingSound(b, p, LEGACY_ROOK_DIRECTIONS, color);
    case Bishop => SlidingSound(b, p, LEGACY_BISHOP_DIRECTIONS, color);
    case Queen =>
      SlidingSound(b, p, LEGACY_ROOK_DIRECTIONS, color);
      SlidingSound(b, p, LEGACY_BISHOP_DIRECTIONS, color);
    case Horse =>
      forall q | q in Leaps(b, p, color, KNIGHT_MOVES)
        ensures IsValidPosition(q) && IsOpenFor(At(b, q), color)
      {
        LeapsMeaning(b, p, color, KNIGHT_MOVES, q);
      }
    case King =>
      forall q | q in Leaps(b, p, color, KING_MOVES)
        ensures IsValidPosition(q) && IsOpenFor(At(b, q), color)
      {
        LeapsMeaning(b, p, color, KING_MOVES, q);
      }
      LegacyCastlingSound(b, color, hasKingMoved.Get(color), hasRookMoved.Get(color));
  }

  /**
   * The old generator and `getAllPossibleMoves` offer the same squares to a piece standing on
   * `p`, except one thing: the old one also offers the castling squares to an unmoved king
   * that is not on (kingRow, 4). Those squares are empty, so the two agree on every occupied
   * square, and therefore on every attack on a king.
   */
  lemma LegacyMovesAgree(b: Board, p: Pos, hasKingMoved: KingMoved, hasRookMoved: CastlingRights, q: Pos)
    requires IsValidPosition(p) && At(b, p).Some?
    ensures q in PossibleMoves(b, p, hasKingMoved, hasRookMoved) ==>
      q in LegacyMoves(b, p, At(b, p).value, hasKingMoved, hasRookMoved)
    ensures (q in LegacyMoves(b, p, At(b, p).value, hasKingMoved, hasRookMoved)
             && q !in PossibleMoves(b, p, hasKingMoved, hasRookMoved)) ==>
      var color := At(b, p).value.color;
      && At(b, p).value.kind == King && p != Pos(KingRow(color), 4) && !hasKingMoved.Get(color)
      && (q == Pos(KingRow(color), 6) || q == Pos(KingRow(color), 2))
      && At(b, q).None?
  {
    var piece := At(b, p).value;
    var color := piece.color;
    match piece.kind
    case Pawn => LegacyPawnAgrees(b, p, color);
    case Castle => SlidingSameDirections(b, p, LEGACY_ROOK_DIRECTIONS, ROOK_DIRECTIONS, color, q);
    case Bishop => SlidingSameDirections(b, p, LEGACY_BISHOP_DIRECTIONS, BISHOP_DIRECTIONS, color, q);
    case Queen =>
      SlidingAppend(b, p, LEGACY_ROOK_DIRECTIONS, LEGACY_BISHOP_DIRECTIONS, color);
      SlidingSameDirections(b, p, LEGACY_ROOK_DIRECTIONS + LEGACY_BISHOP_DIRECTIONS, QUEEN_DIRECTIONS, color, q);
    case Horse =>
    case King =>
      LegacyCastlingSound(b, color, hasKingMoved.Get(color), hasRookMoved.Get(color));
  }

  // ---------------------------------------------------------------------------------------
  // Row-major scans

  /** Whether some square at or after `(row, col)` in row-major order passes `test`. */
  function ScanFrom(test: Pos -> bool, row: nat, col: nat): bool
    requires row <= 8 && col <= 8
    decreases 8 - row, 8 - col
  {
    if row == 8 then false
    else if col == 8 then ScanFrom(test, row + 1, 0)
    else test(Pos(row, col)) || ScanFrom(test, row, col + 1)
  }

  /** The scan holds exactly when some on-board square at or after its start passes the test. */
  lemma {:induction false} ScanFromMeaning(test: Pos -> bool, row: nat, col: nat)
    requires row <= 8 && col <= 8
    ensures ScanFrom(test, row, col) <==> exists p | IsValidPosition(p) && AtOrAfter(p, row, col) :: test(p)
    decreases 8 - row, 8 - col
  {
    if row < 8 {
      if col == 8 {
        ScanFromMeaning(test, row + 1, 0);
      } else {
        ScanFromMeaning(test, row, col + 1);
        if exists p | IsValidPosition(p) && AtOrAfter(p, row, col) :: test(p) {
          var p :| IsValidPosition(p) && AtOrAfter(p, row, col) && test(p);
          if p != Pos(row, col) {
            assert AtOrAfter(p, row, col + 1);
          }
        }
      }
    }
  }

  /** A full scan holds exactly when some on-board square passes the test. */
  lemma FullScanMeaning(test: Pos -> bool)
    ensures ScanFrom(test, FIRST_ROW, FIRST_COL) <==> exists p | IsValidPosition(p) :: test(p)
  {
    ScanFromMeaning(test, FIRST_ROW, FIRST_COL);
    if exists p | IsValidPosition(p) :: test(p) {
      var p :| IsValidPosition(p) && test(p);
      assert AtOrAfter(p, FIRST_ROW, FIRST_COL);
    }
  }

  // ---------------------------------------------------------------------------------------
  // The king search of isKingInCheck

  /** The first king of `color` in row `row` at or after column `col`. */
  function KingInRow(b: Board, color: Color, row: nat, col: nat): Option<Pos>
    requires row < 8 && col <= 8
    decreases 8 - col
  {
    if col == 8 then None
    else if IsKingOf(b[row][col], color) then Some(Pos(row, col))
    else KingInRow(b, color, row, col + 1)
  }

  /**
   * `kingPos` after the first `rows` rows of the search: the inner `break` leaves only the
   * row, so a later row holding a king overwrites what an earlier row found.
   */
  function KingThroughRow(b: Board, color: Color, rows: nat): Option<Pos>
    requires rows <= 8
    decreases rows
  {
    if rows == 0 then None
    else match KingInRow(b, color, rows - 1, FIRST_COL)
      case Some(k) => Some(k)
      case None => KingThroughRow(b, color, rows - 1)
  }

  const ROW_COUNT: nat := 8

  /** The king square the old `isKingInCheck` settles on. */
  function LegacyKingSquare(b: Board, color: Color): Option<Pos> {
    KingThroughRow(b, color, ROW_COUNT)
  }

  /** The king-search loops at the top of `isKingInCheck`. */
  method LocateKing(b: Board, color: Color) returns (kingPos: Option<Pos>)
    ensures kingPos == LegacyKingSquare(b, color)
  {
    kingPos := None;
    var r := 0;
    while r < 8
      invariant 0 <= r <= 8
      invariant kingPos == KingThroughRow(b, color, r)
    {
      var c := 0;
      while c < 8
        invariant 0 <= c <= 8
        invariant KingInRow(b, color, r, c) == KingInRow(b, color, r, FIRST_COL)
        invariant kingPos == KingThroughRow(b, color, r)
      {
        var p := b[r][c];
        if p.Some? && p.value.kind == King && p.value.color == color {
          kingPos := Some(Pos(r, c));
          break;
        }
        c := c + 1;
      }
      r := r + 1;
    }
  }

  /** The row search finds the first king of the row at or after its start column, or says there is none. */
  lemma {:induction false} KingInRowMeaning(b: Board, color: Color, row: nat, col: nat)
    requires row < 8 && col <= 8
    ensures KingInRow(b, color, row, col).Some? ==>
      var k := KingInRow(b, color, row, col).value;
      && k.row == row && col <= k.col < 8 && IsKingOf(At(b, k), color)
      && forall c | col <= c < k.col :: !IsKingOf(b[row][c], color)
    ensures KingInRow(b, color, row, col).None? ==> forall c | col <= c < 8 :: !IsKingOf(b[row][c], color)
    decreases 8 - col
  {
    if col < 8 && !IsKingOf(b[row][col], color) {
      KingInRowMeaning(b, color, row, col + 1);
    }
  }

  /**
   * After `rows` rows the search holds the first king of the last of those rows that has one;
   * it holds nothing exactly when none of those rows has a king.
   */
  lemma {:induction false} KingThroughRowMeaning(b: Board, color: Color, rows: nat)
    requires rows <= 8
    ensures KingThroughRow(b, color, rows).Some? ==>
      var k := KingThroughRow(b, color, rows).value;
      && IsValidPosition(k) && k.row < rows && IsKingOf(At(b, k), color)
      && (forall c | 0 <= c < k.col :: !IsKingOf(b[k.row][c], color))
      && (forall q | IsValidPosition(q) && k.row < q.row < rows :: !IsKingOf(At(b, q), color))
    ensures KingThroughRow(b, color, rows).None? ==>
      forall q | IsValidPosition(q) && q.row < rows :: !IsKingOf(At(b, q), color)
    decreases rows
  {
    if rows > 0 {
      KingInRowMeaning(b, color, rows - 1, FIRST_COL);
      KingThroughRowMeaning(b, color, rows - 1);
    }
  }

  /**
   * The old king search settles on the first king of the last row that holds one: no later
   * row and no earlier square of its row holds a king of that colour. It finds nothing
   * exactly when the colour has no king.
   */
  lemma LegacyKingSquareMeaning(b: Board, color: Color)
    ensures LegacyKingSquare(b, color).Some? ==>
      var k := LegacyKingSquare(b, color).value;
      && IsValidPosition(k) && IsKingOf(At(b, k), color)
      && forall q | IsValidPosition(q) && (q.row > k.row || (q.row == k.row && q.col < k.col)) ::
           !IsKingOf(At(b, q), color)
    ensures LegacyKingSquare(b, color).None? <==> forall q | IsValidPosition(q) :: !IsKingOf(At(b, q), color)
  {
    KingThroughRowMeaning(b, color, ROW_COUNT);
  }

  /** With at most one king of a colour, the old search and `findKing` find the same square. */
  lemma LegacyKingSquareAgrees(b: Board, color: Color)
    requires forall p, q | IsValidPosition(p) && IsValidPosition(q) && IsKingOf(At(b, p), color)
                           && IsKingOf(At(b, q), color) :: p == q
    ensures LegacyKingSquare(b, color) == KingSquare(b, color)
  {
    LegacyKingSquareMeaning(b, color);
    KingSquareMeaning(b, color);
  }

  // ---------------------------------------------------------------------------------------
  // isKingInCheck

  /** The square `p` holds a piece of colour `enemy` whose old-generator moves include `target`. */
  predicate LegacyAttacks(b: Board, target: Pos, enemy: Color, hasKingMoved: KingMoved,
                          hasRookMoved: CastlingRights, p: Pos)
  {
    IsValidPosition(p) && HoldsColor(At(b, p), enemy)
    && target in LegacyMoves(b, p, At(b, p).value, hasKingMoved, hasRookMoved)
  }

  /** The attack scan of `isKingInCheck`, resumed at `(row, col)`. */
  function LegacyAttackedFrom(b: Board, target: Pos, enemy: Color, hasKingMoved: KingMoved,
                              hasRookMoved: CastlingRights, row: nat, col: nat): bool
    requires row <= 8 && col <= 8
  {
    ScanFrom(p => LegacyAttacks(b, target, enemy, hasKingMoved, hasRookMoved, p), row, col)
  }

  /** What the old `isKingInCheck(color, board)` returns: a missing king counts as check. */
  function LegacyInCheck(b: Board, color: Color, hasKingMoved: KingMoved, hasRookMoved: CastlingRights): bool {
    match LegacyKingSquare(b, color)
    case None => true
    case Some(k) => LegacyAttackedFrom(b, k, GetOppositeColor(color), hasKingMoved, hasRookMoved, FIRST_ROW, FIRST_COL)
  }

  /** `isKingInCheck` */
  method LegacyIsKingInCheck(color: Color, b: Board, hasKingMoved: KingMoved, hasRookMoved: CastlingRights)
    returns (r: bool)
    ensures r == LegacyInCheck(b, color, hasKingMoved, hasRookMoved)
  {
    var kingPos := LocateKing(b, color);
    if kingPos.None? {
      return true;
    }
    var enemyColor := if color == White then Black else White;
    r := AttackScan(b, kingPos.value, enemyColor, hasKingMoved, hasRookMoved);
  }

  /** The two square loops of `isKingInCheck`, stopping at the first piece of `enemy` that reaches `target`. */
  method AttackScan(b: Board, target: Pos, enemy: Color, hasKingMoved: KingMoved, hasRookMoved: CastlingRights)
    returns (r: bool)
    ensures r == LegacyAttackedFrom(b, target, enemy, hasKingMoved, hasRookMoved, FIRST_ROW, FIRST_COL)
  {
    var row := 0;
    while row < 8
      invariant 0 <= row <= 8
      invariant LegacyAttackedFrom(b, target, enemy, hasKingMoved, hasRookMoved, FIRST_ROW, FIRST_COL)
             == LegacyAttackedFrom(b, target, enemy, hasKingMoved, hasRookMoved, row, FIRST_COL)
    {
      var col := FIRST_COL;
      while col < 8
        invariant 0 <= col <= 8
        invariant LegacyAttackedFrom(b, target, enemy, hasKingMoved, hasRookMoved, FIRST_ROW, FIRST_COL)
               == LegacyAttackedFrom(b, target, enemy, hasKingMoved, hasRookMoved, row, col)
      {
        var hit := AttacksFromSquare(b, target, enemy, hasKingMoved, hasRookMoved, Pos(row, col));
        if hit {
          return true;
        }
        col := col + 1;
      }
      row := row + 1;
    }
    return false;
  }

  /** The body of the square loop of `isKingInCheck`: a piece of `enemy` on `p` with `target` among its moves. */
  method AttacksFromSquare(b: Board, target: Pos, enemy: Color, hasKingMoved: KingMoved, hasRookMoved: CastlingRights,
                           p: Pos) returns (hit: bool)
    requires IsValidPosition(p)
    ensures hit == LegacyAttacks(b, target, enemy, hasKingMoved, hasRookMoved, p)
  {
    var piece := b[p.row][p.col];
    if piece.Some? && piece.value.color == enemy {
      var attackMoves := GetPossibleMoves(piece.value, p, b, hasKingMoved, hasRookMoved);
      hit := target in attackMoves;
    } else {
      hit := false;
    }
  }

  /**
   * A colour is in check for the old engine exactly when it has no king, or a piece of the
   * other colour has the king square the search settled on among its old-generator moves.
   */
  lemma LegacyInCheckMeaning(b: Board, color: Color, hasKingMoved: KingMoved, hasRookMoved: CastlingRights)
    ensures LegacyInCheck(b, color, hasKingMoved, hasRookMoved)
        <==> || LegacyKingSquare(b, color).None?
             || exists p | IsValidPosition(p) ::
                  LegacyAttacks(b, LegacyKingSquare(b, color).value, GetOppositeColor(color), hasKingMoved, hasRookMoved, p)
  {
    if LegacyKingSquare(b, color).Some? {
      var k := LegacyKingSquare(b, color).value;
      FullScanMeaning(p => LegacyAttacks(b, k, GetOppositeColor(color), hasKingMoved, hasRookMoved, p));
    }
  }

  /**
   * On a board with at most one king of `color`, the old and the refactored `isKingInCheck`
   * give the same answer.
   */
  lemma LegacyInCheckAgrees(b: Board, color: Color, hasKingMoved: KingMoved, hasRookMoved: CastlingRights)
    requires forall p, q | IsValidPosition(p) && IsValidPosition(q) && IsKingOf(At(b, p), color)
                           && IsKingOf(At(b, q), color) :: p == q
    ensures LegacyInCheck(b, color, hasKingMoved, hasRookMoved) == InCheck(b, color, hasKingMoved, hasRookMoved)
  {
    LegacyKingSquareAgrees(b, color);
    LegacyInCheckMeaning(b, color, hasKingMoved, hasRookMoved);
    InCheckMeaning(b, color, hasKingMoved, hasRookMoved);
    if KingSquare(b, color).Some? {
      var k, enemy := KingSquare(b, color).value, GetOppositeColor(color);
      KingSquareMeaning(b, color);
      forall p | IsValidPosition(p)
        ensures LegacyAttacks(b, k, enemy, hasKingMoved, hasRookMoved, p) <==> Attacks(b, p, k, enemy, hasKingMoved, hasRookMoved)
      {
        if HoldsColor(At(b, p), enemy) {
          LegacyMovesAgree(b, p, hasKingMoved, hasRookMoved, k);
        }
      }
    }
  }

  /**
   * The flags only decide the castling squares, which are empty; so whether an occupied square
   * is among a piece's old-generator moves does not depend on them.
   */
  lemma LegacyMovesOntoOccupied(b: Board, p: Pos, piece: Piece, km1: KingMoved, rm1: CastlingRights,
                                km2: KingMoved, rm2: CastlingRights, t: Pos)
    requires IsValidPosition(t) && At(b, t).Some?
    ensures t in LegacyMoves(b, p, piece, km1, rm1) <==> t in LegacyMoves(b, p, piece, km2, rm2)
  {
    if piece.kind == King {
      LegacyCastlingSound(b, piece.color, km1.Get(piece.color), rm1.Get(piece.color));
      LegacyCastlingSound(b, piece.color, km2.Get(piece.color), rm2.Get(piece.color));
    }
  }

  /**
   * The old `isKingInCheck` gives the same answer under any king and rook flags: the king
   * square is occupied, and castling squares never are.
   */
  lemma LegacyInCheckIgnoresFlags(b: Board, color: Color, km1: KingMoved, rm1: CastlingRights,
                                  km2: KingMoved, rm2: CastlingRights)
    ensures LegacyInCheck(b, color, km1, rm1) == LegacyInCheck(b, color, km2, rm2)
  {
    LegacyInCheckMeaning(b, color, km1, rm1);
    LegacyInCheckMeaning(b, color, km2, rm2);
    LegacyKingSquareMeaning(b, color);
    if LegacyKingSquare(b, color).Some? {
      var k, enemy := LegacyKingSquare(b, color).value, GetOppositeColor(color);
      forall p | IsValidPosition(p)
        ensures LegacyAttacks(b, k, enemy, km1, rm1, p) <==> LegacyAttacks(b, k, enemy, km2, rm2, p)
      {
        if HoldsColor(At(b, p), enemy) {
          LegacyMovesOntoOccupied(b, p, At(b, p).value, km1, rm1, km2, rm2, k);
        }
      }
    }
  }

  /** White is not in check in the starting position for the old engine, under any flags. */
  lemma InitialNotInLegacyCheck(km: KingMoved, rm: CastlingRights)
    ensures !LegacyInCheck(INITIAL_BOARD, White, km, rm)
  {
    forall p | IsValidPosition(p)
      ensures IsKingOf(At(INITIAL_BOARD, p), White) <==> p == Pos(7, 4)
    {
      InitialKings(p);
    }
    LegacyInCheckAgrees(INITIAL_BOARD, White, km, rm);
    InitialBlackUnmoved();
    BlackUnmovedKingSafe(INITIAL_BOARD, km, rm);
  }

  // ---------------------------------------------------------------------------------------
  // The legal-move filter of showValidMoves, and hasLegalMove

  /**
   * The trial board of `showValidMoves` and `hasLegalMove`: the piece on `from` is copied to
   * `to`, then `from` is emptied. Nothing is promoted and no castling rook moves.
   */
  function Relocated(b: Board, from: Pos, to: Pos): (r: Board)
    requires IsValidPosition(from) && IsValidPosition(to)
    ensures At(r, from) == None
    ensures from != to ==> At(r, to) == At(b, from)
    ensures forall q | IsValidPosition(q) && q != from && q != to :: At(r, q) == At(b, q)
  {
    Put(Put(b, to, At(b, from)), from, None)
  }

  /** The `filter` of `showValidMoves`: the destinations after which the king of `color` is not attacked. */
  function LegacySafe(b: Board, from: Pos, color: Color, hasKingMoved: KingMoved, hasRookMoved: CastlingRights,
                      moves: seq<Pos>): seq<Pos>
    requires IsValidPosition(from)
    requires forall q | q in moves :: IsValidPosition(q)
    decreases |moves|
  {
    if moves == [] then []
    else
      var to := moves[|moves| - 1];
      LegacySafe(b, from, color, hasKingMoved, hasRookMoved, moves[..|moves| - 1])
      + if LegacyInCheck(Relocated(b, from, to), color, hasKingMoved, hasRookMoved) then [] else [to]
  }

  /** The `validMoves` that `showValidMoves` stores for `piece` on `p`. */
  function LegacyLegalMoves(b: Board, p: Pos, piece: Piece, hasKingMoved: KingMoved, hasRookMoved: CastlingRights)
    : seq<Pos>
    requires IsValidPosition(p)
  {
    LegacyMovesSound(b, p, piece, hasKingMoved, hasRookMoved);
    LegacySafe(b, p, piece.color, hasKingMoved, hasRookMoved, LegacyMoves(b, p, piece, hasKingMoved, hasRookMoved))
  }

  /** The filter keeps exactly the destinations whose trial board leaves the king unattacked. */
  lemma {:induction false} LegacySafeMeaning(b: Board, from: Pos, color: Color, hasKingMoved: KingMoved,
                                             hasRookMoved: CastlingRights, moves: seq<Pos>, q: Pos)
    requires IsValidPosition(from)
    requires forall m | m in moves :: IsValidPosition(m)
    ensures q in LegacySafe(b, from, color, hasKingMoved, hasRookMoved, moves)
        <==> q in moves && !LegacyInCheck(Relocated(b, from, q), color, hasKingMoved, hasRookMoved)
    decreases |moves|
  {
    if moves != [] {
      var init := moves[..|moves| - 1];
      assert moves == init + [moves[|moves| - 1]];
      LegacySafeMeaning(b, from, color, hasKingMoved, hasRookMoved, init, q);
    }
  }

  /** Extending the tested prefix by one move appends that move exactly when its trial board is safe. */
  lemma LegacySafeSnoc(b: Board, from: Pos, color: Color, hasKingMoved: KingMoved, hasRookMoved: CastlingRights,
                       moves: seq<Pos>, k: nat)
    requires IsValidPosition(from)
    requires forall m | m in moves :: IsValidPosition(m)
    requires k < |moves|
    ensures LegacySafe(b, from, color, hasKingMoved, hasRookMoved, moves[..k + 1])
         == LegacySafe(b, from, color, hasKingMoved, hasRookMoved, moves[..k])
            + if LegacyInCheck(Relocated(b, from, moves[k]), color, hasKingMoved, hasRookMoved) then [] else [moves[k]]
  {
    assert moves[..k + 1][..k] == moves[..k];
  }

  /** The filter keeps the generator's order. */
  lemma {:induction false} LegacySafeOrdered(b: Board, from: Pos, color: Color, hasKingMoved: KingMoved,
                                             hasRookMoved: CastlingRights, moves: seq<Pos>)
    requires IsValidPosition(from)
    requires forall m | m in moves :: IsValidPosition(m)
    ensures SubsequenceOf(LegacySafe(b, from, color, hasKingMoved, hasRookMoved, moves), moves)
    decreases |moves|
  {
    if moves != [] {
      var init, last := moves[..|moves| - 1], moves[|moves| - 1];
      assert moves == init + [last];
      LegacySafeOrdered(b, from, color, hasKingMoved, hasRookMoved, init);
      var kept := LegacySafe(b, from, color, hasKingMoved, hasRookMoved, init);
      SubsequenceSnoc(kept, init, last);
      assert kept + [] == kept;
    }
  }

  /**
   * A stored valid move is exactly a generated move after which, on the trial board, the king
   * of the piece's colour is not attacked; the stored list keeps the generator's order.
   */
  lemma LegacyLegalMovesMeaning(b: Board, p: Pos, piece: Piece, hasKingMoved: KingMoved,
                                hasRookMoved: CastlingRights, q: Pos)
    requires IsValidPosition(p)
    ensures q in LegacyLegalMoves(b, p, piece, hasKingMoved, hasRookMoved)
        <==> && q in LegacyMoves(b, p, piece, hasKingMoved, hasRookMoved)
             && IsValidPosition(q)
             && !LegacyInCheck(Relocated(b, p, q), piece.color, hasKingMoved, hasRookMoved)
    ensures SubsequenceOf(LegacyLegalMoves(b, p, piece, hasKingMoved, hasRookMoved),
                          LegacyMoves(b, p, piece, hasKingMoved, hasRookMoved))
  {
    LegacyMovesSound(b, p, piece, hasKingMoved, hasRookMoved);
    var moves := LegacyMoves(b, p, piece, hasKingMoved, hasRookMoved);
    LegacySafeMeaning(b, p, piece.color, hasKingMoved, hasRookMoved, moves, q);
    LegacySafeOrdered(b, p, piece.color, hasKingMoved, hasRookMoved, moves);
  }

  /** The `filter` of `showValidMoves`, one trial board per generated move. */
  method FilterLegal(b: Board, from: Pos, color: Color, hasKingMoved: KingMoved, hasRookMoved: CastlingRights,
                     allMoves: seq<Pos>) returns (legalMoves: seq<Pos>)
    requires IsValidPosition(from)
    requires forall q | q in allMoves :: IsValidPosition(q)
    ensures legalMoves == LegacySafe(b, from, color, hasKingMoved, hasRookMoved, allMoves)
  {
    legalMoves := [];
    var k := 0;
    while k < |allMoves|
      invariant 0 <= k <= |allMoves|
      invariant legalMoves == LegacySafe(b, from, color, hasKingMoved, hasRookMoved, allMoves[..k])
    {
      var to := allMoves[k];
      var safe := TrialIsSafe(b, from, to, color, hasKingMoved, hasRookMoved);
      if safe {
        legalMoves := legalMoves + [to];
      }
      LegacySafeSnoc(b, from, color, hasKingMoved, hasRookMoved, allMoves, k);
      k := k + 1;
    }
    assert allMoves[..k] == allMoves;
  }

  /** One test of the filter: play `from` to `to` on a copy and ask whether the king of `color` is safe. */
  method TrialIsSafe(b: Board, from: Pos, to: Pos, color: Color, hasKingMoved: KingMoved, hasRookMoved: CastlingRights)
    returns (safe: bool)
    requires IsValidPosition(from) && IsValidPosition(to)
    ensures safe == !LegacyInCheck(Relocated(b, from, to), color, hasKingMoved, hasRookMoved)
  {
    var testBoard := Put(b, to, b[from.row][from.col]);
    testBoard := Put(testBoard, from, None);
    var inCheck := LegacyIsKingInCheck(color, testBoard, hasKingMoved, hasRookMoved);
    safe := !inCheck;
  }

  /** The square `p` holds a piece of `color` with at least one move passing the filter. */
  predicate CanMoveFrom(b: Board, color: Color, hasKingMoved: KingMoved, hasRookMoved: CastlingRights, p: Pos) {
    IsValidPosition(p) && HoldsColor(At(b, p), color)
    && LegacyLegalMoves(b, p, At(b, p).value, hasKingMoved, hasRookMoved) != []
  }

  /** The scan of `hasLegalMove`, resumed at `(row, col)`. */
  function MovableFrom(b: Board, color: Color, hasKingMoved: KingMoved, hasRookMoved: CastlingRights,
                       row: nat, col: nat): bool
    requires row <= 8 && col <= 8
  {
    ScanFrom(p => CanMoveFrom(b, color, hasKingMoved, hasRookMoved, p), row, col)
  }

  /** What `hasLegalMove(color, board)` returns. */
  function HasLegalMove(b: Board, color: Color, hasKingMoved: KingMoved, hasRookMoved: CastlingRights): bool {
    MovableFrom(b, color, hasKingMoved, hasRookMoved, FIRST_ROW, FIRST_COL)
  }

  /**
   * `hasLegalMove` holds exactly when some piece of `color` has a generated move after which,
   * on the trial board, the king of `color` is not attacked.
   */
  lemma HasLegalMoveMeaning(b: Board, color: Color, hasKingMoved: KingMoved, hasRookMoved: CastlingRights)
    ensures HasLegalMove(b, color, hasKingMoved, hasRookMoved)
        <==> exists p, q | && IsValidPosition(p) && HoldsColor(At(b, p), color)
                           && q in LegacyMoves(b, p, At(b, p).value, hasKingMoved, hasRookMoved)
                           && IsValidPosition(q) ::
               !LegacyInCheck(Relocated(b, p, q), color, hasKingMoved, hasRookMoved)
  {
    FullScanMeaning(p => CanMoveFrom(b, color, hasKingMoved, hasRookMoved, p));
    forall p | IsValidPosition(p) && HoldsColor(At(b, p), color)
      ensures CanMoveFrom(b, color, hasKingMoved, hasRookMoved, p)
          <==> exists q | q in LegacyMoves(b, p, At(b, p).value, hasKingMoved, hasRookMoved) && IsValidPosition(q) ::
                 !LegacyInCheck(Relocated(b, p, q), color, hasKingMoved, hasRookMoved)
    {
      var legal := LegacyLegalMoves(b, p, At(b, p).value, hasKingMoved, hasRookMoved);
      if legal != [] {
        LegacyLegalMovesMeaning(b, p, At(b, p).value, hasKingMoved, hasRookMoved, legal[0]);
      }
      forall q | q in LegacyMoves(b, p, At(b, p).value, hasKingMoved, hasRookMoved) && IsValidPosition(q)
        ensures !LegacyInCheck(Relocated(b, p, q), color, hasKingMoved, hasRookMoved) ==> q in legal
      {
        LegacyLegalMovesMeaning(b, p, At(b, p).value, hasKingMoved, hasRookMoved, q);
      }
    }
  }

  /** `hasLegalMove` */
  method LegacyHasLegalMove(color: Color, b: Board, hasKingMoved: KingMoved, hasRookMoved: CastlingRights)
    returns (r: bool)
    ensures r == HasLegalMove(b, color, hasKingMoved, hasRookMoved)
  {
    var row := 0;
    while row < 8
      invariant 0 <= row <= 8
      invariant HasLegalMove(b, color, hasKingMoved, hasRookMoved) == MovableFrom(b, color, hasKingMoved, hasRookMoved, row, FIRST_COL)
    {
      var col := FIRST_COL;
      while col < 8
        invariant 0 <= col <= 8
        invariant HasLegalMove(b, color, hasKingMoved, hasRookMoved) == MovableFrom(b, color, hasKingMoved, hasRookMoved, row, col)
      {
        var found := CanMoveFromSquare(b, color, hasKingMoved, hasRookMoved, Pos(row, col));
        if found {
          return true;
        }
        col := col + 1;
      }
      row := row + 1;
    }
    return false;
  }

  /** The body of the square loop of `hasLegalMove`: a piece of `color` with a move passing the filter. */
  method CanMoveFromSquare(b: Board, color: Color, hasKingMoved: KingMoved, hasRookMoved: CastlingRights, p: Pos)
    returns (found: bool)
    requires IsValidPosition(p)
    ensures found == CanMoveFrom(b, color, hasKingMoved, hasRookMoved, p)
  {
    var piece := b[p.row][p.col];
    if piece.Some? && piece.value.color == color {
      var allMoves := GetPossibleMoves(Piece(piece.value.kind, color), p, b, hasKingMoved, hasRookMoved);
      LegacyMovesSound(b, p, piece.value, hasKingMoved, hasRookMoved);
      found := AnySafeMove(b, p, color, hasKingMoved, hasRookMoved, allMoves);
    } else {
      found := false;
    }
  }

  /** The inner loop of `hasLegalMove`: some generated move whose trial board leaves the king unattacked. */
  method AnySafeMove(b: Board, from: Pos, color: Color, hasKingMoved: KingMoved, hasRookMoved: CastlingRights,
                     allMoves: seq<Pos>) returns (found: bool)
    requires IsValidPosition(from)
    requires forall q | q in allMoves :: IsValidPosition(q)
    ensures found <==> LegacySafe(b, from, color, hasKingMoved, hasRookMoved, allMoves) != []
  {
    var k := 0;
    while k < |allMoves|
      invariant 0 <= k <= |allMoves|
      invariant LegacySafe(b, from, color, hasKingMoved, hasRookMoved, allMoves[..k]) == []
    {
      var to := allMoves[k];
      var safe := TrialIsSafe(b, from, to, color, hasKingMoved, hasRookMoved);
      if safe {
        LegacySafeMeaning(b, from, color, hasKingMoved, hasRookMoved, allMoves, to);
        return true;
      }
      LegacySafeSnoc(b, from, color, hasKingMoved, hasRookMoved, allMoves, k);
      k := k + 1;
    }
    assert allMoves[..k] == allMoves;
    return false;
  }

  // ---------------------------------------------------------------------------------------
  // isInsufficientMaterial

  /** `board.flat()`: the rows one after the other. */
  function Flatten(rows: seq<seq<Square>>): seq<Square>
    decreases |rows|
  {
    if rows == [] then [] else Flatten(rows[..|rows| - 1]) + rows[|rows| - 1]
  }

  /** The kinds `isInsufficientMaterial` lets stay on the board. */
  predicate IsDrawingKind(k: PieceKind) {
    k == King || k == Bishop || k == Horse
  }

  /** `board.flat().filter(Boolean).every(p => king || bishop || horse)` */
  function IsInsufficientMaterial(b: Board): bool {
    forall s | s in Flatten(b) && s.Some? :: IsDrawingKind(s.value.kind)
  }

  /** A square value is in the flattened rows exactly when some row holds it. */
  lemma {:induction false} FlattenMembers(rows: seq<seq<Square>>, s: Square)
    ensures s in Flatten(rows) <==> exists i, j | 0 <= i < |rows| && 0 <= j < |rows[i]| :: rows[i][j] == s
    decreases |rows|
  {
    if rows != [] {
      var n := |rows| - 1;
      FlattenMembers(rows[..n], s);
      if s in rows[n] {
        var j :| 0 <= j < |rows[n]| && rows[n][j] == s;
        assert rows[n][j] == s;
      }
      if exists i, j | 0 <= i < |rows| && 0 <= j < |rows[i]| :: rows[i][j] == s {
        var i, j :| 0 <= i < |rows| && 0 <= j < |rows[i]| && rows[i][j] == s;
        if i < n {
          assert rows[..n][i][j] == s;
        } else {
          assert s in rows[n];
        }
      }
    }
  }

  /** The material test holds exactly when every piece on the board is a king, a bishop or a knight. */
  lemma InsufficientMaterialMeaning(b: Board)
    ensures IsInsufficientMaterial(b) <==>
      forall p | IsValidPosition(p) && At(b, p).Some? :: IsDrawingKind(At(b, p).value.kind)
  {
    forall s: Square | s.Some? ensures s in Flatten(b) <==> exists p | IsValidPosition(p) :: At(b, p) == s {
      FlattenMembers(b, s);
      if s in Flatten(b) {
        var i, j :| 0 <= i < 8 && 0 <= j < 8 && b[i][j] == s;
        assert At(b, Pos(i, j)) == s;
      }
    }
  }

  /** The initial position is not a draw by material: it has pawns. */
  lemma InitialMaterialSuffices()
    ensures !IsInsufficientMaterial(INITIAL_BOARD)
  {
    InsufficientMaterialMeaning(INITIAL_BOARD);
    assert At(INITIAL_BOARD, Pos(1, 0)) == Some(Piece(Pawn, Black));
  }

  // ---------------------------------------------------------------------------------------
  // handleNewMove

  /** The alerts `handleNewMove` raises after a move. */
  datatype Verdict = Checkmate(winner: Color) | Stalemate | InsufficientMaterial

  /**
   * The alerts in the order raised: mate for `mover` when the side to move is in check and
   * has no legal move, stalemate when it is not in check and has none, then the material draw.
   */
  function Verdicts(inCheck: bool, canMove: bool, mover: Color, drawn: bool): seq<Verdict> {
    (if inCheck && !canMove then [Checkmate(mover)] else if !inCheck && !canMove then [Stalemate] else [])
    + (if drawn then [InsufficientMaterial] else [])
  }

  /** The board `handleNewMove` stores: the relocated piece, the promotion, then the castling rook. */
  function LegacyBoardAfter(b: Board, from: Pos, to: Pos): Board
    requires IsValidPosition(from) && IsValidPosition(to)
  {
    var piece := At(b, from);
    var moved := Relocated(b, from, to);
    var promoted := if piece.Some? && piece.value.kind == Pawn && (to.row == 0 || to.row == 7)
                    then Put(moved, to, Some(Piece(Queen, piece.value.color))) else moved;
    match piece
    case Some(Piece(King, color)) => CastledRook(promoted, KingRow(color), from.col, to.col)
    case _ => promoted
  }

  /** The rook flags after the move: a castling king marks that side's rook, a rook leaving file 0 or 7 marks itself. */
  function LegacyRookFlags(b: Board, rm: CastlingRights, from: Pos, to: Pos): CastlingRights
    requires IsValidPosition(from)
  {
    match At(b, from)
    case Some(Piece(King, color)) =>
      if from.col == 4 && to.col == 6 then rm.Set(color, rm.Get(color).(right := true))
      else if from.col == 4 && to.col == 2 then rm.Set(color, rm.Get(color).(left := true))
      else rm
    case Some(Piece(Castle, color)) => RookLeft(rm, color, from.col)
    case _ => rm
  }

  /** The ledger after the move: `target && target.type && target.color !== piece.color` records a capture. */
  function LegacyLedger(ledger: seq<Capture>, mover: Color, target: Square): seq<Capture> {
    if IsEnemyOf(target, mover) then ledger + [Capture(mover, target.value)] else ledger
  }

  /**
   * For a real move (`from != to`) the old and the refactored client leave the same board:
   * the moved piece, promoted on the last rank, and the rook of a castling king.
   */
  lemma LegacyBoardAgrees(b: Board, from: Pos, to: Pos)
    requires IsValidPosition(from) && IsValidPosition(to) && from != to
    ensures LegacyBoardAfter(b, from, to) == MovedBoard(b, from, to)
  {
    var piece := At(b, from);
    var moved := Relocated(b, from, to);
    var promoted := if piece.Some? && piece.value.kind == Pawn && (to.row == 0 || to.row == 7)
                    then Put(moved, to, Some(Piece(Queen, piece.value.color))) else moved;
    BoardsEqualByCells(promoted, AppliedBoard(b, from, to));
  }

  /**
   * Castling in `handleNewMove`: a king going from column 4 to column 6 lands on the target,
   * the piece from (kingRow, 7) goes to (kingRow, 5) and the mover's `right` flag is set;
   * from column 4 to column 2 the piece from (kingRow, 0) goes to (kingRow, 3) and `left` is
   * set. In both cases the mover's king flag is set and the other colour's flags are kept.
   */
  lemma LegacyCastlingMove(b: Board, km: KingMoved, rm: CastlingRights, from: Pos, to: Pos)
    requires IsValidPosition(from) && IsValidPosition(to)
    requires At(b, from).Some? && At(b, from).value.kind == King && from.col == 4
    requires to.col == 6 || to.col == 2
    ensures var color, after := At(b, from).value.color, LegacyBoardAfter(b, from, to);
      var kr, flags := KingRow(color), LegacyRookFlags(b, rm, from, to);
      var other := GetOppositeColor(color);
      && At(after, to) == At(b, from) && At(after, from) == None
      && (to.col == 6 ==>
            && At(after, Pos(kr, 5)) == At(b, Pos(kr, 7)) && At(after, Pos(kr, 7)) == None
            && flags.Get(color) == rm.Get(color).(right := true))
      && (to.col == 2 ==>
            && At(after, Pos(kr, 3)) == At(b, Pos(kr, 0)) && At(after, Pos(kr, 0)) == None
            && flags.Get(color) == rm.Get(color).(left := true))
      && flags.Get(other) == rm.Get(other)
      && MovedKingFlags(b, km, from).Get(color) && MovedKingFlags(b, km, from).Get(other) == km.Get(other)
  {
  }

  /**
   * What the alerts after a move say about the position: mate for the mover exactly when the
   * side to move is in check and none of its pieces has a move that passes the filter;
   * stalemate exactly when it is not in check and has no such move; never both; and the
   * material draw exactly when only kings, bishops and knights are left.
   */
  lemma VerdictsMeaning(board: Board, next: Color, mover: Color, km: KingMoved, rm: CastlingRights)
    ensures var v := Verdicts(LegacyInCheck(board, next, km, rm), HasLegalMove(board, next, km, rm),
                              mover, IsInsufficientMaterial(board));
      var stuck := !exists p, q | && IsValidPosition(p) && HoldsColor(At(board, p), next)
                                  && q in LegacyMoves(board, p, At(board, p).value, km, rm)
                                  && IsValidPosition(q) ::
                     !LegacyInCheck(Relocated(board, p, q), next, km, rm);
      && (Checkmate(mover) in v <==> LegacyInCheck(board, next, km, rm) && stuck)
      && (Stalemate in v <==> !LegacyInCheck(board, next, km, rm) && stuck)
      && !(Checkmate(mover) in v && Stalemate in v)
      && (InsufficientMaterial in v <==>
            forall p | IsValidPosition(p) && At(board, p).Some? :: IsDrawingKind(At(board, p).value.kind))
  {
    HasLegalMoveMeaning(board, next, km, rm);
    InsufficientMaterialMeaning(board);
  }

  // ---------------------------------------------------------------------------------------
  // The component

  /** The slots a move or an undo rewrites: turn, board, both flag sets, check status and ledger. */
  datatype LegacyRecord = LegacyRecord(
    turn: Color,
    board: Board,
    hasKingMoved: KingMoved,
    hasRookMoved: CastlingRights,
    isInCheck: Option<Color>,
    capturedHistory: seq<Capture>)

  /** The stored check status is the old engine's answer for the side to move, on the stored board and flags. */
  ghost predicate CheckStatusHolds(r: LegacyRecord) {
    r.isInCheck == if LegacyInCheck(r.board, r.turn, r.hasKingMoved, r.hasRookMoved) then Some(r.turn) else None
  }

  /** The four parallel stacks of `history`. */
  datatype HistoryStacks = HistoryStacks(
    boards: seq<Board>,
    captured: seq<seq<Capture>>,
    kingMoved: seq<KingMoved>,
    rookMoved: seq<CastlingRights>)

  /** The four stacks have one entry per saved move. */
  predicate InStep(h: HistoryStacks) {
    |h.captured| == |h.boards| && |h.kingMoved| == |h.boards| && |h.rookMoved| == |h.boards|
  }

  /** The stacks after `handleNewMove` saves board, ledger and flags of `r`. */
  function Saved(h: HistoryStacks, r: LegacyRecord): (h': HistoryStacks)
    ensures InStep(h) ==> InStep(h')
  {
    HistoryStacks(h.boards + [r.board], h.captured + [r.capturedHistory], h.kingMoved + [r.hasKingMoved],
                  h.rookMoved + [r.hasRookMoved])
  }

  /** The stacks after `undoMove`'s four `slice(0, -1)`. */
  function Dropped(h: HistoryStacks): HistoryStacks
    requires InStep(h) && h.boards != []
  {
    var n := |h.boards| - 1;
    HistoryStacks(h.boards[..n], h.captured[..n], h.kingMoved[..n], h.rookMoved[..n])
  }

  /** Dropping what was just saved gives back the earlier stacks, and the saved entries are on top. */
  lemma DroppedAfterSaved(h: HistoryStacks, r: LegacyRecord)
    requires InStep(h)
    ensures var h' := Saved(h, r);
      var n := |h.boards|;
      && Dropped(h') == h
      && h'.boards[n] == r.board && h'.captured[n] == r.capturedHistory
      && h'.kingMoved[n] == r.hasKingMoved && h'.rookMoved[n] == r.hasRookMoved
  {
    var h' := Saved(h, r);
    var n := |h.boards|;
    assert h'.boards[..n] == h.boards && h'.captured[..n] == h.captured;
    assert h'.kingMoved[..n] == h.kingMoved && h'.rookMoved[..n] == h.rookMoved;
  }

  /**
   * The record after `handleNewMove` plays `from` to `to`: the turn passes, and the check
   * status of the side to move is computed on the new board with the flags from before the
   * move.
   */
  function NewMoveRecord(r: LegacyRecord, from: Pos, to: Pos): LegacyRecord
    requires IsValidPosition(from) && IsValidPosition(to) && At(r.board, from).Some?
  {
    var b := r.board;
    var board := LegacyBoardAfter(b, from, to);
    var next := GetOppositeColor(r.turn);
    LegacyRecord(next, board, MovedKingFlags(b, r.hasKingMoved, from), LegacyRookFlags(b, r.hasRookMoved, from, to),
                 if LegacyInCheck(board, next, r.hasKingMoved, r.hasRookMoved) then Some(next) else None,
                 LegacyLedger(r.capturedHistory, At(b, from).value.color, At(b, to)))
  }

  /** The alerts `handleNewMove` raises after playing `from` to `to`, under the flags from before the move. */
  function NewMoveVerdicts(r: LegacyRecord, from: Pos, to: Pos): seq<Verdict>
    requires IsValidPosition(from) && IsValidPosition(to)
  {
    var board := LegacyBoardAfter(r.board, from, to);
    var next := GetOppositeColor(r.turn);
    Verdicts(LegacyInCheck(board, next, r.hasKingMoved, r.hasRookMoved),
             HasLegalMove(board, next, r.hasKingMoved, r.hasRookMoved), r.turn, IsInsufficientMaterial(board))
  }

  /**
   * After a move the turn passes to the other side, which is reported in check exactly when
   * its king is attacked on the new board; a capture adds one entry for the mover and a quiet
   * move leaves the ledger as it was.
   */
  lemma NewMoveTurnAndLedger(r: LegacyRecord, from: Pos, to: Pos)
    requires IsValidPosition(from) && IsValidPosition(to) && At(r.board, from).Some?
    ensures var r' := NewMoveRecord(r, from, to);
      var mover := At(r.board, from).value.color;
      && r'.turn != r.turn
      && (r'.isInCheck.Some? <==> LegacyInCheck(r'.board, r'.turn, r.hasKingMoved, r.hasRookMoved))
      && (r'.isInCheck.Some? ==> r'.isInCheck.value == r'.turn)
      && (IsEnemyOf(At(r.board, to), mover) ==> r'.capturedHistory == r.capturedHistory + [Capture(mover, At(r.board, to).value)])
      && (!IsEnemyOf(At(r.board, to), mover) ==> r'.capturedHistory == r.capturedHistory)
      && CheckStatusHolds(r')
  {
    var r' := NewMoveRecord(r, from, to);
    LegacyInCheckIgnoresFlags(r'.board, r'.turn, r.hasKingMoved, r.hasRookMoved, r'.hasKingMoved, r'.hasRookMoved);
  }

  /**
   * `piecesTakenFromBlack` and `piecesTakenFromWhite` after a move: a capture adds the captured
   * piece to the mover's list and leaves the other list alone; a quiet move changes neither.
   */
  lemma LegacyTakenAfterMove(r: LegacyRecord, from: Pos, to: Pos)
    requires IsValidPosition(from) && IsValidPosition(to) && At(r.board, from).Some?
    ensures var mover := At(r.board, from).value.color;
      var after := NewMoveRecord(r, from, to).capturedHistory;
      && CapturedBy(after, mover)
         == CapturedBy(r.capturedHistory, mover) + (if IsEnemyOf(At(r.board, to), mover) then [At(r.board, to).value] else [])
      && CapturedBy(after, GetOppositeColor(mover)) == CapturedBy(r.capturedHistory, GetOppositeColor(mover))
  {
    var mover := At(r.board, from).value.color;
    if IsEnemyOf(At(r.board, to), mover) {
      var entry := Capture(mover, At(r.board, to).value);
      CapturedByAppend(r.capturedHistory, [entry], mover);
      CapturedByAppend(r.capturedHistory, [entry], GetOppositeColor(mover));
    }
  }

  class LegacyGame {
    var turn: Color
    var board: Board
    var hasKingMoved: KingMoved
    var hasRookMoved: CastlingRights
    var selectedCell: Option<Pos>
    var isInCheck: Option<Color>
    var validMoves: seq<Pos>
    var capturedHistory: seq<Capture>
    var history: HistoryStacks

    /**
     * The history stacks move in step, a selection is an on-board square, and the stored check
     * status is that of the side to move.
     */
    ghost predicate Valid()
      reads this
    {
      InStep(history) && (selectedCell.Some? ==> IsValidPosition(selectedCell.value)) && CheckStatusHolds(Record())
    }

    function Record(): LegacyRecord
      reads this
    {
      LegacyRecord(turn, board, hasKingMoved, hasRookMoved, isInCheck, capturedHistory)
    }

    /** The initial state of the component. */
    constructor ()
      ensures Record() == LegacyRecord(White, INITIAL_BOARD, NO_KING_MOVED, NO_ROOK_MOVED, None, [])
      ensures selectedCell == None && validMoves == [] && history == HistoryStacks([], [], [], [])
      ensures Valid()
    {
      turn := White;
      board := INITIAL_BOARD;
      hasKingMoved := NO_KING_MOVED;
      hasRookMoved := NO_ROOK_MOVED;
      selectedCell := None;
      isInCheck := None;
      validMoves := [];
      capturedHistory := [];
      history := HistoryStacks([], [], [], []);
      InitialNotInLegacyCheck(NO_KING_MOVED, NO_ROOK_MOVED);
    }

    /** `showValidMoves(type, color, row, col)`, for the piece `piece` standing on `position`. */
    method ShowValidMoves(piece: Piece, position: Pos)
      requires Valid() && IsValidPosition(position)
      modifies this
      ensures Valid()
      ensures Record() == old(Record()) && history == old(history)
      ensures old(selectedCell) == Some(position) ==> selectedCell == None && validMoves == []
      ensures old(selectedCell) != Some(position) ==>
        && selectedCell == Some(position)
        && validMoves == LegacyLegalMoves(board, position, piece, hasKingMoved, hasRookMoved)
    {
      if selectedCell.Some? && selectedCell.value.row == position.row && selectedCell.value.col == position.col {
        selectedCell := None;
        validMoves := [];
        return;
      }
      selectedCell := Some(position);
      var allMoves := GetPossibleMoves(piece, position, board, hasKingMoved, hasRookMoved);
      LegacyMovesSound(board, position, piece, hasKingMoved, hasRookMoved);
      var legalMoves := FilterLegal(board, position, piece.color, hasKingMoved, hasRookMoved, allMoves);
      validMoves := legalMoves;
    }

    /** The guards of `handleNewMove`: a selection holding a piece of the side to move, and a target among `validMoves`. */
    ghost predicate Accepts(position: Pos)
      reads this
      requires Valid()
    {
      selectedCell.Some? && HoldsColor(At(board, selectedCell.value), turn) && position in validMoves
    }

    /** `handleNewMove(row, col)`; the returned verdicts are the alerts it raises. */
    method HandleNewMove(position: Pos) returns (verdicts: seq<Verdict>)
      requires Valid() && IsValidPosition(position)
      modifies this
      ensures Valid()
      ensures !old(Accepts(position)) ==> unchanged(this) && verdicts == []
      ensures old(Accepts(position)) ==>
        && Record() == NewMoveRecord(old(Record()), old(selectedCell.value), position)
        && verdicts == NewMoveVerdicts(old(Record()), old(selectedCell.value), position)
        && history == Saved(old(history), old(Record()))
        && selectedCell == None && validMoves == []
    {
      if selectedCell.None? {
        return [];
      }
      var from := selectedCell.value;
      var piece := board[from.row][from.col];
      if (turn == White && !(piece.Some? && piece.value.color == White))
         || (turn == Black && !(piece.Some? && piece.value.color == Black))
      {
        return [];
      }
      if position !in validMoves {
        return [];
      }
      var r := Record();
      var next;
      next, verdicts := PlayNewMove(r, from, position);
      NewMoveTurnAndLedger(r, from, position);
      history := Saved(history, r);
      Store(next);
    }

    /** Stores a new game record and clears the selection, leaving the stacks as they are. */
    method Store(next: LegacyRecord)
      requires Valid() && CheckStatusHolds(next)
      modifies this
      ensures Valid()
      ensures Record() == next && history == old(history)
      ensures selectedCell == None && validMoves == []
    {
      turn, board, hasKingMoved, hasRookMoved := next.turn, next.board, next.hasKingMoved, next.hasRookMoved;
      isInCheck, capturedHistory := next.isInCheck, next.capturedHistory;
      selectedCell := None;
      validMoves := [];
    }

    /** The values `handleNewMove` computes from the record `r` before storing them. */
    static method PlayNewMove(r: LegacyRecord, from: Pos, to: Pos) returns (next: LegacyRecord, verdicts: seq<Verdict>)
      requires IsValidPosition(from) && IsValidPosition(to) && At(r.board, from).Some?
      ensures next == NewMoveRecord(r, from, to)
      ensures verdicts == NewMoveVerdicts(r, from, to)
    {
      var piece := r.board[from.row][from.col].value;
      var target := r.board[to.row][to.col];
      var captured := r.capturedHistory;
      if target.Some? && target.value.color != piece.color {
        captured := captured + [Capture(piece.color, target.value)];
      }
      var newBoard, newHasKingMoved, newHasRookMoved := MoveOnBoard(r.board, r.hasKingMoved, r.hasRookMoved, from, to);

      var nextTurn := if r.turn == White then Black else White;
      var inCheck;
      inCheck, verdicts := Judge(newBoard, nextTurn, r.turn, r.hasKingMoved, r.hasRookMoved);
      next := LegacyRecord(nextTurn, newBoard, newHasKingMoved, newHasRookMoved,
                           if inCheck then Some(nextTurn) else None, captured);
    }

    /**
     * The end-of-move tests of `handleNewMove` on the new board `b`: whether `next` is in check,
     * and the checkmate, stalemate and insufficient-material alerts.
     */
    static method Judge(b: Board, next: Color, mover: Color, km: KingMoved, rm: CastlingRights)
      returns (inCheck: bool, verdicts: seq<Verdict>)
      ensures inCheck == LegacyInCheck(b, next, km, rm)
      ensures verdicts == Verdicts(inCheck, HasLegalMove(b, next, km, rm), mover, IsInsufficientMaterial(b))
    {
      inCheck := LegacyIsKingInCheck(next, b, km, rm);
      verdicts := [];
      if inCheck {
        var canMove := LegacyHasLegalMove(next, b, km, rm);
        if !canMove {
          verdicts := verdicts + [Checkmate(mover)];
        }
      } else {
        var canMove := LegacyHasLegalMove(next, b, km, rm);
        if !canMove {
          verdicts := verdicts + [Stalemate];
        }
      }
      if IsInsufficientMaterial(b) {
        verdicts := verdicts + [InsufficientMaterial];
      }
    }

    /**
     * The board and flag updates of `handleNewMove`: the relocation map, the promotion, the
     * castling rook with its flag, the king flag and the flags of a rook leaving a corner file.
     */
    static method MoveOnBoard(b: Board, km: KingMoved, rm: CastlingRights, from: Pos, to: Pos)
      returns (newBoard: Board, newKm: KingMoved, newRm: CastlingRights)
      requires IsValidPosition(from) && IsValidPosition(to) && At(b, from).Some?
      ensures newBoard == LegacyBoardAfter(b, from, to)
      ensures newKm == MovedKingFlags(b, km, from)
      ensures newRm == LegacyRookFlags(b, rm, from, to)
    {
      var piece := b[from.row][from.col].value;
      newBoard := Put(b, to, Some(piece));
      newBoard := Put(newBoard, from, None);
      if piece.kind == Pawn && (to.row == 0 || to.row == 7) {
        newBoard := Put(newBoard, to, Some(Piece(Queen, piece.color)));
      }
      newKm, newRm := km, rm;
      if piece.kind == King {
        var color := piece.color;
        var kingRow := KingRow(color);
        if from.col == 4 && to.col == 6 {
          newBoard := Put(newBoard, Pos(kingRow, 5), newBoard[kingRow][7]);
          newBoard := Put(newBoard, Pos(kingRow, 7), None);
          newRm := newRm.Set(color, newRm.Get(color).(right := true));
        }
        if from.col == 4 && to.col == 2 {
          newBoard := Put(newBoard, Pos(kingRow, 3), newBoard[kingRow][0]);
          newBoard := Put(newBoard, Pos(kingRow, 0), None);
          newRm := newRm.Set(color, newRm.Get(color).(left := true));
        }
        newKm := newKm.Set(color, true);
      }
      if piece.kind == Castle {
        var rookColor := piece.color;
        if from.col == 0 {
          newRm := newRm.Set(rookColor, newRm.Get(rookColor).(left := true));
        }
        if from.col == 7 {
          newRm := newRm.Set(rookColor, newRm.Get(rookColor).(right := true));
        }
      }
    }

    /**
     * The `onClick` of a square: a highlighted target goes to `handleNewMove`, else a piece
     * of the side to move goes to `showValidMoves`, else nothing happens.
     */
    method Click(position: Pos) returns (verdicts: seq<Verdict>)
      requires Valid() && IsValidPosition(position)
      modifies this
      ensures Valid()
      ensures position in old(validMoves) && old(Accepts(position)) ==>
        && Record() == NewMoveRecord(old(Record()), old(selectedCell.value), position)
        && verdicts == NewMoveVerdicts(old(Record()), old(selectedCell.value), position)
        && history == Saved(old(history), old(Record()))
        && selectedCell == None && validMoves == []
      ensures position in old(validMoves) && !old(Accepts(position)) ==> unchanged(this) && verdicts == []
      ensures position !in old(validMoves) && HoldsColor(old(At(board, position)), old(turn)) ==>
        && verdicts == [] && Record() == old(Record()) && history == old(history)
        && (old(selectedCell) == Some(position) ==> selectedCell == None && validMoves == [])
        && (old(selectedCell) != Some(position) ==>
              && selectedCell == Some(position)
              && validMoves == LegacyLegalMoves(board, position, At(board, position).value, hasKingMoved, hasRookMoved))
      ensures position !in old(validMoves) && !HoldsColor(old(At(board, position)), old(turn)) ==>
        unchanged(this) && verdicts == []
    {
      var piece := board[position.row][position.col];
      if position in validMoves {
        verdicts := HandleNewMove(position);
      } else if piece.Some? && piece.value.color == turn {
        ShowValidMoves(piece.value, position);
        verdicts := [];
      } else {
        verdicts := [];
      }
    }

    /**
     * `undoMove`: with saved moves, board, ledger and flags come back from the top of the
     * stacks, all four stacks are popped, the turn flips, and the check status of the side now
     * to move is computed on the restored board with the flags from before the undo.
     */
    method UndoMove()
      requires Valid()
      modifies this
      ensures Valid()
      ensures old(history.boards) == [] ==> unchanged(this)
      ensures old(history.boards) != [] ==>
        var n := |old(history.boards)| - 1;
        && board == old(history.boards[n]) && capturedHistory == old(history.captured[n])
        && hasKingMoved == old(history.kingMoved[n]) && hasRookMoved == old(history.rookMoved[n])
        && history == Dropped(old(history))
        && turn == GetOppositeColor(old(turn))
        && isInCheck == (if LegacyInCheck(board, turn, old(hasKingMoved), old(hasRookMoved)) then Some(turn) else None)
        && selectedCell == None && validMoves == []
    {
      if |history.boards| == 0 {
        return;
      }
      var n := |history.boards| - 1;
      var lastBoardState := history.boards[n];
      var previousTurn := if turn == White then Black else White;
      var inCheck := LegacyIsKingInCheck(previousTurn, lastBoardState, hasKingMoved, hasRookMoved);
      var restored := LegacyRecord(previousTurn, lastBoardState, history.kingMoved[n], history.rookMoved[n],
                                   if inCheck then Some(previousTurn) else None, history.captured[n]);
      LegacyInCheckIgnoresFlags(lastBoardState, previousTurn, hasKingMoved, hasRookMoved,
                                history.kingMoved[n], history.rookMoved[n]);
      history := Dropped(history);
      Store(restored);
    }

    /**
     * Undoing right after an accepted move gives back the board, the ledger, both flag sets,
     * the turn, the check status and the stacks from before the move.
     */
    method MoveThenUndo(position: Pos) returns (verdicts: seq<Verdict>)
      requires Valid() && IsValidPosition(position) && Accepts(position)
      modifies this
      ensures Valid()
      ensures board == old(board) && capturedHistory == old(capturedHistory)
      ensures hasKingMoved == old(hasKingMoved) && hasRookMoved == old(hasRookMoved)
      ensures turn == old(turn) && isInCheck == old(isInCheck) && history == old(history)
      ensures selectedCell == None && validMoves == []
    {
      verdicts := HandleNewMove(position);
      DroppedAfterSaved(old(history), old(Record()));
      OppositeColorInvolution(old(turn));
      UndoMove();
    }
  }
}
