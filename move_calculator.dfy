/**
 * The pseudo-legal move generator of chess/src/utils/moveCalculator.ts.
 *
 * Each `calculate*` routine of the source pushes candidate squares into a local list inside
 * loops; here each is a method with those loops, proved equal to a specification function
 * shaped like the loop (`Ray`/`Sliding`, `PawnMoves`, `Leaps`, `KingMoves`). The properties
 * the generator promises are lemmas about the specification functions.
 */
module MoveCalculator {
  import opened Wrappers
  import opened Types
  import opened BoardUtil
  import opened Constants

  /** The square may be entered by a piece of colour `c`: `!target || target.color !== color`. */
  predicate IsOpenFor(s: Square, c: Color) {
    s.None? || s.value.color != c
  }

  /** The square holds an opposing piece: `target && target.color !== color`. */
  predicate IsEnemyOf(s: Square, c: Color) {
    s.Some? && s.value.color != c
  }

  /** `[row + dRow, col + dCol]` */
  function Shift(p: Pos, d: Pos): Pos {
    Pos(p.row + d.row, p.col + d.col)
  }

  /** The square reached after `i` steps in direction `d`. */
  function Step(p: Pos, d: Pos, i: nat): Pos
    decreases i
  {
    if i == 0 then p else Step(Shift(p, d), d, i - 1)
  }

  /** `i` steps in direction `d` land on `[row + dRow * i, col + dCol * i]`. */
  lemma {:induction false} StepIsScaledOffset(p: Pos, d: Pos, i: nat)
    ensures Step(p, d, i) == Pos(p.row + d.row * i, p.col + d.col * i)
    decreases i
  {
    if i > 0 {
      StepIsScaledOffset(Shift(p, d), d, i - 1);
    }
  }

  // ---------------------------------------------------------------------------------------
  // Sliding pieces

  /**
   * What the inner loop of `calculateSlidingMoves` collects from square `q` on, `q` being
   * step `i` (the loop runs while i < 8): empty squares, then an enemy square and stop, or
   * stop before an own piece or the edge of the board.
   */
  function Walk(b: Board, q: Pos, d: Pos, color: Color, i: nat): seq<Pos>
    decreases STEP_LIMIT - i
  {
    if i >= STEP_LIMIT then []
    else if !IsValidPosition(q) then []
    else if At(b, q).None? then [q] + Walk(b, Shift(q, d), d, color, i + 1)
    else if At(b, q).value.color != color then [q]
    else []
  }

  /** The sliding loop's counter starts at 1 and runs while it is below 8. */
  const FIRST_STEP: nat := 1
  const STEP_LIMIT: nat := 8

  /** The destinations along one direction. */
  function Ray(b: Board, p: Pos, d: Pos, color: Color): seq<Pos> {
    Walk(b, Shift(p, d), d, color, FIRST_STEP)
  }

  /** The lists `ray(d)` for the directions `d` of `directions`, concatenated in order. */
  function ConcatRays(directions: seq<Pos>, ray: Pos -> seq<Pos>): seq<Pos>
    decreases |directions|
  {
    if directions == [] then []
    else ConcatRays(directions[..|directions| - 1], ray) + ray(directions[|directions| - 1])
  }

  /** The rays of `directions`, in order: what `calculateSlidingMoves` returns. */
  function Sliding(b: Board, p: Pos, directions: seq<Pos>, color: Color): seq<Pos> {
    ConcatRays(directions, d => Ray(b, p, d, color))
  }

  /** `calculateSlidingMoves` */
  method CalculateSlidingMoves(b: Board, position: Pos, directions: seq<Pos>, color: Color)
    returns (moves: seq<Pos>)
    ensures moves == Sliding(b, position, directions, color)
  {
    moves := [];
    var k := 0;
    while k < |directions|
      invariant 0 <= k <= |directions|
      invariant moves == Sliding(b, position, directions[..k], color)
    {
      var d := directions[k];
      ghost var before := moves;
      var i := 1;
      while i < 8
        invariant 1 <= i <= 8
        invariant moves + Walk(b, Step(position, d, i), d, color, i) == before + Ray(b, position, d, color)
      {
        var newPos := Pos(position.row + d.row * i, position.col + d.col * i);
        StepIsScaledOffset(position, d, i);
        StepIsScaledOffset(position, d, i + 1);
        assert Step(position, d, i + 1) == Shift(newPos, d);
        if !IsValidPosition(newPos) {
          break;
        }
        var target := b[newPos.row][newPos.col];
        if target.None? {
          moves := moves + [newPos];
        } else {
          if target.value.color != color {
            moves := moves + [newPos];
          }
          break;
        }
        i := i + 1;
      }
      assert directions[..k + 1][..k] == directions[..k];
      k := k + 1;
    }
    assert directions[..k] == directions;
  }

  /**
   * The k-th square of a walk is k steps on; it is on the board and not an own piece, and
   * every square before it on the walk is on the board and empty.
   */
  lemma {:induction false} WalkShape(b: Board, q: Pos, d: Pos, color: Color, i: nat, k: nat)
    requires k < |Walk(b, q, d, color, i)|
    ensures Walk(b, q, d, color, i)[k] == Step(q, d, k)
    ensures IsValidPosition(Step(q, d, k)) && IsOpenFor(At(b, Step(q, d, k)), color)
    ensures forall j | 0 <= j < k :: IsValidPosition(Step(q, d, j)) && At(b, Step(q, d, j)).None?
    decreases 8 - i
  {
    if k > 0 {
      WalkShape(b, Shift(q, d), d, color, i + 1, k - 1);
      forall j | 0 < j < k
        ensures Step(q, d, j) == Step(Shift(q, d), d, j - 1)
      {
      }
    }
  }

  /**
   * The walk is complete up to the first occupied square: a square that is on the board, not
   * an own piece, and reached over on-board empty squares only (within the seven steps), is
   * on the walk.
   */
  lemma {:induction false} WalkComplete(b: Board, q: Pos, d: Pos, color: Color, i: nat, j: nat)
    requires i + j < 8
    requires forall m | 0 <= m < j :: IsValidPosition(Step(q, d, m)) && At(b, Step(q, d, m)).None?
    requires IsValidPosition(Step(q, d, j)) && IsOpenFor(At(b, Step(q, d, j)), color)
    ensures Step(q, d, j) in Walk(b, q, d, color, i)
    decreases j
  {
    if j > 0 {
      assert Step(q, d, 0) == q;
      forall m | 0 <= m < j - 1
        ensures IsValidPosition(Step(Shift(q, d), d, m)) && At(b, Step(Shift(q, d), d, m)).None?
      {
        assert Step(q, d, m + 1) == Step(Shift(q, d), d, m);
      }
      WalkComplete(b, Shift(q, d), d, color, i + 1, j - 1);
    }
  }

  /**
   * A slide along `d`, both ways: the k-th destination is step k+1; all squares strictly between
   * the origin and it are empty; and every step reached over empty squares that is not an own
   * piece is a destination.
   */
  lemma RayMeaning(b: Board, p: Pos, d: Pos, color: Color, k: nat)
    ensures k < |Ray(b, p, d, color)| ==>
      && Ray(b, p, d, color)[k] == Step(p, d, k + 1)
      && IsValidPosition(Step(p, d, k + 1)) && IsOpenFor(At(b, Step(p, d, k + 1)), color)
      && forall j | 1 <= j <= k :: IsValidPosition(Step(p, d, j)) && At(b, Step(p, d, j)).None?
    ensures k < 7 && IsValidPosition(Step(p, d, k + 1)) && IsOpenFor(At(b, Step(p, d, k + 1)), color)
      && (forall j | 1 <= j <= k :: IsValidPosition(Step(p, d, j)) && At(b, Step(p, d, j)).None?)
      ==> Step(p, d, k + 1) in Ray(b, p, d, color)
  {
    var q := Shift(p, d);
    forall j: nat ensures Step(p, d, j + 1) == Step(q, d, j) { }
    if k < |Ray(b, p, d, color)| {
      WalkShape(b, q, d, color, 1, k);
      forall j | 1 <= j <= k
        ensures IsValidPosition(Step(p, d, j)) && At(b, Step(p, d, j)).None?
      {
        assert Step(p, d, j) == Step(q, d, j - 1);
      }
    }
    if k < 7 && IsValidPosition(Step(p, d, k + 1)) && IsOpenFor(At(b, Step(p, d, k + 1)), color)
      && (forall j | 1 <= j <= k :: IsValidPosition(Step(p, d, j)) && At(b, Step(p, d, j)).None?)
    {
      forall m | 0 <= m < k
        ensures IsValidPosition(Step(q, d, m)) && At(b, Step(q, d, m)).None?
      {
        assert Step(p, d, m + 1) == Step(q, d, m);
      }
      WalkComplete(b, q, d, color, 1, k);
    }
  }

  /** Every square of a ray is on the board and free of own pieces. */
  lemma RaySound(b: Board, p: Pos, d: Pos, color: Color)
    ensures forall q | q in Ray(b, p, d, color) :: IsValidPosition(q) && IsOpenFor(At(b, q), color)
  {
    forall q | q in Ray(b, p, d, color)
      ensures IsValidPosition(q) && IsOpenFor(At(b, q), color)
    {
      var ray := Ray(b, p, d, color);
      var m :| 0 <= m < |ray| && ray[m] == q;
      RayMeaning(b, p, d, color, m);
    }
  }

  /** A sliding destination lies on the ray of one of the directions. */
  lemma {:induction false} SlidingOnSomeRay(b: Board, p: Pos, directions: seq<Pos>, color: Color, q: Pos)
    requires q in Sliding(b, p, directions, color)
    ensures exists k | 0 <= k < |directions| :: q in Ray(b, p, directions[k], color)
    decreases |directions|
  {
    var n := |directions| - 1;
    if q !in Ray(b, p, directions[n], color) {
      var init := directions[..n];
      SlidingOnSomeRay(b, p, init, color, q);
      var k :| 0 <= k < |init| && q in Ray(b, p, init[k], color);
      assert init[k] == directions[k];
    }
  }

  /** Every square of the ray of one of the directions is a sliding destination. */
  lemma {:induction false} SlidingCoversRays(b: Board, p: Pos, directions: seq<Pos>, color: Color, k: nat)
    requires k < |directions|
    ensures forall q | q in Ray(b, p, directions[k], color) :: q in Sliding(b, p, directions, color)
    decreases |directions|
  {
    var n := |directions| - 1;
    if k < n {
      var init := directions[..n];
      assert init[k] == directions[k];
      SlidingCoversRays(b, p, init, color, k);
    }
  }

  /** Every sliding destination is on the board and free of own pieces. */
  lemma {:induction false} SlidingSound(b: Board, p: Pos, directions: seq<Pos>, color: Color)
    ensures forall q | q in Sliding(b, p, directions, color) ::
      IsValidPosition(q) && IsOpenFor(At(b, q), color)
    decreases |directions|
  {
    if directions != [] {
      SlidingSound(b, p, directions[..|directions| - 1], color);
      RaySound(b, p, directions[|directions| - 1], color);
    }
  }

  /** Concatenating direction lists concatenates the lists of their rays. */
  lemma {:induction false} ConcatRaysAppend(d1: seq<Pos>, d2: seq<Pos>, ray: Pos -> seq<Pos>)
    ensures ConcatRays(d1 + d2, ray) == ConcatRays(d1, ray) + ConcatRays(d2, ray)
    decreases |d2|
  {
    if d2 == [] {
      assert d1 + d2 == d1;
    } else {
      var init := d2[..|d2| - 1];
      assert (d1 + d2)[..|d1 + d2| - 1] == d1 + init;
      ConcatRaysAppend(d1, init, ray);
    }
  }

  /** Concatenating direction lists concatenates the destination lists. */
  lemma SlidingAppend(b: Board, p: Pos, d1: seq<Pos>, d2: seq<Pos>, color: Color)
    ensures Sliding(b, p, d1 + d2, color) == Sliding(b, p, d1, color) + Sliding(b, p, d2, color)
  {
    ConcatRaysAppend(d1, d2, d => Ray(b, p, d, color));
  }

  /** The direction lists of the `castle`, `bishop` and `queen` cases. */
  const ROOK_DIRECTIONS: seq<Pos> := [Pos(0, 1), Pos(0, -1), Pos(1, 0), Pos(-1, 0)]
  const BISHOP_DIRECTIONS: seq<Pos> := [Pos(1, 1), Pos(1, -1), Pos(-1, 1), Pos(-1, -1)]
  const QUEEN_DIRECTIONS: seq<Pos> := [
    Pos(0, 1), Pos(0, -1), Pos(1, 0), Pos(-1, 0),
    Pos(1, 1), Pos(1, -1), Pos(-1, 1), Pos(-1, -1)
  ]

  // ---------------------------------------------------------------------------------------
  // Pawns

  /** White pawns move up the board (towards row 0), black pawns down. */
  function PawnDirection(c: Color): int {
    if c == White then -1 else 1
  }

  /** The row from which a two-square advance is offered. */
  function StartRow(c: Color): int {
    if c == White then 6 else 1
  }

  /** The forward part of `calculatePawnMoves`. */
  function PawnAdvance(b: Board, p: Pos, color: Color): seq<Pos> {
    var oneStep := Pos(p.row + PawnDirection(color), p.col);
    if IsValidPosition(oneStep) && At(b, oneStep).None? then
      var twoStep := Pos(p.row + PawnDirection(color) * 2, p.col);
      [oneStep] + if p.row == StartRow(color) && IsValidPosition(twoStep) && At(b, twoStep).None?
                  then [twoStep] else []
    else []
  }

  /** The diagonal square ahead at column offset `dCol`, when it holds an enemy piece. */
  function CaptureAt(b: Board, p: Pos, color: Color, dCol: int): seq<Pos> {
    var capturePos := Pos(p.row + PawnDirection(color), p.col + dCol);
    if IsValidPosition(capturePos) && IsEnemyOf(At(b, capturePos), color) then [capturePos] else []
  }

  /** The diagonal captures of `calculatePawnMoves`, over the column offsets `dCols`. */
  function PawnCaptures(b: Board, p: Pos, color: Color, dCols: seq<int>): seq<Pos>
    decreases |dCols|
  {
    if dCols == [] then []
    else PawnCaptures(b, p, color, dCols[..|dCols| - 1]) + CaptureAt(b, p, color, dCols[|dCols| - 1])
  }

  /** The column offsets of the two diagonal captures, in loop order. */
  const PAWN_CAPTURE_COLS: seq<int> := [-1, 1]

  function PawnMoves(b: Board, p: Pos, color: Color): seq<Pos> {
    PawnAdvance(b, p, color) + PawnCaptures(b, p, color, PAWN_CAPTURE_COLS)
  }

  /** `calculatePawnMoves` */
  method CalculatePawnMoves(b: Board, position: Pos, color: Color) returns (moves: seq<Pos>)
    ensures moves == PawnMoves(b, position, color)
  {
    moves := [];
    var direction := PawnDirection(color);
    var startRow := StartRow(color);

    var oneStep := Pos(position.row + direction, position.col);
    if IsValidPosition(oneStep) && b[oneStep.row][oneStep.col].None? {
      moves := moves + [oneStep];
      if position.row == startRow {
        var twoStep := Pos(position.row + direction * 2, position.col);
        if IsValidPosition(twoStep) && b[twoStep.row][twoStep.col].None? {
          moves := moves + [twoStep];
        }
      }
    }
    assert moves == PawnAdvance(b, position, color);

    var captures := CalculatePawnCaptures(b, position, color, PAWN_CAPTURE_COLS);
    moves := moves + captures;
  }

  /** The capture loop of `calculatePawnMoves`, over the column offsets `dCols`. */
  method CalculatePawnCaptures(b: Board, position: Pos, color: Color, dCols: seq<int>) returns (moves: seq<Pos>)
    ensures moves == PawnCaptures(b, position, color, dCols)
  {
    moves := [];
    var direction := PawnDirection(color);
    var k := 0;
    while k < |dCols|
      invariant 0 <= k <= |dCols|
      invariant moves == PawnCaptures(b, position, color, dCols[..k])
    {
      var capturePos := Pos(position.row + direction, position.col + dCols[k]);
      if IsValidPosition(capturePos) {
        var target := b[capturePos.row][capturePos.col];
        if target.Some? && target.value.color != color {
          moves := moves + [capturePos];
        }
      }
      assert dCols[..k + 1][..k] == dCols[..k];
      k := k + 1;
    }
    assert dCols[..k] == dCols;
  }

  /**
   * A pawn's destinations, both ways: the empty square ahead; the square two ahead only from
   * the start row with both squares ahead empty; a diagonal square ahead only onto an enemy.
   */
  lemma PawnMovesMeaning(b: Board, p: Pos, color: Color, q: Pos)
    ensures q in PawnMoves(b, p, color) <==>
      var dir := PawnDirection(color);
      var oneStep := Pos(p.row + dir, p.col);
      var twoStep := Pos(p.row + 2 * dir, p.col);
      || (q == oneStep && IsValidPosition(oneStep) && At(b, oneStep).None?)
      || (q == twoStep && p.row == StartRow(color) && IsValidPosition(oneStep) && At(b, oneStep).None?
          && IsValidPosition(twoStep) && At(b, twoStep).None?)
      || (q.row == p.row + dir && (q.col == p.col - 1 || q.col == p.col + 1)
          && IsValidPosition(q) && IsEnemyOf(At(b, q), color))
  {
    var dCols := PAWN_CAPTURE_COLS;
    assert dCols[..1][..0] == [] && dCols[..2][..1] == dCols[..1];
    assert PawnCaptures(b, p, color, dCols) ==
      PawnCaptures(b, p, color, dCols[..1]) + PawnCaptures(b, p, color, dCols[1..]) by {
      assert dCols[..|dCols| - 1] == dCols[..1];
    }
  }

  // ---------------------------------------------------------------------------------------
  // Knights and kings

  /**
   * The fixed-offset loops of `calculateKnightMoves` and of the first part of
   * `calculateKingMoves`: each on-board square at an offset that is not an own piece.
   */
  function Leaps(b: Board, p: Pos, color: Color, offsets: seq<Pos>): seq<Pos>
    decreases |offsets|
  {
    if offsets == [] then []
    else
      var newPos := Shift(p, offsets[|offsets| - 1]);
      Leaps(b, p, color, offsets[..|offsets| - 1])
      + if IsValidPosition(newPos) && IsOpenFor(At(b, newPos), color) then [newPos] else []
  }

  /**
   * A square is a leap destination exactly when it is at one of the offsets, on the board and
   * not an own piece; there are at most as many destinations as offsets.
   */
  lemma {:induction false} LeapsMeaning(b: Board, p: Pos, color: Color, offsets: seq<Pos>, q: Pos)
    ensures |Leaps(b, p, color, offsets)| <= |offsets|
    ensures q in Leaps(b, p, color, offsets) <==>
      IsValidPosition(q) && IsOpenFor(At(b, q), color)
      && exists k | 0 <= k < |offsets| :: q == Shift(p, offsets[k])
    decreases |offsets|
  {
    if offsets != [] {
      var n := |offsets| - 1;
      var init := offsets[..n];
      LeapsMeaning(b, p, color, init, q);
      if exists k | 0 <= k < |offsets| :: q == Shift(p, offsets[k]) {
        var k :| 0 <= k < |offsets| && q == Shift(p, offsets[k]);
        if k < n {
          assert init[k] == offsets[k];
        }
      }
    }
  }

  /**
   * The fixed-offset loop that `calculateKnightMoves` and `calculateKingMoves` each contain:
   * push every on-board square at an offset that is empty or holds an opposing piece.
   */
  method CalculateLeaps(b: Board, position: Pos, color: Color, offsets: seq<Pos>) returns (moves: seq<Pos>)
    ensures moves == Leaps(b, position, color, offsets)
  {
    moves := [];
    var k := 0;
    while k < |offsets|
      invariant 0 <= k <= |offsets|
      invariant moves == Leaps(b, position, color, offsets[..k])
    {
      var newPos := Shift(position, offsets[k]);
      if IsValidPosition(newPos) {
        var target := b[newPos.row][newPos.col];
        if target.None? || target.value.color != color {
          moves := moves + [newPos];
        }
      }
      assert offsets[..k + 1][..k] == offsets[..k];
      k := k + 1;
    }
    assert offsets[..k] == offsets;
  }

  /** `calculateKnightMoves` */
  method CalculateKnightMoves(b: Board, position: Pos, color: Color) returns (moves: seq<Pos>)
    ensures moves == Leaps(b, position, color, KNIGHT_MOVES)
  {
    moves := CalculateLeaps(b, position, color, KNIGHT_MOVES);
  }

  /** Every knight destination is an L-shaped jump away; there are at most eight. */
  lemma KnightMovesShape(b: Board, p: Pos, color: Color, q: Pos)
    ensures |Leaps(b, p, color, KNIGHT_MOVES)| <= 8
    ensures q in Leaps(b, p, color, KNIGHT_MOVES) ==>
      IsKnightOffset(Pos(q.row - p.row, q.col - p.col)) && IsValidPosition(q) && IsOpenFor(At(b, q), color)
  {
    LeapsMeaning(b, p, color, KNIGHT_MOVES, q);
    if q in Leaps(b, p, color, KNIGHT_MOVES) {
      var k :| 0 <= k < |KNIGHT_MOVES| && q == Shift(p, KNIGHT_MOVES[k]);
      KnightMovesTable(KNIGHT_MOVES[k]);
      assert Pos(q.row - p.row, q.col - p.col) == KNIGHT_MOVES[k];
    }
  }

  /** The king's home row: 7 for White, 0 for Black (`kingRow`). */
  function KingRow(c: Color): int {
    if c == White then 7 else 0
  }

  /** The kingside conditions: rook unmoved, columns 5-6 empty, own rook on column 7. */
  predicate KingsideOpen(b: Board, color: Color, rook: RookSides) {
    var kr := KingRow(color);
    && !rook.right
    && At(b, Pos(kr, 5)).None? && At(b, Pos(kr, 6)).None?
    && At(b, Pos(kr, 7)) == Some(Piece(Castle, color))
  }

  /** The queenside conditions: rook unmoved, columns 1-3 empty, own rook on column 0. */
  predicate QueensideOpen(b: Board, color: Color, rook: RookSides) {
    var kr := KingRow(color);
    && !rook.left
    && At(b, Pos(kr, 1)).None? && At(b, Pos(kr, 2)).None? && At(b, Pos(kr, 3)).None?
    && At(b, Pos(kr, 0)) == Some(Piece(Castle, color))
  }

  /** The castling part of `calculateKingMoves`: only for an unmoved king on (kingRow, 4). */
  function CastlingMoves(b: Board, p: Pos, color: Color, kingMoved: bool, rook: RookSides): seq<Pos> {
    var kr := KingRow(color);
    if !kingMoved && p.row == kr && p.col == 4 then
      (if KingsideOpen(b, color, rook) then [Pos(kr, 6)] else [])
      + (if QueensideOpen(b, color, rook) then [Pos(kr, 2)] else [])
    else []
  }

  function KingMoves(b: Board, p: Pos, color: Color, kingMoved: bool, rook: RookSides): seq<Pos> {
    Leaps(b, p, color, KING_MOVES) + CastlingMoves(b, p, color, kingMoved, rook)
  }

  /** `calculateKingMoves` */
  method CalculateKingMoves(b: Board, position: Pos, color: Color, hasKingMoved: bool, hasRookMoved: RookSides)
    returns (moves: seq<Pos>)
    ensures moves == KingMoves(b, position, color, hasKingMoved, hasRookMoved)
  {
    moves := CalculateLeaps(b, position, color, KING_MOVES);

    var kingRow := KingRow(color);
    if !hasKingMoved && position.row == kingRow && position.col == 4 {
      if !hasRookMoved.right && b[kingRow][5].None? && b[kingRow][6].None?
         && b[kingRow][7].Some? && b[kingRow][7].value.kind == Castle && b[kingRow][7].value.color == color
      {
        moves := moves + [Pos(kingRow, 6)];
      }
      if !hasRookMoved.left && b[kingRow][1].None? && b[kingRow][2].None? && b[kingRow][3].None?
         && b[kingRow][0].Some? && b[kingRow][0].value.kind == Castle && b[kingRow][0].value.color == color
      {
        moves := moves + [Pos(kingRow, 2)];
      }
    }
  }

  /**
   * From (kingRow, 4) the squares (kingRow, 6) and (kingRow, 2) are offered exactly when the
   * king is unmoved and that side's castling conditions hold.
   */
  lemma KingCastlingOffered(b: Board, color: Color, kingMoved: bool, rook: RookSides)
    ensures var home := Pos(KingRow(color), 4);
      && (Pos(KingRow(color), 6) in KingMoves(b, home, color, kingMoved, rook)
          <==> !kingMoved && KingsideOpen(b, color, rook))
      && (Pos(KingRow(color), 2) in KingMoves(b, home, color, kingMoved, rook)
          <==> !kingMoved && QueensideOpen(b, color, rook))
  {
    var kr := KingRow(color);
    var home := Pos(kr, 4);
    KingMovesTable(Pos(0, 2));
    KingMovesTable(Pos(0, -2));
    LeapsMeaning(b, home, color, KING_MOVES, Pos(kr, 6));
    LeapsMeaning(b, home, color, KING_MOVES, Pos(kr, 2));
  }

  /** The fixed-offset king destinations are neighbouring squares. */
  lemma KingLeapsAreNeighbours(b: Board, p: Pos, color: Color, q: Pos)
    ensures q in Leaps(b, p, color, KING_MOVES) ==> IsKingOffset(Pos(q.row - p.row, q.col - p.col))
  {
    LeapsMeaning(b, p, color, KING_MOVES, q);
    if q in Leaps(b, p, color, KING_MOVES) {
      var k :| 0 <= k < |KING_MOVES| && q == Shift(p, KING_MOVES[k]);
      KingMovesTable(KING_MOVES[k]);
      assert Pos(q.row - p.row, q.col - p.col) == KING_MOVES[k];
    }
  }

  /**
   * A king destination that is not a neighbouring square is a castling square of an unmoved
   * king on (kingRow, 4) whose side's conditions hold.
   */
  lemma KingFarMovesAreCastling(b: Board, p: Pos, color: Color, kingMoved: bool, rook: RookSides, q: Pos)
    requires q in KingMoves(b, p, color, kingMoved, rook)
    requires !IsKingOffset(Pos(q.row - p.row, q.col - p.col))
    ensures !kingMoved && p == Pos(KingRow(color), 4)
    ensures || (q == Pos(KingRow(color), 6) && KingsideOpen(b, color, rook))
            || (q == Pos(KingRow(color), 2) && QueensideOpen(b, color, rook))
  {
    KingLeapsAreNeighbours(b, p, color, q);
  }

  /** Every king destination, castling squares included, is on the board and not an own piece. */
  lemma KingMovesSound(b: Board, p: Pos, color: Color, kingMoved: bool, rook: RookSides)
    ensures forall q | q in KingMoves(b, p, color, kingMoved, rook) :: IsValidPosition(q) && IsOpenFor(At(b, q), color)
  {
    forall q | q in KingMoves(b, p, color, kingMoved, rook)
      ensures IsValidPosition(q) && IsOpenFor(At(b, q), color)
    {
      LeapsMeaning(b, p, color, KING_MOVES, q);
    }
  }

  // ---------------------------------------------------------------------------------------
  // Dispatch

  /** What `getAllPossibleMoves` returns: the empty list for an empty square. */
  function PossibleMoves(b: Board, p: Pos, hasKingMoved: KingMoved, hasRookMoved: CastlingRights): seq<Pos>
    requires IsValidPosition(p)
  {
    match At(b, p)
    case None => []
    case Some(piece) =>
      match piece.kind
      case Pawn => PawnMoves(b, p, piece.color)
      case Castle => Sliding(b, p, ROOK_DIRECTIONS, piece.color)
      case Bishop => Sliding(b, p, BISHOP_DIRECTIONS, piece.color)
      case Queen => Sliding(b, p, QUEEN_DIRECTIONS, piece.color)
      case Horse => Leaps(b, p, piece.color, KNIGHT_MOVES)
      case King => KingMoves(b, p, piece.color, hasKingMoved.Get(piece.color), hasRookMoved.Get(piece.color))
  }

  /** `getAllPossibleMoves` */
  method GetAllPossibleMoves(b: Board, position: Pos, hasKingMoved: KingMoved, hasRookMoved: CastlingRights)
    returns (moves: seq<Pos>)
    requires IsValidPosition(position)
    ensures moves == PossibleMoves(b, position, hasKingMoved, hasRookMoved)
  {
    var piece := b[position.row][position.col];
    if piece.None? {
      return [];
    }
    var color := piece.value.color;
    match piece.value.kind
    case Pawn =>
      moves := CalculatePawnMoves(b, position, color);
    case Castle =>
      moves := CalculateSlidingMoves(b, position, [Pos(0, 1), Pos(0, -1), Pos(1, 0), Pos(-1, 0)], color);
    case Bishop =>
      moves := CalculateSlidingMoves(b, position, [Pos(1, 1), Pos(1, -1), Pos(-1, 1), Pos(-1, -1)], color);
    case Queen =>
      moves := CalculateSlidingMoves(b, position, [
        Pos(0, 1), Pos(0, -1), Pos(1, 0), Pos(-1, 0),
        Pos(1, 1), Pos(1, -1), Pos(-1, 1), Pos(-1, -1)
      ], color);
    case Horse =>
      moves := CalculateKnightMoves(b, position, color);
    case King =>
      moves := CalculateKingMoves(b, position, color, hasKingMoved.Get(color), hasRookMoved.Get(color));
  }

  /** An empty square has no moves; a pawn's captures and advances stay on the board. */
  lemma PawnMovesSound(b: Board, p: Pos, color: Color)
    ensures forall q | q in PawnMoves(b, p, color) :: IsValidPosition(q) && IsOpenFor(At(b, q), color)
  {
    forall q | q in PawnMoves(b, p, color)
      ensures IsValidPosition(q) && IsOpenFor(At(b, q), color)
    {
      PawnMovesMeaning(b, p, color, q);
    }
  }

  /**
   * Every generated destination is on the board and does not hold a piece of the mover's
   * colour; an empty square generates nothing.
   */
  lemma PossibleMovesSound(b: Board, p: Pos, hasKingMoved: KingMoved, hasRookMoved: CastlingRights)
    requires IsValidPosition(p)
    ensures At(b, p).None? ==> PossibleMoves(b, p, hasKingMoved, hasRookMoved) == []
    ensures forall q | q in PossibleMoves(b, p, hasKingMoved, hasRookMoved) ::
      IsValidPosition(q) && At(b, p).Some? && IsOpenFor(At(b, q), At(b, p).value.color)
  {
    if At(b, p).Some? {
      var piece := At(b, p).value;
      match piece.kind
      case Pawn => PawnMovesSound(b, p, piece.color);
      case Castle => SlidingSound(b, p, ROOK_DIRECTIONS, piece.color);
      case Bishop => SlidingSound(b, p, BISHOP_DIRECTIONS, piece.color);
      case Queen => SlidingSound(b, p, QUEEN_DIRECTIONS, piece.color);
      case Horse =>
        forall q | q in Leaps(b, p, piece.color, KNIGHT_MOVES)
          ensures IsValidPosition(q) && IsOpenFor(At(b, q), piece.color)
        {
          LeapsMeaning(b, p, piece.color, KNIGHT_MOVES, q);
        }
      case King =>
        KingMovesSound(b, p, piece.color, hasKingMoved.Get(piece.color), hasRookMoved.Get(piece.color));
    }
  }

  /** The queen's list is the rook's list followed by the bishop's list. */
  lemma QueenIsRookThenBishop(b: Board, p: Pos, hasKingMoved: KingMoved, hasRookMoved: CastlingRights)
    requires IsValidPosition(p) && At(b, p).Some? && At(b, p).value.kind == Queen
    ensures PossibleMoves(b, p, hasKingMoved, hasRookMoved)
         == Sliding(b, p, ROOK_DIRECTIONS, At(b, p).value.color) + Sliding(b, p, BISHOP_DIRECTIONS, At(b, p).value.color)
  {
    assert QUEEN_DIRECTIONS == ROOK_DIRECTIONS + BISHOP_DIRECTIONS;
    SlidingAppend(b, p, ROOK_DIRECTIONS, BISHOP_DIRECTIONS, At(b, p).value.color);
  }
}
