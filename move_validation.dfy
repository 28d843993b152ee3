/**
 * The two callbacks of chess/src/hooks/useMoveValidation.ts. The hook closes over the
 * `hasKingMoved` and `hasRookMoved` flags; here they are parameters. `getLegalMoves` is a
 * `filter` over the generated moves, written as the prefix-recursive `SafeMoves`.
 */
module MoveValidation {
  import opened Wrappers
  import opened Types
  import opened BoardUtil
  import opened MoveCalculator
  import opened GameValidators

  /** `xs` is obtained from `ys` by deleting elements, the rest keeping their order. */
  predicate SubsequenceOf<T(==)>(xs: seq<T>, ys: seq<T>)
    decreases |ys|
  {
    if ys == [] then xs == []
    else
      || (xs != [] && xs[|xs| - 1] == ys[|ys| - 1] && SubsequenceOf(xs[..|xs| - 1], ys[..|ys| - 1]))
      || SubsequenceOf(xs, ys[..|ys| - 1])
  }

  /** Moving the piece on `from` to `to` leaves the king of `color` attacked (or missing). */
  predicate LeavesKingInCheck(b: Board, from: Pos, to: Pos, color: Color, hasKingMoved: KingMoved,
                              hasRookMoved: CastlingRights)
    requires IsValidPosition(from) && IsValidPosition(to)
  {
    InCheck(AppliedBoard(b, from, to), color, hasKingMoved, hasRookMoved)
  }

  /** The filter of `getLegalMoves`: the destinations after which `color`'s king is not attacked. */
  function SafeMoves(b: Board, from: Pos, color: Color, hasKingMoved: KingMoved, hasRookMoved: CastlingRights,
                     moves: seq<Pos>): seq<Pos>
    requires IsValidPosition(from)
    requires forall q | q in moves :: IsValidPosition(q)
    decreases |moves|
  {
    if moves == [] then []
    else
      var to := moves[|moves| - 1];
      SafeMoves(b, from, color, hasKingMoved, hasRookMoved, moves[..|moves| - 1])
      + if LeavesKingInCheck(b, from, to, color, hasKingMoved, hasRookMoved) then [] else [to]
  }

  /** `getLegalMoves`: nothing for an empty square, else the filtered generated moves. */
  function LegalMoves(b: Board, p: Pos, hasKingMoved: KingMoved, hasRookMoved: CastlingRights): (r: seq<Pos>)
    requires IsValidPosition(p)
    ensures At(b, p).None? ==> r == []
  {
    PossibleMovesSound(b, p, hasKingMoved, hasRookMoved);
    match At(b, p)
    case None => []
    case Some(piece) =>
      SafeMoves(b, p, piece.color, hasKingMoved, hasRookMoved, PossibleMoves(b, p, hasKingMoved, hasRookMoved))
  }

  /** `isValidMove`: a piece of the side to move whose legal moves include `to`. */
  function IsValidMove(b: Board, from: Pos, to: Pos, currentPlayer: Color, hasKingMoved: KingMoved,
                       hasRookMoved: CastlingRights): bool
    requires IsValidPosition(from)
  {
    match At(b, from)
    case None => false
    case Some(piece) => piece.color == currentPlayer && to in LegalMoves(b, from, hasKingMoved, hasRookMoved)
  }

  /** The filter keeps exactly the destinations that do not leave the king attacked. */
  lemma {:induction false} SafeMovesMeaning(b: Board, from: Pos, color: Color, hasKingMoved: KingMoved,
                                            hasRookMoved: CastlingRights, moves: seq<Pos>, q: Pos)
    requires IsValidPosition(from)
    requires forall m | m in moves :: IsValidPosition(m)
    ensures q in SafeMoves(b, from, color, hasKingMoved, hasRookMoved, moves)
        <==> q in moves && !LeavesKingInCheck(b, from, q, color, hasKingMoved, hasRookMoved)
    decreases |moves|
  {
    if moves != [] {
      var init := moves[..|moves| - 1];
      assert moves == init + [moves[|moves| - 1]];
      SafeMovesMeaning(b, from, color, hasKingMoved, hasRookMoved, init, q);
    }
  }

  /** Appending the same element to both sides, or to the longer side only, keeps a subsequence. */
  lemma SubsequenceSnoc<T>(xs: seq<T>, ys: seq<T>, y: T)
    requires SubsequenceOf(xs, ys)
    ensures SubsequenceOf(xs + [y], ys + [y])
    ensures SubsequenceOf(xs, ys + [y])
  {
    var xs', ys' := xs + [y], ys + [y];
    assert xs'[..|xs'| - 1] == xs;
    assert ys'[..|ys'| - 1] == ys;
  }

  /** The filter keeps the order of the moves it is given. */
  lemma {:induction false} SafeMovesOrdered(b: Board, from: Pos, color: Color, hasKingMoved: KingMoved,
                                            hasRookMoved: CastlingRights, moves: seq<Pos>)
    requires IsValidPosition(from)
    requires forall m | m in moves :: IsValidPosition(m)
    ensures SubsequenceOf(SafeMoves(b, from, color, hasKingMoved, hasRookMoved, moves), moves)
    decreases |moves|
  {
    if moves != [] {
      var init, last := moves[..|moves| - 1], moves[|moves| - 1];
      assert moves == init + [last];
      SafeMovesOrdered(b, from, color, hasKingMoved, hasRookMoved, init);
      var kept := SafeMoves(b, from, color, hasKingMoved, hasRookMoved, init);
      SubsequenceSnoc(kept, init, last);
      assert kept + [] == kept;
    }
  }

  /**
   * A legal move is exactly a generated move of the piece on `p` after which the king of that
   * piece's colour is not attacked; the legal moves keep the generator's order.
   */
  lemma LegalMovesMeaning(b: Board, p: Pos, hasKingMoved: KingMoved, hasRookMoved: CastlingRights, q: Pos)
    requires IsValidPosition(p)
    ensures q in LegalMoves(b, p, hasKingMoved, hasRookMoved)
        <==> && At(b, p).Some?
             && q in PossibleMoves(b, p, hasKingMoved, hasRookMoved)
             && IsValidPosition(q)
             && !LeavesKingInCheck(b, p, q, At(b, p).value.color, hasKingMoved, hasRookMoved)
    ensures SubsequenceOf(LegalMoves(b, p, hasKingMoved, hasRookMoved), PossibleMoves(b, p, hasKingMoved, hasRookMoved))
  {
    PossibleMovesSound(b, p, hasKingMoved, hasRookMoved);
    if At(b, p).Some? {
      var color := At(b, p).value.color;
      var moves := PossibleMoves(b, p, hasKingMoved, hasRookMoved);
      SafeMovesMeaning(b, p, color, hasKingMoved, hasRookMoved, moves, q);
      SafeMovesOrdered(b, p, color, hasKingMoved, hasRookMoved, moves);
    }
  }

  /**
   * `isValidMove` holds exactly when `from` holds a piece of the side to move, `to` is one of
   * its generated moves, and making it leaves that side's king unattacked.
   */
  lemma IsValidMoveMeaning(b: Board, from: Pos, to: Pos, currentPlayer: Color, hasKingMoved: KingMoved,
                           hasRookMoved: CastlingRights)
    requires IsValidPosition(from)
    ensures IsValidMove(b, from, to, currentPlayer, hasKingMoved, hasRookMoved)
        <==> && HoldsColor(At(b, from), currentPlayer)
             && to in PossibleMoves(b, from, hasKingMoved, hasRookMoved)
             && IsValidPosition(to)
             && !LeavesKingInCheck(b, from, to, currentPlayer, hasKingMoved, hasRookMoved)
  {
    LegalMovesMeaning(b, from, hasKingMoved, hasRookMoved, to);
  }
}
