/**
 * The rule logic of chess/src/App.tsx: `handleSquareClick` (selection, move application,
 * castling rook, flags, turn and check status), the local branch of `handleUndo`, and the
 * `capturedPieces` partition of the capture ledger.
 *
 * The component's `useState` slots are the fields of `ChessApp`; each handler is a method
 * that performs its updates as one atomic transition. What a move does to the game record is
 * the function `PlayMove`; the properties the handler promises are lemmas about it.
 */
module App {
  import opened Wrappers
  import opened Types
  import opened BoardUtil
  import opened Constants
  import opened MoveCalculator
  import opened GameValidators
  import opened MoveValidation
  import opened GameHistory

  /** The component's `mode` prop. */
  datatype Mode = Local | Online

  // ---------------------------------------------------------------------------------------
  // What a move does

  /**
   * The rook hop of `handleSquareClick`: a king going from column 4 to column 6 carries the
   * piece on (kingRow, 7) to (kingRow, 5), and from column 4 to column 2 the piece on
   * (kingRow, 0) to (kingRow, 3); any other king move leaves the board alone.
   */
  function CastledRook(b: Board, kingRow: int, fromCol: int, toCol: int): (r: Board)
    requires 0 <= kingRow < 8
    ensures fromCol == 4 && toCol == 6 ==>
      && At(r, Pos(kingRow, 5)) == At(b, Pos(kingRow, 7)) && At(r, Pos(kingRow, 7)) == None
      && forall q | IsValidPosition(q) && q != Pos(kingRow, 5) && q != Pos(kingRow, 7) :: At(r, q) == At(b, q)
    ensures fromCol == 4 && toCol == 2 ==>
      && At(r, Pos(kingRow, 3)) == At(b, Pos(kingRow, 0)) && At(r, Pos(kingRow, 0)) == None
      && forall q | IsValidPosition(q) && q != Pos(kingRow, 3) && q != Pos(kingRow, 0) :: At(r, q) == At(b, q)
    ensures !(fromCol == 4 && (toCol == 6 || toCol == 2)) ==> r == b
  {
    if fromCol == 4 && toCol == 6 then
      Put(Put(b, Pos(kingRow, 5), At(b, Pos(kingRow, 7))), Pos(kingRow, 7), None)
    else if fromCol == 4 && toCol == 2 then
      Put(Put(b, Pos(kingRow, 3), At(b, Pos(kingRow, 0))), Pos(kingRow, 0), None)
    else b
  }

  /** The rook flags after a rook of `color` leaves column `fromCol`, whatever the row. */
  function RookLeft(rm: CastlingRights, color: Color, fromCol: int): CastlingRights {
    if fromCol == 0 then rm.Set(color, rm.Get(color).(left := true))
    else if fromCol == 7 then rm.Set(color, rm.Get(color).(right := true))
    else rm
  }

  /** The ledger after a move onto a square holding `captured`. */
  function Ledger(ledger: seq<Capture>, mover: Color, captured: Square): seq<Capture> {
    if captured.Some? then ledger + [Capture(mover, captured.value)] else ledger
  }

  /** The board after the piece on `from` moves to `to`: the applied move, then the castling rook. */
  function MovedBoard(b: Board, from: Pos, to: Pos): Board
    requires IsValidPosition(from) && IsValidPosition(to)
  {
    var moved := AppliedBoard(b, from, to);
    match At(b, from)
    case Some(Piece(King, color)) => CastledRook(moved, KingRow(color), from.col, to.col)
    case _ => moved
  }

  /** The king flags after the piece on `from` moves. */
  function MovedKingFlags(b: Board, km: KingMoved, from: Pos): KingMoved
    requires IsValidPosition(from)
  {
    match At(b, from)
    case Some(Piece(King, color)) => km.Set(color, true)
    case _ => km
  }

  /** The rook flags after the piece on `from` moves. */
  function MovedRookFlags(b: Board, rm: CastlingRights, from: Pos): CastlingRights
    requires IsValidPosition(from)
  {
    match At(b, from)
    case Some(Piece(Castle, color)) => RookLeft(rm, color, from.col)
    case _ => rm
  }

  /**
   * The game record after the piece on `from` moves to `to`, as `handleSquareClick` computes
   * it: ledger, board, flags, side to move, and check status under the new flags.
   */
  function PlayMove(s: Snapshot, from: Pos, to: Pos): Snapshot
    requires IsValidPosition(from) && IsValidPosition(to)
    requires At(s.gameState.board, from).Some?
  {
    var b := s.gameState.board;
    var board := MovedBoard(b, from, to);
    var km := MovedKingFlags(b, s.hasKingMoved, from);
    var rm := MovedRookFlags(b, s.hasRookMoved, from);
    var next := GetOppositeColor(s.gameState.currentPlayer);
    var check := if InCheck(board, next, km, rm) then Some(next) else None;
    Snapshot(GameState(board, next, check), km, rm, Ledger(s.capturedHistory, At(b, from).value.color, At(b, to)))
  }

  /**
   * A capture appends the mover's colour and the captured piece to the ledger; a move onto an
   * empty square leaves the ledger as it was.
   */
  lemma PlayMoveLedger(s: Snapshot, from: Pos, to: Pos)
    requires IsValidPosition(from) && IsValidPosition(to) && At(s.gameState.board, from).Some?
    ensures var b := s.gameState.board;
      PlayMove(s, from, to).capturedHistory
        == if At(b, to).Some? then s.capturedHistory + [Capture(At(b, from).value.color, At(b, to).value)]
           else s.capturedHistory
  {
  }

  /**
   * A king going from column 4 to column 6 lands on the target square and the rook from
   * (kingRow, 7) stands on (kingRow, 5) with (kingRow, 7) empty; from column 4 to column 2
   * the rook from (kingRow, 0) stands on (kingRow, 3) with (kingRow, 0) empty.
   */
  lemma PlayMoveCastling(s: Snapshot, from: Pos, to: Pos)
    requires IsValidPosition(from) && IsValidPosition(to) && At(s.gameState.board, from).Some?
    requires At(s.gameState.board, from).value.kind == King && from.col == 4 && from != to
    ensures var b, kr := s.gameState.board, KingRow(At(s.gameState.board, from).value.color);
      var after := PlayMove(s, from, to).gameState.board;
      && (to.col == 6 ==>
            && At(after, to) == At(b, from)
            && At(after, Pos(kr, 5)) == At(b, Pos(kr, 7)) && At(after, Pos(kr, 7)) == None)
      && (to.col == 2 ==>
            && At(after, to) == At(b, from)
            && At(after, Pos(kr, 3)) == At(b, Pos(kr, 0)) && At(after, Pos(kr, 0)) == None)
  {
    var b := s.gameState.board;
    var moved := AppliedBoard(b, from, to);
    assert PlayMove(s, from, to).gameState.board == MovedBoard(b, from, to)
        == CastledRook(moved, KingRow(At(b, from).value.color), from.col, to.col);
    assert Landed(At(b, from), to) == At(b, from);
  }

  /**
   * A king move sets the mover's king flag and nothing else; a rook leaving column 0 or 7
   * sets the mover's `left` or `right` flag only; other moves keep both flag sets.
   */
  lemma PlayMoveFlags(s: Snapshot, from: Pos, to: Pos)
    requires IsValidPosition(from) && IsValidPosition(to) && At(s.gameState.board, from).Some?
    ensures var mover := At(s.gameState.board, from).value;
      var r := PlayMove(s, from, to);
      var other := GetOppositeColor(mover.color);
      && (mover.kind == King ==>
            r.hasKingMoved.Get(mover.color) && r.hasKingMoved.Get(other) == s.hasKingMoved.Get(other))
      && (mover.kind != King ==> r.hasKingMoved == s.hasKingMoved)
      && (mover.kind == Castle && from.col == 0 ==>
            r.hasRookMoved.Get(mover.color) == s.hasRookMoved.Get(mover.color).(left := true)
            && r.hasRookMoved.Get(other) == s.hasRookMoved.Get(other))
      && (mover.kind == Castle && from.col == 7 ==>
            r.hasRookMoved.Get(mover.color) == s.hasRookMoved.Get(mover.color).(right := true)
            && r.hasRookMoved.Get(other) == s.hasRookMoved.Get(other))
      && (mover.kind != Castle || (from.col != 0 && from.col != 7) ==> r.hasRookMoved == s.hasRookMoved)
  {
  }

  /**
   * After a move the other side is to move, and `isInCheck` names it exactly when its king is
   * attacked on the new board under the new flags; otherwise it is empty.
   */
  lemma PlayMoveTurn(s: Snapshot, from: Pos, to: Pos)
    requires IsValidPosition(from) && IsValidPosition(to) && At(s.gameState.board, from).Some?
    ensures var r := PlayMove(s, from, to);
      && r.gameState.currentPlayer == GetOppositeColor(s.gameState.currentPlayer)
      && r.gameState.currentPlayer != s.gameState.currentPlayer
      && (r.gameState.isInCheck.Some? <==>
            InCheck(r.gameState.board, r.gameState.currentPlayer, r.hasKingMoved, r.hasRookMoved))
      && (r.gameState.isInCheck.Some? ==> r.gameState.isInCheck.value == r.gameState.currentPlayer)
  {
  }

  // ---------------------------------------------------------------------------------------
  // capturedPieces

  /** `capturedHistory.filter(e => e.capturedBy === c).map(e => e.piece)` */
  function CapturedBy(ledger: seq<Capture>, c: Color): seq<Piece>
    decreases |ledger|
  {
    if ledger == [] then []
    else
      var last := ledger[|ledger| - 1];
      CapturedBy(ledger[..|ledger| - 1], c) + if last.capturedBy == c then [last.piece] else []
  }

  /** The two lists split the ledger: their lengths add up to the ledger's. */
  lemma {:induction false} CapturedPartition(ledger: seq<Capture>)
    ensures |CapturedBy(ledger, White)| + |CapturedBy(ledger, Black)| == |ledger|
    decreases |ledger|
  {
    if ledger != [] {
      CapturedPartition(ledger[..|ledger| - 1]);
    }
  }

  /** The split keeps the ledger's order: the split of a concatenation is the concatenation of splits. */
  lemma {:induction false} CapturedByAppend(l1: seq<Capture>, l2: seq<Capture>, c: Color)
    ensures CapturedBy(l1 + l2, c) == CapturedBy(l1, c) + CapturedBy(l2, c)
    decreases |l2|
  {
    if l2 == [] {
      assert l1 + l2 == l1;
    } else {
      var init := l2[..|l2| - 1];
      assert (l1 + l2)[..|l1 + l2| - 1] == l1 + init;
      CapturedByAppend(l1, init, c);
    }
  }

  /**
   * The lists follow the ledger's order: the pieces captured in the first `k` entries come
   * first, as a prefix of the list.
   */
  lemma CapturedByPrefix(ledger: seq<Capture>, k: nat, c: Color)
    requires k <= |ledger|
    ensures CapturedBy(ledger[..k], c) <= CapturedBy(ledger, c)
  {
    assert ledger[..k] + ledger[k..] == ledger;
    CapturedByAppend(ledger[..k], ledger[k..], c);
  }

  /** A piece is listed for `c` exactly when some ledger entry records `c` capturing it. */
  lemma {:induction false} CapturedByMeaning(ledger: seq<Capture>, c: Color, p: Piece)
    ensures p in CapturedBy(ledger, c) <==> Capture(c, p) in ledger
    decreases |ledger|
  {
    if ledger != [] {
      var init := ledger[..|ledger| - 1];
      assert ledger == init + [ledger[|ledger| - 1]];
      CapturedByMeaning(init, c, p);
    }
  }

  /** A capture adds the captured piece to the mover's list and leaves the other list alone. */
  lemma CaptureListsAfterMove(s: Snapshot, from: Pos, to: Pos)
    requires IsValidPosition(from) && IsValidPosition(to) && At(s.gameState.board, from).Some?
    requires At(s.gameState.board, to).Some?
    ensures var b := s.gameState.board;
      var mover := At(b, from).value.color;
      var r := PlayMove(s, from, to);
      && CapturedBy(r.capturedHistory, mover) == CapturedBy(s.capturedHistory, mover) + [At(b, to).value]
      && CapturedBy(r.capturedHistory, GetOppositeColor(mover)) == CapturedBy(s.capturedHistory, GetOppositeColor(mover))
  {
    var b := s.gameState.board;
    var entry := Capture(At(b, from).value.color, At(b, to).value);
    CapturedByAppend(s.capturedHistory, [entry], At(b, from).value.color);
    CapturedByAppend(s.capturedHistory, [entry], GetOppositeColor(At(b, from).value.color));
  }

  // ---------------------------------------------------------------------------------------
  // The component

  class ChessApp {
    const mode: Mode
    /** The `roomId` prop; it counts as present when it is a non-empty string. */
    const roomId: Option<string>
    /** The colour the server assigned to this client in online mode (`null` until then). */
    const playerColor: Option<Color>
    const history: History

    var gameState: GameState
    var hasKingMoved: KingMoved
    var hasRookMoved: CastlingRights
    var selectedSquare: Option<Pos>
    var capturedHistory: seq<Capture>

    /** A selection is always an on-board square holding a piece of the side to move. */
    ghost predicate Valid()
      reads this
    {
      selectedSquare.Some? ==>
        IsValidPosition(selectedSquare.value) && HoldsColor(At(gameState.board, selectedSquare.value), gameState.currentPlayer)
    }

    /** The game record the history saves and restores. */
    function Current(): Snapshot
      reads this
    {
      Snapshot(gameState, hasKingMoved, hasRookMoved, capturedHistory)
    }

    /** `mode === "online" && roomId` */
    predicate HasRoom() {
      mode == Online && roomId.Some? && roomId.value != ""
    }

    /** The initial state of the component. */
    constructor (mode: Mode, roomId: Option<string>, playerColor: Option<Color>)
      ensures this.mode == mode && this.roomId == roomId && this.playerColor == playerColor
      ensures gameState == GameState(INITIAL_BOARD, White, None)
      ensures hasKingMoved == NO_KING_MOVED && hasRookMoved == NO_ROOK_MOVED
      ensures selectedSquare == None && capturedHistory == []
      ensures fresh(history) && history.history == []
      ensures Valid()
    {
      this.mode := mode;
      this.roomId := roomId;
      this.playerColor := playerColor;
      history := new History();
      gameState := GameState(INITIAL_BOARD, White, None);
      hasKingMoved := NO_KING_MOVED;
      hasRookMoved := NO_ROOK_MOVED;
      selectedSquare := None;
      capturedHistory := [];
    }

    /** `legalMoves`: the legal moves of the selected square, or none without a selection. */
    function LegalMovesOfSelection(): seq<Pos>
      reads this
      requires Valid()
    {
      if selectedSquare.Some? then LegalMoves(gameState.board, selectedSquare.value, hasKingMoved, hasRookMoved)
      else []
    }

    /** In online mode the click is ignored unless it is this client's turn. */
    predicate IgnoresClicks()
      reads this
    {
      mode == Online && playerColor != Some(gameState.currentPlayer)
    }

    /** The clicked square is a legal move of the selected piece. */
    predicate IsMoveTarget(position: Pos)
      reads this
      requires Valid()
    {
      selectedSquare.Some? && position in LegalMovesOfSelection()
    }

    /** `handleSquareClick`; Board.tsx only reports on-board squares. */
    method HandleSquareClick(position: Pos)
      requires Valid() && IsValidPosition(position)
      modifies this, history
      ensures Valid()
      ensures old(IgnoresClicks()) ==>
        Current() == old(Current()) && selectedSquare == old(selectedSquare) && history.history == old(history.history)
      ensures !old(IgnoresClicks()) && old(IsMoveTarget(position)) ==>
        && Current() == PlayMove(old(Current()), old(selectedSquare.value), position)
        && selectedSquare == None
        && history.history == old(history.history) + (if mode == Local then [old(Current())] else [])
      ensures !old(IgnoresClicks()) && !old(IsMoveTarget(position)) ==>
        && Current() == old(Current()) && history.history == old(history.history)
        && selectedSquare == (if HoldsColor(old(At(gameState.board, position)), old(gameState.currentPlayer))
                              then Some(position) else None)
    {
      if mode == Online && playerColor != Some(gameState.currentPlayer) {
        return;
      }

      var row, col := position.row, position.col;
      var piece := gameState.board[row][col];
      var legalMoves := LegalMovesOfSelection();

      if selectedSquare.Some? && position in legalMoves {
        MakeMove(selectedSquare.value, position);
      } else if piece.Some? && piece.value.color == gameState.currentPlayer {
        selectedSquare := Some(position);
      } else {
        selectedSquare := None;
      }
    }

    /** The move branch of `handleSquareClick`, for a selected piece on `from` and a legal target `position`. */
    method MakeMove(from: Pos, position: Pos)
      requires IsValidPosition(from) && IsValidPosition(position) && At(gameState.board, from).Some?
      modifies this, history
      ensures Current() == PlayMove(old(Current()), from, position)
      ensures selectedSquare == None
      ensures history.history == old(history.history) + (if mode == Local then [old(Current())] else [])
    {
      if mode == Local {
        history.AddToHistory(gameState, hasKingMoved, hasRookMoved, capturedHistory);
      }
      var next := NextRecord(Current(), from, position);
      gameState := next.gameState;
      hasKingMoved := next.hasKingMoved;
      hasRookMoved := next.hasRookMoved;
      capturedHistory := next.capturedHistory;
      selectedSquare := None;
    }

    /**
     * The new values the move branch computes before storing them: the ledger, the board with
     * the castling rook moved, the reassigned flag records, the next player and the check status.
     */
    static method NextRecord(s: Snapshot, from: Pos, position: Pos) returns (next: Snapshot)
      requires IsValidPosition(from) && IsValidPosition(position) && At(s.gameState.board, from).Some?
      ensures next == PlayMove(s, from, position)
    {
      var gameState, hasKingMoved, hasRookMoved, capturedHistory :=
        s.gameState, s.hasKingMoved, s.hasRookMoved, s.capturedHistory;
      var row, col := position.row, position.col;
      var movingPiece := gameState.board[from.row][from.col].value;
      var capturedPiece := gameState.board[row][col];

      var newCapturedHistory := if capturedPiece.Some?
        then capturedHistory + [Capture(movingPiece.color, capturedPiece.value)]
        else capturedHistory;

      var newBoard := ApplyMove(gameState.board, from, position);

      var newHasKingMoved := hasKingMoved;
      var newHasRookMoved := hasRookMoved;

      if movingPiece.kind == King {
        var kingRow := KingRow(movingPiece.color);
        newBoard := MoveCastlingRook(newBoard, kingRow, from.col, col);
        newHasKingMoved := newHasKingMoved.Set(movingPiece.color, true);
      }

      if movingPiece.kind == Castle {
        var rookColor := movingPiece.color;
        if from.col == 0 {
          newHasRookMoved := newHasRookMoved.Set(rookColor, newHasRookMoved.Get(rookColor).(left := true));
        } else if from.col == 7 {
          newHasRookMoved := newHasRookMoved.Set(rookColor, newHasRookMoved.Get(rookColor).(right := true));
        }
      }
      assert newBoard == MovedBoard(gameState.board, from, position);
      assert newHasKingMoved == MovedKingFlags(gameState.board, hasKingMoved, from);
      assert newHasRookMoved == MovedRookFlags(gameState.board, hasRookMoved, from);

      var nextPlayer := GetOppositeColor(gameState.currentPlayer);
      var nextInCheck := IsKingInCheck(newBoard, nextPlayer, newHasKingMoved, newHasRookMoved);
      var newIsInCheck := if nextInCheck then Some(nextPlayer) else None;

      next := Snapshot(GameState(newBoard, nextPlayer, newIsInCheck), newHasKingMoved, newHasRookMoved, newCapturedHistory);
    }

    /** The rook writes of the castling branch: `newBoard[kingRow][5] = newBoard[kingRow][7]` and so on. */
    static method MoveCastlingRook(board: Board, kingRow: int, fromCol: int, toCol: int) returns (newBoard: Board)
      requires 0 <= kingRow < 8
      ensures newBoard == CastledRook(board, kingRow, fromCol, toCol)
    {
      newBoard := board;
      if fromCol == 4 && toCol == 6 {
        newBoard := Put(newBoard, Pos(kingRow, 5), newBoard[kingRow][7]);
        newBoard := Put(newBoard, Pos(kingRow, 7), None);
      } else if fromCol == 4 && toCol == 2 {
        newBoard := Put(newBoard, Pos(kingRow, 3), newBoard[kingRow][0]);
        newBoard := Put(newBoard, Pos(kingRow, 0), None);
      }
    }

    /** `handleUndo`: with a room the request goes to the server; otherwise the local stack is popped. */
    method HandleUndo()
      requires Valid()
      modifies this, history
      ensures Valid()
      ensures HasRoom() || old(history.history) == [] ==>
        Current() == old(Current()) && selectedSquare == old(selectedSquare) && history.history == old(history.history)
      ensures !HasRoom() && old(history.history) != [] ==>
        && (Some(Current()), history.history) == Popped(old(history.history))
        && selectedSquare == None
    {
      if HasRoom() {
        return;
      }
      var previousState := history.Undo();
      if previousState.Some? {
        gameState := previousState.value.gameState;
        hasKingMoved := previousState.value.hasKingMoved;
        hasRookMoved := previousState.value.hasRookMoved;
        capturedHistory := previousState.value.capturedHistory;
        selectedSquare := None;
      }
    }

    /** In local mode, undoing right after a move restores the game record from before the move. */
    method MoveThenUndo(position: Pos)
      requires Valid() && IsValidPosition(position)
      requires mode == Local && IsMoveTarget(position)
      modifies this, history
      ensures Valid()
      ensures Current() == old(Current()) && history.history == old(history.history) && selectedSquare == None
    {
      HandleSquareClick(position);
      HandleUndo();
    }
  }
}
