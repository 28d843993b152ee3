# Chess rules engine: a Dafny model

This project models the rules engine of a browser chess client written in TypeScript and React. It covers:

- the board and its pieces;
- the pseudo-legal move generator (sliding pieces, pawns, knights, the king with castling);
- the king search and the check test;
- the move application with queen promotion;
- the legal-move filter, which drops moves that leave the mover's own king in check;
- the undo stack;
- the square-click and undo handlers of the refactored client;
- the whole single-file engine that the client replaced, with its own generator, check test, legal-move search, checkmate, stalemate and insufficient-material verdicts, and a four-stack history.

A board is a value: eight rows of eight squares, each square either empty (`None`) or holding a piece. Row 0 is Black's back rank and row 7 is White's. Positions are `Pos(row, col)` with unbounded coordinates, so a generated candidate can be off the board until it is tested.

Modelling conventions:

- Every routine that loops in the source is a `method` with loop invariants, proved equal to a specification function shaped like the loop.
- The properties the client relies on are lemmas about those functions.
- The two React components are classes. Their `useState` slots are fields, and each handler is one atomic transition.

Modules, one per source file:

| file | module | models |
|---|---|---|
| `wrappers.dfy` | `Wrappers` | the optional value (`null`, `undefined`, an empty stack) |
| `types.dfy` | `Types` | `chess/src/utils/types.ts`: colours, piece kinds, pieces, the 8x8 board, castling flags, game state, the capture ledger |
| `board_util.dfy` | `BoardUtil` | `chess/src/utils/boardUtil.ts`: the bounds test, the opposite colour, cell reads and writes |
| `constants.dfy` | `Constants` | `chess/src/utils/constants.ts`: the starting position and the knight and king offset tables |
| `move_calculator.dfy` | `MoveCalculator` | `chess/src/utils/moveCalculator.ts`: the move generator |
| `game_validators.dfy` | `GameValidators` | `chess/src/utils/gameValidators.ts`: `findKing`, `isKingInCheck`, `applyMove` |
| `move_validation.dfy` | `MoveValidation` | `chess/src/hooks/useMoveValidation.ts`: the legal-move filter and `isValidMove` |
| `game_history.dfy` | `GameHistory` | `chess/src/hooks/useGameHistory.ts`: the undo stack |
| `app.dfy` | `App` | `chess/src/App.tsx`: square clicks, the castling rook, flags, turn and check, undo, captured-piece lists |
| `befor_refactor.dfy` | `BeforRefactor` | `chess/src/BeforRefactor.tsx`: the legacy engine, and how it agrees with the refactored one |
| `initial_position.dfy` | `InitialPosition` | the moves generated for White in the starting position: twenty, all of them legal |

## Model

| member | source | states |
|---|---|---|
| BoardUtil.IsValidPosition | chess/src/utils/boardUtil.ts:3-6 | a position is on the board when its row and its column both lie in 0 to 7 |
| BoardUtil.ValidPositionIsIndexable | chess/src/utils/boardUtil.ts:3-6 | a position passes the bounds test exactly when it indexes a row of the board and a cell of that row |
| BoardUtil.GetOppositeColor | chess/src/utils/boardUtil.ts:8 | the result always differs from the input; White maps to Black and Black to White |
| BoardUtil.OppositeColorInvolution | chess/src/utils/boardUtil.ts:8 | taking the opposite colour twice gives back the colour |
| BoardUtil.Put | chess/src/utils/gameValidators.ts:53-54 | writing one cell of a board sets that cell and leaves every other cell as it was |
| Constants.InitialMiddleRows | chess/src/utils/constants.ts:15-35 | in the starting position rows 2 to 5 are empty, row 1 holds eight black pawns and row 6 eight white pawns |
| Constants.InitialKings | chess/src/utils/constants.ts:3-47 | in the starting position a square holds the black king exactly when it is (0, 4), and the white king exactly when it is (7, 4) |
| Constants.KnightMovesTable | chess/src/utils/constants.ts:49-58 | the knight table has eight distinct entries, and an offset is in it exactly when it is an L-shaped jump (1 and 2 in absolute value) |
| Constants.KingMovesTable | chess/src/utils/constants.ts:60-69 | the king table has eight distinct entries, and an offset is in it exactly when both coordinates lie in -1..1 and not both are 0 |
| MoveCalculator.StepIsScaledOffset | chess/src/utils/moveCalculator.ts:15-16 | the i-th step of a ray is the start plus i times the direction |
| MoveCalculator.CalculateSlidingMoves | chess/src/utils/moveCalculator.ts:5-34 | the loops return, direction by direction and in order, each direction's ray |
| MoveCalculator.WalkShape | chess/src/utils/moveCalculator.ts:14-31 | the k-th square of a ray walk is k steps along, on the board and not held by the mover, and all squares before it are empty |
| MoveCalculator.WalkComplete | chess/src/utils/moveCalculator.ts:14-31 | a square within the eight-step bound is in the walk when it is on the board, not held by the mover, and all squares before it are on the board and empty |
| MoveCalculator.RayMeaning | chess/src/utils/moveCalculator.ts:14-31 | the k-th ray entry is k+1 steps from the piece, on the board, empty or an enemy, with only empty squares before it; conversely every such square within seven steps is in the ray |
| MoveCalculator.RaySound | chess/src/utils/moveCalculator.ts:17-28 | every ray square is on the board and empty or held by an enemy |
| MoveCalculator.SlidingOnSomeRay | chess/src/utils/moveCalculator.ts:14-31 | every sliding destination lies on the ray of one of the given directions |
| MoveCalculator.SlidingCoversRays | chess/src/utils/moveCalculator.ts:14-31 | every square on the ray of any given direction is a sliding destination |
| MoveCalculator.SlidingSound | chess/src/utils/moveCalculator.ts:14-31 | every sliding destination is on the board and not held by the mover |
| MoveCalculator.ConcatRaysAppend | chess/src/utils/moveCalculator.ts:14 | the rays of two joined direction lists are the rays of the first list followed by those of the second |
| MoveCalculator.SlidingAppend | chess/src/utils/moveCalculator.ts:14 | sliding over joined direction lists is sliding over the first list followed by sliding over the second |
| MoveCalculator.CalculatePawnMoves | chess/src/utils/moveCalculator.ts:36-72 | the pawn routine returns the pawn move list: the push, then the double push, then the two diagonal captures |
| MoveCalculator.CalculatePawnCaptures | chess/src/utils/moveCalculator.ts:60-69 | the capture loop returns, in column-offset order, the diagonal squares holding an enemy piece |
| MoveCalculator.PawnMovesMeaning | chess/src/utils/moveCalculator.ts:46-69 | a pawn reaches q exactly when q is the empty square ahead, or the empty square two ahead from the start row with the square between empty, or a diagonal square ahead holding an enemy |
| MoveCalculator.LeapsMeaning | chess/src/utils/moveCalculator.ts:82-90 | a leap list has at most one entry per offset, and q is in it exactly when q is on the board, not held by the mover, and reached by one of the offsets |
| MoveCalculator.CalculateLeaps | chess/src/utils/moveCalculator.ts:82-90 | the offset loop returns, in table order, the offset targets that are on the board and not the mover's |
| MoveCalculator.CalculateKnightMoves | chess/src/utils/moveCalculator.ts:74-93 | the knight routine returns the leap list over the knight table |
| MoveCalculator.KnightMovesShape | chess/src/utils/moveCalculator.ts:74-93 | a knight has at most eight moves, each an L-shaped jump to a square on the board not held by the mover |
| MoveCalculator.CalculateKingMoves | chess/src/utils/moveCalculator.ts:95-144 | the king routine returns the neighbour leaps followed by the castling squares on offer |
| MoveCalculator.KingCastlingOffered | chess/src/utils/moveCalculator.ts:116-141 | from its home square the king is offered column 6 exactly when it has not moved, the kingside rook flag is clear, columns 5 and 6 are empty and its own rook stands on column 7; column 2 likewise with columns 1 to 3 and the rook on column 0 |
| MoveCalculator.KingLeapsAreNeighbours | chess/src/utils/moveCalculator.ts:106-114 | every regular king move is one king step away |
| MoveCalculator.KingFarMovesAreCastling | chess/src/utils/moveCalculator.ts:116-141 | a king move that is not one step away is a castling square, offered only to an unmoved king on its home square with that side open |
| MoveCalculator.KingMovesSound | chess/src/utils/moveCalculator.ts:106-141 | every king destination, castling squares included, is on the board and not held by the mover |
| MoveCalculator.GetAllPossibleMoves | chess/src/utils/moveCalculator.ts:146-219 | the dispatcher returns the move list for the piece on the square: none for an empty square, the sliding lists for rook, bishop and queen, the pawn, knight and king routines otherwise |
| MoveCalculator.PossibleMoves | chess/src/utils/moveCalculator.ts:146-219 | the move list of the square: the pawn routine, the rook, bishop or queen directions slid, the knight leaps, or the king routine, by the kind of piece standing there |
| MoveCalculator.PawnMovesSound | chess/src/utils/moveCalculator.ts:46-69 | every pawn destination is on the board and not held by the mover |
| MoveCalculator.PossibleMovesSound | chess/src/utils/moveCalculator.ts:146-219 | an empty square generates no moves, and every generated destination is on the board and not held by the mover |
| MoveCalculator.QueenIsRookThenBishop | chess/src/utils/moveCalculator.ts:187-202 | a queen's list is the rook's list from its square followed by the bishop's |
| GameValidators.FindKing | chess/src/utils/gameValidators.ts:5-15 | the scan returns the king square of the colour, or nothing |
| GameValidators.KingFromMeaning | chess/src/utils/gameValidators.ts:5-15 | scanning from a square finds the first king of the colour at or after it in row-major order, or reports none when no king lies there |
| GameValidators.KingSquareMeaning | chess/src/utils/gameValidators.ts:5-15 | the king found is the first of its colour in row-major order, and nothing is found exactly when the colour has no king |
| GameValidators.KingSquareOfUniqueKing | chess/src/utils/gameValidators.ts:5-15 | when the colour has exactly one king, that king's square is found |
| GameValidators.IsKingInCheck | chess/src/utils/gameValidators.ts:17-47 | the loops compute the check test |
| GameValidators.AttackedFromMeaning | chess/src/utils/gameValidators.ts:29-44 | the scan from a square is true exactly when some enemy piece at or after it generates the target square |
| GameValidators.InCheckMeaning | chess/src/utils/gameValidators.ts:17-47 | a colour is in check exactly when it has no king, or some enemy piece's generated moves include its king's square |
| GameValidators.AppliedBoard | chess/src/utils/gameValidators.ts:49-66 | after a move the source square is empty and the target holds the piece, a pawn reaching row 0 or 7 becoming a queen; every other square is unchanged; a move onto its own square leaves it empty unless the piece was promoted |
| GameValidators.ApplyMove | chess/src/utils/gameValidators.ts:49-66 | the copying routine returns the applied board |
| GameValidators.BoardsEqualByCells | chess/src/utils/gameValidators.ts:50 | two boards that agree on every square are the same board |
| MoveValidation.LegalMoves | chess/src/hooks/useMoveValidation.ts:10-29 | an empty square has no legal moves |
| MoveValidation.SafeMovesMeaning | chess/src/hooks/useMoveValidation.ts:23-26 | a candidate survives the filter exactly when it is a candidate and playing it does not leave the mover's king in check |
| MoveValidation.SafeMovesOrdered | chess/src/hooks/useMoveValidation.ts:23-26 | the filter keeps candidates in their generated order |
| MoveValidation.LegalMovesMeaning | chess/src/hooks/useMoveValidation.ts:10-29 | q is a legal move from p exactly when p holds a piece, q is generated for it, q is on the board and the applied board leaves that piece's king out of check; legal moves are a subsequence of the generated ones |
| MoveValidation.IsValidMoveMeaning | chess/src/hooks/useMoveValidation.ts:31-40 | a move is valid exactly when the source holds a piece of the player to move, the target is generated for it and on the board, and the move leaves that player out of check |
| MoveValidation.IsValidMove | chess/src/hooks/useMoveValidation.ts:31-40 | a move is valid when the source square holds a piece of the player to move and the target is among that piece's legal moves |
| GameHistory.Pushed | chess/src/hooks/useGameHistory.ts:21-24 | adding a snapshot puts it on top and keeps the stack below it |
| GameHistory.Popped | chess/src/hooks/useGameHistory.ts:29-34 | undo on an empty stack returns nothing and keeps the stack; otherwise it returns the top snapshot and the stack without it |
| GameHistory.UndoAfterAdd | chess/src/hooks/useGameHistory.ts:14-34 | undo right after an add returns the added snapshot and gives back the earlier stack |
| GameHistory.UndoTwiceAfterAddTwice | chess/src/hooks/useGameHistory.ts:14-34 | two adds undone twice come back in reverse order and restore the stack |
| GameHistory.History.constructor | chess/src/hooks/useGameHistory.ts:5-12 | the stack starts empty |
| GameHistory.History.AddToHistory | chess/src/hooks/useGameHistory.ts:14-27 | the stack becomes the old stack with the new snapshot on top |
| GameHistory.History.Undo | chess/src/hooks/useGameHistory.ts:29-34 | returns and removes the top snapshot, or returns nothing on an empty stack |
| GameHistory.History.CanUndo | chess/src/hooks/useGameHistory.ts:37 | true exactly when undo would return a snapshot |
| App.CastledRook | chess/src/App.tsx:161-177 | a king move from column 4 to 6 carries the piece on column 7 of the king's row to column 5, and from 4 to 2 the piece on column 0 to column 3, changing nothing else; any other move leaves the board alone |
| App.PlayMove | chess/src/App.tsx:136-209 | the snapshot after a move: the applied board with the castling rook moved, the updated flags, the ledger, the other player to move and its check status |
| App.PlayMoveLedger | chess/src/App.tsx:146-152 | a move onto an occupied square appends (mover's colour, captured piece) to the capture ledger; other moves leave the ledger unchanged |
| App.PlayMoveCastling | chess/src/App.tsx:161-177 | after a castling move the king stands on its target, and the rook has jumped over it with its corner square emptied |
| App.PlayMoveFlags | chess/src/App.tsx:179-193 | a king move sets its own colour's king flag only; a rook leaving column 0 or 7 sets that side's flag for its colour only; every other move keeps all flags |
| App.PlayMoveTurn | chess/src/App.tsx:195-209 | after a move the other colour is to play, and the check status names that colour exactly when it is in check on the new board with the new flags |
| App.CapturedPartition | chess/src/App.tsx:272-282 | the pieces taken by White and by Black together number the ledger's entries |
| App.CapturedByAppend | chess/src/App.tsx:272-282 | a colour's taken pieces from two joined ledgers are those of the first followed by those of the second |
| App.CapturedByMeaning | chess/src/App.tsx:272-282 | a piece is listed as taken by a colour exactly when the ledger holds that capture by that colour |
| App.CapturedByPrefix | chess/src/App.tsx:272-282 | the pieces taken in the first entries of the ledger come first: they form a prefix of the colour's list, so the list keeps the ledger's order |
| App.CaptureListsAfterMove | chess/src/App.tsx:146-152 | a capture adds the taken piece at the end of the mover's list and leaves the other colour's list unchanged |
| App.ChessApp.constructor | chess/src/App.tsx:25-44 | the game starts from the initial board with White to move, no check, no flag set, nothing selected, no captures and an empty undo stack |
| App.ChessApp.HandleSquareClick | chess/src/App.tsx:120-240 | online, a click out of turn changes nothing; a click on a legal target of the selection plays the move, clears the selection and in local mode pushes the old state; any other click selects the square when it holds a piece of the player to move, and clears the selection otherwise |
| App.ChessApp.MakeMove | chess/src/App.tsx:136-231 | the game record becomes the played move's record, the selection is cleared, and in local mode the old record is pushed on the undo stack |
| App.ChessApp.NextRecord | chess/src/App.tsx:136-209 | the state updates of a move compute the played move's record |
| App.ChessApp.MoveCastlingRook | chess/src/App.tsx:161-177 | the in-place rook hop computes the castled board |
| App.ChessApp.HandleUndo | chess/src/App.tsx:255-270 | in local play with a non-empty stack the record becomes the popped snapshot and the selection is cleared; with an empty stack, or online in a room, nothing changes |
| App.ChessApp.MoveThenUndo | chess/src/App.tsx:255-270 | in local play, a legal move followed by undo restores the game record and the undo stack |
| BeforRefactor.Lookup | chess/src/BeforRefactor.tsx:100 | an optional-chained lookup yields a square exactly on the board, and that square is the board's |
| BeforRefactor.SlideLoop | chess/src/BeforRefactor.tsx:118-151 | one of the legacy ray loops returns the ray of its direction |
| BeforRefactor.RookSlides | chess/src/BeforRefactor.tsx:118-151 | the four legacy rook loops return the rays down, up, right and left, in that order |
| BeforRefactor.BishopSlides | chess/src/BeforRefactor.tsx:153-190 | the four legacy bishop loops return their four diagonal rays in the legacy order |
| BeforRefactor.LegacyCalculatePawnMoves | chess/src/BeforRefactor.tsx:95-116 | the legacy pawn branch computes the legacy pawn list |
| BeforRefactor.LegacyCalculateCaptures | chess/src/BeforRefactor.tsx:109-115 | the legacy capture loop computes the legacy capture list |
| BeforRefactor.LegacyMoves | chess/src/BeforRefactor.tsx:86-284 | the legacy move list of a piece: the pawn pushes and captures, the sliding rays in the legacy direction order, the knight leaps, and the king leaps followed by the legacy castling squares |
| BeforRefactor.GetPossibleMoves | chess/src/BeforRefactor.tsx:86-284 | the legacy generator returns the legacy move list for the given piece and square |
| BeforRefactor.LegacyCapturesAgree | chess/src/BeforRefactor.tsx:109-115 | the legacy pawn captures equal the refactored ones |
| BeforRefactor.LegacyPawnAgrees | chess/src/BeforRefactor.tsx:95-116 | the legacy pawn moves equal the refactored ones, so they are on the board and never onto the mover's pieces |
| BeforRefactor.SlidingWithinDirections | chess/src/BeforRefactor.tsx:118-190 | sliding over a subset of another list's directions reaches no square outside that list's slides |
| BeforRefactor.SlidingSameDirections | chess/src/BeforRefactor.tsx:118-190 | two direction lists with the same directions in any order reach the same squares, so the legacy order changes nothing but the listing order |
| BeforRefactor.LegacyCastlingSound | chess/src/BeforRefactor.tsx:253-280 | every legacy castling square is on the board and empty |
| BeforRefactor.LegacyMovesSound | chess/src/BeforRefactor.tsx:86-284 | every legacy destination is on the board and not held by the mover |
| BeforRefactor.LegacyMovesAgree | chess/src/BeforRefactor.tsx:86-284 | every refactored move is a legacy move; a legacy move the refactored generator lacks is a castling square offered to an unmoved king off its home square |
| BeforRefactor.ScanFromMeaning | chess/src/BeforRefactor.tsx:349-370 | a row-major scan from a square is true exactly when some square at or after it passes the test |
| BeforRefactor.FullScanMeaning | chess/src/BeforRefactor.tsx:349-370 | the whole-board scan is true exactly when some square passes the test |
| BeforRefactor.LocateKing | chess/src/BeforRefactor.tsx:307-319 | the legacy king search returns the legacy king square |
| BeforRefactor.KingInRowMeaning | chess/src/BeforRefactor.tsx:312-318 | within a row, the inner loop finds the first king of the colour from the given column, or reports none |
| BeforRefactor.KingThroughRowMeaning | chess/src/BeforRefactor.tsx:311-319 | because the break leaves only the inner loop, the king kept is the first in the last row holding one; none is kept when no row holds one |
| BeforRefactor.LegacyKingSquareMeaning | chess/src/BeforRefactor.tsx:307-319 | the legacy king is a king of the colour with none after its row and none before it in its row; nothing is found exactly when the colour has no king |
| BeforRefactor.LegacyKingSquareAgrees | chess/src/BeforRefactor.tsx:307-319 | with at most one king of the colour, the legacy search and `findKing` agree |
| BeforRefactor.LegacyIsKingInCheck | chess/src/BeforRefactor.tsx:307-347 | the legacy check routine computes the legacy check test |
| BeforRefactor.AttackScan | chess/src/BeforRefactor.tsx:326-344 | the double loop is true exactly when some enemy piece attacks the target |
| BeforRefactor.AttacksFromSquare | chess/src/BeforRefactor.tsx:328-342 | one iteration decides whether the square holds an enemy piece that generates the target |
| BeforRefactor.LegacyInCheckMeaning | chess/src/BeforRefactor.tsx:307-347 | a colour is in legacy check exactly when it has no king, or some enemy's legacy moves include its legacy king square |
| BeforRefactor.LegacyInCheckAgrees | chess/src/BeforRefactor.tsx:307-347 | with at most one king of the colour, the legacy check test equals the refactored one |
| BeforRefactor.LegacyMovesOntoOccupied | chess/src/BeforRefactor.tsx:86-284 | whether an occupied square is among a piece's legacy moves does not depend on the king and rook flags, which only add empty castling squares |
| BeforRefactor.LegacyInCheckIgnoresFlags | chess/src/BeforRefactor.tsx:307-347 | the legacy check test gives the same answer under any two sets of king and rook flags |
| BeforRefactor.InitialNotInLegacyCheck | chess/src/BeforRefactor.tsx:307-347 | White is not in legacy check in the starting position, under any flags |
| BeforRefactor.Relocated | chess/src/BeforRefactor.tsx:298-300 | the trial board empties the source, puts the unpromoted piece on the target and keeps every other square |
| BeforRefactor.LegacySafeMeaning | chess/src/BeforRefactor.tsx:297-302 | a candidate survives the legacy filter exactly when the trial board leaves the mover out of legacy check |
| BeforRefactor.LegacySafeOrdered | chess/src/BeforRefactor.tsx:297-302 | the legacy filter keeps candidates in their generated order |
| BeforRefactor.LegacyLegalMovesMeaning | chess/src/BeforRefactor.tsx:286-305 | q is shown as valid exactly when it is a legacy move, on the board, and its trial board leaves the mover out of check; shown moves keep the generated order |
| BeforRefactor.FilterLegal | chess/src/BeforRefactor.tsx:297-302 | the filter loop computes the legacy filter |
| BeforRefactor.TrialIsSafe | chess/src/BeforRefactor.tsx:298-301 | one filter step decides whether the trial board leaves the mover out of legacy check |
| BeforRefactor.HasLegalMove | chess/src/BeforRefactor.tsx:349-370 | some square, scanned row by row, holds a piece of the colour with a legacy move whose trial board leaves that colour out of legacy check |
| BeforRefactor.HasLegalMoveMeaning | chess/src/BeforRefactor.tsx:349-370 | a colour has a legal move exactly when one of its pieces has a legacy move whose trial board leaves it out of check |
| BeforRefactor.LegacyHasLegalMove | chess/src/BeforRefactor.tsx:349-370 | the nested loops compute the legal-move test |
| BeforRefactor.CanMoveFromSquare | chess/src/BeforRefactor.tsx:352-366 | one square's iteration decides whether it holds a piece of the colour with a safe move |
| BeforRefactor.AnySafeMove | chess/src/BeforRefactor.tsx:357-365 | the inner loop finds a move exactly when the legacy filter keeps one |
| BeforRefactor.FlattenMembers | chess/src/BeforRefactor.tsx:498 | a square is in the flattened board exactly when it is on some row |
| BeforRefactor.IsInsufficientMaterial | chess/src/BeforRefactor.tsx:497-507 | every square of the flattened board is empty or holds a king, a bishop or a knight |
| BeforRefactor.InsufficientMaterialMeaning | chess/src/BeforRefactor.tsx:497-507 | the material is called insufficient exactly when every piece on the board is a king, bishop or knight |
| BeforRefactor.InitialMaterialSuffices | chess/src/BeforRefactor.tsx:10-83 | the starting position is not a draw by insufficient material |
| BeforRefactor.LegacyBoardAgrees | chess/src/BeforRefactor.tsx:409-452 | for a move between two different squares, the legacy board update, castling rook included, gives the same board as the refactored client |
| BeforRefactor.LegacyCastlingMove | chess/src/BeforRefactor.tsx:425-469 | a legacy castling move puts the king on its target, moves the rook over it, sets that side's rook flag and the mover's king flag, and leaves the other colour's flags unchanged |
| BeforRefactor.VerdictsMeaning | chess/src/BeforRefactor.tsx:471-494 | checkmate is announced exactly when the next player is in check with no legal move, and stalemate exactly when not in check with no legal move, never both; insufficient material exactly when every piece is a king, bishop or knight |
| BeforRefactor.Saved | chess/src/BeforRefactor.tsx:389-400 | saving a record keeps the four history stacks the same height |
| BeforRefactor.DroppedAfterSaved | chess/src/BeforRefactor.tsx:509-527 | saving then dropping gives back the stacks, and the saved tops are the record's board, ledger and flags |
| BeforRefactor.NewMoveTurnAndLedger | chess/src/BeforRefactor.tsx:402-494 | after a legacy move the turn passes, the check status names the new player exactly when in legacy check under the pre-move flags, which is also the answer under the new flags, and an enemy capture is appended to the ledger |
| BeforRefactor.LegacyTakenAfterMove | chess/src/BeforRefactor.tsx:543-549 | after a legacy move, the taken-piece list of the mover grows by the captured enemy piece, if any, and the other list stays the same |
| BeforRefactor.LegacyGame.constructor | chess/src/BeforRefactor.tsx:10-83 | the game starts from the initial board with White to move, no flags, no check, no captures, no selection and empty stacks |
| BeforRefactor.LegacyGame.ShowValidMoves | chess/src/BeforRefactor.tsx:286-305 | clicking the selected square again clears the selection; otherwise the square becomes selected and its filtered legacy moves are shown; the game record is unchanged |
| BeforRefactor.LegacyGame.HandleNewMove | chess/src/BeforRefactor.tsx:372-495 | an unaccepted move changes nothing; an accepted one saves the old record, plays the legacy move, reports the verdicts and clears the selection |
| BeforRefactor.LegacyGame.PlayNewMove | chess/src/BeforRefactor.tsx:402-494 | the update steps compute the next legacy record and its verdicts |
| BeforRefactor.LegacyGame.Judge | chess/src/BeforRefactor.tsx:471-494 | the post-move step computes the check status and the verdicts of the new position |
| BeforRefactor.LegacyGame.MoveOnBoard | chess/src/BeforRefactor.tsx:409-469 | the board step computes the legacy board, the king flags and the legacy rook flags after the move |
| BeforRefactor.LegacyGame.Click | chess/src/BeforRefactor.tsx:576-587 | a click on a shown move plays it when the move handler accepts it and otherwise changes nothing; a click on one of the mover's pieces toggles its selection; any other click changes nothing |
| BeforRefactor.LegacyGame.UndoMove | chess/src/BeforRefactor.tsx:509-541 | with empty stacks nothing changes; otherwise board, ledger and flags come from the tops, the stacks are dropped, the turn flips and check is recomputed with the pre-undo flags; the stored check status stays the legacy answer for the side to move |
| BeforRefactor.LegacyGame.MoveThenUndo | chess/src/BeforRefactor.tsx:509-541 | an accepted move followed by undo restores board, ledger, flags, turn, check status and stacks |
| InitialPosition.InitialPawnMoves | chess/src/utils/moveCalculator.ts:46-58 | in the starting position each white pawn is offered exactly its single and double push |
| InitialPosition.InitialQueensideKnightMoves | chess/src/utils/moveCalculator.ts:74-93 | the knight on (7, 1) is offered exactly (5, 0) and (5, 2) |
| InitialPosition.InitialKingsideKnightMoves | chess/src/utils/moveCalculator.ts:74-93 | the knight on (7, 6) is offered exactly (5, 5) and (5, 7) |
| InitialPosition.InitialQueensideRookBlocked | chess/src/utils/moveCalculator.ts:161-172 | the rook on (7, 0) has no move |
| InitialPosition.InitialKingsideRookBlocked | chess/src/utils/moveCalculator.ts:161-172 | the rook on (7, 7) has no move |
| InitialPosition.InitialBishopsBlocked | chess/src/utils/moveCalculator.ts:174-185 | the bishops on (7, 2) and (7, 5) have no move |
| InitialPosition.InitialQueenBlocked | chess/src/utils/moveCalculator.ts:187-202 | the queen has no move |
| InitialPosition.InitialKingBlocked | chess/src/utils/moveCalculator.ts:95-144 | the king has no move, castling included |
| InitialPosition.InitialCountsAreOpeningCounts | chess/src/utils/constants.ts:28-46 | each white square generates two moves on the pawn row and on the knight squares, and none elsewhere |
| InitialPosition.InitialWhiteMoveCount | chess/src/utils/constants.ts:3-47 | twenty moves are generated for White in the starting position |
| InitialPosition.InitialBlackUnmoved | chess/src/utils/constants.ts:3-47 | the starting position has a full row of black pawns on row 1, black pieces on rows 0 and 1 only, white pieces on rows 4 and below only, and the white king on (7, 4) |
| InitialPosition.WalkAlongRow | chess/src/utils/moveCalculator.ts:14-31 | a ray along a row keeps to that row |
| InitialPosition.RayFromBackRank | chess/src/utils/moveCalculator.ts:14-31 | a ray from row 0, with every square of row 1 occupied, reaches only rows 0 and 1 |
| InitialPosition.SlidingFromBackRank | chess/src/utils/moveCalculator.ts:14-31 | sliding from row 0 over unit directions, with row 1 occupied, reaches only rows 0 and 1 |
| InitialPosition.HomePieceStaysHome | chess/src/utils/moveCalculator.ts:146-219 | a black piece on row 0 or 1, behind a full row of black pawns, generates no square beyond row 3 |
| InitialPosition.BlackMovesStayHome | chess/src/utils/moveCalculator.ts:146-219 | while Black has not moved, no black move is generated beyond row 3 |
| InitialPosition.BlackUnmovedKingSafe | chess/src/utils/gameValidators.ts:17-47 | while Black has not moved, White is not in check, under any flags |
| InitialPosition.OpeningMoveKeepsBlackUnmoved | chess/src/utils/gameValidators.ts:49-66 | a white move from the starting position onto row 4 or 5, by a piece other than the king, leaves a board on which Black has not moved |
| InitialPosition.InitialMovesLandMidBoard | chess/src/utils/moveCalculator.ts:146-219 | every move generated for a white piece in the starting position lands on row 4 or 5, and the king has none |
| InitialPosition.SafeMovesKeepsAll | chess/src/hooks/useMoveValidation.ts:23-26 | when no candidate leaves the king in check, the filter returns the candidates unchanged |
| InitialPosition.InitialLegalMovesAreGenerated | chess/src/hooks/useMoveValidation.ts:10-29 | in the starting position the legal moves of every white piece are exactly its generated moves, in the same order |
| InitialPosition.InitialWhiteLegalMoveCount | chess/src/hooks/useMoveValidation.ts:10-29 | White has twenty legal moves in the starting position |

## Left out

- The user interface is not modelled: JSX rendering, styling, piece images, the board and square components, alerts and console output. The legacy alerts are returned as a list of verdicts.
- Online play is not modelled beyond its guards: the socket connection, the server, the room handlers in `App.tsx` and the move and undo messages sent to the room. The player colour and room id are constructor parameters.
- React runs state updates asynchronously. Each handler is modelled as one atomic transition.
- No en passant, no promotion choice (pawns always become queens), and castling through or out of check. These are what the source does, and the model does the same.
- Capturing a rook does not revoke the castling right; the rook flags are keyed on the file the rook leaves. The source does this too.
- The refactored client never announces checkmate or stalemate. Only its check status is modelled.
- The `canUndo` prop of the undo button is wired inverted in `App.tsx` line 299. That is presentation and is not modelled; `GameHistory.History.CanUndo` models the hook's own value.
- `getAllPossibleMoves` has a `default` case returning `[]`. It cannot be reached, because every piece kind is handled.
- MoveCalculator.GetAllPossibleMoves: requires an on-board square. The source reads `board[row][col]`, which throws on an off-board row and yields an empty square for an off-board column; its callers pass board squares only.
- MoveValidation.LegalMoves, App.ChessApp.HandleSquareClick: require an on-board square, for the same reason; clicks come from the 64 rendered squares.
- BeforRefactor.GetPossibleMoves, BeforRefactor.LegacyGame.ShowValidMoves, BeforRefactor.LegacyGame.Click: require an on-board square; clicks come from the rendered squares.
- BeforRefactor.SlideLoop: the eight legacy ray loops, each spelled out in the source, are modelled as one loop method called once per direction.
- GameValidators.ApplyMove: input immutability is given by value semantics; the board copy is the value itself.
- BeforRefactor.NewMoveTurnAndLedger: the check status after a legacy move uses the pre-move castling flags, because the legacy helpers read the flags of the render they were created in. The model keeps that behaviour. It changes no answer: the flags only add empty castling squares, and `BeforRefactor.LegacyInCheckIgnoresFlags` proves the legacy check test the same under any flags.
- BeforRefactor.LegacyGame.UndoMove: the check status after undo likewise uses the flags from before the undo, with the same result as the restored flags would give.
- BeforRefactor.LegacyKingSquareAgrees, BeforRefactor.LegacyInCheckAgrees: take at most one king per colour as a hypothesis. The model does not prove that every reachable position keeps one king per colour. That would need the invariant that the side that just moved is never left in check, including after the castling rook jump.
- BeforRefactor.KingThroughRowMeaning: on a board with two kings of one colour, the legacy search keeps the one in the last row that holds one. With one king per colour it agrees with `findKing`.
- The helper methods `AttacksFromSquare`, `TrialIsSafe`, `CanMoveFromSquare`, `Judge`, `MoveOnBoard`, `NextRecord` and `Store` split a source routine into steps. They add structure, not behaviour.
