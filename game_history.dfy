/**
 * The undo stack of chess/src/hooks/useGameHistory.ts. The hook keeps a list of snapshots in
 * React state; here it is a class whose `history` field the methods reassign, each call being
 * one atomic update.
 */
module GameHistory {
  import opened Wrappers
  import opened Types

  /** One saved position: the game state, both flag sets and the capture ledger. */
  datatype Snapshot = Snapshot(
    gameState: GameState,
    hasKingMoved: KingMoved,
    hasRookMoved: CastlingRights,
    capturedHistory: seq<Capture>)

  /** The stack after `addToHistory(s)`: `[...prev, s]`. */
  function Pushed(h: seq<Snapshot>, s: Snapshot): (r: seq<Snapshot>)
    ensures |r| == |h| + 1 && r[|h|] == s && r[..|h|] == h
  {
    h + [s]
  }

  /**
   * What `undo()` returns and the stack it leaves: nothing and the same stack when the stack is
   * empty, else the last snapshot and the stack without it.
   */
  function Popped(h: seq<Snapshot>): (r: (Option<Snapshot>, seq<Snapshot>))
    ensures h == [] ==> r == (None, h)
    ensures h != [] ==> r.0 == Some(h[|h| - 1]) && r.1 + [h[|h| - 1]] == h
  {
    if h == [] then (None, h) else (Some(h[|h| - 1]), h[..|h| - 1])
  }

  /** Undo after add returns the added snapshot and gives back the earlier stack. */
  lemma UndoAfterAdd(h: seq<Snapshot>, s: Snapshot)
    ensures Popped(Pushed(h, s)) == (Some(s), h)
  {
    assert Pushed(h, s)[..|h|] == h;
  }

  /** Two adds undone one after the other come back in reverse order and restore the stack. */
  lemma UndoTwiceAfterAddTwice(h: seq<Snapshot>, s1: Snapshot, s2: Snapshot)
    ensures var (first, mid) := Popped(Pushed(Pushed(h, s1), s2));
            var (second, rest) := Popped(mid);
            first == Some(s2) && second == Some(s1) && rest == h
  {
    UndoAfterAdd(Pushed(h, s1), s2);
    UndoAfterAdd(h, s1);
  }

  class History {
    var history: seq<Snapshot>

    /** `useState([])` */
    constructor ()
      ensures history == []
    {
      history := [];
    }

    /** `addToHistory` */
    method AddToHistory(gameState: GameState, hasKingMoved: KingMoved, hasRookMoved: CastlingRights,
                        capturedHistory: seq<Capture>)
      modifies this
      ensures history == Pushed(old(history), Snapshot(gameState, hasKingMoved, hasRookMoved, capturedHistory))
    {
      history := history + [Snapshot(gameState, hasKingMoved, hasRookMoved, capturedHistory)];
    }

    /** `undo` */
    method Undo() returns (lastState: Option<Snapshot>)
      modifies this
      ensures (lastState, history) == Popped(old(history))
    {
      if |history| == 0 {
        return None;
      }
      lastState := Some(history[|history| - 1]);
      history := history[..|history| - 1];
    }

    /** `canUndo` */
    function CanUndo(): (r: bool)
      reads this
      ensures r <==> Popped(history).0.Some?
    {
      |history| > 0
    }
  }
}
