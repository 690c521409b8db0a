/** The rules engine (the chess.js library) as the orchestrator uses it: an
    oracle over the list of moves played so far. Which moves are legal, which
    are accepted and which capture is left abstract; what the orchestrator
    relies on is fixed here: White moves first and turns alternate, an
    accepted move appends one record to the history, and `undo` removes and
    returns the last record. */
module RulesEngine {
  import opened ChessTypes

  /** The record chess.js returns from `move` and `undo`. */
  datatype MoveRecord = MoveRecord(from: string, to: string, color: Color, captured: bool)

  /** The oracle: the destinations `moves({square})` lists, whether
      `move({from, to})` is accepted, and whether an accepted move captures. */
  datatype Rules = Rules(
    legalMoves: (seq<MoveRecord>, string) -> seq<string>,
    accepts: (seq<MoveRecord>, string, string) -> bool,
    capturesOn: (seq<MoveRecord>, string) -> bool)

  /** `turn()`: White on an even number of moves played, Black on odd. */
  function Turn(history: seq<MoveRecord>): Color {
    if |history| % 2 == 0 then White else Black
  }

  /** White moves first, and every recorded move, whatever it is, passes the
      turn to the other side. */
  lemma TurnAlternates(history: seq<MoveRecord>, last: MoveRecord)
    ensures Turn([]) == White
    ensures Turn(history + [last]) == Turn(history).Opponent()
    ensures Turn(history + [last]) != Turn(history)
  {
  }

  /** `move({from, to})`: the history with the new record appended, or
      nothing when the engine rejects the move. */
  function Move(rules: Rules, history: seq<MoveRecord>, from: string, to: string): (r: Option<seq<MoveRecord>>)
    ensures r.Some? <==> rules.accepts(history, from, to)
    ensures r.Some? ==> |r.value| == |history| + 1 && r.value[..|history|] == history
    ensures r.Some? ==> r.value[|history|] == MoveRecord(from, to, Turn(history), rules.capturesOn(history, to))
  {
    if rules.accepts(history, from, to) then
      Some(history + [MoveRecord(from, to, Turn(history), rules.capturesOn(history, to))])
    else
      None
  }

  /** `undo()`: the shortened history and the removed record, or nothing
      when no move has been played. */
  function Undo(history: seq<MoveRecord>): (r: Option<(seq<MoveRecord>, MoveRecord)>)
    ensures r.None? <==> |history| == 0
    ensures r.Some? ==> r.value.0 + [r.value.1] == history
  {
    if |history| == 0 then None else Some((history[..|history| - 1], history[|history| - 1]))
  }

  /** Undoing an accepted move gives back the previous history together with
      the record of that move, made by the side whose turn it was. */
  lemma UndoInvertsMove(rules: Rules, history: seq<MoveRecord>, from: string, to: string)
    requires rules.accepts(history, from, to)
    ensures Move(rules, history, from, to).Some?
    ensures Undo(Move(rules, history, from, to).value)
      == Some((history, MoveRecord(from, to, Turn(history), rules.capturesOn(history, to))))
  {
    var h := Move(rules, history, from, to).value;
    assert h[..|h| - 1] == history;
  }

  /** An accepted move passes the turn to the other side; undoing it passes
      the turn back. */
  lemma MovePassesTurn(rules: Rules, history: seq<MoveRecord>, from: string, to: string)
    requires rules.accepts(history, from, to)
    ensures Turn(Move(rules, history, from, to).value) == Turn(history).Opponent()
  {
  }
}
