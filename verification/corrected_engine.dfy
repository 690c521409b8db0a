/** The orchestration state machine of src/ChessGameEngine/ChessGameEngine.js
    with its four discrepancies put right: a capture happens only once the
    rules engine has accepted a capturing move, whichever click led to it;
    a moved piece loses its selected flag; and undo puts the revived piece
    back among the pieces in play. Selection, deselection, the capture
    stacks and turn end are those of the program as written. */
module CorrectedEngine {
  import opened ChessTypes
  import opened RulesEngine
  import ChessConfig
  import GameEngine

  type Engine = GameEngine.Engine

  function Notation(p: Position): string {
    ChessConfig.ToAlgebraicNotation(p)
  }

  /** `movePiece`, clearing the moved piece's selected flag with the
      selection. */
  function MovePiece(rules: Rules, e: Engine, tile: Position): (r: Engine)
    requires GameEngine.Refs(e) && e.selected.Some?
    ensures GameEngine.Refs(r) && |r.objects| == |e.objects| && r.pieces == e.pieces
    ensures var sel := e.selected.value;
      var from := Notation(e.objects[sel].square);
      if !rules.accepts(e.history, from, Notation(tile)) then r == e
      else
        && r.history == Move(rules, e.history, from, Notation(tile)).value
        && r.objects[sel] == e.objects[sel].(square := tile, world := Some(TileCentre(tile)), selected := false)
        && (forall j :: 0 <= j < |e.objects| && j != sel ==> r.objects[j] == e.objects[j])
        && r.marked == {} && r.selected.None? && r.startWorld == e.startWorld
        && r.state == e.state.(moveMade := true)
  {
    var m := GameEngine.MovePiece(rules, e, tile);
    if m.selected.Some? then m
    else
      var sel := e.selected.value;
      m.(objects := m.objects[sel := m.objects[sel].(selected := false)])
  }

  /** `handlePieceMove`: submit the move first; only when the rules engine
      accepts it and reports a capture is the opposing piece standing on
      the destination captured. */
  function HandlePieceMove(rules: Rules, e: Engine, tile: Position): (r: Engine)
    requires GameEngine.Refs(e) && e.selected.Some?
    ensures GameEngine.Refs(r) && |r.objects| == |e.objects|
    ensures var from := Notation(e.objects[e.selected.value].square);
      && (!rules.accepts(e.history, from, Notation(tile)) ==> r == e)
      && (rules.accepts(e.history, from, Notation(tile)) ==>
            && r.history == Move(rules, e.history, from, Notation(tile)).value
            && r.selected.None? && r.marked == {} && r.state.moveMade)
    ensures !rules.capturesOn(e.history, Notation(tile)) ==>
      && r.pieces == e.pieces
      && r.state.whiteCaptures == e.state.whiteCaptures && r.state.blackCaptures == e.state.blackCaptures
  {
    var mover := e.objects[e.selected.value];
    var m := MovePiece(rules, e, tile);
    if !rules.accepts(e.history, Notation(mover.square), Notation(tile)) then m
    else if !rules.capturesOn(e.history, Notation(tile)) then m
    else match GameEngine.FindMover(e, e.pieces, Notation(tile), mover.color.Opponent())
      case None => m
      case Some(t) => GameEngine.CapturePiece(m, t)
  }

  /** `handlePieceClick`, routing a click on an opposing piece to a move
      onto its square. */
  function HandlePieceClick(rules: Rules, e: Engine, id: nat): (r: Engine)
    requires GameEngine.Refs(e) && id < |e.objects|
    ensures GameEngine.Refs(r) && |r.objects| == |e.objects|
    ensures e.selected == Some(id) ==> r.selected.None? && r.marked == {}
    ensures e.selected.Some? && e.objects[id].color != e.objects[e.selected.value].color ==>
      r == HandlePieceMove(rules, e, e.objects[id].square)
  {
    if e.selected.Some? then
      var sel := e.selected.value;
      if id == sel then GameEngine.DeselectPiece(e)
      else if e.objects[id].color == e.objects[sel].color then
        GameEngine.SelectPiece(rules, GameEngine.DeselectPiece(e), id)
      else HandlePieceMove(rules, e, e.objects[id].square)
    else
      GameEngine.SelectPiece(rules, e, id)
  }

  /** `handleTileClick`: a click on a marked tile moves the selected piece,
      capturing on the destination as the rules engine reports. */
  function HandleTileClick(rules: Rules, e: Engine, tile: Position): (r: Engine)
    requires GameEngine.Refs(e)
    ensures GameEngine.Refs(r) && |r.objects| == |e.objects|
    ensures e.selected.None? || Notation(tile) !in e.marked ==> r == e
    ensures e.selected.Some? && Notation(tile) in e.marked ==> r == HandlePieceMove(rules, e, tile)
  {
    if e.selected.None? then e
    else if Notation(tile) !in e.marked then e
    else HandlePieceMove(rules, e, tile)
  }

  /** `undoMove`, putting the revived piece back among the pieces in play. */
  function UndoMove(e: Engine): (r: GameEngine.UndoResult)
    requires GameEngine.Refs(e)
    ensures GameEngine.Refs(r.engine)
    ensures var u := GameEngine.UndoMove(e);
      && r.status == u.status
      && r.engine == u.engine.(pieces := r.engine.pieces)
      && (r.status == GameEngine.Undone && e.history[|e.history| - 1].captured ==>
            && |GameEngine.CaptureStack(e.state, e.history[|e.history| - 1].color)| > 0
            && var cid := GameEngine.Top(GameEngine.CaptureStack(e.state, e.history[|e.history| - 1].color));
            r.engine.pieces == e.pieces + [cid] && !r.engine.objects[cid].captured)
      && (r.status != GameEngine.Undone || !e.history[|e.history| - 1].captured ==> r == u)
  {
    var u := GameEngine.UndoMove(e);
    if u.status == GameEngine.Undone && e.history[|e.history| - 1].captured then
      var cid := GameEngine.Top(GameEngine.CaptureStack(e.state, e.history[|e.history| - 1].color));
      GameEngine.UndoResult(GameEngine.Undone, u.engine.(pieces := u.engine.pieces + [cid]))
    else u
  }

  // ---------------------------------------------------------------------------
  // Properties of the corrected state machine.

  /** A resting engine: references valid, pieces in play on distinct grid
      squares at their tile centres, each listed once, no selection, no
      marks, no pending move, and no piece flagged selected. */
  predicate Idle(e: Engine) {
    && GameEngine.Refs(e) && GameEngine.Placed(e) && GameEngine.InPlay(e) && NoDuplicates(e.pieces)
    && e.selected.None? && e.marked == {} && e.startWorld.None? && !e.state.moveMade
    && GameEngine.FlagsFollowSelection(e)
  }

  /** The selected flags follow the selection through every corrected
      operation. */
  lemma FlagsFollowSelectionPreserved(rules: Rules, e: Engine, id: nat, tile: Position)
    requires GameEngine.Refs(e) && GameEngine.FlagsFollowSelection(e) && id < |e.objects|
    ensures GameEngine.FlagsFollowSelection(HandlePieceClick(rules, e, id))
    ensures GameEngine.FlagsFollowSelection(HandleTileClick(rules, e, tile))
    ensures GameEngine.FlagsFollowSelection(UndoMove(e).engine)
    ensures GameEngine.FlagsFollowSelection(GameEngine.EndTurn(e))
  {
    PieceClickKeepsFlags(rules, e, id);
    if e.selected.Some? {
      HandlePieceMoveKeepsFlags(rules, e, tile);
    }
    UndoKeepsFlags(e);
  }

  lemma PieceClickKeepsFlags(rules: Rules, e: Engine, id: nat)
    requires GameEngine.Refs(e) && GameEngine.FlagsFollowSelection(e) && id < |e.objects|
    ensures GameEngine.FlagsFollowSelection(HandlePieceClick(rules, e, id))
  {
    if e.selected.Some? {
      var sel := e.selected.value;
      var d := GameEngine.DeselectPiece(e);
      assert GameEngine.FlagsFollowSelection(d);
      if id != sel && e.objects[id].color == e.objects[sel].color {
        SelectKeepsFlags(rules, d, id);
      } else if id != sel {
        HandlePieceMoveKeepsFlags(rules, e, e.objects[id].square);
      }
    } else {
      SelectKeepsFlags(rules, e, id);
    }
  }

  lemma UndoKeepsFlags(e: Engine)
    requires GameEngine.Refs(e) && GameEngine.FlagsFollowSelection(e)
    ensures GameEngine.FlagsFollowSelection(UndoMove(e).engine)
  {
    var u := UndoMove(e);
    assert forall j :: 0 <= j < |e.objects| ==> u.engine.objects[j].selected == e.objects[j].selected;
  }

  lemma SelectKeepsFlags(rules: Rules, e: Engine, id: nat)
    requires GameEngine.Refs(e) && GameEngine.FlagsFollowSelection(e) && e.selected.None? && id < |e.objects|
    ensures GameEngine.FlagsFollowSelection(GameEngine.SelectPiece(rules, e, id))
  {
  }

  lemma HandlePieceMoveKeepsFlags(rules: Rules, e: Engine, tile: Position)
    requires GameEngine.Refs(e) && GameEngine.FlagsFollowSelection(e) && e.selected.Some?
    ensures GameEngine.FlagsFollowSelection(HandlePieceMove(rules, e, tile))
  {
    var m := MovePiece(rules, e, tile);
    assert GameEngine.FlagsFollowSelection(m);
    if m.selected.None? {
      forall t: nat | t < |m.objects|
        ensures GameEngine.FlagsFollowSelection(GameEngine.CapturePiece(m, t))
      {
        var c := GameEngine.CapturePiece(m, t);
        assert forall j :: 0 <= j < |m.objects| ==> c.objects[j].selected == m.objects[j].selected;
      }
    }
  }

  /** A click on an opposing piece that the rules engine does not accept
      as a move changes nothing. */
  lemma RejectedCaptureClickChangesNothing(rules: Rules, e: Engine, s: nat, t: nat)
    requires GameEngine.Refs(e) && e.selected == Some(s) && t < |e.objects|
    requires e.objects[t].color != e.objects[s].color
    requires !rules.accepts(e.history, Notation(e.objects[s].square), Notation(e.objects[t].square))
    ensures HandlePieceClick(rules, e, t) == e
  {
  }

  /** Reaching an opposing piece's square by a tile click or by clicking
      the piece comes to the same thing, and an accepted capturing move
      takes exactly that piece onto the stack of the side that moved. */
  lemma CaptureByEitherClick(rules: Rules, e: Engine, s: nat, t: nat)
    requires GameEngine.Refs(e) && GameEngine.Placed(e) && e.selected == Some(s)
    requires s in e.pieces && t in e.pieces && e.objects[t].color != e.objects[s].color
    requires Notation(e.objects[t].square) in e.marked
    requires rules.accepts(e.history, Notation(e.objects[s].square), Notation(e.objects[t].square))
    requires rules.capturesOn(e.history, Notation(e.objects[t].square))
    ensures HandleTileClick(rules, e, e.objects[t].square) == HandlePieceClick(rules, e, t)
    ensures var r := HandlePieceClick(rules, e, t);
      var c := e.objects[s].color;
      && t !in r.pieces && r.objects[t].captured
      && GameEngine.CaptureStack(r.state, c) == GameEngine.CaptureStack(e.state, c) + [t]
      && GameEngine.CaptureStack(r.state, c.Opponent()) == GameEngine.CaptureStack(e.state, c.Opponent())
      && r.objects[s].square == e.objects[t].square
  {
    CaptureFindsOccupant(e, s, t);
  }

  /** The opposing piece on the destination is the one the corrected move
      finds to capture. */
  lemma CaptureFindsOccupant(e: Engine, s: nat, t: nat)
    requires GameEngine.Refs(e) && GameEngine.Placed(e)
    requires s < |e.objects| && t in e.pieces && e.objects[t].color != e.objects[s].color
    ensures GameEngine.FindMover(e, e.pieces, Notation(e.objects[t].square), e.objects[s].color.Opponent()) == Some(t)
  {
    var k :| 0 <= k < |e.pieces| && e.pieces[k] == t;
    GameEngine.FindOnlyPieceOnSquare(e, e.pieces, t);
  }

  // ---------------------------------------------------------------------------
  // Round trips: select, move, undo.

  /** The situation of `Idle` with piece `s` of the side to move able to
      move. */
  predicate CanSelect(rules: Rules, e: Engine, s: nat)
    requires GameEngine.Refs(e)
  {
    && s in e.pieces && e.objects[s].color == Turn(e.history)
    && |GameEngine.LegalMoves(rules, e, e.objects[s].square)| > 0
  }

  /** Selecting from rest sets only the selection, the start position, the
      piece's flag and the marks. */
  lemma SelectFromIdle(rules: Rules, e: Engine, s: nat)
    requires Idle(e) && CanSelect(rules, e, s)
    ensures var e1 := GameEngine.SelectPiece(rules, e, s);
      && GameEngine.Refs(e1) && GameEngine.Placed(e1)
      && e1 == e.(selected := Some(s), startWorld := e.objects[s].world,
                  objects := e.objects[s := e.objects[s].(selected := true)],
                  marked := GameEngine.Destinations(GameEngine.LegalMoves(rules, e, e.objects[s].square)))
  {
    var e1 := GameEngine.SelectPiece(rules, e, s);
    assert forall j :: 0 <= j < |e.objects| ==> e1.objects[j].square == e.objects[j].square;
  }

  /** The state right after a selected piece takes an opposing piece. */
  lemma CaptureFromSelection(rules: Rules, e: Engine, s: nat, t: nat)
    requires Idle(e) && CanSelect(rules, e, s) && t in e.pieces && e.objects[t].color != e.objects[s].color
    requires rules.accepts(e.history, Notation(e.objects[s].square), Notation(e.objects[t].square))
    requires rules.capturesOn(e.history, Notation(e.objects[t].square))
    ensures var e2 := HandlePieceClick(rules, GameEngine.SelectPiece(rules, e, s), t);
      var tile := e.objects[t].square;
      var c := e.objects[s].color;
      && GameEngine.Refs(e2) && |e2.objects| == |e.objects|
      && e2.history == e.history + [MoveRecord(Notation(e.objects[s].square), Notation(tile), c, true)]
      && e2.selected.None? && e2.marked == {} && e2.startWorld == e.objects[s].world
      && e2.objects[s] == e.objects[s].(square := tile, world := Some(TileCentre(tile)))
      && e2.objects[t] == e.objects[t].(captured := true)
      && (forall j :: 0 <= j < |e.objects| && j != s && j != t ==> e2.objects[j] == e.objects[j])
      && (forall j :: j in e2.pieces <==> j in e.pieces && j != t)
      && multiset(e2.pieces) == multiset(e.pieces)[t := 0]
      && GameEngine.CaptureStack(e2.state, c) == GameEngine.CaptureStack(e.state, c) + [t]
      && GameEngine.CaptureStack(e2.state, c.Opponent()) == GameEngine.CaptureStack(e.state, c.Opponent())
      && e2.state.(whiteCaptures := e.state.whiteCaptures, blackCaptures := e.state.blackCaptures)
         == e.state.(moveMade := true)
  {
    SelectFromIdle(rules, e, s);
    var e1 := GameEngine.SelectPiece(rules, e, s);
    var tile := e.objects[t].square;
    assert e1.objects[t] == e.objects[t] && e1.objects[s].color == e.objects[s].color;
    CaptureFindsOccupant(e1, s, t);
    var m := MovePiece(rules, e1, tile);
    assert HandlePieceClick(rules, e1, t) == GameEngine.CapturePiece(m, t);
    assert !e.objects[s].selected;
  }

  /** After the capture the mover is the only piece of its colour in play
      on the destination. */
  lemma MoverFoundAfterCapture(rules: Rules, e: Engine, s: nat, t: nat)
    requires Idle(e) && CanSelect(rules, e, s) && t in e.pieces && e.objects[t].color != e.objects[s].color
    requires rules.accepts(e.history, Notation(e.objects[s].square), Notation(e.objects[t].square))
    requires rules.capturesOn(e.history, Notation(e.objects[t].square))
    ensures var m := HandlePieceClick(rules, GameEngine.SelectPiece(rules, e, s), t);
      GameEngine.Refs(m)
      && GameEngine.FindMover(m, m.pieces, Notation(e.objects[t].square), e.objects[s].color) == Some(s)
  {
    CaptureFromSelection(rules, e, s, t);
    GameEngine.MoverAloneOnDestination(e, HandlePieceClick(rules, GameEngine.SelectPiece(rules, e, s), t), s, t);
  }

  /** Undoing the capture, the program's own undo already restores
      history, piece objects, state and selection. */
  lemma UndoRestoresAllButPieces(rules: Rules, e: Engine, s: nat, t: nat)
    requires Idle(e) && CanSelect(rules, e, s) && t in e.pieces && e.objects[t].color != e.objects[s].color
    requires rules.accepts(e.history, Notation(e.objects[s].square), Notation(e.objects[t].square))
    requires rules.capturesOn(e.history, Notation(e.objects[t].square))
    ensures var m := HandlePieceClick(rules, GameEngine.SelectPiece(rules, e, s), t);
      var g := GameEngine.UndoMove(m);
      && g.status == GameEngine.Undone
      && g.engine == e.(pieces := m.pieces)
  {
    CaptureFromSelection(rules, e, s, t);
    MoverFoundAfterCapture(rules, e, s, t);
    var m := HandlePieceClick(rules, GameEngine.SelectPiece(rules, e, s), t);
    assert GameEngine.CaptureRecorded(e, m, s, t);
    var ks :| 0 <= ks < |e.pieces| && e.pieces[ks] == s;
    var kt :| 0 <= kt < |e.pieces| && e.pieces[kt] == t;
    GameEngine.UndoOfRecordedCapture(e, m, s, t);
  }

  /** Select, capture by clicking the opposing piece, undo: the engine is
      back where it started, up to the order of `pieces` (the revived piece
      is listed last). */
  lemma CaptureThenUndoRestores(rules: Rules, e: Engine, s: nat, t: nat)
    requires Idle(e) && CanSelect(rules, e, s) && t in e.pieces && e.objects[t].color != e.objects[s].color
    requires rules.accepts(e.history, Notation(e.objects[s].square), Notation(e.objects[t].square))
    requires rules.capturesOn(e.history, Notation(e.objects[t].square))
    ensures var u := UndoMove(HandlePieceClick(rules, GameEngine.SelectPiece(rules, e, s), t));
      && u.status == GameEngine.Undone
      && u.engine == e.(pieces := u.engine.pieces)
      && multiset(u.engine.pieces) == multiset(e.pieces)
  {
    CaptureFromSelection(rules, e, s, t);
    MoverFoundAfterCapture(rules, e, s, t);
    var m := HandlePieceClick(rules, GameEngine.SelectPiece(rules, e, s), t);
    assert GameEngine.CaptureRecorded(e, m, s, t);
    UndoOfRecordedCaptureRestores(e, m, s, t);
  }

  /** The corrected undo of a recorded capture gives back the resting
      engine, with the captured piece listed again, last. */
  lemma UndoOfRecordedCaptureRestores(e: Engine, m: Engine, s: nat, t: nat)
    requires Idle(e) && s in e.pieces && t in e.pieces && s != t
    requires GameEngine.CaptureRecorded(e, m, s, t)
    requires multiset(m.pieces) == multiset(e.pieces)[t := 0]
    ensures var u := UndoMove(m);
      && u.status == GameEngine.Undone
      && u.engine == e.(pieces := u.engine.pieces)
      && multiset(u.engine.pieces) == multiset(e.pieces)
  {
    var ks :| 0 <= ks < |e.pieces| && e.pieces[ks] == s;
    var kt :| 0 <= kt < |e.pieces| && e.pieces[kt] == t;
    GameEngine.UndoOfRecordedCapture(e, m, s, t);
    var c := e.objects[s].color;
    assert GameEngine.Top(GameEngine.CaptureStack(m.state, c)) == t;
    var u := UndoMove(m);
    assert u.engine.pieces == m.pieces + [t];
    ReaddRestoresMultiset(e.pieces, m.pieces, kt);
  }

  /** Putting back the one removed element of a list without repeats gives
      back the list's multiset. */
  lemma ReaddRestoresMultiset(ps: seq<nat>, qs: seq<nat>, k: nat)
    requires NoDuplicates(ps) && k < |ps|
    requires multiset(qs) == multiset(ps)[ps[k] := 0]
    ensures multiset(qs + [ps[k]]) == multiset(ps)
  {
    NoDuplicatesCountsOnce(ps, k);
  }

  /** In a list without repeats every element occurs once. */
  lemma {:induction false} NoDuplicatesCountsOnce(s: seq<nat>, k: nat)
    requires NoDuplicates(s) && k < |s|
    ensures multiset(s)[s[k]] == 1
  {
    if k == 0 {
      assert s == [s[0]] + s[1..];
      assert s[0] !in s[1..];
    } else {
      assert s == [s[0]] + s[1..];
      assert s[0] != s[k];
      NoDuplicatesCountsOnce(s[1..], k - 1);
    }
  }

  /** Select, move to an empty marked tile, undo: the engine is exactly as
      it was. */
  lemma QuietMoveThenUndoRestores(rules: Rules, e: Engine, s: nat, tile: Position)
    requires Idle(e) && CanSelect(rules, e, s) && OnGrid(tile)
    requires Notation(tile) in GameEngine.LegalMoves(rules, e, e.objects[s].square)
    requires forall i :: 0 <= i < |e.pieces| ==> e.objects[e.pieces[i]].square != tile
    requires rules.accepts(e.history, Notation(e.objects[s].square), Notation(tile))
    requires !rules.capturesOn(e.history, Notation(tile))
    ensures var u := UndoMove(HandleTileClick(rules, GameEngine.SelectPiece(rules, e, s), tile));
      u.status == GameEngine.Undone && u.engine == e
  {
    SelectFromIdle(rules, e, s);
    var e1 := GameEngine.SelectPiece(rules, e, s);
    var m := MovePiece(rules, e1, tile);
    assert HandleTileClick(rules, e1, tile) == m;
    var ks :| 0 <= ks < |e.pieces| && e.pieces[ks] == s;
    assert m.objects[s] == e.objects[s].(square := tile, world := Some(TileCentre(tile)));
    GameEngine.MoverAloneOnEmptyTarget(e, m, s, tile);
    assert GameEngine.MoveRecorded(e, m, s, tile);
    GameEngine.UndoOfRecordedMove(e, m, s, tile);
  }
}
