/** The move orchestration state machine of src/ChessGameEngine/ChessGameEngine.js,
    as written. Piece and tile clicks become selection with marked
    destination tiles, a move submitted to the rules engine, capture
    bookkeeping in two per-colour stacks, single-step undo, and turn end.

    Piece objects are identified by their index in `objects` (the program
    compares object references); `pieces` is the engine's own array of
    references, which capture filters. */
module GameEngine {
  import opened ChessTypes
  import opened RulesEngine
  import ChessConfig

  datatype Engine = Engine(
    history: seq<MoveRecord>,     // the rules engine's move list
    objects: seq<BoardPiece>,     // every piece object, captured or not
    pieces: seq<nat>,             // `this.pieces`
    selected: Option<nat>,        // `this.selectedPiece`
    startWorld: Option<World>,    // `this.selectedPieceStartingWorldPosition`
    marked: set<string>,          // squares of `board.markedTiles`
    state: ChessConfig.GameState) // `this.state`

  function Notation(p: Position): string {
    ChessConfig.ToAlgebraicNotation(p)
  }

  /** Every reference the engine holds points at a piece object. */
  predicate Refs(e: Engine) {
    && (forall i :: 0 <= i < |e.pieces| ==> e.pieces[i] < |e.objects|)
    && (e.selected.Some? ==> e.selected.value < |e.objects|)
    && (forall i :: 0 <= i < |e.state.whiteCaptures| ==> e.state.whiteCaptures[i] < |e.objects|)
    && (forall i :: 0 <= i < |e.state.blackCaptures| ==> e.state.blackCaptures[i] < |e.objects|)
  }

  /** When no piece is selected, no tile is marked. */
  predicate MarksFollowSelection(e: Engine) {
    e.selected.None? ==> e.marked == {}
  }

  /** The pieces still in play stand on distinct squares of the grid. */
  predicate Placed(e: Engine)
    requires Refs(e)
  {
    && (forall i :: 0 <= i < |e.pieces| ==> OnGrid(e.objects[e.pieces[i]].square))
    && (forall i, j :: 0 <= i < |e.pieces| && 0 <= j < |e.pieces| && e.pieces[i] != e.pieces[j] ==>
          e.objects[e.pieces[i]].square != e.objects[e.pieces[j]].square)
  }

  /** Two engine states that agree on everything but the piece objects,
      the selection and the marks. */
  predicate SameGame(a: Engine, b: Engine) {
    a.history == b.history && a.pieces == b.pieces && a.state == b.state
  }

  /** The constructor: a fresh rules engine, nothing selected. */
  function NewEngine(objects: seq<BoardPiece>, state: ChessConfig.GameState): (e: Engine)
    requires forall i :: 0 <= i < |state.whiteCaptures| ==> state.whiteCaptures[i] < |objects|
    requires forall i :: 0 <= i < |state.blackCaptures| ==> state.blackCaptures[i] < |objects|
    ensures Refs(e) && MarksFollowSelection(e)
    ensures e.history == [] && Turn(e.history) == White
    ensures e.selected.None? && e.startWorld.None?
    ensures |e.pieces| == |objects| && forall i :: 0 <= i < |objects| ==> e.pieces[i] == i
  {
    Engine([], objects, seq(|objects|, i => i), None, None, {}, state)
  }

  function Destinations(moves: seq<string>): set<string> {
    set m | m in moves
  }

  /** The destinations chess.js lists for the piece on `square`. */
  function LegalMoves(rules: Rules, e: Engine, square: Position): seq<string> {
    rules.legalMoves(e.history, Notation(square))
  }

  /** `selectPiece`: a no-op unless the piece's colour is the engine's turn
      and the engine lists at least one destination; otherwise the piece is
      selected, its world position recorded, and every destination marked. */
  function SelectPiece(rules: Rules, e: Engine, id: nat): (r: Engine)
    requires Refs(e) && id < |e.objects|
    ensures Refs(r) && SameGame(r, e) && |r.objects| == |e.objects|
    ensures var piece := e.objects[id];
      var moves := LegalMoves(rules, e, piece.square);
      if piece.color != Turn(e.history) || |moves| == 0 then r == e
      else
        && r.selected == Some(id) && r.startWorld == piece.world
        && r.objects[id] == piece.(selected := true)
        && r.marked == e.marked + Destinations(moves)
        && (forall j :: 0 <= j < |e.objects| && j != id ==> r.objects[j] == e.objects[j])
  {
    var piece := e.objects[id];
    if piece.color != Turn(e.history) then e
    else
      var moves := LegalMoves(rules, e, piece.square);
      if |moves| == 0 then e
      else
        e.(selected := Some(id), startWorld := piece.world,
           objects := e.objects[id := piece.(selected := true)],
           marked := e.marked + Destinations(moves))
  }

  /** `deselectPiece`: clears the selection, the recorded start position
      and every mark; a no-op when nothing is selected. */
  function DeselectPiece(e: Engine): (r: Engine)
    requires Refs(e)
    ensures Refs(r) && SameGame(r, e) && |r.objects| == |e.objects|
    ensures e.selected.None? ==> r == e
    ensures e.selected.Some? ==>
      && r.selected.None? && r.startWorld.None? && r.marked == {}
      && r.objects[e.selected.value] == e.objects[e.selected.value].(selected := false)
      && (forall j :: 0 <= j < |e.objects| && j != e.selected.value ==> r.objects[j] == e.objects[j])
  {
    if e.selected.None? then e
    else
      var sel := e.selected.value;
      e.(objects := e.objects[sel := e.objects[sel].(selected := false)],
         marked := {}, selected := None, startWorld := None)
  }

  /** `capturePiece`: the piece leaves `pieces`, is flagged captured, and is
      pushed onto the stack of the side that took it: a white piece onto
      `blackCaptures`, a black piece onto `whiteCaptures`. */
  function CapturePiece(e: Engine, id: nat): (r: Engine)
    requires Refs(e) && id < |e.objects|
    ensures Refs(r) && |r.objects| == |e.objects|
    ensures forall j :: j in r.pieces <==> j in e.pieces && j != id
    ensures multiset(r.pieces) == multiset(e.pieces)[id := 0]
    ensures r.objects[id] == e.objects[id].(captured := true)
    ensures forall j :: 0 <= j < |e.objects| && j != id ==> r.objects[j] == e.objects[j]
    ensures e.objects[id].color == White ==>
      r.state.blackCaptures == e.state.blackCaptures + [id] && r.state.whiteCaptures == e.state.whiteCaptures
    ensures e.objects[id].color == Black ==>
      r.state.whiteCaptures == e.state.whiteCaptures + [id] && r.state.blackCaptures == e.state.blackCaptures
    ensures |r.state.whiteCaptures| + |r.state.blackCaptures| == |e.state.whiteCaptures| + |e.state.blackCaptures| + 1
    ensures r.history == e.history && r.selected == e.selected && r.marked == e.marked && r.startWorld == e.startWorld
    ensures r.state.(whiteCaptures := e.state.whiteCaptures, blackCaptures := e.state.blackCaptures) == e.state
  {
    var piece := e.objects[id];
    var pieces := RemoveAll(e.pieces, id);
    forall j ensures j in pieces <==> j in e.pieces && j != id {
      RemoveAllMembership(e.pieces, id, j);
    }
    assert forall i :: 0 <= i < |pieces| ==> pieces[i] in e.pieces;
    var state :=
      if piece.color == White then e.state.(blackCaptures := e.state.blackCaptures + [id])
      else e.state.(whiteCaptures := e.state.whiteCaptures + [id]);
    e.(pieces := pieces, objects := e.objects[id := piece.(captured := true)], state := state)
  }

  /** `movePiece`: submits the selected piece's move to the rules engine. A
      rejected move changes nothing. An accepted one puts the piece on the
      tile, clears the marks and the selection, sets `moveMade`, and keeps
      the recorded start position for undo. */
  function MovePiece(rules: Rules, e: Engine, tile: Position): (r: Engine)
    requires Refs(e) && e.selected.Some?
    ensures Refs(r) && |r.objects| == |e.objects| && r.pieces == e.pieces
    ensures var sel := e.selected.value;
      var from := Notation(e.objects[sel].square);
      if !rules.accepts(e.history, from, Notation(tile)) then r == e
      else
        && r.history == Move(rules, e.history, from, Notation(tile)).value
        && r.objects[sel] == e.objects[sel].(square := tile, world := Some(TileCentre(tile)))
        && (forall j :: 0 <= j < |e.objects| && j != sel ==> r.objects[j] == e.objects[j])
        && r.marked == {} && r.selected.None? && r.startWorld == e.startWorld
        && r.state == e.state.(moveMade := true)
  {
    var sel := e.selected.value;
    var piece := e.objects[sel];
    match Move(rules, e.history, Notation(piece.square), Notation(tile))
    case None => e
    case Some(history) =>
      e.(history := history,
         objects := e.objects[sel := piece.(square := tile, world := Some(TileCentre(tile)))],
         marked := {}, selected := None, state := e.state.(moveMade := true))
  }

  /** `handlePieceMove`: capture the occupant, if one is given, before the
      move is submitted. */
  function HandlePieceMove(rules: Rules, e: Engine, tile: Position, occupant: Option<nat>): (r: Engine)
    requires Refs(e) && e.selected.Some?
    requires occupant.Some? ==> occupant.value < |e.objects|
    ensures Refs(r) && |r.objects| == |e.objects|
    ensures occupant.None? ==> r == MovePiece(rules, e, tile)
    ensures occupant.Some? ==> occupant.value !in r.pieces && r.objects[occupant.value].captured
    ensures |r.state.whiteCaptures| + |r.state.blackCaptures|
      == |e.state.whiteCaptures| + |e.state.blackCaptures| + (if occupant.Some? then 1 else 0)
  {
    var e1 := if occupant.Some? then CapturePiece(e, occupant.value) else e;
    MovePiece(rules, e1, tile)
  }

  /** `handlePieceClick`. */
  function HandlePieceClick(rules: Rules, e: Engine, id: nat): (r: Engine)
    requires Refs(e) && id < |e.objects|
    ensures Refs(r) && |r.objects| == |e.objects|
  {
    if e.selected.Some? then
      var sel := e.selected.value;
      if id == sel then DeselectPiece(e)
      else if e.objects[id].color == e.objects[sel].color then SelectPiece(rules, DeselectPiece(e), id)
      else HandlePieceMove(rules, e, e.objects[id].square, Some(id))
    else
      SelectPiece(rules, e, id)
  }

  /** `handleTileClick`: only a click on a marked tile while a piece is
      selected does anything. */
  function HandleTileClick(rules: Rules, e: Engine, tile: Position): (r: Engine)
    requires Refs(e)
    ensures Refs(r) && |r.objects| == |e.objects|
    ensures e.selected.None? || Notation(tile) !in e.marked ==> r == e
  {
    if e.selected.None? then e
    else if Notation(tile) !in e.marked then e
    else HandlePieceMove(rules, e, tile, None)
  }

  // ---------------------------------------------------------------------------
  // Undo and turn end.

  predicate IsMover(e: Engine, id: nat, to: string, color: Color)
    requires id < |e.objects|
  {
    Notation(e.objects[id].square) == to && e.objects[id].color == color
  }

  /** The index of the first entry of `ids`, from `from` on, that is a piece
      of the given colour standing on the named square; `|ids|` when there
      is none. */
  function FirstMover(e: Engine, ids: seq<nat>, from: nat, to: string, color: Color): (k: nat)
    requires forall i :: 0 <= i < |ids| ==> ids[i] < |e.objects|
    requires from <= |ids|
    ensures from <= k <= |ids|
    ensures forall j :: from <= j < k ==> !IsMover(e, ids[j], to, color)
    ensures k < |ids| ==> IsMover(e, ids[k], to, color)
    decreases |ids| - from
  {
    if from == |ids| then from
    else if IsMover(e, ids[from], to, color) then from
    else FirstMover(e, ids, from + 1, to, color)
  }

  /** `pieces.find(...)`: the first piece of the given colour standing on
      the named square. */
  function FindMover(e: Engine, ids: seq<nat>, to: string, color: Color): (r: Option<nat>)
    requires forall i :: 0 <= i < |ids| ==> ids[i] < |e.objects|
    ensures r.None? ==> forall i :: 0 <= i < |ids| ==> !IsMover(e, ids[i], to, color)
    ensures r.Some? ==> exists k :: (0 <= k < |ids| && ids[k] == r.value && IsMover(e, ids[k], to, color)
      && forall j :: 0 <= j < k ==> !IsMover(e, ids[j], to, color))
  {
    var k := FirstMover(e, ids, 0, to, color);
    if k < |ids| then Some(ids[k]) else None
  }

  datatype UndoStatus =
    | NotPending     // no move made this turn: `undoMove` returns at once
    | NothingToUndo  // the rules engine has no move to undo: returns false
    | Undone         // the move is taken back
    | Fault          // the program dereferences `undefined` and throws

  /** The outcome of `undoMove` and the engine state it leaves behind (for
      a fault, the state at the point the exception is thrown). */
  datatype UndoResult = UndoResult(status: UndoStatus, engine: Engine)

  /** The capture stack of a side: what that side has taken. */
  function CaptureStack(st: ChessConfig.GameState, c: Color): seq<nat> {
    if c == White then st.whiteCaptures else st.blackCaptures
  }

  function Top(stack: seq<nat>): nat
    requires |stack| > 0
  {
    stack[|stack| - 1]
  }

  function Pop(stack: seq<nat>): seq<nat>
    requires |stack| > 0
  {
    stack[..|stack| - 1]
  }

  /** `undoMove`: a no-op unless a move was made this turn; otherwise the
      rules engine's last move is taken back and the pieces follow it. */
  function UndoMove(e: Engine): (r: UndoResult)
    requires Refs(e)
    ensures Refs(r.engine) && |r.engine.objects| == |e.objects| && r.engine.pieces == e.pieces
    ensures r.engine.selected == e.selected && r.engine.marked == e.marked
    ensures forall j :: 0 <= j < |e.objects| ==> r.engine.objects[j].selected == e.objects[j].selected
    ensures r.status == NotPending <==> !e.state.moveMade
    ensures r.status == NothingToUndo <==> e.state.moveMade && e.history == []
    ensures r.status in {NotPending, NothingToUndo} ==> r.engine == e
    ensures r.status in {Undone, Fault} ==> r.engine.history == e.history[..|e.history| - 1]
    ensures r.status == Undone ==> !r.engine.state.moveMade && r.engine.startWorld.None?
    ensures r.status == Undone ==>
      var c := e.history[|e.history| - 1].color;
      if e.history[|e.history| - 1].captured then
        && |CaptureStack(e.state, c)| > 0
        && CaptureStack(r.engine.state, c) == Pop(CaptureStack(e.state, c))
        && CaptureStack(r.engine.state, c.Opponent()) == CaptureStack(e.state, c.Opponent())
        && !r.engine.objects[Top(CaptureStack(e.state, c))].captured
      else
        r.engine.state.whiteCaptures == e.state.whiteCaptures && r.engine.state.blackCaptures == e.state.blackCaptures
  {
    if !e.state.moveMade then UndoResult(NotPending, e)
    else match Undo(e.history)
      case None => UndoResult(NothingToUndo, e)
      case Some((rest, last)) => UndoRecord(e, rest, last)
  }

  /** The part of `undoMove` after the rules engine has given back `last`:
      find the piece that made it, move it back to its square and recorded
      start position, and revive what it captured. */
  function UndoRecord(e: Engine, rest: seq<MoveRecord>, last: MoveRecord): (r: UndoResult)
    requires Refs(e)
    ensures Refs(r.engine) && |r.engine.objects| == |e.objects| && r.engine.pieces == e.pieces
    ensures r.engine.selected == e.selected && r.engine.marked == e.marked && r.engine.history == rest
    ensures forall j :: 0 <= j < |e.objects| ==> r.engine.objects[j].selected == e.objects[j].selected
    ensures r.status in {Undone, Fault}
    ensures r.status == Undone ==> !r.engine.state.moveMade && r.engine.startWorld.None?
    ensures r.status == Undone ==>
      if last.captured then
        && |CaptureStack(e.state, last.color)| > 0
        && CaptureStack(r.engine.state, last.color) == Pop(CaptureStack(e.state, last.color))
        && CaptureStack(r.engine.state, last.color.Opponent()) == CaptureStack(e.state, last.color.Opponent())
        && !r.engine.objects[Top(CaptureStack(e.state, last.color))].captured
      else
        r.engine.state.whiteCaptures == e.state.whiteCaptures && r.engine.state.blackCaptures == e.state.blackCaptures
  {
    var e1 := e.(history := rest);
    match FindMover(e, e.pieces, last.to, last.color)
    case None => UndoResult(Fault, e1)
    case Some(pid) =>
      match ChessConfig.ParseSquare(last.from)
      case None => UndoResult(Fault, e1)
      case Some(fromPos) =>
        var e2 := e1.(objects := e.objects[pid := e.objects[pid].(world := e.startWorld, square := fromPos)],
                      state := e.state.(moveMade := false), startWorld := None);
        assert Refs(e2) && CaptureStack(e2.state, White) == CaptureStack(e.state, White)
          && CaptureStack(e2.state, Black) == CaptureStack(e.state, Black);
        if !last.captured then UndoResult(Undone, e2)
        else ReviveCaptured(e2, last.color, last.to)
  }

  /** The capture branch of `undoMove`: pop the mover's capture stack and
      put the popped piece back, uncaptured, on the destination square. */
  function ReviveCaptured(e: Engine, c: Color, to: string): (r: UndoResult)
    requires Refs(e)
    ensures Refs(r.engine) && |r.engine.objects| == |e.objects| && r.engine.pieces == e.pieces
    ensures r.engine.selected == e.selected && r.engine.marked == e.marked && r.engine.history == e.history
    ensures r.engine.startWorld == e.startWorld && r.engine.state.moveMade == e.state.moveMade
    ensures forall j :: 0 <= j < |e.objects| ==> r.engine.objects[j].selected == e.objects[j].selected
    ensures r.status in {Undone, Fault}
    ensures r.status == Undone ==>
      && |CaptureStack(e.state, c)| > 0
      && CaptureStack(r.engine.state, c) == Pop(CaptureStack(e.state, c))
      && CaptureStack(r.engine.state, c.Opponent()) == CaptureStack(e.state, c.Opponent())
      && !r.engine.objects[Top(CaptureStack(e.state, c))].captured
  {
    var stack := CaptureStack(e.state, c);
    if |stack| == 0 then UndoResult(Fault, e)
    else
      var cid := Top(stack);
      var e3 := e.(state :=
        if c == White then e.state.(whiteCaptures := Pop(stack))
        else e.state.(blackCaptures := Pop(stack)));
      match ChessConfig.ParseSquare(to)
      case None => UndoResult(Fault, e3)
      case Some(toPos) =>
        var revived := e3.objects[cid].(captured := false, square := toPos, world := Some(TileCentre(toPos)));
        UndoResult(Undone, e3.(objects := e3.objects[cid := revived]))
  }

  /** `endTurn`: clears `moveMade` and the start position and takes the
      turn from the rules engine. */
  function EndTurn(e: Engine): (r: Engine)
    ensures !r.state.moveMade && r.startWorld.None? && r.state.turn == Turn(e.history)
    ensures r.history == e.history && r.objects == e.objects && r.pieces == e.pieces
    ensures r.selected == e.selected && r.marked == e.marked
    ensures r.state.whiteCaptures == e.state.whiteCaptures && r.state.blackCaptures == e.state.blackCaptures
  {
    e.(state := e.state.(moveMade := false, turn := Turn(e.history)), startWorld := None)
  }

  // ---------------------------------------------------------------------------
  // Properties of the state machine.

  /** Every piece object's selected flag is set exactly for the selected piece. */
  predicate FlagsFollowSelection(e: Engine) {
    forall j :: 0 <= j < |e.objects| ==> (e.objects[j].selected <==> e.selected == Some(j))
  }

  /** No operation ever leaves marks behind without a selection. */
  lemma MarksFollowSelectionPreserved(rules: Rules, e: Engine, id: nat, tile: Position)
    requires Refs(e) && MarksFollowSelection(e) && id < |e.objects|
    ensures MarksFollowSelection(SelectPiece(rules, e, id))
    ensures MarksFollowSelection(DeselectPiece(e))
    ensures MarksFollowSelection(CapturePiece(e, id))
    ensures e.selected.Some? ==> MarksFollowSelection(MovePiece(rules, e, tile))
    ensures MarksFollowSelection(HandlePieceClick(rules, e, id))
    ensures MarksFollowSelection(HandleTileClick(rules, e, tile))
    ensures MarksFollowSelection(UndoMove(e).engine)
    ensures MarksFollowSelection(EndTurn(e))
  {
    if e.selected.Some? {
      var sel := e.selected.value;
      if id != sel && e.objects[id].color != e.objects[sel].color {
        var e1 := CapturePiece(e, id);
        assert e1.selected == e.selected;
      }
    }
  }

  /** With nothing selected, a successful selection marks exactly the
      destinations the rules engine lists for the piece. */
  lemma SelectMarksExactlyDestinations(rules: Rules, e: Engine, id: nat)
    requires Refs(e) && MarksFollowSelection(e) && e.selected.None? && id < |e.objects|
    ensures var r := SelectPiece(rules, e, id);
      && (r.selected == Some(id) <==>
            e.objects[id].color == Turn(e.history) && |LegalMoves(rules, e, e.objects[id].square)| > 0)
      && (r.selected == Some(id) ==>
            forall m :: m in r.marked <==> m in LegalMoves(rules, e, e.objects[id].square))
      && (r.selected.None? ==> r == e)
  {
  }

  /** What a click on a piece does, by case. Clicking the selected piece
      deselects it. Clicking another piece of the same colour drops the old
      selection and its marks and selects the new piece exactly when it may
      move, marking its destinations and nothing else. Clicking a piece of
      the other colour captures it and submits the move onto its square.
      With nothing selected, the click tries to select. */
  lemma PieceClickOutcomes(rules: Rules, e: Engine, id: nat)
    requires Refs(e) && MarksFollowSelection(e) && id < |e.objects|
    ensures var r := HandlePieceClick(rules, e, id);
      var moves := LegalMoves(rules, e, e.objects[id].square);
      var canSelect := e.objects[id].color == Turn(e.history) && |moves| > 0;
      && (e.selected == Some(id) ==>
            && r.selected.None? && r.marked == {} && r.startWorld.None?
            && !r.objects[id].selected && SameGame(r, e))
      && (e.selected.Some? && e.selected.value != id
          && e.objects[id].color == e.objects[e.selected.value].color ==>
            && SameGame(r, e) && !r.objects[e.selected.value].selected
            && (r.selected == Some(id) <==> canSelect)
            && (canSelect ==> r.marked == Destinations(moves) && r.objects[id].selected)
            && (!canSelect ==> r.selected.None? && r.marked == {}))
      && (e.selected.Some? && e.objects[id].color != e.objects[e.selected.value].color ==>
            && id !in r.pieces && r.objects[id].captured
            && |r.state.whiteCaptures| + |r.state.blackCaptures|
               == |e.state.whiteCaptures| + |e.state.blackCaptures| + 1)
      && (e.selected.None? ==>
            && (r.selected == Some(id) <==> canSelect)
            && (canSelect ==> r.marked == Destinations(moves) && r.startWorld == e.objects[id].world)
            && (!canSelect ==> r == e))
  {
    if e.selected.Some? {
      var sel := e.selected.value;
      if id != sel && e.objects[id].color == e.objects[sel].color {
        var d := DeselectPiece(e);
        assert d.objects[id] == e.objects[id];
        assert LegalMoves(rules, d, d.objects[id].square) == LegalMoves(rules, e, e.objects[id].square);
      } else if id != sel {
        var e1 := CapturePiece(e, id);
        var r := MovePiece(rules, e1, e.objects[id].square);
        assert r.pieces == e1.pieces;
      }
    }
  }

  /** A click changes the rules engine's history by at most one accepted
      move, and `moveMade` becomes set only through such a move. */
  lemma ClicksSetMoveMadeOnlyByAcceptedMove(rules: Rules, e: Engine, id: nat, tile: Position)
    requires Refs(e) && id < |e.objects|
    ensures var r := HandlePieceClick(rules, e, id);
      && (r.history == e.history || (|r.history| == |e.history| + 1 && r.history[..|e.history|] == e.history))
      && (r.state.moveMade <==> e.state.moveMade || r.history != e.history)
    ensures var r := HandleTileClick(rules, e, tile);
      && (r.history == e.history || (|r.history| == |e.history| + 1 && r.history[..|e.history|] == e.history))
      && (r.state.moveMade <==> e.state.moveMade || r.history != e.history)
  {
    if e.selected.Some? {
      var sel := e.selected.value;
      if id != sel && e.objects[id].color != e.objects[sel].color {
        var e1 := CapturePiece(e, id);
        assert e1.history == e.history && e1.state.moveMade == e.state.moveMade;
      }
    }
  }

  /** A tile click acts only on a marked tile with a selection, and never
      captures: the pieces and both capture stacks are left as they were. */
  lemma TileClickNeverCaptures(rules: Rules, e: Engine, tile: Position)
    requires Refs(e)
    ensures var r := HandleTileClick(rules, e, tile);
      && r.pieces == e.pieces
      && r.state.whiteCaptures == e.state.whiteCaptures
      && r.state.blackCaptures == e.state.blackCaptures
      && (r != e ==> e.selected.Some? && Notation(tile) in e.marked)
  {
  }

  /** The only piece of the list standing on its square is the one `find`
      returns for that square and its colour. */
  lemma FindOnlyPieceOnSquare(e: Engine, ids: seq<nat>, id: nat)
    requires forall i :: 0 <= i < |ids| ==> ids[i] < |e.objects| && OnGrid(e.objects[ids[i]].square)
    requires id in ids && id < |e.objects|
    requires forall i :: 0 <= i < |ids| && ids[i] != id ==> e.objects[ids[i]].square != e.objects[id].square
    ensures FindMover(e, ids, Notation(e.objects[id].square), e.objects[id].color) == Some(id)
  {
    var sq := e.objects[id].square;
    var k :| 0 <= k < |ids| && ids[k] == id;
    forall i | 0 <= i < |ids| && IsMover(e, ids[i], Notation(sq), e.objects[id].color)
      ensures ids[i] == id
    {
      if ids[i] != id {
        ChessConfig.NotationInjective(e.objects[ids[i]].square, sq);
      }
    }
    FindMoverUnique(e, ids, Notation(sq), e.objects[id].color, id);
  }

  /** A unique match is the one `find` returns. */
  lemma FindMoverUnique(e: Engine, ids: seq<nat>, to: string, color: Color, id: nat)
    requires forall i :: 0 <= i < |ids| ==> ids[i] < |e.objects|
    requires id in ids && id < |e.objects| && IsMover(e, id, to, color)
    requires forall i :: 0 <= i < |ids| && IsMover(e, ids[i], to, color) ==> ids[i] == id
    ensures FindMover(e, ids, to, color) == Some(id)
  {
    var k :| 0 <= k < |ids| && ids[k] == id;
    assert IsMover(e, ids[k], to, color);
  }

  /** Once `s` has moved onto a tile no piece in play stood on, `s` is the
      only piece in play there, so `find` returns it. */
  lemma MoverAloneOnEmptyTarget(e: Engine, m: Engine, s: nat, tile: Position)
    requires Refs(e) && Placed(e) && s in e.pieces && OnGrid(tile)
    requires forall i :: 0 <= i < |e.pieces| ==> e.objects[e.pieces[i]].square != tile
    requires Refs(m) && |m.objects| == |e.objects| && m.pieces == e.pieces
    requires m.objects[s].square == tile && m.objects[s].color == e.objects[s].color
    requires forall j :: 0 <= j < |e.objects| && j != s ==> m.objects[j] == e.objects[j]
    ensures FindMover(m, m.pieces, Notation(tile), e.objects[s].color) == Some(s)
  {
    var to := Notation(tile);
    var color := e.objects[s].color;
    forall i | 0 <= i < |m.pieces| && m.pieces[i] != s
      ensures !IsMover(m, m.pieces[i], to, color)
    {
      var j := m.pieces[i];
      assert e.objects[j].square != tile;
      if Notation(e.objects[j].square) == to {
        ChessConfig.NotationInjective(e.objects[j].square, tile);
      }
    }
    FindMoverUnique(m, m.pieces, to, color, s);
  }

  // ---------------------------------------------------------------------------
  // Undo after a capture, and the discrepancies of the program as written.

  /** Pieces in play stand where their world position says, and are not
      flagged captured. */
  predicate InPlay(e: Engine)
    requires Refs(e)
  {
    forall i :: 0 <= i < |e.pieces| ==>
      e.objects[e.pieces[i]].world == Some(TileCentre(e.objects[e.pieces[i]].square))
      && !e.objects[e.pieces[i]].captured
  }

  /** The situation after the side to move has selected piece `s`, before
      it clicks the opposing piece `t`. */
  predicate ReadyToCapture(e: Engine, s: nat, t: nat)
  {
    && Refs(e) && Placed(e) && InPlay(e) && !e.state.moveMade
    && e.selected == Some(s) && s in e.pieces && t in e.pieces && s != t
    && e.startWorld == e.objects[s].world
    && e.objects[s].color == Turn(e.history) && e.objects[t].color != e.objects[s].color
  }

  /** The state a capturing click leaves behind when the move is accepted. */
  lemma CaptureClickEffect(rules: Rules, e: Engine, s: nat, t: nat)
    requires ReadyToCapture(e, s, t)
    requires rules.accepts(e.history, Notation(e.objects[s].square), Notation(e.objects[t].square))
    ensures var m := HandlePieceClick(rules, e, t);
      var tile := e.objects[t].square;
      && Refs(m) && m.state.moveMade && m.startWorld == e.startWorld
      && m.selected.None? && m.marked == {}
      && m.history == e.history + [MoveRecord(Notation(e.objects[s].square), Notation(tile), Turn(e.history),
                                              rules.capturesOn(e.history, Notation(tile)))]
      && |m.objects| == |e.objects|
      && m.objects[s] == e.objects[s].(square := tile, world := Some(TileCentre(tile)))
      && m.objects[t] == e.objects[t].(captured := true)
      && (forall j :: 0 <= j < |e.objects| && j != s && j != t ==> m.objects[j] == e.objects[j])
      && (forall j :: j in m.pieces <==> j in e.pieces && j != t)
      && multiset(m.pieces) == multiset(e.pieces)[t := 0]
      && (e.objects[t].color == White ==>
            m.state.blackCaptures == e.state.blackCaptures + [t] && m.state.whiteCaptures == e.state.whiteCaptures)
      && (e.objects[t].color == Black ==>
            m.state.whiteCaptures == e.state.whiteCaptures + [t] && m.state.blackCaptures == e.state.blackCaptures)
      && m.state.(whiteCaptures := e.state.whiteCaptures, blackCaptures := e.state.blackCaptures)
         == e.state.(moveMade := true)
  {
    var e1 := CapturePiece(e, t);
    assert e1.objects[s] == e.objects[s] && e1.selected == Some(s);
  }

  /** After the capturing click, the mover is the only piece of its colour
      in play on the destination, so undo finds it. */
  lemma MoverFoundAfterCapture(rules: Rules, e: Engine, s: nat, t: nat)
    requires ReadyToCapture(e, s, t)
    requires rules.accepts(e.history, Notation(e.objects[s].square), Notation(e.objects[t].square))
    ensures var m := HandlePieceClick(rules, e, t);
      Refs(m) && FindMover(m, m.pieces, Notation(e.objects[t].square), Turn(e.history)) == Some(s)
  {
    CaptureClickEffect(rules, e, s, t);
    MoverAloneOnDestination(e, HandlePieceClick(rules, e, t), s, t);
  }

  /** Once `s` has moved onto the square of `t` and `t` has left play, `s`
      is the only piece in play on that square, so `find` returns it. */
  lemma MoverAloneOnDestination(e: Engine, m: Engine, s: nat, t: nat)
    requires Refs(e) && Placed(e) && s in e.pieces && t in e.pieces && s != t
    requires Refs(m) && |m.objects| == |e.objects|
    requires forall j :: j in m.pieces <==> j in e.pieces && j != t
    requires m.objects[s].square == e.objects[t].square && m.objects[s].color == e.objects[s].color
    requires forall j :: 0 <= j < |e.objects| && j != s && j != t ==> m.objects[j] == e.objects[j]
    ensures FindMover(m, m.pieces, Notation(e.objects[t].square), e.objects[s].color) == Some(s)
  {
    var tile := e.objects[t].square;
    var to := Notation(tile);
    var color := e.objects[s].color;
    var kt :| 0 <= kt < |e.pieces| && e.pieces[kt] == t;
    forall i | 0 <= i < |m.pieces| && m.pieces[i] != s
      ensures !IsMover(m, m.pieces[i], to, color)
    {
      var j := m.pieces[i];
      assert j in e.pieces && j != t;
      var k :| 0 <= k < |e.pieces| && e.pieces[k] == j;
      assert e.objects[j].square != tile;
      if Notation(e.objects[j].square) == to {
        ChessConfig.NotationInjective(e.objects[j].square, tile);
      }
    }
    FindMoverUnique(m, m.pieces, to, color, s);
  }

  /** `undoMove` on a capturing move whose mover, squares and captured
      piece are all found: the mover goes back, the top of the mover's
      capture stack is popped and revived on the destination. */
  lemma UndoOfCapture(m: Engine, pid: nat, cid: nat, fromPos: Position, toPos: Position)
    requires Refs(m) && m.state.moveMade && |m.history| > 0
    requires m.history[|m.history| - 1].captured
    requires FindMover(m, m.pieces, m.history[|m.history| - 1].to, m.history[|m.history| - 1].color) == Some(pid)
    requires ChessConfig.ParseSquare(m.history[|m.history| - 1].from) == Some(fromPos)
    requires ChessConfig.ParseSquare(m.history[|m.history| - 1].to) == Some(toPos)
    requires |CaptureStack(m.state, m.history[|m.history| - 1].color)| > 0
    requires Top(CaptureStack(m.state, m.history[|m.history| - 1].color)) == cid
    requires pid != cid
    ensures var u := UndoMove(m);
      var c := m.history[|m.history| - 1].color;
      && u.status == Undone && u.engine.history == m.history[..|m.history| - 1]
      && u.engine.objects[pid] == m.objects[pid].(world := m.startWorld, square := fromPos)
      && u.engine.objects[cid] == m.objects[cid].(captured := false, square := toPos, world := Some(TileCentre(toPos)))
      && (forall j :: 0 <= j < |m.objects| && j != pid && j != cid ==> u.engine.objects[j] == m.objects[j])
      && CaptureStack(u.engine.state, c) == Pop(CaptureStack(m.state, c))
      && CaptureStack(u.engine.state, c.Opponent()) == CaptureStack(m.state, c.Opponent())
      && u.engine.state.(whiteCaptures := m.state.whiteCaptures, blackCaptures := m.state.blackCaptures)
         == m.state.(moveMade := false)
  {
  }

  /** `undoMove` on a move without capture whose mover and origin are
      found: only the mover goes back, to its square and the recorded start
      position. */
  lemma UndoOfQuietMove(m: Engine, pid: nat, fromPos: Position)
    requires Refs(m) && m.state.moveMade && |m.history| > 0
    requires !m.history[|m.history| - 1].captured
    requires FindMover(m, m.pieces, m.history[|m.history| - 1].to, m.history[|m.history| - 1].color) == Some(pid)
    requires ChessConfig.ParseSquare(m.history[|m.history| - 1].from) == Some(fromPos)
    ensures var u := UndoMove(m);
      && u.status == Undone
      && u.engine == m.(history := m.history[..|m.history| - 1], startWorld := None,
                        objects := m.objects[pid := m.objects[pid].(world := m.startWorld, square := fromPos)],
                        state := m.state.(moveMade := false))
  {
  }

  /** What an accepted capturing move of `s` onto the square of `t` leaves
      behind, as undo needs it; `e` is the state the move started from. */
  predicate CaptureRecorded(e: Engine, m: Engine, s: nat, t: nat)
    requires s < |e.objects| && t < |e.objects|
  {
    var tile := e.objects[t].square;
    var c := e.objects[s].color;
    && Refs(m) && |m.objects| == |e.objects| && m.state.moveMade
    && m.history == e.history + [MoveRecord(Notation(e.objects[s].square), Notation(tile), c, true)]
    && m.selected.None? && m.marked == {} && m.startWorld == e.objects[s].world
    && m.objects[s] == e.objects[s].(square := tile, world := Some(TileCentre(tile)))
    && m.objects[t] == e.objects[t].(captured := true)
    && (forall j :: 0 <= j < |e.objects| && j != s && j != t ==> m.objects[j] == e.objects[j])
    && CaptureStack(m.state, c) == CaptureStack(e.state, c) + [t]
    && CaptureStack(m.state, c.Opponent()) == CaptureStack(e.state, c.Opponent())
    && m.state.(whiteCaptures := e.state.whiteCaptures, blackCaptures := e.state.blackCaptures)
       == e.state.(moveMade := true)
    && FindMover(m, m.pieces, Notation(tile), c) == Some(s)
  }

  /** `undoMove` after a recorded capture puts back every piece object,
      both capture stacks and the rest of the game state as they were
      before the move, with nothing selected or marked; `pieces` stays as
      the capture left it. */
  lemma UndoOfRecordedCapture(e: Engine, m: Engine, s: nat, t: nat)
    requires s < |e.objects| && t < |e.objects| && s != t
    requires OnGrid(e.objects[s].square) && OnGrid(e.objects[t].square)
    requires e.objects[t].world == Some(TileCentre(e.objects[t].square)) && !e.objects[t].captured
    requires CaptureRecorded(e, m, s, t)
    ensures var g := UndoMove(m);
      && g.status == Undone
      && g.engine == e.(pieces := m.pieces, selected := None, marked := {}, startWorld := None,
                        state := e.state.(moveMade := false))
  {
    var tile := e.objects[t].square;
    var c := e.objects[s].color;
    assert m.history[..|m.history| - 1] == e.history;
    ChessConfig.NotationRoundTrip(e.objects[s].square);
    ChessConfig.NotationRoundTrip(tile);
    UndoOfCapture(m, s, t, e.objects[s].square, tile);
    var g := UndoMove(m);
    ObjectsRestored(e.objects, g.engine.objects, s, t);
    StateRestored(e.state, m.state, g.engine.state, c, t);
  }

  /** A list of piece objects that agrees with another at `s`, at `t` and
      everywhere else is that list. */
  lemma ObjectsRestored(before: seq<BoardPiece>, after: seq<BoardPiece>, s: nat, t: nat)
    requires |after| == |before| && s < |before| && t < |before|
    requires after[s] == before[s] && after[t] == before[t]
    requires forall j :: 0 <= j < |before| && j != s && j != t ==> after[j] == before[j]
    ensures after == before
  {
  }

  /** Popping the pushed capture and clearing `moveMade` gives back the
      state before the move. */
  lemma StateRestored(before: ChessConfig.GameState, mid: ChessConfig.GameState, after: ChessConfig.GameState,
                      c: Color, t: nat)
    requires CaptureStack(mid, c) == CaptureStack(before, c) + [t]
    requires CaptureStack(mid, c.Opponent()) == CaptureStack(before, c.Opponent())
    requires mid.(whiteCaptures := before.whiteCaptures, blackCaptures := before.blackCaptures)
      == before.(moveMade := true)
    requires CaptureStack(after, c) == Pop(CaptureStack(mid, c))
    requires CaptureStack(after, c.Opponent()) == CaptureStack(mid, c.Opponent())
    requires after.(whiteCaptures := mid.whiteCaptures, blackCaptures := mid.blackCaptures)
      == mid.(moveMade := false)
    ensures after == before.(moveMade := false)
  {
    assert Pop(CaptureStack(before, c) + [t]) == CaptureStack(before, c);
    assert after.whiteCaptures == before.whiteCaptures && after.blackCaptures == before.blackCaptures by {
      if c == White {
      } else {
      }
    }
  }

  /** What an accepted move of `s` onto the empty `tile` leaves behind,
      as undo needs it; `e` is the state the move started from. */
  predicate MoveRecorded(e: Engine, m: Engine, s: nat, tile: Position)
    requires s < |e.objects|
  {
    && Refs(m) && |m.objects| == |e.objects| && m.state == e.state.(moveMade := true)
    && m.history == e.history + [MoveRecord(Notation(e.objects[s].square), Notation(tile), e.objects[s].color, false)]
    && m.selected.None? && m.marked == {} && m.startWorld == e.objects[s].world
    && m.objects[s] == e.objects[s].(square := tile, world := Some(TileCentre(tile)))
    && (forall j :: 0 <= j < |e.objects| && j != s ==> m.objects[j] == e.objects[j])
    && FindMover(m, m.pieces, Notation(tile), e.objects[s].color) == Some(s)
  }

  /** `undoMove` after a recorded move without capture puts every piece
      object and the game state back as they were before the move, with
      nothing selected or marked. */
  lemma UndoOfRecordedMove(e: Engine, m: Engine, s: nat, tile: Position)
    requires s < |e.objects| && OnGrid(e.objects[s].square)
    requires MoveRecorded(e, m, s, tile)
    ensures var g := UndoMove(m);
      && g.status == Undone
      && g.engine == e.(pieces := m.pieces, selected := None, marked := {}, startWorld := None,
                        state := e.state.(moveMade := false))
  {
    assert m.history[..|m.history| - 1] == e.history;
    ChessConfig.NotationRoundTrip(e.objects[s].square);
    UndoOfQuietMove(m, s, e.objects[s].square);
    var g := UndoMove(m);
    ObjectsRestored(e.objects, g.engine.objects, s, s);
  }

  /** Capturing by clicking the opposing piece, then undoing, restores the
      rules engine's history, both capture stacks and every piece object:
      the mover returns to its square and start position, the captured
      piece reappears on the destination. The captured piece is NOT back
      in `pieces`, so later undos and finds cannot see it. */
  lemma CaptureUndoRoundTrip(rules: Rules, e: Engine, s: nat, t: nat)
    requires ReadyToCapture(e, s, t)
    requires rules.accepts(e.history, Notation(e.objects[s].square), Notation(e.objects[t].square))
    requires rules.capturesOn(e.history, Notation(e.objects[t].square))
    ensures var u := UndoMove(HandlePieceClick(rules, e, t));
      && u.status == Undone
      && u.engine.history == e.history
      && u.engine.state.whiteCaptures == e.state.whiteCaptures
      && u.engine.state.blackCaptures == e.state.blackCaptures
      && u.engine.objects == e.objects
      && !u.engine.state.moveMade
      && t !in u.engine.pieces && multiset(u.engine.pieces) == multiset(e.pieces)[t := 0]
  {
    var m := HandlePieceClick(rules, e, t);
    CaptureClickEffect(rules, e, s, t);
    MoverFoundAfterCapture(rules, e, s, t);
    var c := Turn(e.history);
    assert CaptureStack(m.state, c) == CaptureStack(e.state, c) + [t];
    assert CaptureStack(m.state, c.Opponent()) == CaptureStack(e.state, c.Opponent());
    assert CaptureRecorded(e, m, s, t);
    var ks :| 0 <= ks < |e.pieces| && e.pieces[ks] == s;
    var kt :| 0 <= kt < |e.pieces| && e.pieces[kt] == t;
    UndoOfRecordedCapture(e, m, s, t);
  }

  /** Clicking an opposing piece that the selected piece may not take still
      takes it: the rules engine rejects the move, yet the piece has left
      play and sits on a capture stack, and the selection stays. */
  lemma RejectedCaptureClickStillCaptures(rules: Rules, e: Engine, s: nat, t: nat)
    requires Refs(e) && e.selected == Some(s) && t < |e.objects| && t in e.pieces && s != t
    requires e.objects[t].color != e.objects[s].color
    requires !rules.accepts(e.history, Notation(e.objects[s].square), Notation(e.objects[t].square))
    ensures var r := HandlePieceClick(rules, e, t);
      && r.history == e.history && r.state.moveMade == e.state.moveMade && r.selected == Some(s)
      && t !in r.pieces && r.objects[t].captured
      && |r.state.whiteCaptures| + |r.state.blackCaptures|
         == |e.state.whiteCaptures| + |e.state.blackCaptures| + 1
  {
    var e1 := CapturePiece(e, t);
    assert e1.objects[s] == e.objects[s] && e1.history == e.history;
  }

  /** After an accepted move the moved piece keeps its selected flag
      although the engine no longer holds a selection. */
  lemma MovedPieceStaysFlagged(rules: Rules, e: Engine, tile: Position)
    requires Refs(e) && e.selected.Some? && FlagsFollowSelection(e)
    requires rules.accepts(e.history, Notation(e.objects[e.selected.value].square), Notation(tile))
    ensures var r := MovePiece(rules, e, tile);
      r.selected.None? && r.objects[e.selected.value].selected && !FlagsFollowSelection(r)
  {
    var r := MovePiece(rules, e, tile);
    var s := e.selected.value;
    assert r.objects[s].selected;
  }

  /** A tile click onto a marked square that an opposing piece occupies
      moves onto it without capturing: the rules engine records a capture,
      the capture stacks do not grow, the occupant stays in play, and two
      pieces now stand on the same square. */
  lemma TileClickOntoOccupiedSquareSkipsCapture(rules: Rules, e: Engine, t: nat)
    requires Refs(e) && e.selected.Some? && t in e.pieces && t != e.selected.value
    requires Notation(e.objects[t].square) in e.marked
    requires rules.accepts(e.history, Notation(e.objects[e.selected.value].square), Notation(e.objects[t].square))
    requires rules.capturesOn(e.history, Notation(e.objects[t].square))
    ensures var r := HandleTileClick(rules, e, e.objects[t].square);
      && |r.history| == |e.history| + 1 && r.history[|e.history|].captured
      && r.state.whiteCaptures == e.state.whiteCaptures && r.state.blackCaptures == e.state.blackCaptures
      && t in r.pieces && !r.objects[t].captured == !e.objects[t].captured
      && r.objects[e.selected.value].square == r.objects[t].square
  {
    var tile := e.objects[t].square;
    var r := MovePiece(rules, e, tile);
    assert HandleTileClick(rules, e, tile) == r;
    assert r.objects[t] == e.objects[t];
  }
}
