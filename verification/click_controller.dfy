/** The click controller of src/components/controllers/ChessController.js:
    select a piece with one click, move it with the next (onto a tile or
    onto the tile of another piece), capture an occupant of the other
    colour, and keep a per-side list of captured piece letters together
    with its ", "-joined display string.

    The controller consults no rules: `isValidMove` accepts every move. The
    ray cast that turns a mouse click into the clicked object is left out;
    a click arrives here as a `Target`. */
module ClickController {
  import opened ChessTypes

  /** A chess piece of the scene: `currChessPos`, its world position, the
      flag `setSelected` sets, and whether it has been captured. */
  datatype ScenePiece = ScenePiece(kind: PieceType, color: Color, square: Position, world: World,
                                   selected: bool, captured: bool)

  datatype Controller = Controller(
    pieces: seq<ScenePiece>,   // the chess pieces of the scene, in traversal order
    selected: Option<nat>,     // `selectedPiece`
    whiteCaptures: seq<string>,
    blackCaptures: seq<string>,
    whiteCapturesString: string,
    blackCapturesString: string)

  /** What the click hit, after walking up to a piece or tile. */
  datatype Target = PieceHit(id: nat) | TileHit(tile: Position) | Miss

  predicate Valid(c: Controller) {
    c.selected.Some? ==> c.selected.value < |c.pieces|
  }

  /** The constructor: nothing selected, empty capture lists and strings. */
  function NewController(pieces: seq<ScenePiece>): (c: Controller)
    ensures Valid(c) && c.selected.None?
    ensures c.whiteCaptures == [] && c.blackCaptures == []
    ensures c.whiteCapturesString == "" && c.blackCapturesString == ""
  {
    Controller(pieces, None, [], [], "", "")
  }

  /** `isValidMove`: every move is accepted. */
  function IsValidMove(piece: ScenePiece, to: Position): bool {
    true
  }

  // ---------------------------------------------------------------------------
  // Display strings.

  /** `Array.prototype.join`. */
  function Join(xs: seq<string>, sep: string): string {
    if |xs| == 0 then ""
    else if |xs| == 1 then xs[0]
    else Join(xs[..|xs| - 1], sep) + sep + xs[|xs| - 1]
  }

  /** Joining a longer list extends the string of the shorter one: the
      display string can be kept up to date by appending. */
  lemma {:induction false} JoinAppend(xs: seq<string>, x: string, sep: string)
    ensures Join(xs + [x], sep) == if |xs| == 0 then x else Join(xs, sep) + sep + x
  {
    assert (xs + [x])[..|xs + [x]| - 1] == xs;
  }

  /** With one-letter entries the joined string has length 3n - 2 and the
      k-th letter at position 3k. */
  lemma {:induction false} JoinOfLetters(xs: seq<string>)
    requires |xs| > 0 && forall i :: 0 <= i < |xs| ==> |xs[i]| == 1
    ensures |Join(xs, ", ")| == 3 * |xs| - 2
    ensures forall k :: 0 <= k < |xs| ==> Join(xs, ", ")[3 * k] == xs[k][0]
  {
    if |xs| > 1 {
      var init := xs[..|xs| - 1];
      JoinOfLetters(init);
      var j := Join(xs, ", ");
      assert j == Join(init, ", ") + ", " + xs[|xs| - 1];
      forall k | 0 <= k < |xs|
        ensures j[3 * k] == xs[k][0]
      {
        if k < |xs| - 1 {
          assert j[3 * k] == Join(init, ", ")[3 * k];
        }
      }
    }
  }

  // ---------------------------------------------------------------------------
  // Capture bookkeeping.

  /** `piece.type.toUpperCase()`: the upper-case letter of the type code. */
  function CaptureLetter(kind: PieceType): (s: string)
    ensures |s| == 1 && 'A' <= s[0] <= 'Z'
    ensures s == match kind
      case Pawn => "P" case Rook => "R" case Knight => "N"
      case Bishop => "B" case Queen => "Q" case King => "K"
  {
    [(kind.Code() as int - 32) as char]
  }

  /** The display strings equal the joined capture lists. */
  predicate StringsInSync(c: Controller) {
    c.whiteCapturesString == Join(c.whiteCaptures, ", ")
    && c.blackCapturesString == Join(c.blackCaptures, ", ")
  }

  /** `addCapturedPiece`: the letter of a captured white piece goes onto
      `blackCaptures`, of a black piece onto `whiteCaptures`; both strings
      are rebuilt. */
  function AddCapturedPiece(c: Controller, piece: ScenePiece): (r: Controller)
    ensures r.pieces == c.pieces && r.selected == c.selected
    ensures piece.color == White ==>
      r.blackCaptures == c.blackCaptures + [CaptureLetter(piece.kind)] && r.whiteCaptures == c.whiteCaptures
    ensures piece.color == Black ==>
      r.whiteCaptures == c.whiteCaptures + [CaptureLetter(piece.kind)] && r.blackCaptures == c.blackCaptures
    ensures StringsInSync(r)
  {
    var letter := CaptureLetter(piece.kind);
    var white := if piece.color == White then c.whiteCaptures else c.whiteCaptures + [letter];
    var black := if piece.color == White then c.blackCaptures + [letter] else c.blackCaptures;
    c.(whiteCaptures := white, blackCaptures := black,
       whiteCapturesString := Join(white, ", "), blackCapturesString := Join(black, ", "))
  }

  /** How many pieces of a colour have been captured. */
  function CapturedCount(ps: seq<ScenePiece>, color: Color): nat {
    if |ps| == 0 then 0
    else CapturedCount(ps[..|ps| - 1], color) + (if ps[|ps| - 1].captured && ps[|ps| - 1].color == color then 1 else 0)
  }

  /** Changing a piece without touching its colour or captured flag leaves
      the counts alone. */
  lemma {:induction false} CapturedCountFrame(ps: seq<ScenePiece>, i: nat, p: ScenePiece, color: Color)
    requires i < |ps| && p.color == ps[i].color && p.captured == ps[i].captured
    ensures CapturedCount(ps[i := p], color) == CapturedCount(ps, color)
  {
    if i < |ps| - 1 {
      assert ps[i := p][..|ps| - 1] == ps[..|ps| - 1][i := p];
      CapturedCountFrame(ps[..|ps| - 1], i, p, color);
    } else {
      assert ps[i := p][..|ps| - 1] == ps[..|ps| - 1];
    }
  }

  /** Capturing a piece in play adds one to its colour's count only. */
  lemma {:induction false} CapturedCountCapture(ps: seq<ScenePiece>, i: nat, color: Color)
    requires i < |ps| && !ps[i].captured
    ensures CapturedCount(ps[i := ps[i].(captured := true)], color)
      == CapturedCount(ps, color) + (if ps[i].color == color then 1 else 0)
  {
    var q := ps[i := ps[i].(captured := true)];
    if i < |ps| - 1 {
      assert q[..|ps| - 1] == ps[..|ps| - 1][i := ps[i].(captured := true)];
      CapturedCountCapture(ps[..|ps| - 1], i, color);
    } else {
      assert q[..|ps| - 1] == ps[..|ps| - 1];
    }
  }

  /** Each side's list holds one letter per captured piece of the other
      side. */
  predicate LedgerMatchesBoard(c: Controller) {
    |c.whiteCaptures| == CapturedCount(c.pieces, Black)
    && |c.blackCaptures| == CapturedCount(c.pieces, White)
  }

  // ---------------------------------------------------------------------------
  // Moves and clicks.

  /** `getPieceAtTile`: the scene walk keeps the LAST chess piece that reports
      the tile. The walk tests nothing but the tile, and `capture()` only sets
      the piece's flag, so a captured piece still answers for the tile it was
      taken on. */
  function PieceAtTile(ps: seq<ScenePiece>, tile: Position): (r: Option<nat>)
    ensures r.Some? ==>
      && r.value < |ps| && ps[r.value].square == tile
      && forall j :: r.value < j < |ps| ==> ps[j].square != tile
    ensures r.None? ==> forall j :: 0 <= j < |ps| ==> ps[j].square != tile
  {
    if |ps| == 0 then None
    else if ps[|ps| - 1].square == tile then Some(|ps| - 1)
    else PieceAtTile(ps[..|ps| - 1], tile)
  }

  /** The occupant the capture test evidently means: the last piece on the
      tile that is still in play. */
  function PieceInPlayAtTile(ps: seq<ScenePiece>, tile: Position): (r: Option<nat>)
    ensures r.Some? ==>
      && r.value < |ps| && ps[r.value].square == tile && !ps[r.value].captured
      && forall j :: r.value < j < |ps| ==> ps[j].square != tile || ps[j].captured
    ensures r.None? ==> forall j :: 0 <= j < |ps| ==> ps[j].square != tile || ps[j].captured
  {
    if |ps| == 0 then None
    else if ps[|ps| - 1].square == tile && !ps[|ps| - 1].captured then Some(|ps| - 1)
    else PieceInPlayAtTile(ps[..|ps| - 1], tile)
  }

  /** Which occupant `movePiece` looks up: `EveryPiece` is the program's
      `getPieceAtTile`, `PiecesInPlay` the corrected lookup. */
  datatype Lookup = EveryPiece | PiecesInPlay

  function Occupant(ps: seq<ScenePiece>, tile: Position, lookup: Lookup): (r: Option<nat>)
    ensures r.Some? ==> r.value < |ps| && ps[r.value].square == tile
    ensures r.Some? && lookup == PiecesInPlay ==> !ps[r.value].captured
  {
    match lookup
    case EveryPiece => PieceAtTile(ps, tile)
    case PiecesInPlay => PieceInPlayAtTile(ps, tile)
  }

  /** `movePiece`: capture an occupant of the other colour, then put the
      selected piece on the tile. */
  function MovePiece(c: Controller, tile: Position, lookup: Lookup): (r: Controller)
    requires Valid(c) && c.selected.Some?
    ensures Valid(r) && r.selected == c.selected && |r.pieces| == |c.pieces|
    ensures var s := c.selected.value;
      && r.pieces[s] == c.pieces[s].(square := tile, world := TileCentre(tile))
      && match Occupant(c.pieces, tile, lookup)
         case Some(o) =>
           if c.pieces[o].color != c.pieces[s].color then
             && r.pieces[o].captured
             && (forall j :: 0 <= j < |c.pieces| && j != o && j != s ==> r.pieces[j] == c.pieces[j])
             && |r.whiteCaptures| + |r.blackCaptures| == |c.whiteCaptures| + |c.blackCaptures| + 1
           else
             && (forall j :: 0 <= j < |c.pieces| && j != s ==> r.pieces[j] == c.pieces[j])
             && r.whiteCaptures == c.whiteCaptures && r.blackCaptures == c.blackCaptures
         case None =>
           && (forall j :: 0 <= j < |c.pieces| && j != s ==> r.pieces[j] == c.pieces[j])
           && r.whiteCaptures == c.whiteCaptures && r.blackCaptures == c.blackCaptures
    ensures StringsInSync(c) ==> StringsInSync(r)
  {
    var s := c.selected.value;
    if !IsValidMove(c.pieces[s], tile) then c
    else
      var c1 :=
        match Occupant(c.pieces, tile, lookup)
        case Some(o) =>
          if c.pieces[o].color != c.pieces[s].color then
            AddCapturedPiece(c.(pieces := c.pieces[o := c.pieces[o].(captured := true)]), c.pieces[o])
          else c
        case None => c;
      c1.(pieces := c1.pieces[s := c1.pieces[s].(square := tile, world := TileCentre(tile))])
  }

  /** Clear the selected piece's flag and the selection. */
  function Deselect(c: Controller): (r: Controller)
    requires Valid(c) && c.selected.Some?
    ensures Valid(r) && r.selected.None? && |r.pieces| == |c.pieces|
    ensures r.pieces == c.pieces[c.selected.value := c.pieces[c.selected.value].(selected := false)]
    ensures r.whiteCaptures == c.whiteCaptures && r.blackCaptures == c.blackCaptures
    ensures StringsInSync(c) ==> StringsInSync(r)
  {
    var s := c.selected.value;
    c.(pieces := c.pieces[s := c.pieces[s].(selected := false)], selected := None)
  }

  /** `selectOrMovePiece`, with `movePiece` looking up the occupant by `lookup`. */
  function SelectOrMovePiece(c: Controller, target: Target, lookup: Lookup): (r: Controller)
    requires Valid(c)
    requires target.PieceHit? ==> target.id < |c.pieces|
    ensures Valid(r) && |r.pieces| == |c.pieces|
  {
    match target
    case PieceHit(id) =>
      if c.selected.Some? then
        var s := c.selected.value;
        var c1 := c.(pieces := c.pieces[s := c.pieces[s].(selected := false)]);
        if s == id then c1.(selected := None)
        else Deselect(MovePiece(c1, c.pieces[id].square, lookup))
      else
        c.(selected := Some(id), pieces := c.pieces[id := c.pieces[id].(selected := true)])
    case TileHit(tile) =>
      if c.selected.Some? then Deselect(MovePiece(c, tile, lookup)) else c
    case Miss => c
  }

  // ---------------------------------------------------------------------------
  // Properties.

  /** The selected flag is set exactly on the selected piece. */
  predicate FlagsFollowSelection(c: Controller) {
    forall j :: 0 <= j < |c.pieces| ==> (c.pieces[j].selected <==> c.selected == Some(j))
  }

  /** Each side's list holds at least one letter per captured piece of the
      other side. */
  predicate LedgerCoversBoard(c: Controller) {
    |c.whiteCaptures| >= CapturedCount(c.pieces, Black)
    && |c.blackCaptures| >= CapturedCount(c.pieces, White)
  }

  /** What a click does, by case. With nothing selected, a piece click
      selects that piece and sets its flag and a tile click does nothing.
      Clicking the selected piece unselects it. Clicking another piece or a
      tile moves the selected piece there, whatever the colours, and leaves
      nothing selected. */
  lemma ClickOutcomes(c: Controller, target: Target, lookup: Lookup)
    requires Valid(c) && FlagsFollowSelection(c)
    requires target.PieceHit? ==> target.id < |c.pieces|
    ensures var r := SelectOrMovePiece(c, target, lookup);
      && (target.Miss? ==> r == c)
      && (c.selected.None? && target.TileHit? ==> r == c)
      && (c.selected.None? && target.PieceHit? ==>
            r.selected == Some(target.id) && r.pieces[target.id].selected)
      && (c.selected.Some? && target == PieceHit(c.selected.value) ==>
            r.selected.None? && !r.pieces[c.selected.value].selected)
      && (c.selected.Some? && target.PieceHit? && target.id != c.selected.value ==>
            r.selected.None? && r.pieces[c.selected.value].square == c.pieces[target.id].square)
      && (c.selected.Some? && target.TileHit? ==>
            r.selected.None? && r.pieces[c.selected.value].square == target.tile)
  {
  }

  /** Across every click the selected flags follow the selection, the
      display strings follow the capture lists, and each list keeps at least
      one letter per captured piece of the other side. */
  lemma ClickKeepsInvariants(c: Controller, target: Target, lookup: Lookup)
    requires Valid(c) && FlagsFollowSelection(c) && StringsInSync(c) && LedgerCoversBoard(c)
    requires target.PieceHit? ==> target.id < |c.pieces|
    ensures FlagsFollowSelection(SelectOrMovePiece(c, target, lookup))
    ensures StringsInSync(SelectOrMovePiece(c, target, lookup))
    ensures LedgerCoversBoard(SelectOrMovePiece(c, target, lookup))
  {
    if c.selected.Some? {
      var s := c.selected.value;
      var c1 := c.(pieces := c.pieces[s := c.pieces[s].(selected := false)]);
      FlagChangeKeepsCounts(c.pieces, s, false);
      match target
      case PieceHit(id) =>
        if s != id {
          MoveKeepsFlags(c1, c.pieces[id].square, lookup);
          MoveKeepsLedgerCovered(c1, c.pieces[id].square, lookup);
          FlagChangeKeepsCounts(MovePiece(c1, c.pieces[id].square, lookup).pieces, s, false);
        }
      case TileHit(tile) =>
        MoveKeepsFlags(c, tile, lookup);
        MoveKeepsLedgerCovered(c, tile, lookup);
        FlagChangeKeepsCounts(MovePiece(c, tile, lookup).pieces, s, false);
      case Miss =>
    } else if target.PieceHit? {
      FlagChangeKeepsCounts(c.pieces, target.id, true);
    }
  }

  /** With the corrected lookup every click keeps each list at exactly one
      letter per captured piece of the other side. */
  lemma CorrectedClickKeepsLedger(c: Controller, target: Target)
    requires Valid(c) && LedgerMatchesBoard(c)
    requires target.PieceHit? ==> target.id < |c.pieces|
    ensures LedgerMatchesBoard(SelectOrMovePiece(c, target, PiecesInPlay))
  {
    if c.selected.Some? {
      var s := c.selected.value;
      var c1 := c.(pieces := c.pieces[s := c.pieces[s].(selected := false)]);
      FlagChangeKeepsCounts(c.pieces, s, false);
      match target
      case PieceHit(id) =>
        if s != id {
          MoveKeepsLedgerMatched(c1, c.pieces[id].square);
          FlagChangeKeepsCounts(MovePiece(c1, c.pieces[id].square, PiecesInPlay).pieces, s, false);
        }
      case TileHit(tile) =>
        MoveKeepsLedgerMatched(c, tile);
        FlagChangeKeepsCounts(MovePiece(c, tile, PiecesInPlay).pieces, s, false);
      case Miss =>
    } else if target.PieceHit? {
      FlagChangeKeepsCounts(c.pieces, target.id, true);
    }
  }

  /** Setting or clearing a selected flag leaves the captured counts alone. */
  lemma FlagChangeKeepsCounts(ps: seq<ScenePiece>, i: nat, flag: bool)
    requires i < |ps|
    ensures CapturedCount(ps[i := ps[i].(selected := flag)], White) == CapturedCount(ps, White)
    ensures CapturedCount(ps[i := ps[i].(selected := flag)], Black) == CapturedCount(ps, Black)
  {
    CapturedCountFrame(ps, i, ps[i].(selected := flag), White);
    CapturedCountFrame(ps, i, ps[i].(selected := flag), Black);
  }

  /** A move never touches a selected flag. */
  lemma MoveKeepsFlags(c: Controller, tile: Position, lookup: Lookup)
    requires Valid(c) && c.selected.Some?
    ensures forall j :: 0 <= j < |c.pieces| ==>
      MovePiece(c, tile, lookup).pieces[j].selected == c.pieces[j].selected
  {
    var r := MovePiece(c, tile, lookup);
    var s := c.selected.value;
    match Occupant(c.pieces, tile, lookup)
    case Some(o) =>
      if c.pieces[o].color != c.pieces[s].color {
        assert r.pieces[o].selected == c.pieces[o].selected;
      }
    case None =>
  }

  /** A move marks the occupant captured exactly when it already was or its
      colour differs from the mover's, and adds a letter exactly in the
      second case. */
  lemma MoveCapturesOnlyOpponents(c: Controller, tile: Position, lookup: Lookup, o: nat)
    requires Valid(c) && c.selected.Some?
    requires Occupant(c.pieces, tile, lookup) == Some(o) && o != c.selected.value
    ensures MovePiece(c, tile, lookup).pieces[o].captured
      <==> c.pieces[o].captured || c.pieces[o].color != c.pieces[c.selected.value].color
    ensures |MovePiece(c, tile, lookup).whiteCaptures| + |MovePiece(c, tile, lookup).blackCaptures|
      == |c.whiteCaptures| + |c.blackCaptures| + (if c.pieces[o].color != c.pieces[c.selected.value].color then 1 else 0)
  {
  }

  /** What a move does to the ledger: a capture adds one letter to the
      capturing side's list, and the count of captured pieces of the
      occupant's colour grows only when the occupant was still in play. */
  lemma MoveCounts(c: Controller, tile: Position, lookup: Lookup)
    requires Valid(c) && c.selected.Some?
    ensures var r := MovePiece(c, tile, lookup);
      var o := Occupant(c.pieces, tile, lookup);
      var takes := o.Some? && c.pieces[o.value].color != c.pieces[c.selected.value].color;
      && |r.whiteCaptures| == |c.whiteCaptures| + (if takes && c.pieces[o.value].color == Black then 1 else 0)
      && |r.blackCaptures| == |c.blackCaptures| + (if takes && c.pieces[o.value].color == White then 1 else 0)
      && CapturedCount(r.pieces, Black) == CapturedCount(c.pieces, Black)
           + (if takes && !c.pieces[o.value].captured && c.pieces[o.value].color == Black then 1 else 0)
      && CapturedCount(r.pieces, White) == CapturedCount(c.pieces, White)
           + (if takes && !c.pieces[o.value].captured && c.pieces[o.value].color == White then 1 else 0)
  {
    var s := c.selected.value;
    var occupant := Occupant(c.pieces, tile, lookup);
    var c1 :=
      match occupant
      case Some(o) =>
        if c.pieces[o].color != c.pieces[s].color then
          AddCapturedPiece(c.(pieces := c.pieces[o := c.pieces[o].(captured := true)]), c.pieces[o])
        else c
      case None => c;
    if occupant.Some? && c.pieces[occupant.value].color != c.pieces[s].color {
      var o := occupant.value;
      if c.pieces[o].captured {
        assert c.pieces[o := c.pieces[o].(captured := true)] == c.pieces;
      } else {
        CapturedCountCapture(c.pieces, o, White);
        CapturedCountCapture(c.pieces, o, Black);
      }
    }
    assert MovePiece(c, tile, lookup).pieces == c1.pieces[s := c1.pieces[s].(square := tile, world := TileCentre(tile))];
    CapturedCountFrame(c1.pieces, s, c1.pieces[s].(square := tile, world := TileCentre(tile)), White);
    CapturedCountFrame(c1.pieces, s, c1.pieces[s].(square := tile, world := TileCentre(tile)), Black);
  }

  /** Whatever the lookup, a move keeps at least one letter per captured
      piece of the other side. */
  lemma MoveKeepsLedgerCovered(c: Controller, tile: Position, lookup: Lookup)
    requires Valid(c) && c.selected.Some? && LedgerCoversBoard(c)
    ensures LedgerCoversBoard(MovePiece(c, tile, lookup))
  {
    MoveCounts(c, tile, lookup);
  }

  /** With the corrected lookup every capture adds exactly one letter to the
      capturing side's list, so each list's length stays the number of
      captured pieces of the other colour. */
  lemma MoveKeepsLedgerMatched(c: Controller, tile: Position)
    requires Valid(c) && c.selected.Some? && LedgerMatchesBoard(c)
    ensures LedgerMatchesBoard(MovePiece(c, tile, PiecesInPlay))
  {
    MoveCounts(c, tile, PiecesInPlay);
  }

  // ---------------------------------------------------------------------------
  // A captured piece taken a second time.

  /** A white queen and a captured black pawn share a square, the pawn later
      in the scene walk; a white rook elsewhere is selected, and white's list
      holds the pawn's letter. */
  function RecaptureScene(): (c: Controller)
    ensures Valid(c) && FlagsFollowSelection(c) && StringsInSync(c) && LedgerMatchesBoard(c)
  {
    var shared := Position(3, 4);
    var corner := Position(0, 7);
    var ps := [ScenePiece(Queen, White, shared, TileCentre(shared), false, false),
               ScenePiece(Pawn, Black, shared, TileCentre(shared), false, true),
               ScenePiece(Rook, White, corner, TileCentre(corner), true, false)];
    assert ps[..2][..1] == ps[..1] && ps[..1][..0] == [];
    assert CapturedCount(ps[..1], Black) == 0 && CapturedCount(ps[..1], White) == 0;
    assert CapturedCount(ps[..2], Black) == 1 && CapturedCount(ps[..2], White) == 0;
    Controller(ps, Some(2), ["P"], [], "P", "")
  }

  /** As written, moving the rook onto the shared square finds the captured
      pawn, captures it again and puts a second "P" on white's list: the list
      no longer matches the one captured black piece. */
  lemma RecaptureAddsSecondLetter()
    ensures var r := SelectOrMovePiece(RecaptureScene(), TileHit(Position(3, 4)), EveryPiece);
      && r.whiteCaptures == ["P", "P"] && CapturedCount(r.pieces, Black) == 1
      && !LedgerMatchesBoard(r)
  {
    var c := RecaptureScene();
    assert PieceAtTile(c.pieces, Position(3, 4)) == Some(1);
    var r := SelectOrMovePiece(c, TileHit(Position(3, 4)), EveryPiece);
    assert r.pieces[..2][..1] == [c.pieces[0]];
    assert r.pieces[..2][..1][..0] == [];
  }

  /** With the corrected lookup the same click finds the queen, a piece of
      the mover's colour, and captures nothing. */
  lemma CorrectedLookupSkipsCapturedPiece()
    ensures var r := SelectOrMovePiece(RecaptureScene(), TileHit(Position(3, 4)), PiecesInPlay);
      r.whiteCaptures == ["P"] && r.blackCaptures == [] && LedgerMatchesBoard(r)
  {
    var c := RecaptureScene();
    assert PieceInPlayAtTile(c.pieces, Position(3, 4)) == Some(0);
    CorrectedClickKeepsLedger(c, TileHit(Position(3, 4)));
  }
}
