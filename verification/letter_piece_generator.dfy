/** Initial placement of src/components/objects/Pieces/PieceGenerator/PieceGenerator.js:
    rows are the letter keys of the board's `tilePositionMatrix`, columns are
    indices into a row, and every piece starts on the centroid stored there. */
module LetterPieceGenerator {
  import opened ChessTypes
  import Board
  import opened Pieces

  /** The centroid `positions[row][column]`, when the matrix has that entry. */
  predicate HasEntry(at: LetterSquare) {
    at.row in Board.TilePositionMatrix() && 0 <= at.column < Divisions
  }

  function Centre(at: LetterSquare): Board.Centroid
    requires HasEntry(at)
  {
    Board.TilePositionMatrix()[at.row][at.column]
  }

  /** A piece built on `positions[row][column]`. */
  function CreateAt(kind: PieceType, color: Color, row: char, column: int, number: int): Piece
    requires HasEntry(LetterSquare(row, column))
  {
    NewPiece(kind, color, LetterSquare(row, column), number, Centre(LetterSquare(row, column)))
  }

  function PawnRow(color: Color): char {
    if color == White then 'b' else 'g'
  }

  /** `getMajorPieceInitialRow`. */
  function MajorPieceInitialRow(color: Color): char {
    if color == White then 'a' else 'h'
  }

  /** `initPawns`: eight pawns in the pawn row, column `i`, numbered `i + 1`. */
  function InitPawns(color: Color): (ps: seq<Piece>)
    ensures |ps| == 8
    ensures forall i :: 0 <= i < 8 ==>
      ps[i].kind == Pawn && ps[i].color == color && ps[i].number == i + 1
      && ps[i].initChessPos == LetterSquare(PawnRow(color), i)
  {
    seq(8, i requires 0 <= i < 8 => CreateAt(Pawn, color, PawnRow(color), i, i + 1))
  }

  function InitRooks(color: Color): seq<Piece> {
    var row := MajorPieceInitialRow(color);
    [CreateAt(Rook, color, row, 0, 1), CreateAt(Rook, color, row, 7, 2)]
  }

  function InitKnights(color: Color): seq<Piece> {
    var row := MajorPieceInitialRow(color);
    [CreateAt(Knight, color, row, 1, 1), CreateAt(Knight, color, row, 6, 2)]
  }

  function InitBishops(color: Color): seq<Piece> {
    var row := MajorPieceInitialRow(color);
    [CreateAt(Bishop, color, row, 2, 1), CreateAt(Bishop, color, row, 5, 2)]
  }

  function InitQueen(color: Color): seq<Piece> {
    [CreateAt(Queen, color, MajorPieceInitialRow(color), 4, 1)]
  }

  function InitKing(color: Color): seq<Piece> {
    [CreateAt(King, color, MajorPieceInitialRow(color), 3, 1)]
  }

  type Roster = map<PieceType, seq<Piece>>

  predicate Complete(r: Roster) {
    Pawn in r && Rook in r && Knight in r && Bishop in r && Queen in r && King in r
  }

  predicate Initialized(pieces: map<Color, Roster>) {
    White in pieces && Black in pieces && Complete(pieces[White]) && Complete(pieces[Black])
  }

  function InitRoster(color: Color): (r: Roster)
    ensures Complete(r)
  {
    map[Pawn := InitPawns(color), Rook := InitRooks(color), Knight := InitKnights(color),
        Bishop := InitBishops(color), Queen := InitQueen(color), King := InitKing(color)]
  }

  /** `initPieces`: the same six kinds for both colours. */
  function InitPieces(): (pieces: map<Color, Roster>)
    ensures Initialized(pieces)
  {
    map[Black := InitRoster(Black), White := InitRoster(White)]
  }

  /** Both colours get 8 pawns, 2 rooks, 2 knights, 2 bishops, a queen and a
      king; pawns stand in row b or g, the other pieces in row a or h. */
  lemma InitPiecesShape(color: Color)
    ensures color in InitPieces() && Complete(InitPieces()[color])
    ensures var r := InitPieces()[color];
      |r[Pawn]| == 8 && |r[Rook]| == 2 && |r[Knight]| == 2 && |r[Bishop]| == 2
      && |r[Queen]| == 1 && |r[King]| == 1
    ensures forall k, i :: k in InitPieces()[color] && 0 <= i < |InitPieces()[color][k]| ==>
      var p := InitPieces()[color][k][i];
      p.kind == k && p.color == color && p.number == i + 1 && !p.promoted
      && p.initChessPos.row == (if k == Pawn then PawnRow(color) else MajorPieceInitialRow(color))
  {
    assert InitPieces()[color] == InitRoster(color);
    RosterShape(color);
  }

  /** The shape of one colour's freshly built roster. */
  lemma RosterShape(color: Color)
    ensures var r := InitRoster(color);
      |r[Pawn]| == 8 && |r[Rook]| == 2 && |r[Knight]| == 2 && |r[Bishop]| == 2
      && |r[Queen]| == 1 && |r[King]| == 1
    ensures forall k, i :: k in InitRoster(color) && 0 <= i < |InitRoster(color)[k]| ==>
      var p := InitRoster(color)[k][i];
      p.kind == k && p.color == color && p.number == i + 1 && !p.promoted
      && p.initChessPos.row == (if k == Pawn then PawnRow(color) else MajorPieceInitialRow(color))
  {
  }

  /** `getAllPieces`: colours in `PIECE_COLOR` order, kinds in `PIECE_TYPE` order. */
  function GetAllPieces(pieces: map<Color, Roster>): seq<Piece>
    requires Initialized(pieces)
  {
    RosterList(pieces[White]) + RosterList(pieces[Black])
  }

  /** `getAllPieces` holds every piece of every list of both colours, and
      nothing else. */
  lemma AllPiecesMembership(pieces: map<Color, Roster>)
    requires Initialized(pieces)
    ensures forall c, k, i :: c in pieces && k in pieces[c] && 0 <= i < |pieces[c][k]| ==>
      pieces[c][k][i] in GetAllPieces(pieces)
    ensures forall p :: p in GetAllPieces(pieces) ==>
      exists c, k :: c in pieces && k in pieces[c] && p in pieces[c][k]
  {
    var all := GetAllPieces(pieces);
    forall c, k, i | c in pieces && k in pieces[c] && 0 <= i < |pieces[c][k]|
      ensures pieces[c][k][i] in all
    {
      var r := pieces[c];
      assert c == White || c == Black;
      assert pieces[c][k][i] in r[k];
      assert pieces[c][k][i] in RosterList(r) by {
        if k == Pawn {} else if k == Rook {} else if k == Knight {}
        else if k == Bishop {} else if k == Queen {} else {}
      }
    }
    forall p | p in all
      ensures exists c, k :: c in pieces && k in pieces[c] && p in pieces[c][k]
    {
      var c := if p in RosterList(pieces[White]) then White else Black;
      var r := pieces[c];
      assert p in RosterList(r);
      if p in r[Pawn] { assert c in pieces && Pawn in pieces[c]; }
      else if p in r[Rook] { assert c in pieces && Rook in pieces[c]; }
      else if p in r[Knight] { assert c in pieces && Knight in pieces[c]; }
      else if p in r[Bishop] { assert c in pieces && Bishop in pieces[c]; }
      else if p in r[Queen] { assert c in pieces && Queen in pieces[c]; }
      else { assert p in r[King] && c in pieces && King in pieces[c]; }
    }
  }

  function RosterList(r: Roster): seq<Piece>
    requires Complete(r)
  {
    r[Knight] + r[Rook] + r[Bishop] + r[Queen] + r[King] + r[Pawn]
  }

  /** `getPiece`: 1-based indexing into the list of that colour and kind. */
  function GetPiece(pieces: map<Color, Roster>, color: Color, kind: PieceType, number: int): (r: Option<Piece>)
    requires color in pieces && kind in pieces[color]
    ensures r.Some? <==> 1 <= number <= |pieces[color][kind]|
    ensures r.Some? ==> r.value == pieces[color][kind][number - 1]
  {
    var list := pieces[color][kind];
    if 1 <= number <= |list| then Some(list[number - 1]) else None
  }

  // ---------------------------------------------------------------------------
  // Reset.

  predicate ResettableList(ps: seq<Piece>) {
    forall i :: 0 <= i < |ps| ==> HasEntry(ps[i].initChessPos)
  }

  predicate Resettable(pieces: map<Color, Roster>) {
    forall c, k :: c in pieces && k in pieces[c] ==> ResettableList(pieces[c][k])
  }

  function ResetList(ps: seq<Piece>): (rs: seq<Piece>)
    requires ResettableList(ps)
    ensures |rs| == |ps|
    ensures forall i :: 0 <= i < |ps| ==> rs[i] == ps[i].(world := Centre(ps[i].initChessPos))
  {
    seq(|ps|, i requires 0 <= i < |ps| => ps[i].(world := Centre(ps[i].initChessPos)))
  }

  /** `resetPieces`: every piece goes back to the matrix entry of its own
      initial chess position; nothing else about it changes. */
  function ResetPieces(pieces: map<Color, Roster>): (r: map<Color, Roster>)
    requires Resettable(pieces)
    ensures r.Keys == pieces.Keys
    ensures forall c :: c in r ==> r[c].Keys == pieces[c].Keys
    ensures forall c, k :: c in r && k in r[c] ==> r[c][k] == ResetList(pieces[c][k])
  {
    map c | c in pieces :: map k | k in pieces[c] :: ResetList(pieces[c][k])
  }

  /** Two generator states that differ at most in where the pieces stand. */
  predicate SameExceptWorld(a: map<Color, Roster>, b: map<Color, Roster>) {
    && a.Keys == b.Keys
    && (forall c :: c in a ==> a[c].Keys == b[c].Keys)
    && (forall c, k :: c in a && k in a[c] ==> |a[c][k]| == |b[c][k]|)
    && (forall c, k, i :: c in a && k in a[c] && 0 <= i < |a[c][k]| ==>
          a[c][k][i].(world := b[c][k][i].world) == b[c][k][i])
  }

  /** Every piece stands on the matrix entry of its own initial position. */
  predicate AtInitialCentres(pieces: map<Color, Roster>) {
    forall c, k, i :: c in pieces && k in pieces[c] && 0 <= i < |pieces[c][k]| ==>
      HasEntry(pieces[c][k][i].initChessPos) && pieces[c][k][i].world == Centre(pieces[c][k][i].initChessPos)
  }

  /** Every piece of the list stands on the matrix entry of its initial position. */
  predicate ListAtCentres(ps: seq<Piece>) {
    forall i :: 0 <= i < |ps| ==> HasEntry(ps[i].initChessPos) && ps[i].world == Centre(ps[i].initChessPos)
  }

  /** Each list of a freshly built roster starts on its initial centres. */
  lemma RosterAtCentres(color: Color)
    ensures forall k :: k in InitRoster(color) ==> ListAtCentres(InitRoster(color)[k])
  {
    assert ListAtCentres(InitPawns(color));
    assert ListAtCentres(InitRooks(color));
    assert ListAtCentres(InitKnights(color));
    assert ListAtCentres(InitBishops(color));
    assert ListAtCentres(InitQueen(color));
    assert ListAtCentres(InitKing(color));
  }

  /** A fresh game has every piece on the centre of its initial tile. */
  lemma InitPiecesAtInitialCentres()
    ensures AtInitialCentres(InitPieces())
  {
    var pieces: map<Color, Roster> := InitPieces();
    RosterAtCentres(White);
    RosterAtCentres(Black);
    forall c: Color, k: PieceType, i: int | c in pieces && k in pieces[c] && 0 <= i < |pieces[c][k]|
      ensures HasEntry(pieces[c][k][i].initChessPos) && pieces[c][k][i].world == Centre(pieces[c][k][i].initChessPos)
    {
      assert pieces[c] == InitRoster(c);
      assert ListAtCentres(pieces[c][k]);
    }
  }

  /** Pieces that all started on their initial centres come back there under
      `resetPieces`, wherever they have been moved since. */
  lemma ResetReturnsToCentres(init: map<Color, Roster>, moved: map<Color, Roster>)
    requires AtInitialCentres(init)
    requires SameExceptWorld(init, moved)
    ensures Resettable(moved)
    ensures ResetPieces(moved) == init
  {
    forall c: Color, k: PieceType, i: int | c in moved && k in moved[c] && 0 <= i < |moved[c][k]|
      ensures HasEntry(moved[c][k][i].initChessPos)
    {
      assert moved[c][k][i].initChessPos == init[c][k][i].initChessPos;
    }
    var r := ResetPieces(moved);
    forall c: Color | c in r
      ensures r[c] == init[c]
    {
      forall k: PieceType | k in r[c]
        ensures r[c][k] == init[c][k]
      {
        assert |r[c][k]| == |init[c][k]|;
        forall i: int | 0 <= i < |r[c][k]|
          ensures r[c][k][i] == init[c][k][i]
        {
          assert moved[c][k][i].initChessPos == init[c][k][i].initChessPos;
        }
      }
    }
  }

  /** Wherever the pieces of a fresh game have been moved, `resetPieces`
      brings back exactly the initial placement. */
  lemma ResetRestoresInitialPlacement(moved: map<Color, Roster>)
    requires SameExceptWorld(InitPieces(), moved)
    ensures Resettable(moved)
    ensures ResetPieces(moved) == InitPieces()
  {
    InitPiecesAtInitialCentres();
    ResetReturnsToCentres(InitPieces(), moved);
  }

  /** Resetting twice is resetting once. */
  lemma ResetIdempotent(pieces: map<Color, Roster>)
    requires Resettable(pieces)
    ensures Resettable(ResetPieces(pieces))
    ensures ResetPieces(ResetPieces(pieces)) == ResetPieces(pieces)
  {
    var r := ResetPieces(pieces);
    assert Resettable(r);
    var rr := ResetPieces(r);
    forall c | c in rr
      ensures rr[c] == r[c]
    {
      forall k | k in rr[c]
        ensures rr[c][k] == r[c][k]
      {
      }
    }
  }
}
