/** Initial placement of src/PieceGenerator/PieceGenerator.js: which kind,
    colour and sequence number starts on which (row, column) of the tile
    matrix, the per-colour rosters, and lookup by colour, kind and number. */
module PieceGenerator {
  import opened ChessTypes
  import ChessConfig

  /** A freshly created piece standing on the tile at (row, column). */
  function CreateAt(kind: PieceType, color: Color, row: int, column: int, number: int): BoardPiece {
    var square := Position(row, column);
    BoardPiece(kind, color, number, square, Some(TileCentre(square)), false, false)
  }

  function PawnRow(color: Color): int {
    if color == White then 1 else 6
  }

  /** `getMajorPieceInitialRow`. */
  function MajorPieceInitialRow(color: Color): int {
    if color == White then 0 else 7
  }

  /** `initPawns`: one pawn per column, numbered from 1. */
  function InitPawns(color: Color): (ps: seq<BoardPiece>)
    ensures |ps| == 8
    ensures forall i :: 0 <= i < 8 ==>
      ps[i].kind == Pawn && ps[i].color == color && ps[i].number == i + 1
      && ps[i].square == Position(PawnRow(color), i)
  {
    seq(8, i => CreateAt(Pawn, color, PawnRow(color), i, i + 1))
  }

  function InitRooks(color: Color): seq<BoardPiece> {
    var row := MajorPieceInitialRow(color);
    [CreateAt(Rook, color, row, 0, 1), CreateAt(Rook, color, row, 7, 2)]
  }

  function InitKnights(color: Color): seq<BoardPiece> {
    var row := MajorPieceInitialRow(color);
    [CreateAt(Knight, color, row, 1, 1), CreateAt(Knight, color, row, 6, 2)]
  }

  function InitBishops(color: Color): seq<BoardPiece> {
    var row := MajorPieceInitialRow(color);
    [CreateAt(Bishop, color, row, 2, 1), CreateAt(Bishop, color, row, 5, 2)]
  }

  function InitQueen(color: Color): seq<BoardPiece> {
    [CreateAt(Queen, color, MajorPieceInitialRow(color), 4, 1)]
  }

  function InitKing(color: Color): seq<BoardPiece> {
    [CreateAt(King, color, MajorPieceInitialRow(color), 3, 1)]
  }

  /** The pieces of one colour, keyed by kind, as `initPieces` stores them. */
  type Roster = map<PieceType, seq<BoardPiece>>

  predicate Complete(r: Roster) {
    Pawn in r && Rook in r && Knight in r && Bishop in r && Queen in r && King in r
  }

  function InitRoster(color: Color): (r: Roster)
    ensures Complete(r)
  {
    map[Pawn := InitPawns(color), Rook := InitRooks(color), Knight := InitKnights(color),
        Bishop := InitBishops(color), Queen := InitQueen(color), King := InitKing(color)]
  }

  /** `initPieces`: a roster for each colour of `PIECE_COLORS`. */
  function InitPieces(): (pieces: map<Color, Roster>)
    ensures Initialized(pieces)
  {
    map[White := InitRoster(White), Black := InitRoster(Black)]
  }

  /** Every colour and kind has a list after `initPieces`. */
  lemma InitPiecesTotal(color: Color, kind: PieceType)
    ensures color in InitPieces() && kind in InitPieces()[color]
  {
    match kind
    case Pawn =>
    case Rook =>
    case Knight =>
    case Bishop =>
    case Queen =>
    case King =>
  }

  /** Each colour has 8 pawns in its pawn row and 2 rooks, 2 knights,
      2 bishops, a queen and a king in its major-piece row, every list
      numbered from 1, rooks in columns 0 and 7, knights in 1 and 6,
      bishops in 2 and 5, the queen in column 4 and the king in column 3. */
  lemma RosterShape(color: Color)
    ensures var r := InitRoster(color);
      && |r[Pawn]| == 8 && |r[Rook]| == 2 && |r[Knight]| == 2 && |r[Bishop]| == 2
      && |r[Queen]| == 1 && |r[King]| == 1
    ensures forall k, i :: k in InitRoster(color) && 0 <= i < |InitRoster(color)[k]| ==>
      var p := InitRoster(color)[k][i];
      && p.kind == k && p.color == color && p.number == i + 1 && OnGrid(p.square)
      && p.square.row == (if k == Pawn then PawnRow(color) else MajorPieceInitialRow(color))
    ensures var row := MajorPieceInitialRow(color); var r := InitRoster(color);
      && r[Rook][0].square == Position(row, 0) && r[Rook][1].square == Position(row, 7)
      && r[Knight][0].square == Position(row, 1) && r[Knight][1].square == Position(row, 6)
      && r[Bishop][0].square == Position(row, 2) && r[Bishop][1].square == Position(row, 5)
      && r[Queen][0].square == Position(row, 4) && r[King][0].square == Position(row, 3)
  {
  }

  predicate Initialized(pieces: map<Color, Roster>) {
    White in pieces && Black in pieces && Complete(pieces[White]) && Complete(pieces[Black])
  }

  /** One colour's pieces in `PIECE_TYPES` order. */
  function RosterList(r: Roster): seq<BoardPiece>
    requires Complete(r)
  {
    r[Pawn] + r[Rook] + r[Knight] + r[Bishop] + r[Queen] + r[King]
  }

  /** `getAllPieces`: white's pieces, then black's. */
  function GetAllPieces(pieces: map<Color, Roster>): seq<BoardPiece>
    requires Initialized(pieces)
  {
    RosterList(pieces[White]) + RosterList(pieces[Black])
  }

  /** `getAllPieces` holds every piece of every list of both colours, and
      nothing else. */
  lemma AllPiecesMembership(pieces: map<Color, Roster>)
    requires Initialized(pieces)
    ensures forall c, k, i :: c in pieces && k in pieces[c] && 0 <= i < |pieces[c][k]| ==>
      pieces[c][k][i] in GetAllPieces(pieces)
    ensures forall p :: p in GetAllPieces(pieces) ==>
      exists c, k :: c in pieces && k in pieces[c] && p in pieces[c][k]
  {
    var all := GetAllPieces(pieces);
    forall c, k, i | c in pieces && k in pieces[c] && 0 <= i < |pieces[c][k]|
      ensures pieces[c][k][i] in all
    {
      var r := pieces[c];
      assert c == White || c == Black;
      assert pieces[c][k][i] in r[k];
      assert pieces[c][k][i] in RosterList(r) by {
        if k == Pawn {} else if k == Rook {} else if k == Knight {}
        else if k == Bishop {} else if k == Queen {} else {}
      }
    }
    forall p | p in all
      ensures exists c, k :: c in pieces && k in pieces[c] && p in pieces[c][k]
    {
      var c := if p in RosterList(pieces[White]) then White else Black;
      var r := pieces[c];
      assert p in RosterList(r);
      if p in r[Pawn] { assert c in pieces && Pawn in pieces[c]; }
      else if p in r[Rook] { assert c in pieces && Rook in pieces[c]; }
      else if p in r[Knight] { assert c in pieces && Knight in pieces[c]; }
      else if p in r[Bishop] { assert c in pieces && Bishop in pieces[c]; }
      else if p in r[Queen] { assert c in pieces && Queen in pieces[c]; }
      else { assert p in r[King] && c in pieces && King in pieces[c]; }
    }
  }

  /** `getPiece`: the `number`-th (1-based) piece of that colour and kind,
      or nothing (`undefined`) when the list is shorter. */
  function GetPiece(pieces: map<Color, Roster>, color: Color, kind: PieceType, number: int): (r: Option<BoardPiece>)
    requires color in pieces && kind in pieces[color]
    ensures r.Some? <==> 1 <= number <= |pieces[color][kind]|
    ensures r.Some? ==> r.value == pieces[color][kind][number - 1]
  {
    var list := pieces[color][kind];
    if 1 <= number <= |list| then Some(list[number - 1]) else None
  }

  /** `createPiece`: a piece of the kind named by the code, with colour and
      chess position. Nothing copies `worldPos` onto the piece, so it stands
      on no tile centre (`world` is `None`). An unknown code has no
      constructor and the program fails (`piece` stays undefined). */
  function CreatePiece(code: char, color: Color, square: Position, worldPos: World, number: int): (r: Option<BoardPiece>)
    ensures r.Some? <==> code in {'p', 'r', 'n', 'b', 'q', 'k'}
    ensures r.Some? ==>
      && r.value.kind.Code() == code && r.value.color == color
      && r.value.square == square && r.value.world.None? && r.value.number == number
  {
    match ParsePieceCode(code)
    case None => None
    case Some(kind) => Some(BoardPiece(kind, color, number, square, None, false, false))
  }

  // ---------------------------------------------------------------------------
  // The standard starting position.

  /** The piece the Laws of Chess (FIDE, Article 2.3) put on a back-rank file. */
  function BackRankPiece(file: char): PieceType {
    match file
    case 'a' => Rook
    case 'h' => Rook
    case 'b' => Knight
    case 'g' => Knight
    case 'c' => Bishop
    case 'f' => Bishop
    case 'd' => Queen
    case _ => King
  }

  /** Who stands on a named square at the start of a game, after FIDE
      Article 2.3: back ranks 1 and 8, pawns on ranks 2 and 7. */
  function StandardOccupant(square: string): Option<(Color, PieceType)> {
    if |square| != 2 || square[0] !in ChessConfig.Files then None
    else if square[1] == '1' then Some((White, BackRankPiece(square[0])))
    else if square[1] == '2' then Some((White, Pawn))
    else if square[1] == '7' then Some((Black, Pawn))
    else if square[1] == '8' then Some((Black, BackRankPiece(square[0])))
    else None
  }

  /** Every piece of one colour's roster lands on its standard square. */
  lemma RosterIsStandard(color: Color)
    ensures |RosterList(InitRoster(color))| == 16
    ensures forall i :: 0 <= i < 16 ==>
      var p := RosterList(InitRoster(color))[i];
      p.color == color && OnGrid(p.square) && p.world == Some(TileCentre(p.square))
      && StandardOccupant(ChessConfig.ToAlgebraicNotation(p.square)) == Some((color, p.kind))
  {
    var ps := RosterList(InitRoster(color));
    forall i | 0 <= i < 16
      ensures ps[i].color == color && OnGrid(ps[i].square) && ps[i].world == Some(TileCentre(ps[i].square))
      ensures StandardOccupant(ChessConfig.ToAlgebraicNotation(ps[i].square)) == Some((color, ps[i].kind))
    {
      if i < 8 {
        assert ps[i] == InitPawns(color)[i];
        PawnIsStandard(color, i);
      } else {
        MajorIsStandard(color, ps[i]);
      }
    }
  }

  /** A pawn of the roster stands on its colour's pawn rank. */
  lemma PawnIsStandard(color: Color, i: int)
    requires 0 <= i < 8
    ensures var p := InitPawns(color)[i];
      p.color == color && OnGrid(p.square) && p.world == Some(TileCentre(p.square))
      && StandardOccupant(ChessConfig.ToAlgebraicNotation(p.square)) == Some((color, Pawn))
  {
  }

  /** A piece created in the major-piece row on the column `initPieces`
      gives its kind stands on that kind's standard back-rank square. */
  lemma MajorIsStandard(color: Color, p: BoardPiece)
    requires p in InitRooks(color) + InitKnights(color) + InitBishops(color) + InitQueen(color) + InitKing(color)
    ensures p.color == color && OnGrid(p.square) && p.world == Some(TileCentre(p.square))
    ensures StandardOccupant(ChessConfig.ToAlgebraicNotation(p.square)) == Some((color, p.kind))
  {
  }

  /** Within one colour no two pieces share a square. */
  lemma RosterSquaresDistinct(color: Color)
    ensures forall i, j :: 0 <= i < j < 16 ==>
      RosterList(InitRoster(color))[i].square != RosterList(InitRoster(color))[j].square
  {
    var ps := RosterList(InitRoster(color));
    var cols := [0, 7, 1, 6, 2, 5, 4, 3];
    assert |ps| == 16;
    forall i | 0 <= i < 16
      ensures ps[i].square == if i < 8 then Position(PawnRow(color), i)
                              else Position(MajorPieceInitialRow(color), cols[i - 8])
    {
      if i < 8 {
        assert ps[i] == InitPawns(color)[i];
      }
    }
    forall i, j | 0 <= i < j < 16
      ensures ps[i].square != ps[j].square
    {
      if 8 <= i {
        assert cols[i - 8] != cols[j - 8];
      }
    }
  }

  /** `initPieces` yields 16 pieces per colour, 32 in all, on 32 distinct
      squares; through the reversed file table each lands on its square of
      the standard starting position: kings on e1/e8, queens on d1/d8, rooks
      on a and h, knights on b and g, bishops on c and f. */
  lemma InitialPlacementIsStandard()
    ensures Initialized(InitPieces())
    ensures |GetAllPieces(InitPieces())| == 32
    ensures forall i :: 0 <= i < 32 ==>
      GetAllPieces(InitPieces())[i].color == (if i < 16 then White else Black)
    ensures forall i :: 0 <= i < 32 ==>
      var p := GetAllPieces(InitPieces())[i];
      OnGrid(p.square) && StandardOccupant(ChessConfig.ToAlgebraicNotation(p.square)) == Some((p.color, p.kind))
    ensures forall i, j :: 0 <= i < j < 32 ==>
      GetAllPieces(InitPieces())[i].square != GetAllPieces(InitPieces())[j].square
  {
    RosterIsStandard(White);
    RosterIsStandard(Black);
    RosterSquaresDistinct(White);
    RosterSquaresDistinct(Black);
    var all := GetAllPieces(InitPieces());
    var w := RosterList(InitRoster(White));
    var b := RosterList(InitRoster(Black));
    assert all == w + b;
    forall i, j | 0 <= i < j < 32
      ensures all[i].square != all[j].square
    {
      if i < 16 && 16 <= j {
        assert all[i] == w[i] && all[j] == b[j - 16];
        assert StandardOccupant(ChessConfig.ToAlgebraicNotation(all[i].square)).value.0 == White;
        assert StandardOccupant(ChessConfig.ToAlgebraicNotation(all[j].square)).value.0 == Black;
      } else if i < 16 {
        assert all[i] == w[i] && all[j] == w[j];
      } else {
        assert all[i] == b[i - 16] && all[j] == b[j - 16];
      }
    }
  }

  /** Looking up `getPiece(color, kind, n)` for every number the roster holds
      gives the piece with exactly that colour, kind and number. */
  lemma GetPieceNumbering(color: Color, kind: PieceType, n: int)
    requires color in InitPieces() && kind in InitPieces()[color]
    requires 1 <= n <= |InitPieces()[color][kind]|
    ensures GetPiece(InitPieces(), color, kind, n).Some?
    ensures var p := GetPiece(InitPieces(), color, kind, n).value;
      p.color == color && p.kind == kind && p.number == n
  {
  }
}
