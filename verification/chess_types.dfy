/** Vocabulary shared by every part of the model: colours, piece kinds and
    their one-letter codes, matrix positions, opaque world positions, and the
    piece objects the move orchestrator manipulates. */
module ChessTypes {

  datatype Option<T> = None | Some(value: T)

  datatype Color = White | Black {
    /** The one-letter code the program stores in `piece.color` and chess.js returns from `turn()`. */
    function Code(): char {
      match this
      case White => 'w'
      case Black => 'b'
    }

    function Opponent(): Color {
      if this == White then Black else White
    }
  }

  datatype PieceType = Pawn | Rook | Knight | Bishop | Queen | King {
    /** The one-letter code the program stores in `piece.type`. */
    function Code(): char {
      match this
      case Pawn => 'p'
      case Rook => 'r'
      case Knight => 'n'
      case Bishop => 'b'
      case Queen => 'q'
      case King => 'k'
    }
  }

  /** Every colour, in the order the program enumerates them. */
  const AllColors: seq<Color> := [White, Black]

  /** Every piece kind, in the order of the `PIECE_TYPES` tables. */
  const AllPieceTypes: seq<PieceType> := [Pawn, Rook, Knight, Bishop, Queen, King]

  function ParseColorCode(c: char): (r: Option<Color>)
    ensures r.Some? ==> r.value.Code() == c
    ensures (exists k: Color :: k.Code() == c) ==> r.Some?
  {
    if c == 'w' then Some(White)
    else if c == 'b' then Some(Black)
    else None
  }

  function ParsePieceCode(c: char): (r: Option<PieceType>)
    ensures r.Some? ==> r.value.Code() == c
    ensures (exists k: PieceType :: k.Code() == c) ==> r.Some?
  {
    match c
    case 'p' => Some(Pawn)
    case 'r' => Some(Rook)
    case 'n' => Some(Knight)
    case 'b' => Some(Bishop)
    case 'q' => Some(Queen)
    case 'k' => Some(King)
    case _ => None
  }

  /** Codes are unambiguous: decoding a code gives back the colour or kind it came from. */
  lemma CodesRoundTrip(c: Color, k: PieceType)
    ensures ParseColorCode(c.Code()) == Some(c)
    ensures ParsePieceCode(k.Code()) == Some(k)
  {
  }

  predicate NoDuplicates<T(==)>(s: seq<T>) {
    forall i, j :: 0 <= i < j < |s| ==> s[i] != s[j]
  }

  /** `s.filter(ele => ele !== x)`: every occurrence of `x` dropped, every
      other element kept. */
  function RemoveAll<T(==)>(s: seq<T>, x: T): (r: seq<T>)
    ensures multiset(r) == multiset(s)[x := 0]
  {
    if |s| == 0 then []
    else
      assert s == [s[0]] + s[1..];
      if s[0] == x then RemoveAll(s[1..], x) else [s[0]] + RemoveAll(s[1..], x)
  }

  /** `x` is gone after the filter and everything else stays. */
  lemma RemoveAllMembership<T>(s: seq<T>, x: T, y: T)
    ensures y in RemoveAll(s, x) <==> y in s && y != x
  {
    assert y in RemoveAll(s, x) <==> y in multiset(RemoveAll(s, x));
    assert y in s <==> y in multiset(s);
  }

  /** A `ChessPosition`: row and column indices into the 8×8 tile matrix. */
  datatype Position = Position(row: int, column: int)

  const Divisions: int := 8

  predicate OnGrid(p: Position) {
    0 <= p.row < Divisions && 0 <= p.column < Divisions
  }

  /** A world-space position. Coordinates are floating point in the program;
      here a world position is only ever the centre of some tile, named by
      that tile's matrix position. */
  datatype World = TileCentre(at: Position)

  /** A piece object as the move orchestrator sees it. */
  datatype BoardPiece = BoardPiece(
    kind: PieceType,
    color: Color,
    number: int,
    square: Position,
    world: Option<World>,
    selected: bool,
    captured: bool)
}
