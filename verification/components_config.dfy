/** The configuration of src/components/config/ChessConfig.js: the named
    piece-kind and colour codes, their list forms, the board size and its own
    copy of the reversed column tables. */
module ComponentsConfig {
  import opened ChessTypes
  import ChessConfig

  /** `PIECE_TYPE`: name to one-letter code. */
  const PieceTypeNames: map<string, char> :=
    map["KNIGHT" := 'n', "ROOK" := 'r', "BISHOP" := 'b', "QUEEN" := 'q', "KING" := 'k', "PAWN" := 'p']

  /** `PIECE_COLOR`: name to one-letter code. */
  const PieceColorNames: map<string, char> := map["WHITE" := 'w', "BLACK" := 'b']

  /** `PIECE_COLORS`. */
  const PieceColors: seq<char> := ['w', 'b']

  /** `PIECE_TYPES`. */
  const PieceTypes: seq<char> := ['p', 'r', 'n', 'b', 'q', 'k']

  const TileCount: int := Divisions * Divisions

  /** This file's `CHESS_FIELD_COLUMNS`. */
  const ChessFieldColumns: map<char, int> :=
    map['a' := 7, 'b' := 6, 'c' := 5, 'd' := 4, 'e' := 3, 'f' := 2, 'g' := 1, 'h' := 0]

  /** This file's `CHESS_FIELD_LETTERS`. */
  const ChessFieldLetters: map<int, char> :=
    map[7 := 'a', 6 := 'b', 5 := 'c', 4 := 'd', 3 := 'e', 2 := 'f', 1 := 'g', 0 := 'h']

  /** The six kind codes are distinct, the list and the named table hold the
      same codes, and they are exactly the codes of the six piece kinds. */
  lemma PieceTypeCodes()
    ensures |PieceTypes| == 6 && NoDuplicates(PieceTypes)
    ensures |PieceTypeNames| == 6
    ensures (set t | t in PieceTypes) == PieceTypeNames.Values
    ensures forall k: PieceType :: k.Code() in PieceTypes
    ensures forall i :: 0 <= i < |PieceTypes| ==> PieceTypes[i] == AllPieceTypes[i].Code()
  {
    PieceTypeNameCodes();
    forall k: PieceType
      ensures k.Code() in PieceTypes
    {
      match k
      case Pawn => assert PieceTypes[0] == k.Code();
      case Rook => assert PieceTypes[1] == k.Code();
      case Knight => assert PieceTypes[2] == k.Code();
      case Bishop => assert PieceTypes[3] == k.Code();
      case Queen => assert PieceTypes[4] == k.Code();
      case King => assert PieceTypes[5] == k.Code();
    }
    assert (set t | t in PieceTypes) == {'n', 'r', 'b', 'q', 'k', 'p'};
  }

  /** The codes the named kind table maps to. */
  lemma PieceTypeNameCodes()
    ensures PieceTypeNames.Values == {'n', 'r', 'b', 'q', 'k', 'p'}
  {
    forall v | v in PieceTypeNames.Values
      ensures v in {'n', 'r', 'b', 'q', 'k', 'p'}
    {
      var name :| name in PieceTypeNames && PieceTypeNames[name] == v;
    }
    assert PieceTypeNames["KNIGHT"] == 'n' && PieceTypeNames["ROOK"] == 'r';
    assert PieceTypeNames["BISHOP"] == 'b' && PieceTypeNames["QUEEN"] == 'q';
    assert PieceTypeNames["KING"] == 'k' && PieceTypeNames["PAWN"] == 'p';
  }

  /** The colour table is exactly {WHITE: 'w', BLACK: 'b'}, and the colour
      list holds the same two codes, which are the codes of the two colours. */
  lemma PieceColorCodes()
    ensures PieceColorNames.Keys == {"WHITE", "BLACK"}
    ensures PieceColorNames["WHITE"] == White.Code() && PieceColorNames["BLACK"] == Black.Code()
    ensures (set c | c in PieceColors) == PieceColorNames.Values
    ensures |PieceColors| == 2 && NoDuplicates(PieceColors)
  {
    assert PieceColorNames.Values == {'w', 'b'} by {
      assert PieceColorNames["WHITE"] == 'w' && PieceColorNames["BLACK"] == 'b';
    }
  }

  lemma TileCountIs64()
    ensures TileCount == 64
  {
  }

  /** This file's column tables are inverse bijections between {0..7} and
      {a..h}, and coincide with the ones of src/config/ChessConfig.js. */
  lemma FieldTablesInverse()
    ensures forall c :: 0 <= c < Divisions ==>
      c in ChessFieldLetters && ChessFieldLetters[c] in ChessFieldColumns && ChessFieldColumns[ChessFieldLetters[c]] == c
    ensures forall f :: f in ChessFieldColumns ==>
      ChessFieldColumns[f] in ChessFieldLetters && ChessFieldLetters[ChessFieldColumns[f]] == f
    ensures ChessFieldColumns == ChessConfig.ChessFieldColumns
    ensures ChessFieldLetters == ChessConfig.ChessFieldLetters
  {
    ChessConfig.FieldTablesInverse();
  }
}
