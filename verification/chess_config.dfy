/** The configuration of src/config/ChessConfig.js: the matrix-to-notation
    mapping of `ChessPosition`, the reversed column tables, the initial
    `GameState`, the board size constants and the Unicode glyph table. */
module ChessConfig {
  import opened ChessTypes

  /** `CHESS_FIELD_COLUMNS`: file letter to matrix column. The matrix is
      stored mirrored, so file `a` is column 7 and file `h` is column 0. */
  const ChessFieldColumns: map<char, int> :=
    map['a' := 7, 'b' := 6, 'c' := 5, 'd' := 4, 'e' := 3, 'f' := 2, 'g' := 1, 'h' := 0]

  /** `CHESS_FIELD_LETTERS`: matrix column to file letter. */
  const ChessFieldLetters: map<int, char> :=
    map[7 := 'a', 6 := 'b', 5 := 'c', 4 := 'd', 3 := 'e', 2 := 'f', 1 := 'g', 0 := 'h']

  const Files: set<char> := {'a', 'b', 'c', 'd', 'e', 'f', 'g', 'h'}

  const Columns: set<int> := {0, 1, 2, 3, 4, 5, 6, 7}

  const TileCount: int := Divisions * Divisions

  lemma TileCountIs64()
    ensures TileCount == 64
  {
  }

  /** The two column tables are inverse bijections between {0..7} and {a..h}. */
  lemma FieldTablesInverse()
    ensures ChessFieldLetters.Keys == Columns
    ensures ChessFieldColumns.Keys == Files
    ensures forall c :: 0 <= c < Divisions ==>
      ChessFieldLetters[c] in ChessFieldColumns && ChessFieldColumns[ChessFieldLetters[c]] == c
    ensures forall f :: f in Files ==>
      ChessFieldColumns[f] in ChessFieldLetters && ChessFieldLetters[ChessFieldColumns[f]] == f
    ensures ChessFieldLetters[7] == 'a' && ChessFieldLetters[0] == 'h'
  {
    forall c | 0 <= c < Divisions
      ensures ChessFieldLetters[c] in ChessFieldColumns && ChessFieldColumns[ChessFieldLetters[c]] == c
    {
      if c == 0 { assert ChessFieldLetters[c] == 'h'; }
      else if c == 1 { assert ChessFieldLetters[c] == 'g'; }
      else if c == 2 { assert ChessFieldLetters[c] == 'f'; }
      else if c == 3 { assert ChessFieldLetters[c] == 'e'; }
      else if c == 4 { assert ChessFieldLetters[c] == 'd'; }
      else if c == 5 { assert ChessFieldLetters[c] == 'c'; }
      else if c == 6 { assert ChessFieldLetters[c] == 'b'; }
      else { assert ChessFieldLetters[c] == 'a'; }
    }
    forall f | f in Files
      ensures ChessFieldColumns[f] in ChessFieldLetters && ChessFieldLetters[ChessFieldColumns[f]] == f
    {
      if f == 'a' { assert ChessFieldColumns[f] == 7; }
      else if f == 'b' { assert ChessFieldColumns[f] == 6; }
      else if f == 'c' { assert ChessFieldColumns[f] == 5; }
      else if f == 'd' { assert ChessFieldColumns[f] == 4; }
      else if f == 'e' { assert ChessFieldColumns[f] == 3; }
      else if f == 'f' { assert ChessFieldColumns[f] == 2; }
      else if f == 'g' { assert ChessFieldColumns[f] == 1; }
      else { assert ChessFieldColumns[f] == 0; }
    }
  }

  // ---------------------------------------------------------------------------
  // Decimal rendering of the rank, as a JavaScript template literal does it.

  function DigitChar(d: int): char
    requires 0 <= d < 10
  {
    (('0' as int) + d) as char
  }

  function NatToDecimal(n: nat): (s: string)
    ensures |s| >= 1
    ensures n < 10 <==> |s| == 1
    decreases n
  {
    if n < 10 then [DigitChar(n)] else NatToDecimal(n / 10) + [DigitChar(n % 10)]
  }

  function IntToDecimal(i: int): string {
    if i < 0 then "-" + NatToDecimal(-i) else NatToDecimal(i)
  }

  /** `ChessPosition.toAlgebraicNotation`: the file letter of the column
      followed by the decimal rank `row + 1`. A column outside the table reads
      as the JavaScript value `undefined`. */
  function ToAlgebraicNotation(p: Position): (s: string)
    ensures OnGrid(p) ==> |s| == 2 && s[0] in Files && s[0] == ChessFieldLetters[p.column]
    ensures OnGrid(p) ==> '1' <= s[1] <= '8' && s[1] as int - '1' as int == p.row
  {
    var file := if p.column in ChessFieldLetters then [ChessFieldLetters[p.column]] else "undefined";
    file + IntToDecimal(p.row + 1)
  }

  /** The inverse of the notation: a two-character square name back to the
      matrix position it denotes. */
  function ParseSquare(s: string): (r: Option<Position>)
    ensures r.Some? ==> OnGrid(r.value)
  {
    if |s| == 2 && s[0] in ChessFieldColumns && '1' <= s[1] <= '8' then
      Some(Position(s[1] as int - '1' as int, ChessFieldColumns[s[0]]))
    else
      None
  }

  /** Every square of the 8×8 grid survives a trip through its name. */
  lemma NotationRoundTrip(p: Position)
    requires OnGrid(p)
    ensures ParseSquare(ToAlgebraicNotation(p)) == Some(p)
  {
    FieldTablesInverse();
  }

  /** Every name the parser accepts is the notation of the position it parses to. */
  lemma ParseRoundTrip(s: string)
    requires ParseSquare(s).Some?
    ensures ToAlgebraicNotation(ParseSquare(s).value) == s
  {
    FieldTablesInverse();
    var p := ParseSquare(s).value;
    var t := ToAlgebraicNotation(p);
    assert |t| == 2 && t[0] == s[0] && t[1] == s[1];
  }

  /** Distinct squares of the grid have distinct names. */
  lemma NotationInjective(p: Position, q: Position)
    requires OnGrid(p) && OnGrid(q)
    requires ToAlgebraicNotation(p) == ToAlgebraicNotation(q)
    ensures p == q
  {
    NotationRoundTrip(p);
    NotationRoundTrip(q);
  }

  // ---------------------------------------------------------------------------
  // The initial game state.

  /** `GameState`. Captures hold references to piece objects (here: their
      indices); `moveHistory` holds the names of moves. */
  datatype GameState = GameState(
    gameStarted: bool,
    turn: Color,
    rotationSpeed: int,
    whiteCaptures: seq<nat>,
    blackCaptures: seq<nat>,
    moveHistory: seq<string>,
    moveMade: bool,
    gameOver: bool,
    winner: Option<Color>)

  /** A fresh game: white to move, nothing captured, nothing played, no winner. */
  function NewGameState(): (s: GameState)
    ensures s.turn == White && !s.gameStarted
    ensures s.whiteCaptures == [] && s.blackCaptures == [] && s.moveHistory == []
    ensures !s.moveMade && !s.gameOver && s.winner.None?
  {
    GameState(false, White, 1, [], [], [], false, false, None)
  }

  // ---------------------------------------------------------------------------
  // Glyphs.

  /** `PIECE_UNICODE`: the chess glyph of a piece of the given colour and kind. */
  function PieceUnicode(c: Color, k: PieceType): (g: char)
    ensures c == White ==> '\U{2654}' <= g <= '\U{2659}'
    ensures c == Black ==> '\U{265A}' <= g <= '\U{265F}'
  {
    match (c, k)
    case (White, Pawn) => '\U{2659}'
    case (White, Rook) => '\U{2656}'
    case (White, Knight) => '\U{2658}'
    case (White, Bishop) => '\U{2657}'
    case (White, Queen) => '\U{2655}'
    case (White, King) => '\U{2654}'
    case (Black, Pawn) => '\U{265F}'
    case (Black, Rook) => '\U{265C}'
    case (Black, Knight) => '\U{265E}'
    case (Black, Bishop) => '\U{265D}'
    case (Black, Queen) => '\U{265B}'
    case (Black, King) => '\U{265A}'
  }

  /** No two of the twelve (colour, kind) pairs share a glyph, and the black
      glyph of a kind sits six code points after the white one. */
  lemma PieceUnicodeInjective(c1: Color, k1: PieceType, c2: Color, k2: PieceType)
    ensures PieceUnicode(c1, k1) == PieceUnicode(c2, k2) ==> c1 == c2 && k1 == k2
    ensures PieceUnicode(Black, k1) as int == PieceUnicode(White, k1) as int + 6
  {
  }
}
