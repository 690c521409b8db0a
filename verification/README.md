# Chess move orchestration, modelled in Dafny

This project models the core of a browser chess game built on three.js and
the chess.js rules library:

- **ChessGameEngine.** The game engine sits between mouse clicks and the
  rules library. A click on a piece of the side to move selects it and
  marks the destinations chess.js lists. A second click moves it.
  - A click on a marked tile submits the move.
  - A click on an opposing piece captures it and submits the move onto
    its square.
  - Captured pieces go onto two per-side capture stacks in the
    `GameState`.
  - `undoMove` takes back the move made this turn, and `endTurn` hands
    over the turn.
- **Legacy piece generator.** It sets up the initial position on the
  tile matrix by (row, column).
- **Component piece generator.** It does the same keyed by the letter
  rows of the board's `tilePositionMatrix`, and can reset every piece to
  its starting centroid.
- **Configuration tables.** The colour and kind codes, the mirrored
  file/column tables, `ChessPosition.toAlgebraicNotation`, the initial
  `GameState` and the Unicode glyphs.
- **Board.** The checker colouring that `createBoard` assigns to the 64
  geometry groups, and the centroid matrix.
- **Pawn promotion.** `Pawn.promote`.
- **Component click controller.** It moves a selected piece wherever the
  next click lands and keeps per-side lists of captured piece letters
  with their display strings.

Modules, one per source file or concern:

| module | file | models |
|---|---|---|
| `ChessTypes` | `chess_types.dfy` | colours, kinds and their codes, positions, piece objects, `filter` |
| `ChessConfig` | `chess_config.dfy` | `src/config/ChessConfig.js` |
| `ComponentsConfig` | `components_config.dfy` | `src/components/config/ChessConfig.js` |
| `Board` | `board.dfy` | `src/components/objects/Board/Board.js` |
| `Pieces` | `pieces.dfy` | the component piece objects and `Pawn.promote` |
| `PieceGenerator` | `piece_generator.dfy` | `src/PieceGenerator/PieceGenerator.js` |
| `LetterPieceGenerator` | `letter_piece_generator.dfy` | `src/components/objects/Pieces/PieceGenerator/PieceGenerator.js` |
| `RulesEngine` | `rules_engine.dfy` | the part of chess.js the engine relies on |
| `GameEngine` | `game_engine.dfy` | `src/ChessGameEngine/ChessGameEngine.js` as written |
| `CorrectedEngine` | `corrected_engine.dfy` | the same engine with the findings below put right |
| `ClickController` | `click_controller.dfy` | `src/components/controllers/ChessController.js` |

How the JavaScript is represented:

- **chess.js.** It becomes an oracle `Rules(legalMoves, accepts,
  capturesOn)` over the list of moves played so far.
  - `turn()` is White after an even number of moves.
  - An accepted `move` appends one record.
  - `undo` removes and returns the last record.
  - Which moves are legal is left abstract; the engine never decides
    that itself.
- **Object identity.** The engine compares piece objects by reference.
  Piece objects are therefore the entries of `objects`, and the engine's
  `pieces` array and the capture stacks hold indices into it.
- **World positions.** Floating-point vectors in the program. Here a
  world position is the centre of the tile it was copied from.
- **Marked tiles.** `handleTileClick` compares the tiles' `ChessPosition`
  objects by reference. Each tile owns one such object, so comparing
  references is comparing tiles. The model keeps the marks as a set of
  square names instead. Distinct grid squares have distinct names
  (`ChessConfig.NotationInjective`), so comparing names is comparing tiles
  too.
- **Piece methods.** `select`, `deselect`, `move`, `capture` and `reset`
  are not part of this model (`Piece.js` has none of them). They are
  taken to set the flag or the fields their names say.
  - `move(world, chessPos)` sets both positions.
  - `capture()` only sets the captured flag. A captured piece keeps its
    square, so it still reports the tile it was taken on
    (`getCurrentTile`).
  - On the engine's piece objects (`BoardPiece`), `reset()` clears the
    captured flag. The component pieces (`Pieces.Piece`) carry no captured
    flag. The component generator's `reset(position)` is taken to move the
    piece to that centroid, and `LetterPieceGenerator.ResetList` changes
    nothing else.
- **`undoMove` fault.** When `undoMove` dereferences `undefined` (no
  piece found, an empty capture stack), the result has status `Fault`.
  The state is the one at the point of the throw.

What the code does not do, and so neither does the model:

- Nothing calls `Pawn.promote`, so no pawn is promoted during play.
- Nothing detects the end of the game, and nothing updates
  `moveHistory`.
- `selectPiece`'s colour check is the only place the code checks whose
  turn it is.

`ChessController.addCapturedPiece` ends by calling
`this.updateCapturesGUI()` (src/components/controllers/ChessController.js:133),
which no file of the repository defines. The model treats that call as a
display notification that returns. So a capture updates the lists and
strings, and `movePiece` then moves the selected piece to the tile. As
written, the call would throw after the lists and strings are updated
and before the piece moves.

The legacy generator reads `ChessConfig.pieceTypeCharacters` and
`ChessConfig.pieceColorStrings`, which the config class does not define.
The model reads them as the `PIECE_TYPES` and `PIECE_COLORS` lists it
does define.

The legacy generator calls the component piece constructors, which take
`(type, color, initialPosition, number)`, with five arguments
`(type, color, chessPosition, worldPosition, number)`.
- JavaScript binds arguments by position and drops the extra one. So the
  `number` parameter receives the tile's world position, and the
  ordinal the generator computes reaches no parameter.
- What a piece finally stores depends on the base `Piece` constructor,
  which is covered by the general assumption below.
- The model gives each legacy piece the ordinal the generator passes, the
  number the generator's own documentation and `getPiece` rely on.
- The members concerned are listed under "## Left out".

The piece classes `Pawn`, `Rook`, `Knight`, `Bishop`, `Queen` and `King`
take `(type, color, initialPosition, number)`. They pass
`(type, MODEL, color, initialPosition, number)` to the base `Piece`
constructor. That constructor takes `(type, model, color,
initialPosition)`, so `number` reaches no parameter, and its body is
empty. So no field is stored as written. The model takes every constructor to store the
arguments under the parameter names they bind to: kind, colour, initial
chess position and number. This holds for the component generator too
(`LetterPieceGenerator`), where each piece's `number == i + 1` and
`initChessPos` rest on this assumption.

## Model

| member | source | states |
|---|---|---|
| ChessTypes.ParseColorCode | src/config/ChessConfig.js:91-93 | decoding a colour code gives the colour with that code, and every code of a colour decodes |
| ChessTypes.ParsePieceCode | src/config/ChessConfig.js:107-109 | decoding a kind code gives the kind with that code, and every code of a kind decodes |
| ChessTypes.CodesRoundTrip | src/components/config/ChessConfig.js:6-14 | the one-letter colour and kind codes are unambiguous: decoding the code of a colour or kind gives it back |
| ChessTypes.RemoveAll | src/ChessGameEngine/ChessGameEngine.js:145 | the reference filter drops every occurrence of the piece and keeps every other element as often as before |
| ChessTypes.RemoveAllMembership | src/ChessGameEngine/ChessGameEngine.js:145 | after the filter an element is present exactly when it was present before and is not the filtered piece |
| ChessConfig.TileCountIs64 | src/config/ChessConfig.js:61-71 | `TILE_COUNT` is `DIVISIONS * DIVISIONS` = 64 |
| ChessConfig.FieldTablesInverse | src/config/ChessConfig.js:114-138 | `CHESS_FIELD_COLUMNS` and `CHESS_FIELD_LETTERS` are inverse bijections between files a..h and columns 0..7, mirrored (a is column 7, h is column 0) |
| ChessConfig.ToAlgebraicNotation | src/config/ChessConfig.js:18-20 | a grid position's name is two characters: the file letter of its column, then the rank digit `row + 1` |
| ChessConfig.ParseSquare | src/ChessGameEngine/ChessGameEngine.js:167 | a square name the engine converts back to indices always denotes a position on the 8×8 grid |
| ChessConfig.NotationRoundTrip | src/config/ChessConfig.js:18-20 | every grid position survives naming and parsing |
| ChessConfig.ParseRoundTrip | src/ChessGameEngine/ChessGameEngine.js:167 | every name the parser accepts is the notation of the position it parses to |
| ChessConfig.NotationInjective | src/config/ChessConfig.js:18-20 | distinct grid positions have distinct names |
| ChessConfig.NewGameState | src/config/ChessConfig.js:23-36 | a fresh game state has White to move, empty capture stacks and move history, no move made, not over, and no winner |
| ChessConfig.PieceUnicode | src/config/ChessConfig.js:140-159 | white glyphs lie in U+2654..U+2659 and black glyphs in U+265A..U+265F |
| ChessConfig.PieceUnicodeInjective | src/config/ChessConfig.js:140-159 | no two (colour, kind) pairs share a glyph, and each black glyph is the white glyph of the same kind plus 6 |
| ComponentsConfig.PieceTypeCodes | src/components/config/ChessConfig.js:6-66 | `PIECE_TYPES` lists six distinct codes, the same set as the values of `PIECE_TYPE`, exactly the codes of the six kinds, in the order p r n b q k |
| ComponentsConfig.PieceTypeNameCodes | src/components/config/ChessConfig.js:6-13 | the values of `PIECE_TYPE` are exactly the six codes n r b q k p |
| ComponentsConfig.PieceColorCodes | src/components/config/ChessConfig.js:14-52 | `PIECE_COLOR` maps WHITE to 'w' and BLACK to 'b', and `PIECE_COLORS` holds those two distinct codes |
| ComponentsConfig.TileCountIs64 | src/components/config/ChessConfig.js:28-38 | this file's `TILE_COUNT` is 64 |
| ComponentsConfig.FieldTablesInverse | src/components/config/ChessConfig.js:68-92 | this file's column tables are inverse to each other and equal those of the top-level config |
| Board.CreateBoard | src/components/objects/Board/Board.js:83-91 | the loop builds 64 groups; group i starts at index 6i, spans 6 indices, and gets the checker colour of tile i |
| Board.CheckerPattern | src/components/objects/Board/Board.js:83-91 | tile 0 is white, neighbours within a row differ, and the last tile of a row matches the first of the next |
| Board.GroupsPartitionIndices | src/components/objects/Board/Board.js:83-91 | every vertex index below 384 lies in exactly one group, the one numbered index / 6 |
| Board.FieldTablesInverse | src/components/objects/Board/Board.js:26-45 | the board's own column tables are inverse bijections and equal the config's |
| Board.TilePositionMatrix | src/components/objects/Board/Board.js:100-129 | the centroid matrix has one row per file letter a..h, each of 8 entries |
| Board.TilePositionsDistinct | src/components/objects/Board/Board.js:110-129 | no two entries of the centroid matrix are the same centroid |
| Pieces.Promote | src/components/objects/Pieces/Pawn/Pawn.js:16-19 | promotion records that the pawn is promoted and to which kind, and changes nothing else about it |
| Pieces.PromoteIdempotentAndOverwrites | src/components/objects/Pieces/Pawn/Pawn.js:16-19 | promoting twice to the same kind is promoting once; a later promotion replaces the earlier choice |
| PieceGenerator.InitPawns | src/PieceGenerator/PieceGenerator.js:38-56 | eight pawns of the colour, pawn i on row 1 (white) or 6 (black), column i, numbered i + 1 |
| PieceGenerator.InitPiecesTotal | src/PieceGenerator/PieceGenerator.js:214-227 | after `initPieces` every colour has a list for every kind |
| PieceGenerator.InitPieces | src/PieceGenerator/PieceGenerator.js:214-227 | both colours get a roster with all six kind lists |
| PieceGenerator.AllPiecesMembership | src/PieceGenerator/PieceGenerator.js:234-245 | `getAllPieces` holds every piece of every list of both colours, and nothing else |
| PieceGenerator.RosterShape | src/PieceGenerator/PieceGenerator.js:64-208 | per colour 8 pawns, 2 rooks, 2 knights, 2 bishops, a queen and a king, each numbered from 1 on the pawn or major row; rooks on columns 0 and 7, knights 1 and 6, bishops 2 and 5, queen 4, king 3 |
| PieceGenerator.GetPiece | src/PieceGenerator/PieceGenerator.js:255-257 | a piece is returned exactly for numbers 1..length of that list, and it is the (number - 1)-th entry |
| PieceGenerator.CreatePiece | src/PieceGenerator/PieceGenerator.js:282-309 | a piece is built exactly for the six kind codes, of the named kind with the given colour and chess position; nothing places it on a tile centre |
| PieceGenerator.RosterIsStandard | src/PieceGenerator/PieceGenerator.js:38-208 | through the mirrored file table, every piece of a roster stands on its square of the standard starting position (FIDE Laws of Chess, Article 2.3) |
| PieceGenerator.PawnIsStandard | src/PieceGenerator/PieceGenerator.js:38-56 | each pawn stands on its tile centre on rank 2 (white) or 7 (black) of the standard position |
| PieceGenerator.MajorIsStandard | src/PieceGenerator/PieceGenerator.js:64-208 | each rook, knight, bishop, queen and king stands on its tile centre on the back-rank square the standard position gives its kind |
| PieceGenerator.RosterSquaresDistinct | src/PieceGenerator/PieceGenerator.js:38-208 | no two pieces of one colour start on the same square |
| PieceGenerator.InitialPlacementIsStandard | src/PieceGenerator/PieceGenerator.js:214-245 | the 32 pieces `getAllPieces` lists (white first) stand on 32 distinct squares, each holding the standard starting occupant |
| PieceGenerator.GetPieceNumbering | src/PieceGenerator/PieceGenerator.js:255-257 | after `initPieces`, `getPiece(color, kind, n)` is the piece with exactly that colour, kind and number |
| LetterPieceGenerator.InitPawns | src/components/objects/Pieces/PieceGenerator/PieceGenerator.js:20-31 | eight pawns in row b (white) or g (black), column i, numbered i + 1 |
| LetterPieceGenerator.InitPiecesShape | src/components/objects/Pieces/PieceGenerator/PieceGenerator.js:37-167 | both colours get 8/2/2/2/1/1 pieces of the right kind and colour, numbered from 1, unpromoted, in the pawn row or major row |
| LetterPieceGenerator.RosterShape | src/components/objects/Pieces/PieceGenerator/PieceGenerator.js:20-139 | one colour's roster has 8 pawns, 2 rooks, 2 knights, 2 bishops, a queen and a king, numbered from 1, unpromoted, on the pawn or major-piece row |
| LetterPieceGenerator.GetPiece | src/components/objects/Pieces/PieceGenerator/PieceGenerator.js:180-182 | a piece is returned exactly for numbers 1..length, the (number - 1)-th entry |
| LetterPieceGenerator.InitPieces | src/components/objects/Pieces/PieceGenerator/PieceGenerator.js:146-166 | both colours get a roster with all six kind lists |
| LetterPieceGenerator.AllPiecesMembership | src/components/objects/Pieces/PieceGenerator/PieceGenerator.js:168-178 | `getAllPieces` holds every piece of every list of both colours, and nothing else |
| LetterPieceGenerator.ResetList | src/components/objects/Pieces/PieceGenerator/PieceGenerator.js:184-191 | each piece of a list is moved to the centroid of its own initial chess position, nothing else changed |
| LetterPieceGenerator.ResetPieces | src/components/objects/Pieces/PieceGenerator/PieceGenerator.js:184-191 | reset keeps every colour and kind list and resets each list |
| LetterPieceGenerator.InitPiecesAtInitialCentres | src/components/objects/Pieces/PieceGenerator/PieceGenerator.js:20-167 | every freshly created piece stands on the centroid of its initial position |
| LetterPieceGenerator.RosterAtCentres | src/components/objects/Pieces/PieceGenerator/PieceGenerator.js:20-139 | every list of a freshly built roster stands on the centroids of its initial positions |
| LetterPieceGenerator.ResetReturnsToCentres | src/components/objects/Pieces/PieceGenerator/PieceGenerator.js:184-191 | pieces that started on their centroids return there on reset, wherever they were moved in between |
| LetterPieceGenerator.ResetRestoresInitialPlacement | src/components/objects/Pieces/PieceGenerator/PieceGenerator.js:146-191 | resetting a game whose pieces were only moved gives back exactly the initial placement |
| LetterPieceGenerator.ResetIdempotent | src/components/objects/Pieces/PieceGenerator/PieceGenerator.js:184-191 | resetting twice is resetting once |
| RulesEngine.Move | src/ChessGameEngine/ChessGameEngine.js:128-133 | a move is accepted exactly when the rules say so, and then appends one record of the side to move and keeps the earlier history |
| RulesEngine.Undo | src/ChessGameEngine/ChessGameEngine.js:160-161 | undo fails exactly on an empty history, and otherwise splits off the last record |
| RulesEngine.UndoInvertsMove | src/ChessGameEngine/ChessGameEngine.js:128-161 | undoing an accepted move gives back the previous history and that move's record |
| RulesEngine.MovePassesTurn | src/ChessGameEngine/ChessGameEngine.js:220-222 | an accepted move passes the turn to the other side |
| RulesEngine.TurnAlternates | src/ChessGameEngine/ChessGameEngine.js:220-222 | chess.js `turn()` as the engine reads it: White at the start, and every recorded move passes the turn to the other side |
| GameEngine.NewEngine | src/ChessGameEngine/ChessGameEngine.js:12-19 | a new engine has an empty history (White to move), no selection or start position, and every piece in play |
| GameEngine.SelectPiece | src/ChessGameEngine/ChessGameEngine.js:79-97 | selection changes nothing unless the piece is the side to move's and has a destination; otherwise it selects the piece, records its start position, flags it and marks every destination, and touches no other piece |
| GameEngine.DeselectPiece | src/ChessGameEngine/ChessGameEngine.js:99-105 | with a selection, it clears the selection, the start position, the marks and that piece's flag; otherwise nothing changes |
| GameEngine.CapturePiece | src/ChessGameEngine/ChessGameEngine.js:144-152 | the piece leaves the pieces in play (all else kept), is flagged captured, and is pushed onto the opposing side's stack; nothing else changes |
| GameEngine.MovePiece | src/ChessGameEngine/ChessGameEngine.js:127-139 | a rejected move changes nothing; an accepted one records the move, puts the selected piece on the tile, clears marks and selection, sets `moveMade` and keeps the start position |
| GameEngine.HandlePieceMove | src/ChessGameEngine/ChessGameEngine.js:119-125 | with an occupant, the occupant is captured (stack total +1) whatever the rules say; without one it is exactly a move |
| GameEngine.HandleTileClick | src/ChessGameEngine/ChessGameEngine.js:64-74 | a tile click does nothing unless a piece is selected and the tile is marked |
| GameEngine.HandlePieceClick | src/ChessGameEngine/ChessGameEngine.js:46-62 | weaker: its own contract states only that references stay valid; its behaviour is stated case by case by GameEngine.PieceClickOutcomes |
| GameEngine.FindMover | src/ChessGameEngine/ChessGameEngine.js:162-166 | `find` returns the first piece of the colour on the named square, or nothing when no piece matches |
| GameEngine.UndoMove | src/ChessGameEngine/ChessGameEngine.js:158-191 | undo does nothing unless a move was made, reports an empty history, otherwise drops the last move; on success it clears `moveMade` and the start position, and after a capture pops the mover's stack and revives the popped piece; `pieces` is never changed |
| GameEngine.UndoRecord | src/ChessGameEngine/ChessGameEngine.js:162-190 | after chess.js gives back the last move, the history is the rest; on success the stacks change only by the capture pop |
| GameEngine.ReviveCaptured | src/ChessGameEngine/ChessGameEngine.js:173-190 | the capture branch pops the mover's stack, leaves the other stack, and un-captures the popped piece |
| GameEngine.EndTurn | src/ChessGameEngine/ChessGameEngine.js:193-197 | turn end clears `moveMade` and the start position, sets the turn from chess.js, and changes nothing else |
| GameEngine.MarksFollowSelectionPreserved | src/ChessGameEngine/ChessGameEngine.js:46-197 | no operation leaves marked tiles behind without a selection |
| GameEngine.SelectMarksExactlyDestinations | src/ChessGameEngine/ChessGameEngine.js:79-97 | with `legalMoves` asking chess.js for the piece's square name, from no selection, a piece is selected exactly when it belongs to the side to move and has a destination, and then the marks are exactly the destinations chess.js lists |
| GameEngine.PieceClickOutcomes | src/ChessGameEngine/ChessGameEngine.js:46-62 | the four cases of a piece click: deselect, reselect a same-colour piece (exactly when it may move), capture an opposing piece, or select from nothing |
| GameEngine.ClicksSetMoveMadeOnlyByAcceptedMove | src/ChessGameEngine/ChessGameEngine.js:127-139 | a click adds at most one move to the history, and `moveMade` becomes set only through an accepted move |
| GameEngine.TileClickNeverCaptures | src/ChessGameEngine/ChessGameEngine.js:64-74 | a tile click never changes the pieces in play or the capture stacks |
| GameEngine.FindOnlyPieceOnSquare | src/ChessGameEngine/ChessGameEngine.js:162-166 | when only one listed piece stands on its square, `find` by that square's name and its colour returns it |
| GameEngine.FindMoverUnique | src/ChessGameEngine/ChessGameEngine.js:162-166 | a unique match is what `find` returns |
| GameEngine.FirstMover | src/ChessGameEngine/ChessGameEngine.js:162-166 | the index `find` stops at: no earlier entry matches the colour and square, and the entry there does when it is inside the list |
| GameEngine.MoverAloneOnDestination | src/ChessGameEngine/ChessGameEngine.js:162-166 | after a capture has taken the destination's occupant out of play, `find` on that square and colour returns the capturing piece |
| GameEngine.MoverAloneOnEmptyTarget | src/ChessGameEngine/ChessGameEngine.js:162-166 | after a move onto a square no piece in play occupied, `find` on that square and colour returns the moved piece |
| GameEngine.CaptureClickEffect | src/ChessGameEngine/ChessGameEngine.js:119-152 | an accepted capture click records the move, moves the mover, captures only the clicked piece, and pushes it onto the taking side's stack |
| GameEngine.MoverFoundAfterCapture | src/ChessGameEngine/ChessGameEngine.js:162-166 | after a capturing click, undo's `find` locates the mover |
| GameEngine.UndoOfCapture | src/ChessGameEngine/ChessGameEngine.js:158-191 | undoing a capture moves the mover back, pops the stack, revives the popped piece on the destination, and changes no other piece or state |
| GameEngine.UndoOfQuietMove | src/ChessGameEngine/ChessGameEngine.js:158-172 | undoing a non-capturing move changes only the mover, the history, the start position and `moveMade` |
| GameEngine.UndoOfRecordedMove | src/ChessGameEngine/ChessGameEngine.js:158-172 | the program's undo of a recorded non-capturing move restores everything the move changed and clears the selection state |
| GameEngine.UndoOfRecordedCapture | src/ChessGameEngine/ChessGameEngine.js:158-191 | the program's undo of a recorded capture restores every piece object and both capture stacks, but not `pieces` |
| GameEngine.CaptureUndoRoundTrip | src/ChessGameEngine/ChessGameEngine.js:144-191 | capture then undo restores the history, both stacks and every piece object, but the captured piece stays out of `pieces` (finding B) |
| GameEngine.RejectedCaptureClickStillCaptures | src/ChessGameEngine/ChessGameEngine.js:119-133 | a capture click that chess.js rejects still takes the piece out of play onto a stack, with no move recorded (finding A) |
| GameEngine.MovedPieceStaysFlagged | src/ChessGameEngine/ChessGameEngine.js:127-139 | after an accepted move the moved piece is still flagged selected although nothing is selected (finding C) |
| GameEngine.TileClickOntoOccupiedSquareSkipsCapture | src/ChessGameEngine/ChessGameEngine.js:64-74 | a tile click onto a marked occupied square records a capture in chess.js but captures nothing, leaving two pieces on one square (finding D) |
| CorrectedEngine.MovePiece | src/ChessGameEngine/ChessGameEngine.js:127-139 | as `movePiece`, and the moved piece's selected flag is cleared with the selection |
| CorrectedEngine.HandlePieceMove | src/ChessGameEngine/ChessGameEngine.js:107-125 | a rejected move changes nothing; an accepted one records the move and clears the selection; without a reported capture the pieces and stacks are untouched |
| CorrectedEngine.HandlePieceClick | src/ChessGameEngine/ChessGameEngine.js:25-62 | clicking the selected piece deselects it; clicking an opposing piece is exactly a move onto its square |
| CorrectedEngine.HandleTileClick | src/ChessGameEngine/ChessGameEngine.js:64-74 | a click on a marked tile with a selection is exactly a move there; any other tile click changes nothing |
| CorrectedEngine.UndoMove | src/ChessGameEngine/ChessGameEngine.js:158-191 | same outcome as `undoMove`, and after undoing a capture the revived piece is back in `pieces` |
| CorrectedEngine.FlagsFollowSelectionPreserved | src/ChessGameEngine/ChessGameEngine.js:46-197 | the selected flag is set exactly on the selected piece before and after every click, undo and turn end |
| CorrectedEngine.SelectKeepsFlags | src/ChessGameEngine/ChessGameEngine.js:79-97 | selecting from no selection keeps flags following the selection |
| CorrectedEngine.HandlePieceMoveKeepsFlags | src/ChessGameEngine/ChessGameEngine.js:119-152 | a move, with or without a capture, keeps flags following the selection |
| CorrectedEngine.PieceClickKeepsFlags | src/ChessGameEngine/ChessGameEngine.js:25-62 | a piece click of the corrected engine keeps selection and mark flags following the selection |
| CorrectedEngine.UndoKeepsFlags | src/ChessGameEngine/ChessGameEngine.js:158-191 | the corrected undo keeps selection and mark flags following the selection |
| CorrectedEngine.RejectedCaptureClickChangesNothing | src/ChessGameEngine/ChessGameEngine.js:36-38 | clicking an opposing piece the rules do not allow taking changes nothing |
| CorrectedEngine.CaptureByEitherClick | src/ChessGameEngine/ChessGameEngine.js:107-125 | reaching an opposing piece by tile click or piece click is the same; it is captured onto the mover's stack and the mover takes its square |
| CorrectedEngine.CaptureFindsOccupant | src/ChessGameEngine/ChessGameEngine.js:162-166 | on a board with one piece per square, the opposing occupant of the destination is the piece found to capture |
| CorrectedEngine.SelectFromIdle | src/ChessGameEngine/ChessGameEngine.js:79-97 | selecting from rest changes only the selection, start position, the piece's flag and the marks |
| CorrectedEngine.CaptureFromSelection | src/ChessGameEngine/ChessGameEngine.js:46-152 | select then capture leaves the described state: move recorded, mover moved, target captured and stacked, selection cleared |
| CorrectedEngine.MoverFoundAfterCapture | src/ChessGameEngine/ChessGameEngine.js:162-166 | after select and capture, undo's `find` locates the mover |
| CorrectedEngine.UndoRestoresAllButPieces | src/ChessGameEngine/ChessGameEngine.js:158-191 | from rest, select, capture and the program's undo restore everything except `pieces` |
| CorrectedEngine.CaptureThenUndoRestores | src/ChessGameEngine/ChessGameEngine.js:144-191 | from rest, select, capture and corrected undo restore the engine exactly, up to the order of `pieces` (same multiset) |
| CorrectedEngine.UndoOfRecordedCaptureRestores | src/ChessGameEngine/ChessGameEngine.js:158-191 | the corrected undo of a recorded capture puts the captured piece back among the pieces in play, restoring the pieces as a multiset |
| CorrectedEngine.ReaddRestoresMultiset | src/ChessGameEngine/ChessGameEngine.js:145-191 | removing a piece that occurs once and appending it again gives back the same multiset of pieces |
| CorrectedEngine.QuietMoveThenUndoRestores | src/ChessGameEngine/ChessGameEngine.js:158-172 | from rest, select, move to an empty marked tile and undo restore the engine exactly |
| ClickController.NewController | src/components/controllers/ChessController.js:6-19 | a new controller has nothing selected and empty capture lists and strings |
| ClickController.CaptureLetter | src/components/controllers/ChessController.js:125 | the captured letter is the kind code upper-cased: one character in A..Z, 32 below the code |
| ClickController.AddCapturedPiece | src/components/controllers/ChessController.js:123-134 | a captured white piece's letter goes onto black's list, a black piece's onto white's, and both strings equal their joined lists |
| ClickController.JoinAppend | src/components/controllers/ChessController.js:128-129 | joining a list with one more entry extends the previous joined string by the separator and the entry |
| ClickController.JoinOfLetters | src/components/controllers/ChessController.js:128-129 | a joined list of n letters has length 3n - 2 with the k-th letter at position 3k |
| ClickController.PieceAtTile | src/components/controllers/ChessController.js:93-101 | the scene walk returns the last piece that reports the tile, captured or not, or nothing when no piece stands there |
| ClickController.PieceInPlayAtTile | src/components/controllers/ChessController.js:93-101 | the corrected lookup returns the last piece still in play on the tile, or nothing when none stands there |
| ClickController.MovePiece | src/components/controllers/ChessController.js:103-120 | the selected piece goes to the tile; an occupant of the other colour is flagged captured and one letter recorded, otherwise no other piece and no list changes |
| ClickController.SelectOrMovePiece | src/components/controllers/ChessController.js:56-91 | weaker: its own contract states only validity and size; its behaviour is stated by ClickController.ClickOutcomes and ClickController.ClickKeepsInvariants |
| ClickController.Deselect | src/components/controllers/ChessController.js:85-90 | clears the selected piece's flag and the selection, keeping the capture lists |
| ClickController.ClickOutcomes | src/components/controllers/ChessController.js:56-91 | the click cases: select from nothing, unselect the selected piece, move onto another piece's tile or a clicked tile, and ignore anything else |
| ClickController.ClickKeepsInvariants | src/components/controllers/ChessController.js:56-134 | every click keeps flags following the selection, the strings equal to the joined lists, and each list at least as long as the count of captured pieces of the other colour |
| ClickController.CorrectedClickKeepsLedger | src/components/controllers/ChessController.js:56-134 | with the corrected lookup every click keeps each list exactly as long as the count of captured pieces of the other colour |
| ClickController.FlagChangeKeepsCounts | src/components/controllers/ChessController.js:67-83 | setting or clearing a selected flag leaves the captured counts unchanged |
| ClickController.CapturedCountFrame | src/components/controllers/ChessController.js:114-118 | changing a piece without changing its colour or captured flag leaves the counts unchanged |
| ClickController.CapturedCountCapture | src/components/controllers/ChessController.js:108-111 | capturing a piece in play adds one to its colour's count only |
| ClickController.MoveKeepsFlags | src/components/controllers/ChessController.js:103-120 | a move never changes a selected flag |
| ClickController.MoveCapturesOnlyOpponents | src/components/controllers/ChessController.js:107-112 | after a move the occupant is captured exactly when it already was or its colour differs from the mover's, and a letter is added exactly in the second case |
| ClickController.MoveCounts | src/components/controllers/ChessController.js:103-134 | a capture adds one letter to the capturing side's list, while the captured count of the occupant's colour grows only when the occupant was still in play |
| ClickController.MoveKeepsLedgerCovered | src/components/controllers/ChessController.js:103-134 | with either lookup, a move keeps each list at least as long as the count of captured pieces of the other colour |
| ClickController.MoveKeepsLedgerMatched | src/components/controllers/ChessController.js:103-134 | with the corrected lookup, a move keeps each list exactly as long as the count of captured pieces of the other colour |
| ClickController.RecaptureAddsSecondLetter | src/components/controllers/ChessController.js:93-111 | a captured black pawn last on a shared square is taken again: white's list reads "P", "P" for one captured black piece |
| ClickController.CorrectedLookupSkipsCapturedPiece | src/components/controllers/ChessController.js:106-111 | on the same scene the corrected lookup finds the white queen, captures nothing, and the ledger still matches |

## Left out

- Rendering: three.js scenes, meshes, materials, lights, the GUI and the camera are not modelled. This includes `GameGUI.js`, the scene classes and the `console` output. It also includes `updateCapturesGUI`, which no file defines; the model treats the call to it as one that returns (see above).
- Geometry and input: the mouse-to-ray conversion (`onMouseClick`, `getBoardPositionFromIntersect`) is left out, along with float geometry. A click arrives as the clicked piece or tile.
- Legacy tile lookup: the legacy board helpers `getTileByChessPosition`, `getTileByAlgebraicNotation`, `algebraicToIndices`, `markTile` and `unmarkTiles` are not part of this model. Tiles are named by their matrix position, square names are parsed by `ChessConfig.ParseSquare`, and the marks are a set of square names.
- Chess rules: chess.js is abstract, so move legality, check, castling, promotion choice and en passant are not decided here. An en passant capture, whose captured pawn is not on the destination square, is therefore not distinguished.
- GameEngine.LegalMoves: carries no contract of its own, because chess.js move generation is abstract (`Rules.legalMoves`). Its use is stated by `GameEngine.SelectMarksExactlyDestinations`. The engine's `legalMoves` also passes a `pieceType` argument that chess.js ignores. `moveNumber` and `anyPieceSelected` are trivial reads and are left out.
- Legacy `resetPieces`: it calls `reset()` on each legacy piece. That method is not part of this model, so the legacy reset is left out. The component generator's reset is modelled.
- Model loading: `createRook`, `createKnight` and the other factory helpers of both generators only attach a 3D model and are not modelled separately.
- ClickController.MovePiece: keeps the piece's own height when it moves. This is a float coordinate, so the model's world position is the tile centre.
- ClickController.IsValidMove: returns true for every move, as the source does.
- GameEngine.HandlePieceClick: its own contract states only that references stay valid. Its behaviour is stated case by case by `GameEngine.PieceClickOutcomes`.
- ClickController.SelectOrMovePiece: its own contract states only validity and size. Its behaviour is stated by `ClickController.ClickOutcomes` and `ClickController.ClickKeepsInvariants`.
- PieceGenerator.InitPawns: states `number == i + 1`, the ordinal the generator passes. The four-parameter constructor drops that fifth argument and binds `number` to the tile's world position.
- PieceGenerator.RosterShape: states numbering from 1 for every list, for the same reason as `InitPawns`. The major pieces' constructor calls have the same argument shift.
- PieceGenerator.CreatePiece: keeps `number` as passed. The constructor call binds `number` to `worldPos` and drops `number`.
- PieceGenerator.GetPieceNumbering: relies on the numbering above, which the constructor calls as written never pass.
- GameState's `updateList`: the list of objects to update each frame is rendering state and is left out with the rest of rendering.

## Findings

| source | as written | input that shows it | evidently intended | confidence | as-written member | corrected member |
|---|---|---|---|---|---|---|
| src/ChessGameEngine/ChessGameEngine.js:53-58 | clicking an opposing piece captures it before chess.js is asked whether the move is legal | select a piece, then click an opposing piece it cannot legally take: the move is rejected, yet the clicked piece is out of play and on a capture stack | a capture click the rules reject changes nothing (the method's own comment at lines 36-38) | not executed | GameEngine.RejectedCaptureClickStillCaptures | CorrectedEngine.RejectedCaptureClickChangesNothing |
| src/ChessGameEngine/ChessGameEngine.js:173-190 | `undoMove` revives the captured piece on the board but never adds it back to `this.pieces` | select, capture by clicking the opposing piece, undo: every piece object and stack is restored, but the revived piece is missing from `pieces`, so a later `find` cannot see it | undo after a capture restores the pieces in play | not executed | GameEngine.CaptureUndoRoundTrip | CorrectedEngine.CaptureThenUndoRestores |
| src/ChessGameEngine/ChessGameEngine.js:135-137 | `movePiece` drops the selection without calling `deselect`, so the moved piece keeps its selected flag | select a piece and click a marked empty tile: nothing is selected, but the moved piece is still flagged | the selected flag is set exactly on the selected piece | not executed | GameEngine.MovedPieceStaysFlagged | CorrectedEngine.FlagsFollowSelectionPreserved |
| src/ChessGameEngine/ChessGameEngine.js:73 | `handleTileClick` calls `handlePieceMove` without the occupant, so a capturing move made by clicking the tile captures nothing | select a piece, then click the marked tile under an opposing piece: chess.js records a capture, the stacks do not grow, and two pieces share the square | a capture happens whichever click submits the move (lines 107-111) | not executed | GameEngine.TileClickOntoOccupiedSquareSkipsCapture | CorrectedEngine.CaptureByEitherClick |
| src/components/controllers/ChessController.js:93-111 | `getPieceAtTile` keeps the last piece reporting the tile, captured or not, and `movePiece` captures it again | a white queen and a captured black pawn share a square, the pawn later in the scene walk; the selected white rook moves there: white's list gains a second "P" for the one captured pawn | only a piece in play occupies a tile, so each list keeps one letter per captured piece | not executed | ClickController.RecaptureAddsSecondLetter | ClickController.CorrectedClickKeepsLedger |
