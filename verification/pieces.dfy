/** The piece objects of src/components/objects/Pieces: identity (kind,
    colour, sequence number), the initial chess position the piece is built
    with, its world position, and the promotion state `Pawn.promote` sets. */
module Pieces {
  import opened ChessTypes
  import Board

  /** A position as the letter-keyed generator writes it: the key of a row
      of `tilePositionMatrix` and an index into that row. */
  datatype LetterSquare = LetterSquare(row: char, column: int)

  datatype Piece = Piece(
    kind: PieceType,
    color: Color,
    initChessPos: LetterSquare,
    number: int,
    world: Board.Centroid,
    promoted: bool,
    promotedTo: Option<PieceType>)

  /** A piece as its constructor leaves it: not promoted. */
  function NewPiece(kind: PieceType, color: Color, at: LetterSquare, number: int, world: Board.Centroid): Piece {
    Piece(kind, color, at, number, world, false, None)
  }

  /** `Pawn.promote(type)`: only pawns have the method. It records the
      promotion and the new kind and leaves every other field alone. */
  function Promote(p: Piece, to: PieceType): (r: Piece)
    requires p.kind == Pawn
    ensures r.promoted && r.promotedTo == Some(to)
    ensures r.kind == p.kind && r.color == p.color && r.number == p.number
    ensures r.initChessPos == p.initChessPos && r.world == p.world
  {
    p.(promoted := true, promotedTo := Some(to))
  }

  /** Promoting twice to the same kind is promoting once; a later promotion
      overwrites the earlier choice. */
  lemma PromoteIdempotentAndOverwrites(p: Piece, t: PieceType, u: PieceType)
    requires p.kind == Pawn
    ensures Promote(Promote(p, t), t) == Promote(p, t)
    ensures Promote(Promote(p, t), u) == Promote(p, u)
  {
  }
}
