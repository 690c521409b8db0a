/** The integer skeleton of src/components/objects/Board/Board.js: the
    checker colouring of the 64 geometry groups built by `createBoard`, the
    board's own column tables, and the shape of `tilePositionMatrix`. */
module Board {
  import opened ChessTypes
  import ChessConfig

  const TileCount: nat := 64

  /** Each tile of the plane geometry is two triangles, six vertex indices. */
  const VertexCount: nat := 6

  /** A geometry group: a run of `count` indices from `start`, drawn with
      material `materialIndex` (0 white, 1 black). */
  datatype Group = Group(start: nat, count: nat, materialIndex: nat)

  /** The checker colour of tile `i` of the row-major 8×8 plane. */
  function CheckerIndex(i: nat): nat {
    ((i / 8) + (i % 8)) % 2
  }

  /** Moving one tile right in a row flips the colour; wrapping to the next
      row keeps it. */
  lemma CheckerStep(i: nat)
    ensures (i + 1) % 8 != 0 ==> CheckerIndex(i + 1) != CheckerIndex(i)
    ensures (i + 1) % 8 == 0 ==> CheckerIndex(i + 1) == CheckerIndex(i)
  {
    if (i + 1) % 8 != 0 {
      assert (i + 1) / 8 == i / 8 && (i + 1) % 8 == i % 8 + 1;
    } else {
      assert (i + 1) / 8 == i / 8 + 1 && i % 8 == 7;
    }
  }

  /** The group-building loop of `createBoard`: a `black` flag that toggles
      after every tile except the last of each row. */
  method CreateBoard() returns (groups: seq<Group>)
    ensures |groups| == TileCount
    ensures forall i :: 0 <= i < |groups| ==>
      groups[i].start == VertexCount * i && groups[i].count == VertexCount
    ensures forall i :: 0 <= i < |groups| ==> groups[i].materialIndex == CheckerIndex(i)
  {
    var black := false;
    groups := [];
    var i := 0;
    while i < TileCount
      invariant 0 <= i <= TileCount
      invariant |groups| == i
      invariant forall j :: 0 <= j < i ==>
        groups[j] == Group(VertexCount * j, VertexCount, CheckerIndex(j))
      invariant black <==> CheckerIndex(i) == 1
    {
      var materialIndex := if black then 1 else 0;
      var start := i * VertexCount;
      groups := groups + [Group(start, VertexCount, materialIndex)];
      CheckerStep(i);
      if (i + 1) % 8 != 0 {
        black := !black;
      }
      i := i + 1;
    }
  }

  /** The colouring the loop produces: tile 0 is white, neighbours in
      a row differ, and the last tile of a row matches the first of the next. */
  lemma CheckerPattern(i: nat)
    requires i + 1 < TileCount
    ensures CheckerIndex(0) == 0
    ensures i % 8 != 7 ==> CheckerIndex(i) != CheckerIndex(i + 1)
    ensures i % 8 == 7 ==> CheckerIndex(i) == CheckerIndex(i + 1)
  {
    CheckerStep(i);
  }

  /** The groups are contiguous and disjoint and together cover the index
      range [0, 384): every index lies in exactly one group, the one numbered
      `k / 6`. */
  lemma GroupsPartitionIndices(groups: seq<Group>, k: int)
    requires |groups| == TileCount
    requires forall i :: 0 <= i < |groups| ==>
      groups[i].start == VertexCount * i && groups[i].count == VertexCount
    requires 0 <= k < VertexCount * TileCount
    ensures 0 <= k / VertexCount < |groups|
    ensures groups[k / VertexCount].start <= k < groups[k / VertexCount].start + groups[k / VertexCount].count
    ensures forall i :: 0 <= i < |groups| && groups[i].start <= k < groups[i].start + groups[i].count ==>
      i == k / VertexCount
  {
    forall i | 0 <= i < |groups| && groups[i].start <= k < groups[i].start + groups[i].count
      ensures i == k / VertexCount
    {
      assert 6 * i <= k < 6 * i + 6;
    }
  }

  // ---------------------------------------------------------------------------
  // Column tables and tile centres.

  /** The board's own `chessFieldColumns`. */
  const ChessFieldColumns: map<char, int> :=
    map['a' := 7, 'b' := 6, 'c' := 5, 'd' := 4, 'e' := 3, 'f' := 2, 'g' := 1, 'h' := 0]

  /** The board's own `chessFieldLetters`. */
  const ChessFieldLetters: map<int, char> :=
    map[7 := 'a', 6 := 'b', 5 := 'c', 4 := 'd', 3 := 'e', 2 := 'f', 1 := 'g', 0 := 'h']

  /** The board's tables are inverse bijections between {a..h} and {0..7},
      and coincide with the ones of src/config/ChessConfig.js. */
  lemma FieldTablesInverse()
    ensures ChessFieldColumns.Keys == ChessConfig.Files
    ensures forall f :: f in ChessFieldColumns ==>
      0 <= ChessFieldColumns[f] < Divisions && ChessFieldLetters[ChessFieldColumns[f]] == f
    ensures forall c :: 0 <= c < Divisions ==>
      c in ChessFieldLetters && ChessFieldColumns[ChessFieldLetters[c]] == c
    ensures ChessFieldColumns == ChessConfig.ChessFieldColumns
    ensures ChessFieldLetters == ChessConfig.ChessFieldLetters
  {
    ChessConfig.FieldTablesInverse();
  }

  /** A tile centre in world space, in tile units from the a8 corner: `x`
      steps along the rank index `j`, `z` steps by the column of the key. */
  datatype Centroid = Centroid(x: int, z: int)

  /** `createTilePositionMatrix`: one row of `DIVISIONS` centroids per file key. */
  function TilePositionMatrix(): (m: map<char, seq<Centroid>>)
    ensures m.Keys == ChessConfig.Files
    ensures forall key :: key in m ==> |m[key]| == Divisions
  {
    map key | key in ChessConfig.Files :: seq(Divisions, j => Centroid(j, ChessFieldColumns[key]))
  }

  /** No two entries of the matrix denote the same centroid. */
  lemma TilePositionsDistinct(k1: char, j1: int, k2: char, j2: int)
    requires k1 in TilePositionMatrix() && 0 <= j1 < Divisions
    requires k2 in TilePositionMatrix() && 0 <= j2 < Divisions
    requires (k1, j1) != (k2, j2)
    ensures TilePositionMatrix()[k1][j1] != TilePositionMatrix()[k2][j2]
  {
    FieldTablesInverse();
  }
}
