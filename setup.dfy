/**
 * Board setup: the empty board is built from the square translations, then
 * the 32 pieces are spawned in the program's listing order (white pawns on
 * rank 2, white back rank, black pawns on rank 7, black back rank), each
 * spawn inserting the new piece into the board.
 */
module Setup {
  import opened Options
  import opened Coords
  import opened Pieces
  import opened Occupancy
  import opened Board

  datatype Placement = Placement(team: Team, square: Coord, kind: PieceKind)

  const PieceCount: nat := 32

  /** Back-rank order from file A to file H. */
  function BackRank(file: nat): PieceKind
    requires file < 8
  {
    [Rook, Knight, Bishop, Queen, King, Bishop, Knight, Rook][file]
  }

  /** The rank index (0-based) of each block of eight spawns. */
  function BlockRank(block: nat): (rank: int)
    requires block < 4
    ensures 0 <= rank < 8
  {
    [1, 0, 6, 7][block]
  }

  /** The `k`-th `ChessPiece::spawn` of `ChessBoard::spawn`. */
  function PlacementAt(k: nat): Placement
    requires k < PieceCount
  {
    var block := k / 8;
    Placement(if k < 16 then White else Black,
              Pos(k % 8, BlockRank(block)),
              if block % 2 == 0 then Pawn else BackRank(k % 8))
  }

  function Layout(): (ps: seq<Placement>)
    ensures |ps| == PieceCount
    ensures forall k :: 0 <= k < PieceCount ==> ps[k] == PlacementAt(k)
  {
    seq(PieceCount, k requires 0 <= k < PieceCount => PlacementAt(k))
  }

  /** Spawn `8 * block + file` places its piece on `file` of the block's rank. */
  lemma SpawnSquare(block: nat, file: nat)
    requires block < 4 && file < 8
    ensures 8 * block + file < PieceCount
    ensures PlacementAt(8 * block + file).square == Pos(file, BlockRank(block))
  {
    var k := 8 * block + file;
    assert k / 8 == block && k % 8 == file;
  }

  /** Every spawn lands on rank 1, 2, 7 or 8, and it is White exactly when it lands on rank 1 or 2. */
  lemma SpawnRank(k: nat)
    requires k < PieceCount
    ensures PlacementAt(k).square.y < 2 || 6 <= PlacementAt(k).square.y
    ensures PlacementAt(k).team == White <==> PlacementAt(k).square.y < 2
  {
    var block := k / 8;
    assert block == 0 || block == 1 || block == 2 || block == 3;
  }

  /** No two spawns share a square. */
  lemma LayoutSquaresDistinct(j: nat, k: nat)
    requires j < k < PieceCount
    ensures PlacementAt(j).square != PlacementAt(k).square
  {
    if j % 8 == k % 8 {
      assert j / 8 != k / 8;
      assert BlockRank(j / 8) != BlockRank(k / 8);
    }
  }

  /** No two entries of a listing share a square. */
  ghost predicate DistinctSquares(layout: seq<Placement>)
  {
    forall j, k :: 0 <= j < k < |layout| ==> layout[j].square != layout[k].square
  }

  /** The opening listing places every piece on its own square. */
  lemma LayoutDistinct()
    ensures DistinctSquares(Layout())
  {
    forall j, k | 0 <= j < k < |Layout()| ensures Layout()[j].square != Layout()[k].square {
      LayoutSquaresDistinct(j, k);
    }
  }

  /** The occupancy after the first `i` spawns of `layout`, spawn `i` inserting piece `i` on its square. */
  function Placed(layout: seq<Placement>, i: nat): (v: BoardView)
    requires i <= |layout|
    ensures Complete(v)
  {
    if i == 0 then EmptyView()
    else Insert(Placed(layout, i - 1), PieceId(i - 1), layout[i - 1].square)
  }

  /** After `i` spawns, exactly the pieces spawned so far are tracked. */
  lemma {:induction false} PlacedTracks(layout: seq<Placement>, i: nat)
    requires i <= |layout|
    ensures forall p :: p in Placed(layout, i).occupants <==> p.id < i
  {
    if i > 0 {
      PlacedTracks(layout, i - 1);
      forall p ensures p in Placed(layout, i).occupants <==> p.id < i {
        if p.id == i - 1 {
          assert p == PieceId(i - 1);
        }
      }
    }
  }

  /** After `i` spawns, each spawned piece is indexed at its own square. */
  lemma {:induction false} PlacedIndex(layout: seq<Placement>, i: nat)
    requires i <= |layout|
    ensures forall j :: 0 <= j < i ==> PieceId(j) in Placed(layout, i).occupants
    ensures forall j :: 0 <= j < i ==> Placed(layout, i).occupants[PieceId(j)] == layout[j].square
  {
    if i > 0 {
      PlacedIndex(layout, i - 1);
      forall j | 0 <= j < i
        ensures PieceId(j) in Placed(layout, i).occupants
        ensures Placed(layout, i).occupants[PieceId(j)] == layout[j].square
      {
        if j < i - 1 {
          assert PieceId(j) != PieceId(i - 1);
        }
      }
    }
  }

  /**
   * On a bijective board that tracks exactly pieces `0` to `i - 1`, each on
   * its listed square, a square no listed piece stands on is empty.
   */
  lemma UnlistedSquareFree(v: BoardView, layout: seq<Placement>, i: nat, square: Coord)
    requires i <= |layout|
    requires Bijective(v)
    requires forall p :: p in v.occupants ==> p.id < i
    requires forall j :: 0 <= j < i ==> PieceId(j) in v.occupants && v.occupants[PieceId(j)] == layout[j].square
    requires forall j :: 0 <= j < i ==> layout[j].square != square
    ensures v.cells[square] == None
  {
    forall p | p in v.occupants ensures v.occupants[p] != square {
      assert p == PieceId(p.id);
    }
  }

  /** In a listing with distinct squares, entry `i` shares its square with no earlier entry. */
  lemma DistinctBefore(layout: seq<Placement>, i: nat)
    requires i < |layout|
    requires DistinctSquares(layout)
    ensures forall j :: 0 <= j < i ==> layout[j].square != layout[i].square
  {
  }

  /** The next spawn's square is still free, so the assertion of `insert_piece` holds. */
  lemma NextSquareFree(layout: seq<Placement>, i: nat)
    requires i < |layout|
    requires forall j :: 0 <= j < i ==> layout[j].square != layout[i].square
    requires Bijective(Placed(layout, i))
    ensures Placed(layout, i).cells[layout[i].square] == None
  {
    PlacedTracks(layout, i);
    PlacedIndex(layout, i);
    UnlistedSquareFree(Placed(layout, i), layout, i, layout[i].square);
  }

  /** After `i` spawns the board is a bijection over `i` tracked pieces. */
  lemma {:induction false} PlacedShape(layout: seq<Placement>, i: nat)
    requires i <= |layout|
    requires DistinctSquares(layout)
    ensures Bijective(Placed(layout, i))
    ensures |Placed(layout, i).occupants| == i
  {
    if i > 0 {
      PlacedShape(layout, i - 1);
      DistinctBefore(layout, i - 1);
      NextSquareFree(layout, i - 1);
      PlacedTracks(layout, i - 1);
      InsertKeepsBijection(Placed(layout, i - 1), PieceId(i - 1), layout[i - 1].square);
    }
  }

  /** Spawn `i` inserts an untracked piece on a free square. */
  lemma SpawnStep(layout: seq<Placement>, i: nat)
    requires i < |layout|
    requires DistinctSquares(layout)
    ensures Placed(layout, i).cells[layout[i].square] == None
    ensures PieceId(i) !in Placed(layout, i).occupants
  {
    PlacedShape(layout, i);
    PlacedTracks(layout, i);
    DistinctBefore(layout, i);
    NextSquareFree(layout, i);
  }

  /** The full starting position. */
  function InitialView(): (v: BoardView)
    ensures Bijective(v)
  {
    LayoutDistinct();
    PlacedShape(Layout(), |Layout()|);
    Placed(Layout(), |Layout()|)
  }

  /** The `ChessPiece` component a spawn creates: the listed kind and team, not yet moved. */
  function SpawnedPiece(placement: Placement): (piece: Piece)
    ensures !piece.hasMoved
  {
    Piece(placement.kind, placement.team, false)
  }

  /** The `ChessPiece` components after the first `i` spawns. */
  function SpawnedPieces(layout: seq<Placement>, i: nat): map<PieceId, Piece>
    requires i <= |layout|
  {
    if i == 0 then map[] else SpawnedPieces(layout, i - 1)[PieceId(i - 1) := SpawnedPiece(layout[i - 1])]
  }

  /** After `i` spawns there is a component for exactly the pieces spawned so far, each as listed. */
  lemma {:induction false} SpawnedPiecesShape(layout: seq<Placement>, i: nat)
    requires i <= |layout|
    ensures forall p :: p in SpawnedPieces(layout, i) <==> p.id < i
    ensures forall p :: p in SpawnedPieces(layout, i) ==> SpawnedPieces(layout, i)[p] == SpawnedPiece(layout[p.id])
  {
    if i > 0 {
      SpawnedPiecesShape(layout, i - 1);
      forall p ensures p in SpawnedPieces(layout, i) <==> p.id < i {
        if p.id == i - 1 {
          assert p == PieceId(i - 1);
        }
      }
      forall p | p in SpawnedPieces(layout, i) ensures SpawnedPieces(layout, i)[p] == SpawnedPiece(layout[p.id]) {
        if p != PieceId(i - 1) {
          assert p in SpawnedPieces(layout, i - 1);
        }
      }
    }
  }

  /** The `ChessPiece` components of the 32 spawned pieces. */
  function InitialPieces(): (m: map<PieceId, Piece>)
    ensures forall p :: p in m <==> p.id < PieceCount
    ensures forall p :: p in m ==> m[p] == SpawnedPiece(PlacementAt(p.id)) && !m[p].hasMoved
  {
    SpawnedPiecesShape(Layout(), |Layout()|);
    SpawnedPieces(Layout(), |Layout()|)
  }

  /** Piece `k` of the starting position stands on its listed square. */
  lemma InitialSquare(k: nat)
    requires k < PieceCount
    ensures PieceId(k) in InitialView().occupants
    ensures InitialView().occupants[PieceId(k)] == PlacementAt(k).square
    ensures InitialView().cells[PlacementAt(k).square] == Some(PieceId(k))
  {
    PlacedIndex(Layout(), |Layout()|);
    assert Layout()[k] == PlacementAt(k);
  }

  /** The square listed for piece `k` holds piece `k` in the starting position. */
  lemma InitialSquareAt(k: nat, c: Coord)
    requires k < PieceCount && PlacementAt(k).square == c
    ensures InitialView().cells[c] == Some(PieceId(k))
  {
    InitialSquare(k);
  }

  /** Every square of ranks 1, 2, 7 and 8 holds a piece in the starting position. */
  lemma InitialOuterRanksFull(c: Coord)
    requires c.y < 2 || 6 <= c.y
    ensures InitialView().cells[c].Some?
  {
    if c.y == 1 {
      InitialSquareAt(c.x, c);
    } else if c.y == 0 {
      InitialSquareAt(8 + c.x, c);
    } else if c.y == 6 {
      InitialSquareAt(16 + c.x, c);
    } else {
      InitialSquareAt(24 + c.x, c);
    }
  }

  /** Every square of ranks 3 to 6 is empty in the starting position. */
  lemma InitialMiddleEmpty(c: Coord)
    requires 2 <= c.y < 6
    ensures InitialView().cells[c] == None
  {
    var v := InitialView();
    if v.cells[c].Some? {
      var p := v.cells[c].value;
      assert p in v.occupants && v.occupants[p] == c;
      PlacedTracks(Layout(), |Layout()|);
      assert p == PieceId(p.id) && p.id < PieceCount;
      InitialSquare(p.id);
      SpawnRank(p.id);
      assert false;
    }
  }

  /** Ranks 1, 2, 7 and 8 are full in the starting position and ranks 3 to 6 empty. */
  lemma InitialRanks()
    ensures forall c: Coord :: InitialView().cells[c].None? <==> 2 <= c.y < 6
  {
    forall c: Coord ensures InitialView().cells[c].None? <==> 2 <= c.y < 6 {
      if c.y < 2 || 6 <= c.y {
        InitialOuterRanksFull(c);
      } else {
        InitialMiddleEmpty(c);
      }
    }
  }

  /** The starting position tracks as many pieces as there are components, on as many squares. */
  lemma InitialCounts()
    ensures |InitialView().occupants| == PieceCount
    ensures |Occupied(InitialView())| == PieceCount
    ensures InitialView().occupants.Keys == InitialPieces().Keys
  {
    LayoutDistinct();
    PlacedShape(Layout(), |Layout()|);
    PlacedTracks(Layout(), |Layout()|);
    OccupiedCount(InitialView());
  }

  /** A piece of the starting position is White exactly when it stands on rank 1 or 2. */
  lemma InitialTeamOf(p: PieceId)
    requires p in InitialView().occupants
    ensures p in InitialPieces()
    ensures InitialPieces()[p].team == White <==> InitialView().occupants[p].y < 2
  {
    PlacedTracks(Layout(), |Layout()|);
    assert p == PieceId(p.id) && p.id < PieceCount;
    InitialSquare(p.id);
    SpawnRank(p.id);
  }

  /**
   * The starting position tracks 32 pieces on 32 squares, and a piece is
   * White exactly when it stands on rank 1 or 2.
   */
  lemma InitialTeams()
    ensures |InitialView().occupants| == PieceCount
    ensures |Occupied(InitialView())| == PieceCount
    ensures InitialView().occupants.Keys == InitialPieces().Keys
    ensures forall p :: p in InitialView().occupants ==>
              (InitialPieces()[p].team == White <==> InitialView().occupants[p].y < 2)
  {
    InitialCounts();
    forall p | p in InitialView().occupants ensures InitialPieces()[p].team == White <==> InitialView().occupants[p].y < 2 {
      InitialTeamOf(p);
    }
  }

  /**
   * `ChessPiece::spawn`: the new piece's component, not yet moved, and its
   * insertion on the board. `id` stands for the fresh entity.
   */
  method SpawnPiece(board: ChessBoard, id: PieceId, placement: Placement) returns (piece: Piece)
    requires board.Valid()
    requires board.View().cells[placement.square] == None
    modifies board`occupants, board`cells, board.grid
    ensures piece == SpawnedPiece(placement)
    ensures board.View() == Insert(old(board.View()), id, placement.square)
    ensures board.Valid() <==> id !in old(board.occupants)
  {
    piece := Piece(placement.kind, placement.team, false);
    board.InsertPiece(id, placement.square);
  }

  /** Spawn `i` of the opening listing inserts an untracked piece on a free square. */
  lemma OpeningStep(i: nat)
    requires i < PieceCount
    ensures Placed(Layout(), i).cells[Layout()[i].square] == None
    ensures PieceId(i) !in Placed(Layout(), i).occupants
  {
    LayoutDistinct();
    SpawnStep(Layout(), i);
  }

  /** Spawn `i` of the opening listing: the piece's component joins `pieces` and the piece the board. */
  method SpawnNext(board: ChessBoard, i: nat, pieces: map<PieceId, Piece>) returns (next: map<PieceId, Piece>)
    requires i < PieceCount
    requires board.Valid() && board.View() == Placed(Layout(), i)
    requires pieces == SpawnedPieces(Layout(), i)
    modifies board`occupants, board`cells, board.grid
    ensures board.Valid() && board.View() == Placed(Layout(), i + 1)
    ensures next == SpawnedPieces(Layout(), i + 1)
  {
    OpeningStep(i);
    var piece := SpawnPiece(board, PieceId(i), Layout()[i]);
    next := pieces[PieceId(i) := piece];
  }

  /** The `ChessPiece::spawn` calls of `ChessBoard::spawn`, in listing order, on the empty board. */
  method SpawnPieces(board: ChessBoard) returns (pieces: map<PieceId, Piece>)
    requires board.Valid() && board.View() == EmptyView()
    modifies board`occupants, board`cells, board.grid
    ensures board.Valid() && board.View() == InitialView()
    ensures pieces == InitialPieces()
  {
    pieces := map[];
    for i := 0 to PieceCount
      invariant board.Valid() && board.View() == Placed(Layout(), i)
      invariant pieces == SpawnedPieces(Layout(), i)
    {
      pieces := SpawnNext(board, i, pieces);
    }
  }

  /**
   * `ChessBoard::spawn`: build the board from the square translations and,
   * when asked, spawn and insert the 32 pieces of the opening listing.
   * Piece identities stand for the fresh entities the engine allocates,
   * numbered in spawn order.
   */
  method SpawnBoard(anchorOf: Coord -> Vec3, withPieces: bool) returns (board: ChessBoard, pieces: map<PieceId, Piece>)
    ensures fresh(board) && fresh(board.grid)
    ensures board.Valid()
    ensures withPieces ==> board.View() == InitialView() && pieces == InitialPieces()
    ensures !withPieces ==> board.View() == EmptyView() && pieces == map[]
    ensures forall c: Coord :: board.anchors[c] == anchorOf(c)
  {
    board := new ChessBoard(anchorOf);
    if withPieces {
      pieces := SpawnPieces(board);
    } else {
      pieces := map[];
    }
  }
}
