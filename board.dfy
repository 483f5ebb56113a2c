/**
 * The `ChessBoard` component: an 8x8 grid of cells, each with an optional
 * occupant and the translation of the square's scene node, plus the reverse
 * index `occupants` from piece to square. The methods update both in place;
 * their `assert!`s and panics become preconditions.
 */
module Board {
  import opened Options
  import opened Coords
  import opened Pieces
  import opened Occupancy

  /** A translation as read from the board's scene node; only carried, never computed with. */
  datatype Vec3 = Vec3(x: real, y: real, z: real)

  const Origin := Vec3(0.0, 0.0, 0.0)

  datatype GridCell = GridCell(occupant: Option<PieceId>, translation: Vec3)

  /**
   * The grid of `ChessBoard::spawn`: every cell starts as
   * `GridCell::default()` and the loop over the enumeration fills in each
   * square's translation. `anchorOf` stands for the lookup of the square's
   * named scene node.
   */
  method Translations(anchorOf: Coord -> Vec3) returns (g: array2<GridCell>)
    ensures fresh(g) && g.Length0 == 8 && g.Length1 == 8
    ensures forall c: Coord :: g[c.x, c.y] == GridCell(None, anchorOf(c))
  {
    g := new GridCell[8, 8]((x, y) => GridCell(None, Origin));
    var all := AllCoords();
    for i := 0 to SquareCount
      invariant forall c: Coord :: g[c.x, c.y] == GridCell(None, if IndexOf(c) < i then anchorOf(c) else Origin)
    {
      var position := all[i];
      assert IndexOf(position) == i;
      g[position.x, position.y] := g[position.x, position.y].(translation := anchorOf(position));
      forall c: Coord ensures g[c.x, c.y] == GridCell(None, if IndexOf(c) < i + 1 then anchorOf(c) else Origin) {
        if c != position {
          assert IndexOf(c) != i;
        }
      }
    }
  }

  class ChessBoard {
    var grid: array2<GridCell>
    var occupants: map<PieceId, Coord>

    // public view of the grid: the occupant and the translation of every square
    ghost var cells: map<Coord, Option<PieceId>>
    ghost var anchors: map<Coord, Vec3>

    /** The occupancy this board stands for. */
    ghost function View(): BoardView
      reads this
    {
      BoardView(cells, occupants)
    }

    /** The 8x8 grid holds exactly the view's cells and the squares' translations. */
    ghost predicate Coupled()
      reads this, grid
    {
      && grid.Length0 == 8 && grid.Length1 == 8
      && (forall c: Coord :: c in cells && c in anchors && grid[c.x, c.y] == GridCell(cells[c], anchors[c]))
    }

    /** The grid stands for the view, and the grid and the index agree. */
    ghost predicate Valid()
      reads this, grid
    {
      Coupled() && Bijective(View())
    }

    /**
     * Builds the empty board around a grid whose cells are all empty and
     * carry their square's translation.
     */
    constructor (anchorOf: Coord -> Vec3)
      ensures Valid() && fresh(grid)
      ensures View() == EmptyView()
      ensures forall c: Coord :: anchors[c] == anchorOf(c)
    {
      var g := Translations(anchorOf);
      var empty := EmptyView();
      grid := g;
      occupants := empty.occupants;
      cells := empty.cells;
      anchors := map c: Coord | c in Squares() :: anchorOf(c);
      new;
      forall c: Coord ensures c in cells && c in anchors && grid[c.x, c.y] == GridCell(cells[c], anchors[c]) {
        assert c in Squares();
      }
    }

    /** `get_cell`: the cell addressed by a square holds that square's occupant and translation. */
    function GetCell(c: Coord): (cell: GridCell)
      reads this, grid
      requires Valid()
      ensures cell.occupant == View().cells[c]
      ensures cell.occupant.Some? ==> cell.occupant.value in occupants && occupants[cell.occupant.value] == c
      ensures cell.translation == anchors[c]
    {
      grid[c.x, c.y]
    }

    /**
     * `insert_piece`: the target cell must be empty. The result is a valid
     * board exactly when the piece was not tracked before.
     */
    method InsertPiece(piece: PieceId, position: Coord)
      requires Valid()
      requires View().cells[position] == None
      modifies this`occupants, this`cells, grid
      ensures Coupled()
      ensures View() == Insert(old(View()), piece, position)
      ensures Valid() <==> piece !in old(occupants)
    {
      grid[position.x, position.y] := grid[position.x, position.y].(occupant := Some(piece));
      occupants := occupants[piece := position];
      cells := cells[position := Some(piece)];
      forall c: Coord ensures c in cells && c in anchors && grid[c.x, c.y] == GridCell(cells[c], anchors[c]) {
        if c != position {
          assert grid[c.x, c.y] == old(grid[c.x, c.y]);
        }
      }
      assert View() == Insert(old(View()), piece, position);
      if piece in old(occupants) {
        InsertTrackedBreaksBijection(old(View()), piece, position);
      } else {
        InsertKeepsBijection(old(View()), piece, position);
      }
    }

    /**
     * `move_piece`: the piece must be tracked and the destination empty.
     * The index is overwritten first, then `to` is occupied and the old
     * square cleared.
     */
    method MovePiece(piece: PieceId, to: Coord)
      requires Valid()
      requires piece in occupants
      requires View().cells[to] == None
      modifies this`occupants, this`cells, grid
      ensures Valid()
      ensures View() == Move(old(View()), piece, to)
    {
      var from := occupants[piece];
      occupants := occupants[piece := to];
      grid[to.x, to.y] := grid[to.x, to.y].(occupant := Some(piece));
      grid[from.x, from.y] := grid[from.x, from.y].(occupant := None);
      cells := cells[to := Some(piece)][from := None];
      forall c: Coord ensures c in cells && c in anchors && grid[c.x, c.y] == GridCell(cells[c], anchors[c]) {
        if c != to && c != from {
          assert grid[c.x, c.y] == old(grid[c.x, c.y]);
        }
      }
      assert View() == Move(old(View()), piece, to);
      MoveKeepsBijection(old(View()), piece, to);
    }

    /** `remove_piece`: the piece must be tracked; its square is cleared and its entry dropped. */
    method RemovePiece(piece: PieceId)
      requires Valid()
      requires piece in occupants
      modifies this`occupants, this`cells, grid
      ensures Valid()
      ensures View() == Remove(old(View()), piece)
    {
      var position := occupants[piece];
      occupants := occupants - {piece};
      grid[position.x, position.y] := grid[position.x, position.y].(occupant := None);
      cells := cells[position := None];
      forall c: Coord ensures c in cells && c in anchors && grid[c.x, c.y] == GridCell(cells[c], anchors[c]) {
        if c != position {
          assert grid[c.x, c.y] == old(grid[c.x, c.y]);
        }
      }
      assert View() == Remove(old(View()), piece);
      RemoveKeepsBijection(old(View()), piece);
    }
  }
}
