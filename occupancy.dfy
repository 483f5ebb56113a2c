/**
 * The value a `ChessBoard` stands for: which piece occupies each square
 * (`grid[x][y].occupant`) and the reverse index `occupants`, together with
 * the pure effect of `insert_piece`, `move_piece` and `remove_piece` on it
 * and the bijection those operations keep.
 */
module Occupancy {
  import opened Options
  import opened Coords
  import opened Pieces

  datatype BoardView = BoardView(cells: map<Coord, Option<PieceId>>, occupants: map<PieceId, Coord>)

  /** Every square has a cell, as the 8x8 grid guarantees. */
  ghost predicate Complete(v: BoardView)
  {
    forall c: Coord :: c in v.cells
  }

  /** `cells[c] == Some(p)` if and only if `occupants[p] == c`. */
  ghost predicate Bijective(v: BoardView)
  {
    && Complete(v)
    && (forall c: Coord :: v.cells[c].Some? ==>
          v.cells[c].value in v.occupants && v.occupants[v.cells[c].value] == c)
    && (forall p :: p in v.occupants ==> v.cells[v.occupants[p]] == Some(p))
  }

  /** The squares that hold a piece. */
  ghost function Occupied(v: BoardView): set<Coord>
  {
    set c: Coord | c in v.cells && v.cells[c].Some?
  }

  /** A fresh grid: every cell empty, nothing tracked. */
  function EmptyView(): (v: BoardView)
    ensures Bijective(v)
    ensures v.occupants == map[]
    ensures forall c: Coord :: v.cells[c] == None
  {
    BoardView(map c: Coord | c in Squares() :: None, map[])
  }

  /** Effect of `insert_piece(piece, position)` once its emptiness assertion has passed. */
  function Insert(v: BoardView, piece: PieceId, position: Coord): BoardView
    requires Complete(v)
  {
    BoardView(v.cells[position := Some(piece)], v.occupants[piece := position])
  }

  /**
   * Effect of `move_piece(piece, to)` once its assertions have passed: the
   * index entry is overwritten, `to` is occupied, then the old square is cleared.
   */
  function Move(v: BoardView, piece: PieceId, to: Coord): BoardView
    requires Complete(v)
    requires piece in v.occupants
  {
    var from := v.occupants[piece];
    BoardView(v.cells[to := Some(piece)][from := None], v.occupants[piece := to])
  }

  /** Effect of `remove_piece(piece)` once the piece was found in the index. */
  function Remove(v: BoardView, piece: PieceId): BoardView
    requires Complete(v)
    requires piece in v.occupants
  {
    BoardView(v.cells[v.occupants[piece] := None], v.occupants - {piece})
  }

  /** Inserting an untracked piece on an empty square keeps the bijection and occupies exactly that square. */
  lemma InsertKeepsBijection(v: BoardView, piece: PieceId, position: Coord)
    requires Bijective(v)
    requires v.cells[position] == None
    requires piece !in v.occupants
    ensures Bijective(Insert(v, piece, position))
    ensures Occupied(Insert(v, piece, position)) == Occupied(v) + {position}
    ensures |Insert(v, piece, position).occupants| == |v.occupants| + 1
  {
    var r := Insert(v, piece, position);
    forall c: Coord | r.cells[c].Some?
      ensures r.cells[c].value in r.occupants && r.occupants[r.cells[c].value] == c
    {
      if c != position {
        assert v.cells[c].value != piece;
      }
    }
  }

  /**
   * Inserting a piece that is already tracked (the source does not check this)
   * leaves its old square claiming it while the index points elsewhere.
   */
  lemma InsertTrackedBreaksBijection(v: BoardView, piece: PieceId, position: Coord)
    requires Bijective(v)
    requires v.cells[position] == None
    requires piece in v.occupants
    ensures !Bijective(Insert(v, piece, position))
  {
    var old_square := v.occupants[piece];
    var r := Insert(v, piece, position);
    assert old_square != position;
    assert r.cells[old_square] == Some(piece) && r.occupants[piece] == position;
  }

  /** Moving a tracked piece to an empty square keeps the bijection; only `from` and `to` change. */
  lemma MoveKeepsBijection(v: BoardView, piece: PieceId, to: Coord)
    requires Bijective(v)
    requires piece in v.occupants
    requires v.cells[to] == None
    ensures Bijective(Move(v, piece, to))
    ensures Occupied(Move(v, piece, to)) == Occupied(v) - {v.occupants[piece]} + {to}
    ensures Move(v, piece, to).occupants.Keys == v.occupants.Keys
  {
    var from := v.occupants[piece];
    var r := Move(v, piece, to);
    assert from != to;
    forall c: Coord | r.cells[c].Some?
      ensures r.cells[c].value in r.occupants && r.occupants[r.cells[c].value] == c
    {
      if c != to {
        assert c != from && v.cells[c] == r.cells[c];
        assert v.cells[c].value != piece;
      }
    }
  }

  /** Removing a tracked piece keeps the bijection and frees exactly its square. */
  lemma RemoveKeepsBijection(v: BoardView, piece: PieceId)
    requires Bijective(v)
    requires piece in v.occupants
    ensures Bijective(Remove(v, piece))
    ensures Occupied(Remove(v, piece)) == Occupied(v) - {v.occupants[piece]}
    ensures |Remove(v, piece).occupants| == |v.occupants| - 1
  {
    var at := v.occupants[piece];
    var r := Remove(v, piece);
    forall c: Coord | r.cells[c].Some?
      ensures r.cells[c].value in r.occupants && r.occupants[r.cells[c].value] == c
    {
      assert c != at && v.cells[c] == r.cells[c];
      assert v.cells[c].value != piece;
    }
  }

  /** A map whose values are pairwise distinct has as many values as keys. */
  lemma {:induction false} InjectiveMapCard<K, V>(m: map<K, V>)
    requires forall a, b :: a in m && b in m && a != b ==> m[a] != m[b]
    ensures |m.Values| == |m.Keys|
    decreases |m.Keys|
  {
    if m.Keys != {} {
      var k :| k in m.Keys;
      var rest := m - {k};
      InjectiveMapCard(rest);
      assert rest.Keys == m.Keys - {k};
      assert rest.Values == m.Values - {m[k]} by {
        forall w | w in m.Values - {m[k]} ensures w in rest.Values {
          var a :| a in m && m[a] == w;
          assert a != k && a in rest;
        }
      }
      assert m[k] in m.Values;
    }
  }

  /** Under the bijection there are exactly as many occupied squares as tracked pieces. */
  lemma OccupiedCount(v: BoardView)
    requires Bijective(v)
    ensures |Occupied(v)| == |v.occupants|
  {
    assert Occupied(v) == v.occupants.Values by {
      forall c | c in Occupied(v) ensures c in v.occupants.Values {
        assert v.occupants[v.cells[c].value] == c;
      }
    }
    InjectiveMapCard(v.occupants);
  }
}
