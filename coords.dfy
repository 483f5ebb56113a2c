/**
 * Board coordinates. The `board_coords` module of the program (its
 * `BoardCoordinate` enum) is not part of this model; a coordinate is
 * abstracted as the pair that `as_coords()` yields: `x` indexes the outer
 * grid vector (the file, A..H as 0..7) and `y` the inner one (the rank,
 * 1..8 as 0..7).
 */
module Coords {

  datatype Pos = Pos(x: int, y: int)

  /** One of the 64 squares. */
  type Coord = p: Pos | 0 <= p.x < 8 && 0 <= p.y < 8 witness Pos(0, 0)

  const SquareCount: nat := 64

  /** The square at position `i` of the enumeration that stands for `Coord::iter()`. */
  function CoordAt(i: nat): (c: Coord)
    requires i < SquareCount
    ensures 8 * c.x + c.y == i
  {
    Pos(i / 8, i % 8)
  }

  /** Position of a square in the enumeration order; the inverse of `CoordAt`. */
  function IndexOf(c: Coord): (i: nat)
    ensures i < SquareCount
    ensures CoordAt(i) == c
  {
    8 * c.x + c.y
  }

  /** Every square exactly once, in enumeration order. */
  function AllCoords(): (cs: seq<Coord>)
    ensures |cs| == SquareCount
    ensures forall c: Coord :: c in cs
    ensures forall c: Coord :: cs[IndexOf(c)] == c
    ensures forall i, j :: 0 <= i < j < |cs| ==> cs[i] != cs[j]
  {
    var cs := seq(SquareCount, i requires 0 <= i < SquareCount => CoordAt(i));
    assert forall i :: 0 <= i < |cs| ==> IndexOf(cs[i]) == i;
    assert forall c: Coord :: c in cs by {
      forall c: Coord ensures c in cs {
        assert cs[IndexOf(c)] == c;
      }
    }
    cs
  }

  /** The set of all squares, the domain of the grid. */
  function Squares(): (s: set<Coord>)
    ensures forall c: Coord :: c in s
  {
    var s := set i | 0 <= i < SquareCount :: CoordAt(i);
    assert forall c: Coord :: c in s by {
      forall c: Coord ensures c in s {
        assert CoordAt(IndexOf(c)) == c;
      }
    }
    s
  }
}
