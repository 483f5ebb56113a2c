/**
 * `PieceSelection`: the two observers that turn presses on a piece or on
 * the board into at most one `PieceMoveEvent`, as transitions of the
 * selection state, and the nearest-square rule that resolves a press on
 * the board to a square.
 */
module Selection {
  import opened Options
  import opened Coords
  import opened Pieces
  import opened Occupancy

  /** `PieceMoveEvent` on the single board: move whatever stands on `from` to `to`. */
  datatype MoveEvent = MoveEvent(from: Coord, to: Coord)

  /** The selection after a press and the event the press wrote, if any. */
  datatype Reaction = Reaction(selection: Option<PieceId>, event: Option<MoveEvent>)

  /** What the observers rely on: the board's bijection and a `ChessPiece` component for every tracked piece. */
  ghost predicate World(v: BoardView, teams: map<PieceId, Team>)
  {
    Bijective(v) && forall p :: p in v.occupants ==> p in teams
  }

  /** A selection that can stand between presses: empty, or a tracked piece of the active team. */
  ghost predicate Armed(selection: Option<PieceId>, v: BoardView, teams: map<PieceId, Team>, active: Team)
  {
    selection.Some? ==> selection.value in v.occupants && selection.value in teams && teams[selection.value] == active
  }

  // ---------------------------------------------------------------------
  // Nearest square: the distances of all squares, in enumeration order,
  // sorted stably by distance; the first entry wins.

  /** Distances never decrease along `ps`. */
  predicate ByDistance(ps: seq<(real, Coord)>)
  {
    forall i, j :: 0 <= i < j < |ps| ==> ps[i].0 <= ps[j].0
  }

  /** Inserts `x` before the first entry that is not closer; `x` precedes every entry of `s` in the input. */
  function InsertByDistance(x: (real, Coord), s: seq<(real, Coord)>): (r: seq<(real, Coord)>)
    ensures multiset(r) == multiset(s) + multiset{x}
    ensures |r| == |s| + 1
  {
    if s == [] || x.0 <= s[0].0 then [x] + s
    else
      assert s == [s[0]] + s[1..];
      [s[0]] + InsertByDistance(x, s[1..])
  }

  /** Inserting into an ordered sequence keeps it ordered. */
  lemma {:induction false} InsertKeepsOrder(x: (real, Coord), s: seq<(real, Coord)>)
    requires ByDistance(s)
    ensures ByDistance(InsertByDistance(x, s))
  {
    if s != [] && s[0].0 < x.0 {
      var t := InsertByDistance(x, s[1..]);
      InsertKeepsOrder(x, s[1..]);
      forall k | 0 <= k < |t| ensures s[0].0 <= t[k].0 {
        assert t[k] in multiset(t);
        if t[k] != x {
          assert t[k] in multiset(s[1..]);
        }
      }
    }
  }

  /** The stable sort by distance that `sort_by` performs. */
  function SortByDistance(ps: seq<(real, Coord)>): (r: seq<(real, Coord)>)
    ensures multiset(r) == multiset(ps)
    ensures |r| == |ps|
    ensures ByDistance(r)
  {
    if ps == [] then []
    else
      assert ps == [ps[0]] + ps[1..];
      InsertKeepsOrder(ps[0], SortByDistance(ps[1..]));
      InsertByDistance(ps[0], SortByDistance(ps[1..]))
  }

  /** Index of the first entry whose distance is minimal: the reference for the sort-then-first pipeline. */
  function FirstClosest(ps: seq<(real, Coord)>): (k: nat)
    requires |ps| > 0
    ensures k < |ps|
    ensures forall i :: 0 <= i < |ps| ==> ps[k].0 <= ps[i].0
    ensures forall i :: 0 <= i < k ==> ps[k].0 < ps[i].0
  {
    if |ps| == 1 then 0
    else
      var k := FirstClosest(ps[1..]) + 1;
      if ps[0].0 <= ps[k].0 then 0 else k
  }

  /** The head of the stable sort is the first entry with minimal distance. */
  lemma {:induction false} SortHeadIsFirstClosest(ps: seq<(real, Coord)>)
    requires |ps| > 0
    ensures SortByDistance(ps)[0] == ps[FirstClosest(ps)]
  {
    if |ps| > 1 {
      SortHeadIsFirstClosest(ps[1..]);
    }
  }

  /** Each square paired with its distance to the hit point, in enumeration order. */
  function Distances(dist: Coord -> real): (ps: seq<(real, Coord)>)
    ensures |ps| == SquareCount
    ensures forall i :: 0 <= i < SquareCount ==> ps[i] == (dist(CoordAt(i)), CoordAt(i))
  {
    seq(SquareCount, i requires 0 <= i < SquareCount => (dist(CoordAt(i)), CoordAt(i)))
  }

  /** The square a press on the board resolves to, given each square's distance to the hit point. */
  function Nearest(dist: Coord -> real): Coord
  {
    SortByDistance(Distances(dist))[0].1
  }

  /** The first closest entry of the distance listing names a closest square, with every earlier square farther. */
  lemma FirstClosestSquare(dist: Coord -> real)
    ensures forall c: Coord :: dist(CoordAt(FirstClosest(Distances(dist)))) <= dist(c)
    ensures forall c: Coord :: IndexOf(c) < FirstClosest(Distances(dist)) ==> dist(CoordAt(FirstClosest(Distances(dist)))) < dist(c)
  {
    var ps := Distances(dist);
    var k := FirstClosest(ps);
    forall c: Coord ensures dist(CoordAt(k)) <= dist(c) {
      assert ps[IndexOf(c)].0 == dist(c);
    }
    forall c: Coord | IndexOf(c) < k ensures dist(CoordAt(k)) < dist(c) {
      assert ps[IndexOf(c)].0 == dist(c);
    }
  }

  /**
   * The nearest square is closest to the hit point, and every square
   * enumerated before it is strictly farther away.
   */
  lemma NearestIsFirstClosest(dist: Coord -> real)
    ensures forall c: Coord :: dist(Nearest(dist)) <= dist(c)
    ensures forall c: Coord :: IndexOf(c) < IndexOf(Nearest(dist)) ==> dist(Nearest(dist)) < dist(c)
  {
    var ps := Distances(dist);
    SortHeadIsFirstClosest(ps);
    FirstClosestSquare(dist);
    assert Nearest(dist) == CoordAt(FirstClosest(ps));
  }

  /** A square strictly closer than every other square is the one a press resolves to. */
  lemma NearestUnique(dist: Coord -> real, target: Coord)
    requires forall c: Coord :: c != target ==> dist(target) < dist(c)
    ensures Nearest(dist) == target
  {
    NearestIsFirstClosest(dist);
  }

  // ---------------------------------------------------------------------
  // The observers.

  /**
   * `observer_select_piece`: a press on piece `pressed`. Indexing
   * `occupants` panics for an untracked piece, so both pieces must be
   * tracked when a move could be written.
   */
  function SelectPiece(selected: Option<PieceId>, active: Team, teams: map<PieceId, Team>, v: BoardView, pressed: PieceId): (r: Reaction)
    requires pressed in teams
    requires selected.Some? && selected.value != pressed ==> pressed in v.occupants && selected.value in v.occupants
    ensures r.event.Some? ==> r.selection == None
    ensures r.selection.Some? ==> selected == None && r.selection == Some(pressed) && teams[pressed] == active
    ensures selected == None ==> r.event == None && (r.selection == Some(pressed) <==> teams[pressed] == active)
    ensures selected.Some? ==> r.selection == None
    ensures r.event.Some? <==> selected.Some? && selected.value != pressed && v.occupants[selected.value] != v.occupants[pressed]
    ensures r.event.Some? ==> r.event.value == MoveEvent(v.occupants[selected.value], v.occupants[pressed])
  {
    match selected
    case Some(s) =>
      if s == pressed then
        Reaction(None, None)
      else
        var piecePos := v.occupants[pressed];
        var selectedPos := v.occupants[s];
        if piecePos == selectedPos then Reaction(None, None)
        else Reaction(None, Some(MoveEvent(selectedPos, piecePos)))
    case None =>
      if teams[pressed] == active then Reaction(Some(pressed), None) else Reaction(None, None)
  }

  /**
   * The branch of `observer_select_square` taken with nothing selected: the
   * occupant of the pressed square is selected when it belongs to the
   * active team; no move is written.
   */
  function SelectOccupant(active: Team, teams: map<PieceId, Team>, v: BoardView, square: Coord): (r: Reaction)
    requires World(v, teams)
    ensures r.event == None
    ensures r.selection.Some? ==> v.cells[square] == r.selection && teams[r.selection.value] == active
    ensures v.cells[square].Some? && teams[v.cells[square].value] == active ==> r.selection == v.cells[square]
  {
    match v.cells[square]
    case Some(occupant) =>
      if teams[occupant] == active then Reaction(Some(occupant), None) else Reaction(None, None)
    case None =>
      Reaction(None, None)
  }

  /**
   * `observer_select_square` as the program has it: with a piece selected,
   * a move to the nearest square is written even when that square is the
   * selected piece's own.
   */
  function SelectSquareAsWritten(selected: Option<PieceId>, active: Team, teams: map<PieceId, Team>, v: BoardView, dist: Coord -> real): (r: Reaction)
    requires World(v, teams)
    requires selected.Some? ==> selected.value in v.occupants
    ensures r.event.Some? ==> r.selection == None
    ensures r.event.Some? <==> selected.Some?
    ensures selected.Some? ==> r == Reaction(None, Some(MoveEvent(v.occupants[selected.value], Nearest(dist))))
    ensures r.selection.Some? ==>
              selected == None && v.cells[Nearest(dist)] == r.selection && teams[r.selection.value] == active
    ensures selected == None && v.cells[Nearest(dist)].Some? && teams[v.cells[Nearest(dist)].value] == active ==>
              r.selection == v.cells[Nearest(dist)]
  {
    var nearest := Nearest(dist);
    match selected
    case Some(piece) =>
      Reaction(None, Some(MoveEvent(v.occupants[piece], nearest)))
    case None =>
      SelectOccupant(active, teams, v, nearest)
  }

  /**
   * `observer_select_square` with the selected piece's own square treated
   * as a deselection, as `observer_select_piece` already does for a press
   * on the same square.
   */
  function SelectSquare(selected: Option<PieceId>, active: Team, teams: map<PieceId, Team>, v: BoardView, dist: Coord -> real): (r: Reaction)
    requires World(v, teams)
    requires selected.Some? ==> selected.value in v.occupants
    ensures r.event.Some? ==> r.selection == None
    ensures selected.Some? ==> r.selection == None
    ensures r.event.Some? <==> selected.Some? && Nearest(dist) != v.occupants[selected.value]
    ensures r.event.Some? ==> r.event.value == MoveEvent(v.occupants[selected.value], Nearest(dist))
    ensures r.selection.Some? ==>
              selected == None && v.cells[Nearest(dist)] == r.selection && teams[r.selection.value] == active
    ensures selected == None && v.cells[Nearest(dist)].Some? && teams[v.cells[Nearest(dist)].value] == active ==>
              r.selection == v.cells[Nearest(dist)]
  {
    var nearest := Nearest(dist);
    match selected
    case Some(piece) =>
      var from := v.occupants[piece];
      if nearest == from then Reaction(None, None)
      else Reaction(None, Some(MoveEvent(from, nearest)))
    case None =>
      SelectOccupant(active, teams, v, nearest)
  }

  /**
   * The program's square observer and the corrected one react alike to
   * every press except a press on the selected piece's own square, where
   * the program writes a move from that square onto itself and the
   * corrected one writes nothing.
   */
  lemma SquareObserversDifferOnlyOnOwnSquare(selected: Option<PieceId>, active: Team, teams: map<PieceId, Team>, v: BoardView, dist: Coord -> real)
    requires World(v, teams)
    requires selected.Some? ==> selected.value in v.occupants
    ensures var own := selected.Some? && Nearest(dist) == v.occupants[selected.value];
            (SelectSquareAsWritten(selected, active, teams, v, dist) == SelectSquare(selected, active, teams, v, dist) <==> !own)
    ensures selected.Some? && Nearest(dist) == v.occupants[selected.value] ==>
              SelectSquareAsWritten(selected, active, teams, v, dist).event == Some(MoveEvent(Nearest(dist), Nearest(dist))) &&
              SelectSquare(selected, active, teams, v, dist) == Reaction(None, None)
  {
  }

  // ---------------------------------------------------------------------
  // Properties of the transitions.

  /** Both observers keep the selection armed: empty, or a tracked piece of the active team. */
  lemma PressesKeepSelectionArmed(selected: Option<PieceId>, active: Team, teams: map<PieceId, Team>, v: BoardView, pressed: PieceId, dist: Coord -> real)
    requires World(v, teams)
    requires Armed(selected, v, teams, active)
    requires pressed in v.occupants
    ensures Armed(SelectPiece(selected, active, teams, v, pressed).selection, v, teams, active)
    ensures Armed(SelectSquare(selected, active, teams, v, dist).selection, v, teams, active)
    ensures Armed(SelectSquareAsWritten(selected, active, teams, v, dist).selection, v, teams, active)
  {
    var r := SelectSquare(selected, active, teams, v, dist);
    if r.selection.Some? {
      assert v.cells[Nearest(dist)] == r.selection;
    }
    var w := SelectSquareAsWritten(selected, active, teams, v, dist);
    if w.selection.Some? {
      assert selected == None;
      assert v.cells[Nearest(dist)] == w.selection;
    }
  }

  /** Pressing the same piece twice from an empty selection ends with no selection and writes nothing. */
  lemma PressTwiceDeselects(active: Team, teams: map<PieceId, Team>, v: BoardView, p: PieceId)
    requires p in teams
    ensures var first := SelectPiece(None, active, teams, v, p);
            var second := SelectPiece(first.selection, active, teams, v, p);
            first.event == None && second == Reaction(None, None)
  {
  }

  /**
   * Under the bijection, a press on a second piece writes a move from the
   * selected piece's square onto the pressed piece's square, whatever the
   * pressed piece's team: the destination holds the pressed piece.
   */
  lemma SecondPieceTargetsItsSquare(selected: PieceId, active: Team, teams: map<PieceId, Team>, v: BoardView, pressed: PieceId)
    requires World(v, teams)
    requires selected in v.occupants && pressed in v.occupants && pressed != selected
    ensures var r := SelectPiece(Some(selected), active, teams, v, pressed);
            r.event.Some? && r.selection == None &&
            v.cells[r.event.value.from] == Some(selected) && v.cells[r.event.value.to] == Some(pressed)
  {
    assert v.cells[v.occupants[pressed]] == Some(pressed);
    assert v.cells[v.occupants[selected]] == Some(selected);
  }

  // ---------------------------------------------------------------------
  // The `PieceSelection` resource.

  /** The selection resource; the observers overwrite `piece` and return the event they write. */
  class PieceSelection {
    var piece: Option<PieceId>

    /** `PieceSelection::default()`: nothing selected. */
    constructor ()
      ensures piece == None
    {
      piece := None;
    }

    /** `observer_select_piece` on the resource. */
    method OnPiecePressed(active: Team, teams: map<PieceId, Team>, v: BoardView, pressed: PieceId) returns (event: Option<MoveEvent>)
      requires pressed in teams
      requires piece.Some? && piece.value != pressed ==> pressed in v.occupants && piece.value in v.occupants
      modifies this
      ensures piece == SelectPiece(old(piece), active, teams, v, pressed).selection
      ensures event == SelectPiece(old(piece), active, teams, v, pressed).event
    {
      var r := SelectPiece(piece, active, teams, v, pressed);
      piece := r.selection;
      event := r.event;
    }

    /** `observer_select_square` on the resource, as the program has it. */
    method OnSquarePressed(active: Team, teams: map<PieceId, Team>, v: BoardView, dist: Coord -> real) returns (event: Option<MoveEvent>)
      requires World(v, teams)
      requires piece.Some? ==> piece.value in v.occupants
      modifies this
      ensures piece == SelectSquareAsWritten(old(piece), active, teams, v, dist).selection
      ensures event == SelectSquareAsWritten(old(piece), active, teams, v, dist).event
    {
      var r := SelectSquareAsWritten(piece, active, teams, v, dist);
      piece := r.selection;
      event := r.event;
    }
  }
}
