/**
 * `update_move`: each `PieceMoveEvent` takes the piece on `from`, removes
 * whatever stands on `to`, moves the piece there and hands the turn to the
 * other team. The panics of the system become a `Panic` outcome.
 */
module Moves {
  import opened Options
  import opened Coords
  import opened Pieces
  import opened Occupancy
  import opened Selection
  import opened Board

  /**
   * Why a move panics: `from` is empty; the occupant of `to` is not in the
   * index (`remove_piece`); the mover is not in the index (`move_piece`);
   * `to` is still occupied after the capture (`move_piece`'s assertion).
   */
  datatype Fault = EmptySource | UntrackedTarget | UntrackedMover | OccupiedTarget

  /** The board after one event and the piece it took, or the panic that stopped it. */
  datatype Outcome = Done(view: BoardView, captured: Option<PieceId>) | Panic(fault: Fault)

  /** The pieces a capture adds to the list of despawned pieces. */
  function Captures(taken: Option<PieceId>): (s: seq<PieceId>)
    ensures |s| <= 1
    ensures forall p :: p in s <==> taken == Some(p)
  {
    match taken
    case Some(p) => [p]
    case None => []
  }

  /**
   * One event of `update_move`, step by step as the system performs it on
   * any board whose grid covers every square.
   */
  function ApplyMove(v: BoardView, e: MoveEvent): (r: Outcome)
    requires Complete(v)
    ensures r.Done? ==> Complete(r.view) && r.captured == v.cells[e.to]
  {
    match v.cells[e.from]
    case None => Panic(EmptySource)
    case Some(mover) =>
      var taken := v.cells[e.to];
      if taken.Some? && taken.value !in v.occupants then Panic(UntrackedTarget)
      else
        var cleared := if taken.Some? then Remove(v, taken.value) else v;
        if mover !in cleared.occupants then Panic(UntrackedMover)
        else if cleared.cells[e.to].Some? then Panic(OccupiedTarget)
        else Done(Move(cleared, mover, e.to), taken)
  }

  /**
   * On a board whose grid and index agree, a move completes exactly when
   * `from` holds a piece and `to` is another square: a move onto the
   * mover's own square removes the mover first, and `move_piece` then
   * panics. A completed move keeps the grid and the index in agreement.
   */
  lemma ApplyMoveCompletes(v: BoardView, e: MoveEvent)
    requires Bijective(v)
    ensures var r := ApplyMove(v, e);
            && (r.Done? <==> v.cells[e.from].Some? && e.from != e.to)
            && (r.Panic? ==> r.fault == (if v.cells[e.from] == None then EmptySource else UntrackedMover))
            && (r.Done? ==> Bijective(r.view))
  {
    if v.cells[e.from].Some? {
      var mover := v.cells[e.from].value;
      assert v.occupants[mover] == e.from;
      var taken := v.cells[e.to];
      var cleared := if taken.Some? then Remove(v, taken.value) else v;
      if taken.Some? {
        RemoveKeepsBijection(v, taken.value);
      }
      if mover in cleared.occupants {
        MoveKeepsBijection(cleared, mover, e.to);
      }
    }
  }

  /**
   * A completed move leaves the mover on `to` and `from` empty and touches
   * no other square.
   */
  lemma ApplyMoveCells(v: BoardView, e: MoveEvent)
    requires Bijective(v)
    requires v.cells[e.from].Some? && e.from != e.to
    ensures var r := ApplyMove(v, e);
            var mover := v.cells[e.from].value;
            && r.view.cells[e.to] == Some(mover)
            && r.view.cells[e.from] == None
            && forall c: Coord :: c != e.from && c != e.to ==> r.view.cells[c] == v.cells[c]
  {
    ApplyMoveCompletes(v, e);
    var mover := v.cells[e.from].value;
    var cleared := if v.cells[e.to].Some? then Remove(v, v.cells[e.to].value) else v;
    assert v.occupants[mover] == e.from;
    if v.cells[e.to].Some? {
      assert v.cells[e.to].value != mover;
    }
    assert cleared.occupants[mover] == e.from;
  }

  /**
   * A completed move tracks the mover on `to` and takes whatever stood on
   * `to` off the board, whatever its team: one occupant fewer per capture.
   */
  lemma ApplyMoveOccupants(v: BoardView, e: MoveEvent)
    requires Bijective(v)
    requires v.cells[e.from].Some? && e.from != e.to
    ensures var r := ApplyMove(v, e);
            var mover := v.cells[e.from].value;
            && mover in r.view.occupants && r.view.occupants[mover] == e.to
            && (r.captured.Some? ==> r.captured.value != mover && r.view.occupants.Keys == v.occupants.Keys - {r.captured.value})
            && (r.captured.None? ==> r.view.occupants.Keys == v.occupants.Keys)
            && |r.view.occupants| == |v.occupants| - |Captures(r.captured)|
  {
    ApplyMoveCompletes(v, e);
    var mover := v.cells[e.from].value;
    var cleared := if v.cells[e.to].Some? then Remove(v, v.cells[e.to].value) else v;
    assert v.occupants[mover] == e.from;
    if v.cells[e.to].Some? {
      var taken := v.cells[e.to].value;
      assert taken != mover;
      RemoveKeepsBijection(v, taken);
    }
    MoveKeepsBijection(cleared, mover, e.to);
  }

  // ---------------------------------------------------------------------
  // A frame's worth of events.

  /**
   * The board after a sequence of events, the pieces taken, in order, and
   * the active team afterwards; or the first panic.
   */
  datatype Replay = Replayed(view: BoardView, captured: seq<PieceId>, turn: Team) | Crashed(fault: Fault)

  function Prefixed(prefix: seq<PieceId>, r: Replay): Replay
  {
    match r
    case Replayed(w, taken, t) => Replayed(w, prefix + taken, t)
    case Crashed(_) => r
  }

  /** The events applied in order, each handing the turn to the other team; the first panic ends the run. */
  function Run(v: BoardView, turn: Team, events: seq<MoveEvent>): (r: Replay)
    requires Complete(v)
    ensures r.Replayed? ==> Complete(r.view) && |r.captured| <= |events|
    decreases |events|
  {
    if events == [] then Replayed(v, [], turn)
    else
      match ApplyMove(v, events[0])
      case Panic(f) => Crashed(f)
      case Done(w, taken) => Prefixed(Captures(taken), Run(w, Opponent(turn), events[1..]))
  }

  /** Every replayed event toggles the active team once. */
  lemma {:induction false} RunTurn(v: BoardView, turn: Team, events: seq<MoveEvent>)
    requires Complete(v)
    requires Run(v, turn, events).Replayed?
    ensures Run(v, turn, events).turn == Flipped(turn, |events|)
    decreases |events|
  {
    if events != [] {
      RunTurn(ApplyMove(v, events[0]).view, Opponent(turn), events[1..]);
      FlippedAdd(turn, 1, |events| - 1);
    }
  }

  /** Replaying events keeps the grid and the index in agreement. */
  lemma {:induction false} RunKeepsBijection(v: BoardView, turn: Team, events: seq<MoveEvent>)
    requires Bijective(v)
    requires Run(v, turn, events).Replayed?
    ensures Bijective(Run(v, turn, events).view)
    decreases |events|
  {
    if events != [] {
      ApplyMoveCompletes(v, events[0]);
      RunKeepsBijection(ApplyMove(v, events[0]).view, Opponent(turn), events[1..]);
    }
  }

  /** One more replayed event moves its capture from the pending replay into the collected prefix. */
  lemma ReplayAdvances(whole: Replay, captured: seq<PieceId>, v: BoardView, turn: Team, pending: seq<MoveEvent>)
    requires Complete(v) && pending != []
    requires whole.Replayed? && whole == Prefixed(captured, Run(v, turn, pending))
    ensures ApplyMove(v, pending[0]).Done?
    ensures var o := ApplyMove(v, pending[0]);
            whole == Prefixed(captured + Captures(o.captured), Run(o.view, Opponent(turn), pending[1..]))
  {
    var o := ApplyMove(v, pending[0]);
    PrefixedPrefixed(captured, Captures(o.captured), Run(o.view, Opponent(turn), pending[1..]));
  }

  lemma PrefixedPrefixed(a: seq<PieceId>, b: seq<PieceId>, r: Replay)
    ensures Prefixed(a, Prefixed(b, r)) == Prefixed(a + b, r)
  {
    if r.Replayed? {
      assert a + (b + r.captured) == (a + b) + r.captured;
    }
  }

  lemma AppendTail<T>(a: seq<T>, b: seq<T>)
    requires |a| > 0
    ensures (a + b)[0] == a[0] && (a + b)[1..] == a[1..] + b
  {
  }

  /** Replaying two batches of events one after the other is replaying them together. */
  lemma {:induction false} RunAppend(v: BoardView, turn: Team, first: seq<MoveEvent>, second: seq<MoveEvent>)
    requires Complete(v)
    requires Run(v, turn, first).Replayed?
    ensures var r := Run(v, turn, first);
            Run(v, turn, first + second) == Prefixed(r.captured, Run(r.view, r.turn, second))
    decreases |first|
  {
    if first == [] {
      assert first + second == second;
    } else {
      var o := ApplyMove(v, first[0]);
      var rest := Run(o.view, Opponent(turn), first[1..]);
      var tail := Run(rest.view, rest.turn, second);
      AppendTail(first, second);
      calc {
        Run(v, turn, first + second);
        Prefixed(Captures(o.captured), Run(o.view, Opponent(turn), first[1..] + second));
        { RunAppend(o.view, Opponent(turn), first[1..], second); }
        Prefixed(Captures(o.captured), Prefixed(rest.captured, tail));
        { PrefixedPrefixed(Captures(o.captured), rest.captured, tail); }
        Prefixed(Captures(o.captured) + rest.captured, tail);
      }
    }
  }

  /**
   * The body of `update_move` for one event: the occupant of `from` is
   * read, the occupant of `to` removed, and the mover moved onto `to`.
   */
  method ApplyEvent(board: ChessBoard, event: MoveEvent) returns (taken: Option<PieceId>)
    requires board.Valid()
    requires ApplyMove(board.View(), event).Done?
    modifies board`occupants, board`cells, board.grid
    ensures board.Valid()
    ensures board.View() == ApplyMove(old(board.View()), event).view
    ensures taken == ApplyMove(old(board.View()), event).captured
  {
    ApplyMoveCompletes(board.View(), event);
    var mover: PieceId;
    match board.GetCell(event.from).occupant {
      case Some(o) => mover := o;
      case None => assert false;
    }
    taken := board.GetCell(event.to).occupant;
    if taken.Some? {
      board.RemovePiece(taken.value);
    }
    board.MovePiece(mover, event.to);
  }

  /**
   * `update_move` on the board component: every event is applied in
   * order, the taken pieces are collected for despawning and the active
   * team is toggled once per event. The events must replay without panic.
   */
  method UpdateMove(board: ChessBoard, active: Team, events: seq<MoveEvent>) returns (next: Team, captured: seq<PieceId>)
    requires board.Valid()
    requires Run(board.View(), active, events).Replayed?
    modifies board`occupants, board`cells, board.grid
    ensures board.Valid()
    ensures Run(old(board.View()), active, events) == Replayed(board.View(), captured, next)
    ensures next == Flipped(active, |events|)
  {
    next := active;
    captured := [];
    var pending := events;
    while pending != []
      invariant board.Valid()
      invariant Run(old(board.View()), active, events) == Prefixed(captured, Run(board.View(), next, pending))
    {
      ReplayAdvances(Run(old(board.View()), active, events), captured, board.View(), next, pending);
      var taken := ApplyEvent(board, pending[0]);
      captured := captured + Captures(taken);
      next := Opponent(next);
      pending := pending[1..];
    }
    RunTurn(old(board.View()), active, events);
  }

  // ---------------------------------------------------------------------
  // Presses followed by the move they write.

  /**
   * With the selection armed, every move written by `observer_select_piece`
   * or by the corrected `observer_select_square` completes.
   */
  lemma EmittedMovesComplete(selected: Option<PieceId>, active: Team, teams: map<PieceId, Team>, v: BoardView, pressed: PieceId, dist: Coord -> real)
    requires World(v, teams)
    requires Armed(selected, v, teams, active)
    requires pressed in v.occupants
    ensures var r := SelectPiece(selected, active, teams, v, pressed);
            r.event.Some? ==> ApplyMove(v, r.event.value).Done?
    ensures var r := SelectSquare(selected, active, teams, v, dist);
            r.event.Some? ==> ApplyMove(v, r.event.value).Done?
  {
    if selected.Some? {
      assert v.cells[v.occupants[selected.value]] == Some(selected.value);
      var byPiece := SelectPiece(selected, active, teams, v, pressed);
      if byPiece.event.Some? {
        ApplyMoveCompletes(v, byPiece.event.value);
      }
      var bySquare := SelectSquare(selected, active, teams, v, dist);
      if bySquare.event.Some? {
        ApplyMoveCompletes(v, bySquare.event.value);
      }
    }
  }

  /**
   * As written, `observer_select_square` turns a press on the selected
   * piece's own square into a move onto that square, and `update_move`
   * then removes the mover and panics in `move_piece`. The corrected
   * observer deselects instead.
   */
  lemma AsWrittenSelfMovePanics(selected: PieceId, active: Team, teams: map<PieceId, Team>, v: BoardView, dist: Coord -> real)
    requires World(v, teams)
    requires selected in v.occupants
    requires Nearest(dist) == v.occupants[selected]
    ensures var r := SelectSquareAsWritten(Some(selected), active, teams, v, dist);
            r.event == Some(MoveEvent(v.occupants[selected], v.occupants[selected]))
            && ApplyMove(v, r.event.value) == Panic(UntrackedMover)
    ensures SelectSquare(Some(selected), active, teams, v, dist) == Reaction(None, None)
  {
    assert v.cells[v.occupants[selected]] == Some(selected);
    ApplyMoveCompletes(v, MoveEvent(v.occupants[selected], v.occupants[selected]));
  }

  /** A concrete instance: a lone white piece on d2, selected, and a press that lands on d2. */
  lemma AsWrittenSelfMoveExample()
    ensures var v := Insert(EmptyView(), PieceId(0), Pos(3, 1));
            var teams := map[PieceId(0) := White];
            var dist := (c: Coord) => if c == Pos(3, 1) then 0.0 else 1.0;
            var r := SelectSquareAsWritten(Some(PieceId(0)), White, teams, v, dist);
            && World(v, teams)
            && r.event == Some(MoveEvent(Pos(3, 1), Pos(3, 1)))
            && ApplyMove(v, r.event.value) == Panic(UntrackedMover)
            && SelectSquare(Some(PieceId(0)), White, teams, v, dist) == Reaction(None, None)
  {
    var v := Insert(EmptyView(), PieceId(0), Pos(3, 1));
    var teams := map[PieceId(0) := White];
    var dist := (c: Coord) => if c == Pos(3, 1) then 0.0 else 1.0;
    InsertKeepsBijection(EmptyView(), PieceId(0), Pos(3, 1));
    NearestUnique(dist, Pos(3, 1));
    AsWrittenSelfMovePanics(PieceId(0), White, teams, v, dist);
  }
}
