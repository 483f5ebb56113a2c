# Chess board and piece state engine

This project models the state engine of a small 3D chess program. The engine is written in Rust on the Bevy game engine. The model covers:

- **The board.** `ChessBoard` is an 8×8 grid of cells. Each cell has an optional occupant and the translation of its square. The board also keeps a reverse index `occupants` from piece to square. `insert_piece`, `move_piece` and `remove_piece` update both structures in place.
- **Setup.** `ChessBoard::spawn` builds the grid. With pieces enabled, it makes the 32 `ChessPiece::spawn` calls of the standard opening position, in the listing order.
- **Selection.** The `PieceSelection` resource has two observers. A press on a piece, or a press on the board resolved to the nearest square, becomes at most one `PieceMoveEvent { from, to }`.
- **Moves.** `Chess::update_move` handles each event in turn: it captures the occupant of `to`, moves the piece and toggles `ActiveTeam`.

The model is split by module:

- `Coords`: squares. `Coord` is a pair `(x, y)` with both coordinates in `0..8`. It is enumerated file-major: index `i` is `(i / 8, i % 8)`.
- `Pieces`: teams, piece kinds, the `ChessPiece` component and the team toggle. The starting team is White (`InitialActiveTeam`, src/chess.rs:53-57 and 536).
- `Occupancy`: pure board views.
  - `cells` maps a square to its occupant and `occupants` maps a piece to its square.
  - The specification functions `Insert`, `Move` and `Remove` operate on these views.
  - The bijection invariant is `Bijective`.
- `Board`: the class `ChessBoard`.
  - It holds an `array2<GridCell>` and the `occupants` map.
  - Its methods are proved against the `Occupancy` functions through the ghost view `View()`.
  - `Coupled()` ties the grid to that view; `Valid()` adds the bijection.
- `Setup`: the 32-piece layout and the spawn loop.
- `Selection`: the two observers as transition functions, plus the resource class `PieceSelection`.
  - The nearest square is defined as the head of a stable insertion sort by distance.
  - It is proved equal to a reference "first minimal index" function.
- `Moves`: events.
  - `ApplyMove` applies one event step by step. Each panic of the board operations it calls, and the panic for an empty source square, is a `Panic` outcome; the `.expect` on the mover's `ChessPiece` component is left out with the entity queries.
  - `Run` replays a frame's events.
  - `UpdateMove` is the event loop on the board object, proved against `Run`.

Pieces are identified by `PieceId`, which stands for the engine's `Entity`. Spawns allocate ids `0..31` in listing order.

Where the code and its written design disagree, the model follows the code:

- A move onto a piece of the mover's own team is executed as a capture; nothing rejects it.
- `has_moved` is never set.
- A press on the board whose nearest square is the selected piece's own square writes a move from that square onto itself instead of deselecting. `SelectSquareAsWritten` and the resource method `PieceSelection.OnSquarePressed` model this. It is reported under Findings, where `SelectSquare` is the corrected observer; `SquareObserversDifferOnlyOnOwnSquare` proves the two differ on exactly that press, and `EmittedMovesComplete` is stated for the corrected one.

## Model

| member | source | states |
|---|---|---|
| Coords.CoordAt | src/chess.rs:332-333 | the square at enumeration index `i` has `8 * x + y == i` |
| Coords.IndexOf | src/chess.rs:332-333 | every square has an index below 64 from which `CoordAt` gives it back, so the enumeration is a bijection onto `0..64` |
| Coords.AllCoords | src/chess.rs:332 | the enumeration lists 64 squares, all distinct, each at its own index, covering every square |
| Coords.Squares | src/chess.rs:330-337 | the set of enumerated squares contains every square |
| Pieces.Opponent | src/chess.rs:684-687 | the toggle always yields the other team |
| Pieces.FlippedParity | src/chess.rs:684-687 | after `n` toggles the team is the starting team exactly when `n` is even, so two toggles restore it |
| Pieces.FlippedAdd | src/chess.rs:684-687 | `m` toggles followed by `n` toggles equal `m + n` toggles |
| Occupancy.EmptyView | src/chess.rs:330-342 | the fresh board has every cell empty and an empty index, and satisfies the bijection |
| Occupancy.InsertKeepsBijection | src/chess.rs:437-444 | inserting an untracked piece on an empty cell keeps the bijection, adds exactly that square to the occupied set and adds one index entry |
| Occupancy.InsertTrackedBreaksBijection | src/chess.rs:437-444 | `insert_piece` does not check the piece; inserting an already tracked piece breaks the bijection |
| Occupancy.MoveKeepsBijection | src/chess.rs:446-474 | moving a tracked piece onto an empty cell keeps the bijection, swaps the old square for the new one in the occupied set and keeps the set of tracked pieces |
| Occupancy.RemoveKeepsBijection | src/chess.rs:479-487 | removing a tracked piece keeps the bijection, frees exactly its square and drops one index entry |
| Occupancy.OccupiedCount | src/chess.rs:302-303 | under the bijection, the number of occupied cells equals the number of index entries |
| Board.Translations | src/chess.rs:330-337 | the grid built by the setup loop is 8×8, with every cell empty and holding its square's translation |
| Board.ChessBoard.constructor | src/chess.rs:330-342 | the new board is valid, holds the empty view, and anchors every square at its translation |
| Board.ChessBoard.GetCell | src/chess.rs:402-405 | the addressed cell holds that square's occupant and translation, and an occupant is indexed at that square |
| Board.ChessBoard.InsertPiece | src/chess.rs:437-444 | the grid stays coupled to the view and the new state is `Insert` of the old: the target cell holds the piece, the index maps it there and nothing else changes, even for a piece that was already tracked; the bijection holds afterwards exactly when the piece was untracked |
| Board.ChessBoard.MovePiece | src/chess.rs:446-474 | the new state is `Move` of the old: `to` holds the piece, its old cell is empty, the index maps it to `to`, nothing else changes and the board stays valid |
| Board.ChessBoard.RemovePiece | src/chess.rs:479-487 | the new state is `Remove` of the old: the piece leaves the index, its cell is emptied, nothing else changes and the board stays valid |
| Setup.Layout | src/chess.rs:345-386 | the spawn listing has 32 entries, entry `k` being `PlacementAt(k)` |
| Setup.SpawnSquare | src/chess.rs:351-384 | spawn `8 * block + file` lands on that file of the block's rank (2, 1, 7, 8) |
| Setup.SpawnRank | src/chess.rs:351-384 | every spawn lands on rank 1, 2, 7 or 8, and is White exactly when it lands on rank 1 or 2 |
| Setup.LayoutSquaresDistinct | src/chess.rs:351-384 | no two spawns share a square |
| Setup.LayoutDistinct | src/chess.rs:351-384 | the opening listing has pairwise distinct squares |
| Setup.PlacedTracks | src/chess.rs:351-384 | after `i` spawns of any listing exactly the first `i` pieces are indexed |
| Setup.PlacedIndex | src/chess.rs:351-384 | after `i` spawns of any listing each spawned piece is indexed at its own listed square |
| Setup.UnlistedSquareFree | src/chess.rs:437-444 | on a bijective board holding exactly the first `i` listed pieces on their squares, a square none of them is listed on is empty |
| Setup.NextSquareFree | src/chess.rs:437-444 | when no earlier entry shares its square, the square of the next spawn is still empty, so the `assert!` in `insert_piece` holds |
| Setup.PlacedShape | src/chess.rs:351-384 | after `i` spawns of a listing with distinct squares the board satisfies the bijection and indexes `i` pieces |
| Setup.SpawnStep | src/chess.rs:437-444 | each spawn of a listing with distinct squares inserts an untracked piece on an empty square |
| Setup.OpeningStep | src/chess.rs:351-384 | each spawn of the opening listing inserts an untracked piece on an empty square |
| Setup.InitialView | src/chess.rs:345-386 | the starting position satisfies the bijection |
| Setup.SpawnedPiecesShape | src/chess.rs:272-277 | after `i` spawns there is one component per spawned piece, with its listed kind and team, and none has moved |
| Setup.InitialPieces | src/chess.rs:351-384 | the starting components belong to exactly pieces `0..31`, each with its listed kind and team, none moved |
| Setup.InitialSquare | src/chess.rs:351-384 | in the starting position piece `k` is indexed at its listed square and that square holds it |
| Setup.InitialSquareAt | src/chess.rs:351-384 | the square listed for piece `k` holds piece `k` in the starting position |
| Setup.InitialOuterRanksFull | src/chess.rs:351-384 | every square of ranks 1, 2, 7 and 8 is occupied in the starting position |
| Setup.InitialMiddleEmpty | src/chess.rs:351-384 | every square of ranks 3 to 6 is empty in the starting position |
| Setup.InitialRanks | src/chess.rs:351-384 | in the starting position a square is empty exactly when it lies on ranks 3 to 6 |
| Setup.InitialCounts | src/chess.rs:351-384 | the starting position indexes 32 pieces on 32 occupied squares, the same pieces that have components |
| Setup.InitialTeamOf | src/chess.rs:351-384 | a piece of the starting position has a component, which is White exactly when the piece stands on rank 1 or 2 |
| Setup.InitialTeams | src/chess.rs:351-384 | in the starting position a piece is White exactly when it stands on rank 1 or 2 |
| Setup.SpawnPiece | src/chess.rs:243-289 | the spawned component is unmoved with the given kind and team, and the board state is `Insert` of the old one |
| Setup.SpawnNext | src/chess.rs:351-384 | one spawn of the opening listing takes the board and the components from `i` spawns to `i + 1` |
| Setup.SpawnPieces | src/chess.rs:345-386 | the 32 spawns turn the empty board into the starting position and return the starting components |
| Setup.SpawnBoard | src/chess.rs:314-386 | the new board is valid and anchored, holding the starting position with pieces and the empty board without |
| Selection.InsertByDistance | src/chess.rs:153 | insertion adds exactly the new entry to the multiset of entries |
| Selection.InsertKeepsOrder | src/chess.rs:153 | insertion into a sequence ordered by distance keeps it ordered |
| Selection.SortByDistance | src/chess.rs:153 | the sort is a permutation of its input and is ordered by distance |
| Selection.FirstClosest | src/chess.rs:145-155 | reference definition: an index whose distance is minimal, with every earlier entry strictly farther |
| Selection.SortHeadIsFirstClosest | src/chess.rs:153-154 | the first entry after the stable sort is the first entry of minimal distance in the input |
| Selection.Distances | src/chess.rs:145-151 | the distance list has one entry per square, in enumeration order, pairing the square with its distance |
| Selection.FirstClosestSquare | src/chess.rs:145-155 | the square at the first closest entry of the distance listing is closest, and every square enumerated earlier is strictly farther |
| Selection.NearestIsFirstClosest | src/chess.rs:145-155 | the nearest square is at minimal distance, and every square enumerated before it is strictly farther |
| Selection.NearestUnique | src/chess.rs:145-155 | a square strictly closer than all others is the nearest square |
| Selection.SelectPiece | src/chess.rs:72-125 | empty selection: selects the pressed piece exactly when it is of the active team, with no event. Same piece: deselects. Another piece: writes `from = occupants[selected]`, `to = occupants[pressed]` exactly when the squares differ. In every case the selection ends empty when a piece was selected |
| Selection.SelectOccupant | src/chess.rs:169-180 | with nothing selected, no move is written and the pressed square's occupant is selected exactly when it is of the active team |
| Selection.SelectSquareAsWritten | src/chess.rs:127-182 | a move is written exactly when a piece is selected, always from its square to the nearest square, and the selection is cleared; with nothing selected, the nearest square's occupant is selected exactly when it is of the active team |
| Selection.SelectSquare | src/chess.rs:127-182 | as written, except that the selected piece's own square deselects: a move is written exactly when a piece is selected and the nearest square differs from its square; with nothing selected, the nearest square's occupant is selected exactly when it is of the active team |
| Selection.SquareObserversDifferOnlyOnOwnSquare | src/chess.rs:159-168 | the program's square observer and the corrected one agree exactly when the press is not on the selected piece's own square; on that press the program writes a move from the square onto itself and the corrected one writes nothing |
| Selection.PressesKeepSelectionArmed | src/chess.rs:71-181 | after any press the selection is empty or a tracked piece of the active team |
| Selection.PressTwiceDeselects | src/chess.rs:84-123 | pressing the same piece twice from an empty selection ends with no selection and no event |
| Selection.SecondPieceTargetsItsSquare | src/chess.rs:94-111 | pressing a second piece writes a move whose `from` holds the selected piece and whose `to` holds the pressed piece, whatever its team |
| Selection.PieceSelection.constructor | src/chess.rs:66-69 | the resource starts with nothing selected |
| Selection.PieceSelection.OnPiecePressed | src/chess.rs:72-125 | the resource's new selection and the written event are those of `SelectPiece` |
| Selection.PieceSelection.OnSquarePressed | src/chess.rs:127-182 | the resource's new selection and the written event are those of the program's observer `SelectSquareAsWritten` |
| Moves.ApplyMove | src/chess.rs:648-676 | a completed move keeps every square on the board and reports the old occupant of `to` as captured |
| Moves.ApplyMoveCompletes | src/chess.rs:649-676 | under the bijection a move completes exactly when `from` is occupied and `to` differs from it; otherwise it panics for an empty source, or for an untracked mover when `from == to`; completion keeps the bijection |
| Moves.ApplyMoveCells | src/chess.rs:658-676 | after a completed move `to` holds the mover, `from` is empty and no other cell changes |
| Moves.ApplyMoveOccupants | src/chess.rs:658-676 | after a completed move the mover is indexed at `to`, the captured piece of either team is gone from the index, and the index shrinks by one per capture |
| Moves.Run | src/chess.rs:643-688 | a replayed frame keeps every square on the board and captures at most one piece per event |
| Moves.RunTurn | src/chess.rs:684-687 | after a replayed frame the active team has been toggled once per event |
| Moves.RunKeepsBijection | src/chess.rs:643-688 | a replayed frame keeps the bijection |
| Moves.RunAppend | src/chess.rs:643-688 | replaying two batches of events in sequence equals replaying them together |
| Moves.ApplyEvent | src/chess.rs:648-676 | the board object's new state and the captured piece are those of `ApplyMove`, and the board stays valid |
| Moves.UpdateMove | src/chess.rs:635-689 | the board object ends in the replayed state with the replayed captures, the board stays valid, and the returned team is the active team toggled once per event |
| Moves.EmittedMovesComplete | src/chess.rs:648-676 | with an armed selection, every move written by the piece observer or the corrected square observer completes without panic |
| Moves.AsWrittenSelfMovePanics | src/chess.rs:159-168 | as written, a board press on the selected piece's own square writes `from == to`, and the move panics on the untracked mover; the corrected observer deselects |
| Moves.AsWrittenSelfMoveExample | src/chess.rs:159-168 | a lone White piece on d2, selected, and a press nearest to d2: the written move d2 to d2 panics |

## Left out

- Asset and scene loading, glTF node lookup and the loading states are left out. They are I/O. A square's translation enters as the parameter `anchorOf`.
- `get_cell_translation`, `get_cell_transform`, the camera and piece transforms are left out. They are floating-point `Vec3`/`Quat` arithmetic. `move_piece`'s transform update is dropped with them.
- Distances to the hit point are not computed. They enter as a parameter `Coord -> real`.
- The NaN panic of `partial_cmp(..).unwrap()` is not modelled, because reals have no NaN.
- Bevy plumbing is left out: trigger propagation, entity queries, `ChildOf` parents, `despawn` and plugin registration. Instead:
  - The components a query would return are passed in as the `teams` map.
  - `EventWriter` output is returned as `Option<MoveEvent>`.
  - `EventReader` input is a `seq<MoveEvent>`.
  - Despawned pieces are returned as a list.
- There is a single board, so the event's `board` field and the "unable to find chess board" panic are left out.
- The `board_coords` module is not part of this model, so `Coord` is abstract. Two things are assumed about it: `as_coords()` gives `x` as the file (A to H) and `y` as the rank (1 to 8), each 0-based, and the enumeration is file-major. Every rank statement of `Setup` (`SpawnRank`, `InitialRanks`, `InitialTeams` and their helpers) depends on the axis assignment. Algebraic names and `Display` are left out.
- Entity allocation is not modelled. Spawned pieces get ids `0..31` in spawn order.
- Pawn promotion is an empty placeholder in the source. `println!` logging, the menu, the plugins and `main` are out of scope.
- `has_moved` is never written after spawn. The model keeps it `false` and has no operation that changes it.
- Board.ChessBoard.InsertPiece: the occupied-cell `assert!` is a precondition rather than a modelled panic.
- Board.ChessBoard.MovePiece: the untracked-piece panic and the occupied-destination `assert!` are preconditions. The index entry that is written before that assertion fails is not modelled.
- Board.ChessBoard.RemovePiece: the untracked-piece panic is a precondition.
- Moves.ApplyMove: the `.expect` on the mover's `ChessPiece` component (src/chess.rs:666-668) is not modelled, since entity queries are left out.
- Moves.EmittedMovesComplete: stated for the corrected square observer only; the program's observer writes a move for a press on the selected piece's own square, and that move panics (see Findings).
- Moves.UpdateMove: the events must replay without panic. The panics themselves are modelled as `Panic` outcomes of `Moves.ApplyMove` and `Moves.Run`.
- Selection.SelectPiece: the lookups of untracked pieces in `occupants` panic in the source. They are preconditions here, as is the `ChessPiece` component of the pressed piece.
- Selection.SelectSquare: the lookup of the selected piece in `occupants` is a precondition, as in `Selection.SelectPiece`.
- Selection.SelectSquareAsWritten: the same lookup is a precondition here too.

## Findings

| source | as written | input that shows it | evidently intended | confidence | as-written member | corrected member |
|---|---|---|---|---|---|---|
| src/chess.rs:159-168 | with a piece selected, a board press always writes a move from the piece's square to the nearest square, even when the two are the same; `update_move` then removes the mover as a capture and `move_piece` panics on the now-untracked piece | a lone White piece on d2, selected, and a board press whose nearest square is d2 | deselect, as the piece observer already does for a press on the same square (src/chess.rs:97-101) | not executed | Moves.AsWrittenSelfMoveExample | Selection.SelectSquare |
