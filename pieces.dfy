/** Piece identities, kinds and teams, and the turn toggle. */
module Pieces {

  /** Stands for the engine-assigned `Entity` of a spawned piece. */
  datatype PieceId = PieceId(id: nat)

  datatype PieceKind = Pawn | Rook | Knight | Bishop | Queen | King

  datatype Team = Black | White

  /** The `ChessPiece` component: `hasMoved` is written `false` at spawn and never updated. */
  datatype Piece = Piece(kind: PieceKind, team: Team, hasMoved: bool)

  /** The team that `ActiveTeam::default()` and the loading system install. */
  const InitialActiveTeam: Team := White

  /** The toggle applied to `ActiveTeam` after every executed move. */
  function Opponent(t: Team): (r: Team)
    ensures r != t
  {
    match t
    case Black => White
    case White => Black
  }

  /** The active team after `n` executed moves starting from `t`. */
  function Flipped(t: Team, n: nat): Team
  {
    if n == 0 then t else Opponent(Flipped(t, n - 1))
  }

  /** The toggle is an involution: the turn depends only on the parity of the number of moves. */
  lemma {:induction false} FlippedParity(t: Team, n: nat)
    ensures Flipped(t, n) == if n % 2 == 0 then t else Opponent(t)
  {
    if n > 0 {
      FlippedParity(t, n - 1);
    }
  }

  /** Consecutive runs of moves compose. */
  lemma {:induction false} FlippedAdd(t: Team, m: nat, n: nat)
    ensures Flipped(Flipped(t, m), n) == Flipped(t, m + n)
  {
    if n > 0 {
      FlippedAdd(t, m, n - 1);
    }
  }
}
