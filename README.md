# Pawns-and-kings chess, modelled in Dafny

This project models `chess.py`, a reduced chess game played by two players
who have only pawns and a king each. It is made up of:

- the start table;
- pawn and king move generation;
- the squares each piece keeps in check;
- check detection;
- the player queries;
- the board's cell map;
- the game loop `Board.play`.

The game loop alternates player 1 and player 2 (white and black in `main`)
until one of these happens: a player has no piece to move, 700 turns have been
played, or either king has no square to go to.

The model follows the source's own structure.

- `rules.dfy` (module `Rules`) holds the geometry and the rules as functions
  over values:
  - squares, and the `itertools.product` order of `all_positions`;
  - the pawn offsets and pawn destinations;
  - the king steps and king destinations;
  - the squares a piece keeps in check, and their union over a list of pieces.
- `pieces.dfy` (module `Pieces`) holds the start table and the `Piece` value,
  with its `move`, `drop_out_of_bounds_positions` and the king's
  `positions_kept_in_check`. It also holds what one turn does to the two piece
  lists: the move, the capture, and the cell map `update_board` builds.
- `layouts.dfy` (module `Layouts`) holds the layout the board keeps between
  turns:
  - two sides of different colours, each a list of pawns followed by its king;
  - no two pieces on one square;
  - the cell map holding exactly the 64 squares, with each piece in the cell
    of its square.

  It also proves why one turn keeps this layout and leaves the mover's king
  out of check.
- `chess.dfy` (module `Chess`) holds the classes `Player` and `Board`, whose
  fields the game updates in place. The piece methods that look at the board
  are `Board` methods taking the piece. Every method with a loop is proved
  equal to the matching `Rules`/`Pieces` function, and `Board.play` is proved
  to keep the layout.

The main results are these:

- A move never lands on a piece of the mover's own colour.
- After every turn the mover's king is not in check.
- `pop_piece` raises only when the opponent's king was already in check before
  the move.
- Starting from a position where the side to move does not keep the other king
  in check, and has a king move if it is in check itself, `Board.play` ends
  only in one of three ways: no piece to move, the 700-turn limiter, or a king
  with no move. It never reaches the `ValueError` of `pop_piece`, and never
  reaches the `[]` destination.
- The starting position that `main` sets up is such a position. So the game
  `main` plays ends in one of those three ways.
- In the starting position each pawn has exactly its normal step and its long
  step, and each king exactly the two squares beside it on its row.

The float tests `np.linalg.norm(v) > 1.5` and `< 1.5` are stated over integers.
For a vector with integer coordinates, `4·|v|² > 9` means `|v|² ≥ 3`, which
means Chebyshev distance ≥ 2. Likewise `4·|v|² < 9` means Chebyshev distance
≤ 1. Both equivalences are proved.

The long pawn step tests only its destination cell, not the cell it jumps
over. The code is followed here, and `Rules.PawnLongStepJumps` exhibits the
jump.

## Model

| member | source | states |
|---|---|---|
| Pieces.StartingPawn | chess.py:11-31 | STARTING_POSITION puts pawn i of either colour on column i+1 of row 2 (white) or row 7 (black) |
| Pieces.StartingKing | chess.py:11-31 | STARTING_POSITION puts the king on e1 (white) or e8 (black) |
| Pieces.NewPiece | chess.py:35-40 | Piece.__init__: the name and colour are kept, the type comes from the name, and the piece starts on its STARTING_POSITION square |
| Chess.Player.constructor | chess.py:269-276 | a new player holds exactly nine pieces: the eight pawns of PAWN_NAMES on their start squares, then the king on e1/e8, forming a valid side |
| Layouts.StartSideValid | chess.py:269-276 | the nine starting pieces of a player form a valid side with no two pieces on one square |
| Layouts.StartDisjoint | chess.py:11-31 | the white and the black starting pieces share no square |
| Layouts.StartNotInCheck | chess.py:239-245 | in the starting position neither king is in check |
| Layouts.StartPawnTargets | chess.py:100-142 | in the starting position each pawn has exactly two destinations, its normal step and its long step (a3 then a4 for white's first pawn, a6 then a5 for black's) |
| Layouts.StartKingStep | chess.py:190-230 | from its starting square a king may enter a square one step away iff the step stays on its row: ahead stand its pawns, behind is off the board |
| Layouts.StartKingTargets | chess.py:190-230 | in the starting position each king has exactly two destinations: f1 then d1 for white, d8 then f8 for black |
| Pieces.Piece.Move | chess.py:50-52 | move changes the position to the destination and nothing else |
| Chess.Player.MovePiece | chess.py:50-52 | moving a piece of the player replaces that piece in the list by the moved piece, leaving the others in place |
| Pieces.MovedAt | chess.py:50-52 | after the move, the list has the same length, only the moved index changes, and it holds the piece at its new position |
| Pieces.MovedLayout | chess.py:50-52 | moving a piece of a valid side whose pieces are apart to a free board square keeps the side valid and apart, leaves every other piece in place, and puts the moved piece on the destination |
| Pieces.Piece.DropOutOfBoundsPositions | chess.py:68-75 | the loop keeps exactly the on-board positions, in order |
| Rules.KeepOnBoardMember | chess.py:68-75 | a position is kept iff it was given and lies on the board; the result is never longer than the input |
| Rules.AllPositionsAt | chess.py:321 | all_positions has 64 squares, square i being (i/8+1, i%8+1), the order of itertools.product |
| Rules.AllPositionsMember | chess.py:321 | a position is among all_positions iff both coordinates are in 1..8 |
| Rules.AllPositionsDistinct | chess.py:321 | all_positions lists no square twice |
| Rules.SquaresMember | chess.py:331 | Squares, the key set the initial cell map is built on, is exactly the on-board positions |
| Rules.WithinKingReachIsNeighbour | chess.py:262 | norm < 1.5 holds exactly for squares at Chebyshev distance at most 1 |
| Rules.BeyondKingReachIsApart | chess.py:213 | norm > 1.5 holds exactly for squares at Chebyshev distance at least 2 |
| Rules.PawnOffsetsForward | chess.py:86-98 | every white pawn offset moves up, every black one moves down, by one or two rows and at most one column |
| Chess.Board.PawnAvailablePositions | chess.py:100-142 | the four guarded appends return exactly the pawn destinations of the rules, in the source's order |
| Rules.PawnTargetIsStep | chess.py:100-142 | every pawn destination is its position plus one of its four offsets, lies on the board, and is ahead in the pawn's direction |
| Rules.PawnStraightTargetsEmpty | chess.py:104-110 | a destination in the pawn's own column is the normal or long step, and it lands on an empty cell |
| Rules.PawnCaptureTargets | chess.py:112-130 | a diagonal square is a destination iff it is one of the two capture offsets and holds a piece of the other colour |
| Rules.PawnLongStep | chess.py:132-140 | the long step is offered iff the pawn is still on its starting square and the destination cell is empty |
| Rules.PawnLongStepJumps | chess.py:132-140 | the long step is offered even when the cell in between is occupied |
| Chess.Board.PawnPositionsKeptInCheck | chess.py:144-157 | the pawn keeps in check its capture-left and capture-right cells that are on the board |
| Rules.PawnControlMember | chess.py:144-157 | a square is kept in check by a pawn iff it is an on-board diagonal capture cell, whatever occupies it; at most two squares, never the forward cell |
| Rules.KingStepsAreNeighbours | chess.py:168-188 | the eight king step directions are exactly the vectors at Chebyshev distance 1 from zero, for either colour |
| Pieces.Piece.KingPositionsKeptInCheck | chess.py:259-265 | the loop over all_positions keeps exactly the squares the rules say the king keeps in check |
| Rules.KingControlAmongMember | chess.py:259-265 | filtering a list of squares by norm < 1.5 keeps exactly those near the king |
| Rules.KingControlMember | chess.py:259-265 | a king keeps in check exactly the on-board squares at Chebyshev distance at most 1, its own square included |
| Rules.KingControlCount | chess.py:259-265 | the number of squares a king keeps in check is the product of its reach along each axis |
| Rules.KingControlSizes | chess.py:259-265 | a king keeps 9 squares in check in the interior and 4 in a corner |
| Chess.Board.PositionsKeptInCheck | chess.py:144-157 | positions_kept_in_check dispatched on the piece type returns the piece's controlled squares |
| Chess.Board.GetPositionsInCheck | chess.py:232-237 | the concatenation over the opponent's pieces is the opponent's control, as the rules define it |
| Rules.ControlWitness | chess.py:232-237 | a square in the collected control is kept in check by one particular opponent piece |
| Rules.ControlOfOne | chess.py:232-237 | a square kept in check by any one opponent piece is in the collected control |
| Rules.ControlMember | chess.py:232-237 | a square is in the collected control iff some opponent piece keeps it in check |
| Pieces.ControlSublist | chess.py:232-237 | the pieces of a sub-list control no square the whole list does not |
| Pieces.ControlOfMember | chess.py:232-237 | a piece of the list adds its controlled squares to the list's control |
| Chess.Board.KingInCheck | chess.py:239-245 | king_in_check is true iff the king's square is in the opponent's control |
| Chess.Board.OtherKingDistance | chess.py:247-257 | after each pass the loop holds the last piece of type king seen so far; it returns the squared distance to the opponent's king, its last piece |
| Chess.Board.KingMayStep | chess.py:207-227 | the nested tests of the loop body keep a square iff it is on the board, empty or held by the other colour, outside the opponent's control and beyond norm 1.5 from the other king |
| Rules.KingTargetsAmongPrefix | chess.py:203-222 | each pass of the loop appends its square exactly when the king may enter it |
| Chess.Board.KingAvailablePositions | chess.py:190-230 | the loop over the eight steps returns exactly the king destinations of the rules, in step order |
| Rules.KingTargetsAmongMember | chess.py:203-227 | a square is returned iff it is one of the given steps away and the king may enter it |
| Rules.KingTargetsMember | chess.py:203-227 | a king destination is exactly one step away and the king may enter it |
| Rules.KingTargetsSafe | chess.py:203-227 | a king destination is on the board, one step away, not held by the king's own colour, not in the opponent's control, and at Chebyshev distance at least 2 from the other king; each square meeting all five conditions is a destination |
| Layouts.TargetCell | chess.py:100-142 | on the 64-square cell map, any destination is a cell that is empty or held by the opponent; a pawn captures only on a square it keeps in check; a king goes only where the opponent has no control and not next to the other king |
| Chess.Board.AvailablePositions | chess.py:100-142 | get_available_positions dispatched on the piece type returns the piece's destinations |
| Chess.Board.ChooseNewPosition | chess.py:54-60 | the choice is None (the source's `[]`) iff the piece has no destination; otherwise it is one of its destinations |
| Chess.Player.GetPiece | chess.py:281-285 | get_piece returns the first piece of the list on the position, or None when there is none |
| Pieces.FirstAt | chess.py:281-285 | the piece found stands on the square, is in the list, and no piece before it stands there; None iff no piece stands there |
| Chess.Player.PopPiece | chess.py:287-291 | on a king: ValueError and the list unchanged; on a pawn of the list: exactly its first occurrence removed; on a pawn not in the list: list.index's ValueError and the list unchanged; a valid side stays valid |
| Rules.RemoveFirstSpec | chess.py:289 | pop(index(p)) shortens the list by one, removes one copy of p from its multiset, and keeps every other element |
| Rules.RemoveFirstAt | chess.py:289 | pop(index(p)) keeps the pieces before p at their index and shifts the pieces after it down by one |
| Pieces.CapturedWithin | chess.py:394-396 | a capture only removes pieces from the opponent's list |
| Pieces.CapturedAt | chess.py:394-396 | a capture removes exactly the first piece on the square and shifts the later ones down by one |
| Pieces.CapturedSide | chess.py:394-396 | capturing no piece or a pawn leaves a valid side of the same colour |
| Pieces.CapturedApart | chess.py:394-396 | after a capture the remaining pieces are still apart, all came from the list, and none is on the captured square |
| Chess.Player.GetAvailablePieces | chess.py:293-298 | the loop keeps, in order, exactly the pieces that have a destination |
| Pieces.MovableSound | chess.py:293-298 | every kept piece belongs to the player and has a destination |
| Pieces.MovableComplete | chess.py:293-298 | every piece of the player with a destination is kept |
| Pieces.MovableMember | chess.py:293-298 | a piece is kept iff it belongs to the player and has a destination |
| Chess.Player.ChoosePiece | chess.py:300-308 | when the king is in check the king is chosen; otherwise the choice is a piece that can move, and None (the source's `[]`) iff no piece can move |
| Chess.Player.Losing | chess.py:310-316 | losing iff the king has no destination |
| Chess.Board.constructor | chess.py:320-332 | the players are stored and the cells mirror their pieces as update_board writes them |
| Chess.Board.UpdateBoard | chess.py:369-373 | the cells hold the 64 squares plus any square a piece stands on, each mapped to the last piece written there (player 2 after player 1), and empty squares map to None |
| Pieces.LastAtIndex | chess.py:369-373 | the piece written last to a square is the last piece of the list standing on it |
| Pieces.MirrorsPrefix | chess.py:371-373 | each write of the inner loop extends the written prefix by one piece |
| Layouts.MirrorsKeys | chess.py:369-373 | when every piece stands on the board, the rebuilt cell map has exactly the 64 squares as keys |
| Layouts.MirrorsPlaced | chess.py:369-373 | when no two pieces share a square, every piece is found in the cell of its square |
| Layouts.MirrorsHeld | chess.py:369-373 | every occupied cell holds a piece of one of the players that stands on that square |
| Layouts.ApartAppend | chess.py:369-373 | two lists whose pieces are apart and disjoint from each other form one list whose pieces are apart |
| Layouts.PlacedParts | chess.py:369-373 | the pieces of each player are placed when those of both are |
| Layouts.MirrorsLayout | chess.py:369-373 | update_board after a turn that keeps the sides valid, apart and disjoint restores the whole board layout |
| Layouts.LayoutSwap | chess.py:382-387 | the layout does not depend on which player is the active one |
| Layouts.TargetFree | chess.py:391-397 | a destination of the mover's piece is on the board and free of the mover's own pieces |
| Layouts.TurnSeparates | chess.py:394-397 | moving to a free square, and capturing nothing or a pawn there, keeps both sides valid, apart and disjoint |
| Layouts.NoKingCapture | chess.py:394-396 | if the mover does not keep the opponent's king in check, no destination holds the opponent's king, so pop_piece finds nothing or a pawn |
| Layouts.KingSafeAfter | chess.py:300-302 | a king that moves out of control, or a pawn that moves while its king is not in check, leaves the mover's king out of check after any capture |
| Chess.TurnLayout | chess.py:389-405 | a turn made from a layout leaves a layout for the new lists, and the mover's king out of check |
| Chess.RaiseOnlyOnCheck | chess.py:394-396 | pop_piece raises on a king only when the opponent's king was in check before the move |
| Chess.Board.ChooseMove | chess.py:389-392 | a chosen move is one of the mover's pieces with one of its destinations, and a pawn moves only when its king is not in check; "Finished" is reached only when the king is not in check and no piece can move; the `[]` destination only when the king is in check and has no move |
| Chess.Board.CaptureAndMove | chess.py:393-405 | when no ValueError is raised, the piece found on the destination (nothing or a pawn) is popped, the piece moves and the cells are rebuilt; the raise happens only on the opponent's king and changes nothing |
| Chess.Board.Turn | chess.py:382-405 | one pass of the loop keeps the board layout; a move is a destination of a piece of the mover, with the mover's king out of check afterwards; every stop changes nothing; from a playable position the only stop is "Finished" |
| Chess.NextPlayable | chess.py:417 | after a turn that leaves the mover's king out of check, and with neither side losing, the other side's position is playable |
| Chess.Board.EitherLosing | chess.py:417 | the exit test is true iff either king has no destination |
| Chess.Board.Play | chess.py:375-417 | the loop keeps the layout and stops within 700 turns: on "Finished" only when the mover is not in check and has no piece to move, and on a losing king only when a king has no destination; from a playable start it never reaches the ValueError or the `[]` destination |
| Chess.StartPlayable | chess.py:320-332 | the board built from a white player 1 and a black player 2 keeps the layout, and white, who moves first, can play |
| Chess.RunGame | chess.py:420-425 | the game main plays ends on "Finished", the limiter or a losing king, within 700 turns; it never raises in pop_piece and never reaches the `[]` destination |

## Left out

- `deep_learning.py` is not part of this model. It is a TensorFlow network with
  float scores and random sampling, and it calls player methods that the game
  does not define.
- Text output is not modelled: `__repr__`/`__str__` of pieces and players,
  `Board.__repr__`, the `show` parameter of `play`, and every `print` call,
  including the "out of bounds" check at the end of
  `King.get_available_positions`.
- `np.linalg.norm` is replaced by integer squared distances.
  - Chess.Board.OtherKingDistance: returns the squared distance, and the
    caller compares `4·d > 9`. The equivalence with the float test is
    `Rules.BeyondKingReachIsApart`. Float rounding is not modelled.
- `random.choice` (in `choose_new_position` and `choose_piece`) becomes a
  nondeterministic choice of some element. The contracts hold for every
  choice. No distribution is modelled.
- Pieces are values, not shared objects.
  - In the source, the same `Piece` object sits in a player's list and in a
    board cell, and `move` updates it in both.
  - In the model, `Player.MovePiece` writes the moved value back into the
    list, and `update_board` rebuilds the cells.
  - Aliasing between cells and lists, and identity of piece objects, are not
    captured. Two equal pieces are indistinguishable.
- The `board` back-references of pieces and players are left out. The piece
  methods that read the board are `Board` methods, and the player methods take
  the board as a parameter.
- `Player.pawns`, `Player.king` and `Player.active` are not separate fields.
  The king is the last piece of the list, where `__init__` puts it; `pop_piece`
  never removes it. `active` is never read.
- `blocking_check` is a stub that returns `None`, so its guard
  `not self.blocking_check` always holds and is dropped.
- `try`/`except KeyError` around a cell lookup becomes a membership test on the
  cell map.
- The body of the loop of `King.get_available_positions` is the method
  `KingMayStep`. It keeps the source's nested tests, in the same order.
- Chess.Board.ChooseMove: when `choose_new_position` returns `[]`, the source
  fails. In `get_piece`, comparing a piece's 2-element position array with
  `[]` raises on some NumPy versions. Otherwise the king moves to `[]`, and
  the game fails later, when that position is added to a step or subtracted
  from a square. The model's `NoDestination` stop stands for that failure, not
  for a normal end of the game. `Board.Play` proves this path unreachable from
  a playable start.
- Chess.Board.OtherKingDistance: requires the opponent's king to be listed. The
  source fails with an `AttributeError` on `None` without it, but the layout
  keeps the king in every reachable state.
