/** The players and the board of chess.py, the classes whose fields the game
    updates in place: a player's piece list shrinks when a piece is captured,
    the board rebuilds its cell map after every move, and Board.play alternates
    the players.  The pieces' methods that look at the board take it as the
    receiver (the piece's `board` back-reference). */
module Chess {
  import opened Rules
  import opened Pieces
  import opened Layouts

  /** The two ValueErrors of Player.pop_piece: the explicit one for a king, and the
      one list.index raises for a piece that is not in the list. */
  datatype PopError = TriedToRemoveKing | NotInList

  datatype Outcome<E> = Pass | Fail(error: E)

  /** Why Board.play stopped. */
  datatype Stop =
    | NoPieceToMove            // choose_piece returned []: the loop prints "Finished" and breaks
    | Limit                    // the limiter reached 700
    | KingHasNoMove            // player_1.losing or player_2.losing
    | NoDestination            // the chosen piece had no position to move to (see README)
    | Raised(error: PopError)  // pop_piece raised

  // ---------------------------------------------------------------------------
  // What one pass of Board.play keeps
  // ---------------------------------------------------------------------------

  /** The layout of the board for the mover's pieces a and the opponent's pieces
      b, listed in the order of player 1 and player 2. */
  ghost predicate Arranged(cells: map<Pos, Option<Piece>>, a: seq<Piece>, b: seq<Piece>, ca: Color, cb: Color, first: bool)
  {
    if first then Layout(cells, a, b, ca, cb) else Layout(cells, b, a, cb, ca)
  }

  /** The cells update_board writes after a turn from a layout keep the layout
      for the sides after the turn, and the mover's king is not in check. */
  lemma TurnLayout(c0: map<Pos, Option<Piece>>, a: seq<Piece>, b: seq<Piece>, ca: Color, cb: Color, p: Piece, q: Pos,
                   c1: map<Pos, Option<Piece>>, first: bool)
    requires Arranged(c0, a, b, ca, cb, first)
    requires p in a && q in Targets(p, c0, b)
    requires FirstAt(b, q).None? || FirstAt(b, q).value.kind == Pawn
    requires p.kind == Pawn ==> !InCheck(a, b)
    requires Mirrors(c1, if first then Moved(a, p, q) + Captured(b, q) else Captured(b, q) + Moved(a, p, q))
    ensures Arranged(c1, Moved(a, p, q), Captured(b, q), ca, cb, first)
    ensures !InCheck(Moved(a, p, q), Captured(b, q))
  {
    var a', b' := Moved(a, p, q), Captured(b, q);
    if !first {
      LayoutSwap(c0, b, a, cb, ca);
    }
    TargetFree(c0, a, b, ca, cb, p, q);
    TurnSeparates(a, b, ca, cb, p, q);
    TargetCell(p, c0, b, q);
    KingSafeAfter(a, b, ca, p, q);
    if first {
      MirrorsLayout(c1, a', b', ca, cb);
    } else {
      MirrorsLayout(c1, b', a', cb, ca);
    }
  }

  /** From the layout, pop_piece raises only when the mover keeps the
      opponent's king in check. */
  lemma RaiseOnlyOnCheck(c0: map<Pos, Option<Piece>>, a: seq<Piece>, b: seq<Piece>, ca: Color, cb: Color, p: Piece, q: Pos,
                         first: bool)
    requires Arranged(c0, a, b, ca, cb, first)
    requires p in a && q in Targets(p, c0, b)
    requires FirstAt(b, q).Some? && FirstAt(b, q).value.kind == King
    ensures InCheck(b, a)
  {
    if !first {
      LayoutSwap(c0, b, a, cb, ca);
    }
    if !InCheck(b, a) {
      NoKingCapture(c0, a, b, cb, p, q);
    }
  }

  /** A king of the two sides has no position to move to: Player.losing holds
      for one of the players. */
  ghost predicate Stalled(cells: map<Pos, Option<Piece>>, a: seq<Piece>, b: seq<Piece>)
  {
    && |a| > 0 && |b| > 0
    && (Targets(Last(a), cells, b) == [] || Targets(Last(b), cells, a) == [])
  }

  /** After the mover a left its king out of check and neither king is
      stalled, the other side may take its turn. */
  lemma NextPlayable(cells: map<Pos, Option<Piece>>, a: seq<Piece>, b: seq<Piece>, first: bool)
    requires |a| > 0 && |b| > 0 && !InCheck(a, b)
    requires if first then !Stalled(cells, a, b) else !Stalled(cells, b, a)
    ensures Playable(cells, b, a)
  {
  }

  /** Parity of the turn counter, the step the loop of Board.play needs to
      pass from one mover to the other. */
  lemma Parity(i: nat)
    ensures (i + 1) % 2 == 0 <==> i % 2 != 0
  {
  }

  /** The side with pieces a, to move against b, may take its turn without a
      raise: it does not keep the other king in check, and if its own king is in
      check that king has a position to move to. */
  ghost predicate Playable(cells: map<Pos, Option<Piece>>, a: seq<Piece>, b: seq<Piece>)
  {
    && |a| > 0 && |b| > 0
    && !InCheck(b, a)
    && (InCheck(a, b) ==> Targets(Last(a), cells, b) != [])
  }

  /** The starting position update_board builds in Board.__init__ from a white
      player 1 and a black player 2 keeps the board layout and is playable for
      white, who moves first. */
  lemma StartPlayable(cells: map<Pos, Option<Piece>>, a: seq<Piece>, b: seq<Piece>)
    requires StartSide(a, White) && StartSide(b, Black) && Mirrors(cells, a + b)
    ensures Layout(cells, a, b, White, Black) && Playable(cells, a, b)
  {
    StartSideValid(a, White);
    StartSideValid(b, Black);
    StartDisjoint(a, b);
    MirrorsLayout(cells, a, b, White, Black);
    StartNotInCheck(a, b, White, Black);
    StartNotInCheck(b, a, Black, White);
  }

  // ---------------------------------------------------------------------------
  // Player
  // ---------------------------------------------------------------------------

  class Player {
    const color: Color
    var pieces: seq<Piece>

    /** The player still has its king, as the last of its pieces. */
    ghost predicate KingListed()
      reads this
    {
      |pieces| > 0 && pieces[|pieces| - 1].kind == King
    }

    ghost predicate Valid()
      reads this
    {
      Side(pieces, color)
    }

    /** Player.king */
    function KingPiece(): Piece
      reads this
      requires |pieces| > 0
    {
      pieces[|pieces| - 1]
    }

    /** Player.__init__: eight pawns named after PAWN_NAMES, then the king. */
    constructor (color: Color)
      ensures this.color == color && Valid()
      ensures |pieces| == 9
      ensures forall i :: 0 <= i < 8 ==> pieces[i] == NewPiece(PawnNames[i], color)
      ensures pieces[8] == NewPiece(KingName, color)
      ensures forall i :: 0 <= i < 8 ==> pieces[i].position == Pos(i + 1, PawnRow(color))
      ensures pieces[8].position == Pos(5, KingRow(color))
      ensures StartSide(pieces, color)
    {
      var pawns: seq<Piece> := [];
      for i := 0 to 8
        invariant |pawns| == i
        invariant forall j :: 0 <= j < i ==> (PawnNames[j], color) in StartingPosition && pawns[j] == NewPiece(PawnNames[j], color)
        invariant forall j :: 0 <= j < i ==> pawns[j].position == Pos(j + 1, PawnRow(color))
      {
        StartingPawn(i, color);
        pawns := pawns + [NewPiece(PawnNames[i], color)];
      }
      StartingKing(color);
      this.color := color;
      this.pieces := pawns + [NewPiece(KingName, color)];
      new;
      forall i | 0 <= i < 8
        ensures pieces[i].kind == Pawn && pieces[i].position in Squares
      {
        assert PawnNames[i] != KingName;
        AllPositionsMember(pieces[i].position);
      }
      AllPositionsMember(pieces[8].position);
    }

    /** Player.get_piece */
    method GetPiece(position: Pos) returns (r: Option<Piece>)
      ensures r == FirstAt(pieces, position)
    {
      var i := 0;
      while i < |pieces|
        invariant 0 <= i <= |pieces|
        invariant FirstAt(pieces[i..], position) == FirstAt(pieces, position)
      {
        assert pieces[i..][1..] == pieces[i + 1..];
        if pieces[i].position == position {
          return Some(pieces[i]);
        }
        i := i + 1;
      }
      return None;
    }

    /** Player.pop_piece */
    method PopPiece(piece: Piece) returns (res: Outcome<PopError>)
      modifies this
      ensures piece.kind == King ==> res == Fail(TriedToRemoveKing) && pieces == old(pieces)
      ensures piece.kind != King && piece !in old(pieces) ==> res == Fail(NotInList) && pieces == old(pieces)
      ensures piece.kind != King && piece in old(pieces) ==> res == Pass && pieces == RemoveFirst(old(pieces), piece)
      ensures old(Valid()) ==> Valid()
    {
      if piece.kind != King {
        if piece in pieces {
          var k := IndexOf(pieces, piece);
          ghost var before := pieces;
          pieces := pieces[..k] + pieces[k + 1..];
          if old(Valid()) {
            assert k < |before| - 1;
            forall i | 0 <= i < |pieces|
              ensures pieces[i] == before[if i < k then i else i + 1]
            {
            }
          }
          res := Pass;
        } else {
          res := Fail(NotInList);
        }
      } else {
        res := Fail(TriedToRemoveKing);
      }
    }

    /** Piece.move on a piece of this player: the moved piece takes the place of
        its first occurrence in the list, as the Python object does in place. */
    method MovePiece(piece: Piece, to: Pos)
      requires piece in pieces
      modifies this
      ensures pieces == Moved(old(pieces), piece, to)
    {
      var k := IndexOf(pieces, piece);
      pieces := pieces[k := piece.Move(to)];
    }

    /** Player.get_available_pieces */
    method GetAvailablePieces(board: Board) returns (available: seq<Piece>)
      requires Valid() && board.Opponent(color).KingListed()
      ensures available == Movable(pieces, board.cells, board.Opponent(color).pieces)
    {
      var ps := pieces;
      ghost var opp := board.Opponent(color).pieces;
      available := [];
      for i := 0 to |ps|
        invariant available == Movable(ps[..i], board.cells, opp)
      {
        assert ps[..i + 1][..i] == ps[..i];
        var positions := board.AvailablePositions(ps[i]);
        if positions != [] {
          available := available + [ps[i]];
        }
      }
      assert ps[..|ps|] == ps;
    }

    /** Player.choose_piece: the king when it is in check, otherwise some piece
        that can move (random.choice), or None for the source's `[]`. */
    method ChoosePiece(board: Board) returns (r: Option<Piece>)
      requires Valid() && board.Opponent(color).KingListed()
      ensures board.Attacked(KingPiece()) ==> r == Some(KingPiece())
      ensures !board.Attacked(KingPiece()) ==>
        (r.None? <==> Movable(pieces, board.cells, board.Opponent(color).pieces) == [])
      ensures !board.Attacked(KingPiece()) && r.Some? ==> r.value in Movable(pieces, board.cells, board.Opponent(color).pieces)
      ensures r.Some? ==> r.value in pieces
    {
      var inCheck := board.KingInCheck(KingPiece());
      if inCheck {
        r := Some(KingPiece());
      } else {
        var availablePieces := GetAvailablePieces(board);
        if availablePieces != [] {
          var k :| 0 <= k < |availablePieces|;
          MovableMember(pieces, board.cells, board.Opponent(color).pieces, availablePieces[k]);
          r := Some(availablePieces[k]);
        } else {
          r := None;
        }
      }
    }

    /** Player.losing: the king has no position to move to. */
    method Losing(board: Board) returns (b: bool)
      requires Valid() && board.Opponent(color).KingListed()
      ensures b <==> Targets(KingPiece(), board.cells, board.Opponent(color).pieces) == []
    {
      var positions := board.AvailablePositions(KingPiece());
      b := positions == [];
    }
  }

  // ---------------------------------------------------------------------------
  // Board
  // ---------------------------------------------------------------------------

  class Board {
    const player1: Player
    const player2: Player
    var cells: map<Pos, Option<Piece>>

    /** Two distinct players whose pieces and the cells keep the layout. */
    ghost predicate Valid()
      reads this, player1, player2
    {
      player1 != player2 && Layout(cells, player1.pieces, player2.pieces, player1.color, player2.color)
    }

    /** Board.__init__: the players are stored and the cells are built by
        update_board (the pieces' and players' board back-references are
        passed as parameters instead). */
    constructor (player1: Player, player2: Player)
      ensures this.player1 == player1 && this.player2 == player2
      ensures Mirrors(cells, player1.pieces + player2.pieces)
    {
      this.player1 := player1;
      this.player2 := player2;
      cells := map q | q in AllPositions() :: None;
      new;
      UpdateBoard();
    }

    /** Board.update_board: every square emptied, then each piece of player 1 and
        then of player 2 written into the cell of its position. */
    method UpdateBoard()
      modifies this
      ensures Mirrors(cells, player1.pieces + player2.pieces)
    {
      var c: map<Pos, Option<Piece>> := map q | q in AllPositions() :: None;
      forall q ensures q in c <==> q in Squares {
        AllPositionsMember(q);
      }
      var players := [player1, player2];
      ghost var done: seq<Piece> := [];
      for k := 0 to 2
        invariant done == if k == 0 then [] else if k == 1 then player1.pieces else player1.pieces + player2.pieces
        invariant Mirrors(c, done)
      {
        var ps := players[k].pieces;
        assert done + ps[..0] == done;
        for j := 0 to |ps|
          invariant Mirrors(c, done + ps[..j])
        {
          MirrorsPrefix(c, done, ps, j);
          c := c[ps[j].position := Some(ps[j])];
        }
        assert ps[..|ps|] == ps;
        done := done + ps;
      }
      cells := c;
    }

    /** The opponent of the side of colour c, as the king methods look it up. */
    function Opponent(c: Color): Player
    {
      if c != player1.color then player1 else player2
    }

    /** What get_positions_in_check collects over the pieces of pl. */
    ghost function ControlOf(pl: Player): seq<Pos>
      reads this, pl
    {
      Control(States(pl.pieces), cells.Keys)
    }

    /** Whether the king k stands on a square its opponent controls. */
    ghost predicate Attacked(k: Piece)
      reads this, player1, player2
    {
      k.position in ControlOf(Opponent(k.color))
    }

    /** What get_available_positions returns for p. */
    ghost function TargetsOf(p: Piece): seq<Pos>
      reads this, player1, player2
      requires |Opponent(p.color).pieces| > 0
    {
      Targets(p, cells, Opponent(p.color).pieces)
    }

    // -------------------------------------------------------------------------
    // The methods of Pawn and King that look at the board
    // -------------------------------------------------------------------------

    /** Pawn.get_available_positions.  `not self.blocking_check` always holds, since
        that property returns None. */
    method PawnAvailablePositions(piece: Piece) returns (r: seq<Pos>)
      ensures r == PawnTargets(piece.color, piece.position, piece.startingPosition, Occupancy(cells))
    {
      var color, position := piece.color, piece.position;
      ghost var occ := Occupancy(cells);
      r := [];
      var forward := Add(position, PawnOffset(color, NormalStep));
      if forward in cells {
        if cells[forward].None? {
          r := r + [forward];
        }
      }
      ghost var r1 := r;
      assert r1 == if forward in occ && occ[forward].None? then [forward] else [];
      var right := Add(position, PawnOffset(color, CaptureRight));
      if right in cells {
        if cells[right].Some? {
          if cells[right].value.color != color {
            r := r + [right];
          }
        }
      }
      ghost var r2 := r;
      assert r2 == r1 + if right in occ && HoldsOpponent(occ[right], color) then [right] else [];
      var left := Add(position, PawnOffset(color, CaptureLeft));
      if left in cells {
        if cells[left].Some? {
          if cells[left].value.color != color {
            r := r + [left];
          }
        }
      }
      ghost var r3 := r;
      assert r3 == r2 + if left in occ && HoldsOpponent(occ[left], color) then [left] else [];
      var long := Add(position, PawnOffset(color, InitialLongStep));
      if long in cells {
        if cells[long].None? {
          if position == piece.startingPosition {
            r := r + [long];
          }
        }
      }
      assert r == r3 + if long in occ && occ[long].None? && position == piece.startingPosition then [long] else [];
    }

    /** Pawn.positions_kept_in_check */
    method PawnPositionsKeptInCheck(piece: Piece) returns (r: seq<Pos>)
      ensures r == PawnControl(piece.color, piece.position, cells.Keys)
    {
      r := [];
      var left := Add(piece.position, PawnOffset(piece.color, CaptureLeft));
      if left in cells {
        r := r + [left];
      }
      var right := Add(piece.position, PawnOffset(piece.color, CaptureRight));
      if right in cells {
        r := r + [right];
      }
    }

    /** positions_kept_in_check, dispatched on the kind of piece. */
    method PositionsKeptInCheck(piece: Piece) returns (r: seq<Pos>)
      ensures r == PieceControl(piece.State(), cells.Keys)
    {
      if piece.kind == Pawn {
        r := PawnPositionsKeptInCheck(piece);
      } else {
        r := piece.KingPositionsKeptInCheck();
      }
    }

    /** King.get_positions_in_check */
    method GetPositionsInCheck(king: Piece) returns (r: seq<Pos>)
      ensures r == ControlOf(Opponent(king.color))
    {
      var opponent := Opponent(king.color);
      var ps := opponent.pieces;
      r := [];
      for i := 0 to |ps|
        invariant r == Control(States(ps[..i]), cells.Keys)
      {
        var threat := PositionsKeptInCheck(ps[i]);
        ControlPrefix(ps, i, cells.Keys);
        r := r + threat;
      }
      assert ps[..|ps|] == ps;
    }

    /** King.king_in_check */
    method KingInCheck(king: Piece) returns (b: bool)
      ensures b <==> Attacked(king)
    {
      var positionsInCheck := GetPositionsInCheck(king);
      b := king.position in positionsInCheck;
    }

    /** King.other_king_distance, as the squared distance (the caller compares it
        with 1.5 squared).  The loop keeps the last piece of the king's kind seen
        so far, which at the end is the opponent's king, listed last. */
    method OtherKingDistance(king: Piece, from: Pos) returns (d: int)
      requires king.kind == King && Opponent(king.color).KingListed()
      ensures d == SqDist(Opponent(king.color).KingPiece().position, from)
    {
      var ps := Opponent(king.color).pieces;
      var opponentKing: Option<Piece> := None;
      for i := 0 to |ps|
        invariant opponentKing == LastOfKind(ps[..i], king.kind)
      {
        assert ps[..i + 1][..i] == ps[..i];
        if ps[i].kind == king.kind {
          opponentKing := Some(ps[i]);
        }
      }
      assert ps[..|ps|] == ps;
      d := SqDist(opponentKing.value.position, from);
    }

    /** The body of the loop of King.get_available_positions for the square q
        one step away: whether q is kept. */
    method KingMayStep(king: Piece, q: Pos, positionsInCheck: seq<Pos>) returns (keep: bool)
      requires king.kind == King && Opponent(king.color).KingListed()
      ensures keep <==> KingMayEnter(king.color, q, Occupancy(cells), positionsInCheck, Opponent(king.color).KingPiece().position)
    {
      keep := false;
      if q in cells {
        if cells[q].None? {
          if q !in positionsInCheck {
            var d := OtherKingDistance(king, q);
            if 4 * d > 9 {
              keep := true;
            }
          }
        } else {
          if cells[q].value.color != king.color {
            if q !in positionsInCheck {
              var d := OtherKingDistance(king, q);
              if 4 * d > 9 {
                keep := true;
              }
            }
          }
        }
      }
    }

    /** King.get_available_positions */
    method KingAvailablePositions(king: Piece) returns (r: seq<Pos>)
      requires king.kind == King && Opponent(king.color).KingListed()
      ensures r == KingTargets(king.color, king.position, Occupancy(cells),
                               ControlOf(Opponent(king.color)), Opponent(king.color).KingPiece().position)
    {
      var steps := KingSteps(king.color);
      var positionsInCheck := GetPositionsInCheck(king);
      ghost var occ := Occupancy(cells);
      ghost var otherKing := Opponent(king.color).KingPiece().position;
      r := [];
      for i := 0 to |steps|
        invariant r == KingTargetsAmong(king.color, king.position, occ, positionsInCheck, otherKing, steps[..i])
      {
        var q := Add(king.position, steps[i]);
        var keep := KingMayStep(king, q, positionsInCheck);
        KingTargetsAmongPrefix(king.color, king.position, occ, positionsInCheck, otherKing, steps, i);
        if keep {
          r := r + [q];
        }
      }
      assert steps[..|steps|] == steps;
    }

    /** get_available_positions, dispatched on the kind of piece. */
    method AvailablePositions(piece: Piece) returns (r: seq<Pos>)
      requires Opponent(piece.color).KingListed()
      ensures r == TargetsOf(piece)
    {
      if piece.kind == Pawn {
        r := PawnAvailablePositions(piece);
      } else {
        r := KingAvailablePositions(piece);
      }
    }

    /** Piece.choose_new_position: random.choice becomes a choice of some
        available position; the source's `[]` for "none" is None. */
    method ChooseNewPosition(piece: Piece) returns (r: Option<Pos>)
      requires Opponent(piece.color).KingListed()
      ensures r.None? <==> TargetsOf(piece) == []
      ensures r.Some? ==> r.value in TargetsOf(piece)
    {
      var available := AvailablePositions(piece);
      if available != [] {
        var k :| 0 <= k < |available|;
        r := Some(available[k]);
      } else {
        r := None;
      }
    }

    /** The first half of a pass of the loop of Board.play: choose_piece, then
        choose_new_position of the chosen piece.  None when both succeed, else
        the `break` on "Finished" or the `[]` destination. */
    method ChooseMove(active: Player, opponent: Player) returns (stop: Option<Stop>, piece: Piece, dest: Pos)
      requires player1 != player2 && player1.color != player2.color && cells.Keys == Squares
      requires active.Valid() && opponent.KingListed()
      requires (active == player1 && opponent == player2) || (active == player2 && opponent == player1)
      ensures stop.None? ==> piece in active.pieces && dest in Targets(piece, cells, opponent.pieces)
      ensures stop.None? && piece.kind == Pawn ==> !InCheck(active.pieces, opponent.pieces)
      ensures stop.Some? ==> stop == Some(NoPieceToMove) || stop == Some(NoDestination)
      ensures stop == Some(NoPieceToMove) ==>
        !InCheck(active.pieces, opponent.pieces) && Movable(active.pieces, cells, opponent.pieces) == []
      ensures stop == Some(NoDestination) ==>
        InCheck(active.pieces, opponent.pieces) && Targets(Last(active.pieces), cells, opponent.pieces) == []
    {
      assert Opponent(active.color) == opponent;
      assert Attacked(active.KingPiece()) == InCheck(active.pieces, opponent.pieces);
      piece, dest := active.KingPiece(), active.KingPiece().position;
      var activePiece := active.ChoosePiece(this);
      if activePiece.None? {
        stop := Some(NoPieceToMove);
      } else {
        piece := activePiece.value;
        assert piece.color == active.color;
        assert TargetsOf(piece) == Targets(piece, cells, opponent.pieces);
        var newPosition := ChooseNewPosition(piece);
        if newPosition.None? {
          if !Attacked(active.KingPiece()) {
            MovableMember(active.pieces, cells, opponent.pieces, piece);
          }
          stop := Some(NoDestination);
        } else {
          dest := newPosition.value;
          stop := None;
        }
      }
    }

    /** The second half: get_piece on the destination and pop_piece of what is
        found there, Piece.move and update_board.  None when the move was made,
        else the raise of pop_piece, which happens only on the opponent's king,
        with nothing changed. */
    method CaptureAndMove(active: Player, opponent: Player, piece: Piece, dest: Pos) returns (stop: Option<Stop>)
      requires player1 != player2
      requires (active == player1 && opponent == player2) || (active == player2 && opponent == player1)
      requires piece in active.pieces
      modifies this, active, opponent
      ensures stop.Some? ==> cells == old(cells) && active.pieces == old(active.pieces) && opponent.pieces == old(opponent.pieces)
      ensures stop.Some? ==>
        stop == Some(Raised(TriedToRemoveKing)) && FirstAt(old(opponent.pieces), dest).Some? &&
        FirstAt(old(opponent.pieces), dest).value.kind == King
      ensures stop.None? ==>
        && (FirstAt(old(opponent.pieces), dest).None? || FirstAt(old(opponent.pieces), dest).value.kind == Pawn)
        && active.pieces == Moved(old(active.pieces), piece, dest)
        && opponent.pieces == Captured(old(opponent.pieces), dest)
        && Mirrors(cells, player1.pieces + player2.pieces)
    {
      var capture := opponent.GetPiece(dest);
      if capture.Some? {
        var res := opponent.PopPiece(capture.value);
        if res.Fail? {
          return Some(Raised(res.error));
        }
      }
      active.MovePiece(piece, dest);
      UpdateBoard();
      stop := None;
    }

    /** One pass of the loop of Board.play for the side `active`.  None when the
        turn was played; otherwise why the loop stops, with nothing changed. */
    method Turn(active: Player, opponent: Player) returns (stop: Option<Stop>, ghost moved: Piece, ghost dest: Pos)
      requires Valid()
      requires (active == player1 && opponent == player2) || (active == player2 && opponent == player1)
      modifies this, active, opponent
      ensures Valid()
      ensures stop.Some? ==> cells == old(cells) && active.pieces == old(active.pieces) && opponent.pieces == old(opponent.pieces)
      ensures stop.Some? ==> stop.value.NoPieceToMove? || stop.value.NoDestination? || stop.value.Raised?
      ensures stop == Some(NoPieceToMove) ==>
        old(!InCheck(active.pieces, opponent.pieces) && Movable(active.pieces, cells, opponent.pieces) == [])
      ensures stop == Some(NoDestination) ==>
        old(InCheck(active.pieces, opponent.pieces) && Targets(Last(active.pieces), cells, opponent.pieces) == [])
      ensures stop.Some? && stop.value.Raised? ==>
        stop.value.error == TriedToRemoveKing && old(InCheck(opponent.pieces, active.pieces))
      ensures stop.Some? && old(Playable(cells, active.pieces, opponent.pieces)) ==> stop == Some(NoPieceToMove)
      ensures stop.None? ==>
        && moved in old(active.pieces)
        && dest in old(Targets(moved, cells, opponent.pieces))
        && active.pieces == Moved(old(active.pieces), moved, dest)
        && opponent.pieces == Captured(old(opponent.pieces), dest)
        && !InCheck(active.pieces, opponent.pieces)
    {
      var piece, newPosition;
      stop, piece, newPosition := ChooseMove(active, opponent);
      moved, dest := piece, newPosition;
      if stop.None? {
        ghost var c0, a, b := cells, active.pieces, opponent.pieces;
        ghost var ca, cb := active.color, opponent.color;
        ghost var first := active == player1;
        assert Arranged(c0, a, b, ca, cb, first);
        stop := CaptureAndMove(active, opponent, piece, newPosition);
        if stop.None? {
          TurnLayout(c0, a, b, ca, cb, piece, newPosition, cells, first);
        } else {
          RaiseOnlyOnCheck(c0, a, b, ca, cb, piece, newPosition, first);
        }
      }
    }

    /** The exit test of the loop of Board.play: whether either player is losing. */
    method EitherLosing() returns (b: bool)
      requires Valid()
      ensures b <==> Stalled(cells, player1.pieces, player2.pieces)
    {
      assert Opponent(player1.color) == player2 && Opponent(player2.color) == player1;
      var losing1 := player1.Losing(this);
      var losing2 := player2.Losing(this);
      b := losing1 || losing2;
    }

    /** Board.play: turns of player 1 and player 2 alternately until a player has
        no piece to move, 700 turns are played, or a king has no position to move
        to after a turn. */
    method Play() returns (stop: Stop, turns: nat)
      requires Valid()
      modifies this, player1, player2
      ensures Valid()
      ensures turns <= 700 && (stop == Limit <==> turns == 700)
      ensures stop == KingHasNoMove ==> Stalled(cells, player1.pieces, player2.pieces)
      ensures stop == NoPieceToMove ==>
        var (mover, other) := if turns % 2 == 0 then (player1, player2) else (player2, player1);
        !InCheck(mover.pieces, other.pieces) && Movable(mover.pieces, cells, other.pieces) == []
      ensures old(Playable(cells, player1.pieces, player2.pieces)) ==>
        stop == NoPieceToMove || stop == Limit || stop == KingHasNoMove
    {
      var limiter := 0;
      var i := 0;
      var run := true;
      while run
        invariant Valid()
        invariant 0 <= i < 700 && limiter == i
        invariant run && (i > 0 || old(Playable(cells, player1.pieces, player2.pieces))) ==>
          if i % 2 == 0 then Playable(cells, player1.pieces, player2.pieces)
          else Playable(cells, player2.pieces, player1.pieces)
        invariant !run ==> Stalled(cells, player1.pieces, player2.pieces)
        decreases 700 - i
      {
        var activePlayer, opponent := player1, player2;
        if i % 2 != 0 {
          activePlayer, opponent := player2, player1;
        }
        var s, _, _ := Turn(activePlayer, opponent);
        if s.Some? {
          return s.value, i;
        }
        limiter := limiter + 1;
        if limiter == 700 {
          return Limit, limiter;
        }
        Parity(i);
        i := i + 1;
        var losing := EitherLosing();
        run := !losing;
        if run {
          NextPlayable(cells, activePlayer.pieces, opponent.pieces, activePlayer == player1);
        }
      }
      return KingHasNoMove, i;
    }
  }

  /** main: player 1 is white, player 2 black, and the board is set up from
      them before play.  The game ends only on "Finished", the limiter or a
      losing king; it never raises in pop_piece and never reaches the `[]`
      destination. */
  method RunGame() returns (stop: Stop, turns: nat)
    ensures stop == NoPieceToMove || stop == Limit || stop == KingHasNoMove
    ensures turns <= 700
  {
    var player1 := new Player(White);
    var player2 := new Player(Black);
    var board := new Board(player1, player2);
    StartPlayable(board.cells, player1.pieces, player2.pieces);
    stop, turns := board.Play();
  }
}
