/** The pieces of the game in chess.py as values: the constant start table, a
    pawn or a king with its position, and the lists of pieces the two players
    hold, with what one turn does to such a list. */
module Pieces {
  import opened Rules

  // ---------------------------------------------------------------------------
  // Constant data
  // ---------------------------------------------------------------------------

  /** PAWN_NAMES */
  const PawnNames: seq<string> := ["pawn_1", "pawn_2", "pawn_3", "pawn_4", "pawn_5", "pawn_6", "pawn_7", "pawn_8"]

  /** KING_NAME */
  const KingName: string := "king"

  /** STARTING_POSITION */
  const StartingPosition: map<(string, Color), Pos> := map[
    ("king", White) := Pos(5, 1),
    ("pawn_1", White) := Pos(1, 2),
    ("pawn_2", White) := Pos(2, 2),
    ("pawn_3", White) := Pos(3, 2),
    ("pawn_4", White) := Pos(4, 2),
    ("pawn_5", White) := Pos(5, 2),
    ("pawn_6", White) := Pos(6, 2),
    ("pawn_7", White) := Pos(7, 2),
    ("pawn_8", White) := Pos(8, 2),
    ("king", Black) := Pos(5, 8),
    ("pawn_1", Black) := Pos(1, 7),
    ("pawn_2", Black) := Pos(2, 7),
    ("pawn_3", Black) := Pos(3, 7),
    ("pawn_4", Black) := Pos(4, 7),
    ("pawn_5", Black) := Pos(5, 7),
    ("pawn_6", Black) := Pos(6, 7),
    ("pawn_7", Black) := Pos(7, 7),
    ("pawn_8", Black) := Pos(8, 7)]

  /** The pawn row and the king row of each colour in STARTING_POSITION. */
  function PawnRow(c: Color): int { if c == White then 2 else 7 }
  function KingRow(c: Color): int { if c == White then 1 else 8 }

  lemma StartingPawn(i: int, c: Color)
    requires 0 <= i < 8
    ensures (PawnNames[i], c) in StartingPosition
    ensures StartingPosition[(PawnNames[i], c)] == Pos(i + 1, PawnRow(c))
  {
    var name := PawnNames[i];
    if c == White {
      if i == 0 { assert name == "pawn_1"; }
      else if i == 1 { assert name == "pawn_2"; }
      else if i == 2 { assert name == "pawn_3"; }
      else if i == 3 { assert name == "pawn_4"; }
      else if i == 4 { assert name == "pawn_5"; }
      else if i == 5 { assert name == "pawn_6"; }
      else if i == 6 { assert name == "pawn_7"; }
      else { assert name == "pawn_8"; }
    } else {
      if i == 0 { assert name == "pawn_1"; }
      else if i == 1 { assert name == "pawn_2"; }
      else if i == 2 { assert name == "pawn_3"; }
      else if i == 3 { assert name == "pawn_4"; }
      else if i == 4 { assert name == "pawn_5"; }
      else if i == 5 { assert name == "pawn_6"; }
      else if i == 6 { assert name == "pawn_7"; }
      else { assert name == "pawn_8"; }
    }
  }

  lemma StartingKing(c: Color)
    ensures (KingName, c) in StartingPosition
    ensures StartingPosition[(KingName, c)] == Pos(5, KingRow(c))
  {
  }

  // ---------------------------------------------------------------------------
  // Pieces
  // ---------------------------------------------------------------------------

  /** A pawn or a king: Piece.__init__ with the attributes the game reads. */
  datatype Piece = Piece(name: string, kind: Kind, color: Color, startingPosition: Pos, position: Pos)
  {
    /** What check detection looks at. */
    function State(): PieceState
    {
      PieceState(kind, color, position)
    }

    /** Piece.move: the piece with its position reassigned, everything else kept. */
    function Move(to: Pos): (p: Piece)
      ensures p.position == to
      ensures p.name == name && p.kind == kind && p.color == color && p.startingPosition == startingPosition
    {
      this.(position := to)
    }


    /** Piece.drop_out_of_bounds_positions */
    method DropOutOfBoundsPositions(positions: seq<Pos>) returns (valid: seq<Pos>)
      ensures valid == KeepOnBoard(positions)
    {
      valid := [];
      for i := 0 to |positions|
        invariant valid == KeepOnBoard(positions[..i])
      {
        assert positions[..i + 1][..i] == positions[..i];
        var pos := positions[i];
        if 1 <= pos.x < 9 {
          if 1 <= pos.y < 9 {
            valid := valid + [pos];
          }
        }
      }
      assert positions[..|positions|] == positions;
    }

    /** King.positions_kept_in_check */
    method KingPositionsKeptInCheck() returns (r: seq<Pos>)
      ensures r == KingControl(position)
    {
      var all := AllPositions();
      r := [];
      for i := 0 to |all|
        invariant r == KingControlAmong(position, all[..i])
      {
        assert all[..i + 1][..i] == all[..i];
        var q := all[i];
        if 4 * SqDist(position, q) < 9 {
          r := r + [q];
        }
      }
      assert all[..|all|] == all;
    }
  }

  /** Pawn(name, color) / King(name, color): the kind follows the name. */
  function NewPiece(name: string, color: Color): (p: Piece)
    requires (name, color) in StartingPosition
    ensures p.name == name && p.color == color
    ensures p.kind == (if name == KingName then King else Pawn)
    ensures p.startingPosition == StartingPosition[(name, color)] && p.position == p.startingPosition
  {
    var start := StartingPosition[(name, color)];
    Piece(name, if name == KingName then King else Pawn, color, start, start)
  }

  // ---------------------------------------------------------------------------
  // Lists of pieces
  // ---------------------------------------------------------------------------

  /** The last piece of a non-empty list: a side's king. */
  function Last(ps: seq<Piece>): Piece
    requires |ps| > 0
  {
    ps[|ps| - 1]
  }

  /** The check-relevant state of each piece of a list, in order. */
  function States(ps: seq<Piece>): (r: seq<PieceState>)
    ensures |r| == |ps|
  {
    if ps == [] then [] else States(ps[..|ps| - 1]) + [ps[|ps| - 1].State()]
  }

  lemma {:induction false} StatesAt(ps: seq<Piece>, i: int)
    requires 0 <= i < |ps|
    ensures States(ps)[i] == ps[i].State()
    decreases |ps|
  {
    if i < |ps| - 1 {
      StatesAt(ps[..|ps| - 1], i);
    }
  }

  lemma ControlSnoc(ps: seq<PieceState>, p: PieceState, keys: set<Pos>)
    ensures Control(ps + [p], keys) == Control(ps, keys) + PieceControl(p, keys)
  {
    assert (ps + [p])[..|ps|] == ps;
  }

  /** What the first i + 1 pieces of ps control: what the first i control, then
      what piece i controls. */
  lemma ControlPrefix(ps: seq<Piece>, i: int, keys: set<Pos>)
    requires 0 <= i < |ps|
    ensures Control(States(ps[..i + 1]), keys) == Control(States(ps[..i]), keys) + PieceControl(ps[i].State(), keys)
  {
    assert ps[..i + 1][..i] == ps[..i];
    ControlSnoc(States(ps[..i]), ps[i].State(), keys);
  }

  /** A square controlled by some of the pieces of b is controlled by b. */
  lemma ControlSublist(a: seq<Piece>, b: seq<Piece>, keys: set<Pos>, q: Pos)
    requires forall x :: x in a ==> x in b
    requires q in Control(States(a), keys)
    ensures q in Control(States(b), keys)
  {
    var i := ControlWitness(States(a), keys, q);
    StatesAt(a, i);
    assert a[i] in b;
    var j :| 0 <= j < |b| && b[j] == a[i];
    StatesAt(b, j);
    ControlOfOne(States(b), keys, q, j);
  }

  /** A piece of ps controls what it keeps in check. */
  lemma ControlOfMember(ps: seq<Piece>, p: Piece, keys: set<Pos>, q: Pos)
    requires p in ps
    requires q in PieceControl(p.State(), keys)
    ensures q in Control(States(ps), keys)
  {
    var j :| 0 <= j < |ps| && ps[j] == p;
    StatesAt(ps, j);
    ControlOfOne(States(ps), keys, q, j);
  }

  /** The colours of the occupants of the cells, the only thing the move
      generators look at. */
  function Occupancy(cells: map<Pos, Option<Piece>>): (occ: map<Pos, Option<Color>>)
    ensures occ.Keys == cells.Keys
  {
    map q | q in cells :: if cells[q].None? then None else Some(cells[q].value.color)
  }

  /** A side of the game: the pawns, then the king last (Player.__init__ appends it
      last and pop_piece never removes it), all of colour c and on the board. */
  ghost predicate Side(ps: seq<Piece>, c: Color)
  {
    && |ps| > 0
    && ps[|ps| - 1].kind == King
    && (forall i :: 0 <= i < |ps| - 1 ==> ps[i].kind == Pawn)
    && (forall i :: 0 <= i < |ps| ==> ps[i].color == c && ps[i].position in Squares)
  }

  /** No two pieces of ps share a square. */
  ghost predicate Apart(ps: seq<Piece>)
  {
    forall i, j :: 0 <= i < j < |ps| ==> ps[i].position != ps[j].position
  }

  /** No piece of a shares a square with a piece of b. */
  ghost predicate Disjoint(a: seq<Piece>, b: seq<Piece>)
  {
    forall i, j :: 0 <= i < |a| && 0 <= j < |b| ==> a[i].position != b[j].position
  }

  /** Every piece of ps is found in the cell of its square. */
  ghost predicate Placed(cells: map<Pos, Option<Piece>>, ps: seq<Piece>)
  {
    forall i :: 0 <= i < |ps| ==> ps[i].position in cells && cells[ps[i].position] == Some(ps[i])
  }

  /** Every occupied cell holds a piece of a or b that stands on it. */
  ghost predicate Held(cells: map<Pos, Option<Piece>>, a: seq<Piece>, b: seq<Piece>)
  {
    forall q :: q in cells && cells[q].Some? ==> cells[q].value.position == q && (cells[q].value in a || cells[q].value in b)
  }

  /** The last piece of ps of kind k, or None if there is none. */
  function LastOfKind(ps: seq<Piece>, k: Kind): (r: Option<Piece>)
    ensures r.None? <==> forall i :: 0 <= i < |ps| ==> ps[i].kind != k
    ensures r.Some? ==> r.value in ps && r.value.kind == k
  {
    if ps == [] then None
    else if ps[|ps| - 1].kind == k then Some(ps[|ps| - 1])
    else LastOfKind(ps[..|ps| - 1], k)
  }

  /** The last piece of ps standing on q (the one update_board writes last). */
  function LastAt(ps: seq<Piece>, q: Pos): (r: Option<Piece>)
    ensures r.None? <==> forall i :: 0 <= i < |ps| ==> ps[i].position != q
  {
    if ps == [] then None
    else if ps[|ps| - 1].position == q then Some(ps[|ps| - 1])
    else LastAt(ps[..|ps| - 1], q)
  }

  /** The piece LastAt finds is the last piece of the list standing on q. */
  lemma {:induction false} LastAtIndex(ps: seq<Piece>, q: Pos) returns (k: int)
    requires LastAt(ps, q).Some?
    ensures 0 <= k < |ps| && ps[k] == LastAt(ps, q).value && ps[k].position == q
    ensures forall j :: k < j < |ps| ==> ps[j].position != q
    decreases |ps|
  {
    var n := |ps| - 1;
    if ps[n].position == q {
      k := n;
    } else {
      k := LastAtIndex(ps[..n], q);
      assert ps[..n][k] == ps[k];
      forall j | k < j < |ps|
        ensures ps[j].position != q
      {
        if j < n {
          assert ps[..n][j] == ps[j];
        }
      }
    }
  }

  /** cells is what update_board builds from the pieces w: the 64 squares plus any
      square a piece stands on, each mapped to the last piece written there. */
  ghost predicate Mirrors(cells: map<Pos, Option<Piece>>, w: seq<Piece>)
  {
    forall q :: (q in cells <==> q in Squares || LastAt(w, q).Some?) && (q in cells ==> cells[q] == LastAt(w, q))
  }

  /** What get_available_positions returns for p, with opp the opponent's pieces
      (whose last one is its king). */
  function Targets(p: Piece, cells: map<Pos, Option<Piece>>, opp: seq<Piece>): seq<Pos>
    requires |opp| > 0
  {
    match p.kind
    case Pawn => PawnTargets(p.color, p.position, p.startingPosition, Occupancy(cells))
    case King => KingTargets(p.color, p.position, Occupancy(cells), Control(States(opp), cells.Keys), opp[|opp| - 1].position)
  }

  /** The pieces of ps that have somewhere to go, in order. */
  function Movable(ps: seq<Piece>, cells: map<Pos, Option<Piece>>, opp: seq<Piece>): seq<Piece>
    requires |opp| > 0
  {
    if ps == [] then []
    else Movable(ps[..|ps| - 1], cells, opp) + (if Targets(ps[|ps| - 1], cells, opp) != [] then [ps[|ps| - 1]] else [])
  }

  /** Every piece get_available_pieces keeps has a destination. */
  lemma {:induction false} MovableSound(ps: seq<Piece>, cells: map<Pos, Option<Piece>>, opp: seq<Piece>, p: Piece)
    requires |opp| > 0 && p in Movable(ps, cells, opp)
    ensures p in ps && Targets(p, cells, opp) != []
    decreases |ps|
  {
    var n := |ps| - 1;
    if p != ps[n] || Targets(p, cells, opp) == [] {
      MovableSound(ps[..n], cells, opp, p);
    }
  }

  /** get_available_pieces keeps every piece that has a destination. */
  lemma {:induction false} MovableComplete(ps: seq<Piece>, cells: map<Pos, Option<Piece>>, opp: seq<Piece>, p: Piece)
    requires |opp| > 0 && p in ps && Targets(p, cells, opp) != []
    ensures p in Movable(ps, cells, opp)
    decreases |ps|
  {
    var n := |ps| - 1;
    if p != ps[n] {
      assert p in ps[..n];
      MovableComplete(ps[..n], cells, opp, p);
    }
  }

  /** get_available_pieces keeps exactly the pieces that have a destination. */
  lemma MovableMember(ps: seq<Piece>, cells: map<Pos, Option<Piece>>, opp: seq<Piece>, p: Piece)
    requires |opp| > 0
    ensures p in Movable(ps, cells, opp) <==> p in ps && Targets(p, cells, opp) != []
  {
    if p in Movable(ps, cells, opp) {
      MovableSound(ps, cells, opp, p);
    }
    if p in ps && Targets(p, cells, opp) != [] {
      MovableComplete(ps, cells, opp, p);
    }
  }

  /** Writing p into the cell of its position extends what the cells mirror by p. */
  lemma MirrorsSnoc(cells: map<Pos, Option<Piece>>, w: seq<Piece>, p: Piece)
    requires Mirrors(cells, w)
    ensures Mirrors(cells[p.position := Some(p)], w + [p])
  {
    assert (w + [p])[..|w|] == w;
  }

  /** The step of update_board's inner loop: writing piece j of ps after the
      pieces done and the first j of ps. */
  lemma MirrorsPrefix(cells: map<Pos, Option<Piece>>, done: seq<Piece>, ps: seq<Piece>, j: int)
    requires 0 <= j < |ps| && Mirrors(cells, done + ps[..j])
    ensures Mirrors(cells[ps[j].position := Some(ps[j])], done + ps[..j + 1])
  {
    MirrorsSnoc(cells, done + ps[..j], ps[j]);
    assert done + ps[..j + 1] == done + ps[..j] + [ps[j]];
  }

  // ---------------------------------------------------------------------------
  // What one turn does to the pieces
  // ---------------------------------------------------------------------------

  /** Player.get_piece: the first piece of ps standing on q. */
  function FirstAt(ps: seq<Piece>, q: Pos): (r: Option<Piece>)
    ensures r.None? <==> forall i :: 0 <= i < |ps| ==> ps[i].position != q
    ensures r.Some? ==> r.value in ps && r.value.position == q
    ensures r.Some? ==> forall j :: 0 <= j < IndexOf(ps, r.value) ==> ps[j].position != q
  {
    if ps == [] then None
    else if ps[0].position == q then Some(ps[0])
    else
      var r := FirstAt(ps[1..], q);
      if r.Some? then
        assert IndexOf(ps, r.value) == 1 + IndexOf(ps[1..], r.value);
        r
      else r
  }

  /** The pieces ps after Piece.move of their first occurrence of p to `to`. */
  function Moved(ps: seq<Piece>, p: Piece, to: Pos): seq<Piece>
    requires p in ps
  {
    ps[IndexOf(ps, p) := p.Move(to)]
  }

  /** Moving a piece leaves the list's length and its other entries as they were. */
  lemma MovedAt(ps: seq<Piece>, p: Piece, to: Pos, i: int)
    requires p in ps && 0 <= i < |ps|
    ensures |Moved(ps, p, to)| == |ps|
    ensures Moved(ps, p, to)[i] == if i == IndexOf(ps, p) then p.Move(to) else ps[i]
  {
  }

  /** The pieces ps after the capture on q: pop_piece of what get_piece finds there. */
  function Captured(ps: seq<Piece>, q: Pos): seq<Piece>
  {
    var c := FirstAt(ps, q);
    if c.None? then ps else RemoveFirst(ps, c.value)
  }

  /** A capture only removes pieces from a list. */
  lemma CapturedWithin(b: seq<Piece>, q: Pos)
    ensures forall x :: x in Captured(b, q) ==> x in b
  {
    var c := FirstAt(b, q);
    if c.Some? {
      forall x | x in Captured(b, q)
        ensures x in b
      {
        RemoveFirstSpec(b, c.value, x);
      }
    }
  }

  /** The moved side is still a valid side with its pieces apart. */
  lemma MovedLayout(a: seq<Piece>, ca: Color, p: Piece, q: Pos)
    requires Side(a, ca) && Apart(a) && p in a
    requires q in Squares && forall i :: 0 <= i < |a| ==> a[i].position != q
    ensures Side(Moved(a, p, q), ca) && Apart(Moved(a, p, q))
    ensures forall i :: 0 <= i < |a| && i != IndexOf(a, p) ==> Moved(a, p, q)[i] == a[i]
    ensures Moved(a, p, q)[IndexOf(a, p)].position == q
  {
  }

  /** The pieces left by a capture on q, by index: those before the captured
      piece, then those after it. */
  lemma CapturedAt(b: seq<Piece>, q: Pos, i: int)
    requires FirstAt(b, q).Some? && 0 <= i < |b| - 1
    ensures |Captured(b, q)| == |b| - 1
    ensures Captured(b, q)[i] == b[if i < IndexOf(b, FirstAt(b, q).value) then i else i + 1]
  {
    RemoveFirstAt(b, FirstAt(b, q).value, i);
  }

  /** A pawn popped from a valid side leaves a valid side. */
  lemma CapturedSide(b: seq<Piece>, cb: Color, q: Pos)
    requires Side(b, cb)
    requires FirstAt(b, q).None? || FirstAt(b, q).value.kind == Pawn
    ensures Side(Captured(b, q), cb)
  {
    var c := FirstAt(b, q);
    if c.Some? {
      var k := IndexOf(b, c.value);
      var r := Captured(b, q);
      assert k < |b| - 1;
      CapturedAt(b, q, |b| - 2);
      assert r[|r| - 1] == b[|b| - 1];
      forall i | 0 <= i < |r|
        ensures r[i].color == cb && r[i].position in Squares
        ensures i < |r| - 1 ==> r[i].kind == Pawn
      {
        CapturedAt(b, q, i);
      }
    }
  }

  /** What a capture on q leaves of a side whose pieces are apart is apart, taken
      from the side, and off q. */
  lemma CapturedApart(b: seq<Piece>, q: Pos)
    requires Apart(b)
    ensures Apart(Captured(b, q))
    ensures forall i :: 0 <= i < |Captured(b, q)| ==> Captured(b, q)[i] in b && Captured(b, q)[i].position != q
  {
    var c := FirstAt(b, q);
    if c.Some? {
      var k := IndexOf(b, c.value);
      var r := Captured(b, q);
      assert |r| == |b| - 1;
      forall i | 0 <= i < |r|
        ensures r[i] == b[if i < k then i else i + 1]
      {
        CapturedAt(b, q, i);
      }
    }
  }

}
