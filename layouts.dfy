/** The layout Board keeps between turns, relating the cell map to the two
    players' piece lists, and why one turn of Board.play keeps it: the moved
    piece lands on a free square, a capture never takes a king, and the mover's
    king ends up out of check. */
module Layouts {
  import opened Rules
  import opened Pieces

  /** The layout the board keeps between turns for the sides a and b: two valid
      sides of different colours, no two pieces on one square, the cells being the
      64 squares, each piece in the cell of its square and nothing else there. */
  ghost predicate Layout(cells: map<Pos, Option<Piece>>, a: seq<Piece>, b: seq<Piece>, ca: Color, cb: Color)
  {
    && ca != cb
    && Side(a, ca) && Side(b, cb)
    && Apart(a) && Apart(b) && Disjoint(a, b)
    && cells.Keys == Squares
    && Placed(cells, a) && Placed(cells, b) && Held(cells, a, b)
  }

  lemma LayoutSwap(cells: map<Pos, Option<Piece>>, a: seq<Piece>, b: seq<Piece>, ca: Color, cb: Color)
    requires Layout(cells, a, b, ca, cb)
    ensures Layout(cells, b, a, cb, ca)
  {
  }

  /** Two lists whose pieces are apart and disjoint from each other make one list
      whose pieces are apart. */
  lemma ApartAppend(a: seq<Piece>, b: seq<Piece>)
    requires Apart(a) && Apart(b) && Disjoint(a, b)
    ensures Apart(a + b)
  {
    var w := a + b;
    forall i, j | 0 <= i < j < |w|
      ensures w[i].position != w[j].position
    {
      if j < |a| {
      } else if i >= |a| {
        assert w[i] == b[i - |a|] && w[j] == b[j - |a|];
      } else {
        assert w[j] == b[j - |a|];
      }
    }
  }

  /** The cells mirror exactly the 64 squares when every piece stands on one. */
  lemma MirrorsKeys(cells: map<Pos, Option<Piece>>, w: seq<Piece>)
    requires Mirrors(cells, w)
    requires forall i :: 0 <= i < |w| ==> w[i].position in Squares
    ensures cells.Keys == Squares
  {
    forall q | q in cells
      ensures q in Squares
    {
      if LastAt(w, q).Some? {
        var k := LastAtIndex(w, q);
      }
    }
  }

  /** Pieces that are apart are each found in the cell of their square. */
  lemma MirrorsPlaced(cells: map<Pos, Option<Piece>>, w: seq<Piece>)
    requires Mirrors(cells, w) && Apart(w)
    ensures Placed(cells, w)
  {
    forall i | 0 <= i < |w|
      ensures w[i].position in cells && cells[w[i].position] == Some(w[i])
    {
      var q := w[i].position;
      var k := LastAtIndex(w, q);
    }
  }

  /** Every occupied cell holds a piece of a or b that stands on it. */
  lemma MirrorsHeld(cells: map<Pos, Option<Piece>>, a: seq<Piece>, b: seq<Piece>)
    requires Mirrors(cells, a + b)
    ensures Held(cells, a, b)
  {
    var w := a + b;
    forall q | q in cells && cells[q].Some?
      ensures cells[q].value.position == q && (cells[q].value in a || cells[q].value in b)
    {
      var k := LastAtIndex(w, q);
      if k < |a| {
        assert w[k] == a[k];
      } else {
        assert w[k] == b[k - |a|];
      }
    }
  }

  /** The pieces of a list placed in the cells are the pieces of each part. */
  lemma PlacedParts(cells: map<Pos, Option<Piece>>, a: seq<Piece>, b: seq<Piece>)
    requires Placed(cells, a + b)
    ensures Placed(cells, a) && Placed(cells, b)
  {
    var w := a + b;
    forall i | 0 <= i < |a|
      ensures a[i].position in cells && cells[a[i].position] == Some(a[i])
    {
      assert w[i] == a[i];
    }
    forall i | 0 <= i < |b|
      ensures b[i].position in cells && cells[b[i].position] == Some(b[i])
    {
      assert w[|a| + i] == b[i];
    }
  }

  /** What the cells mirror, for two separate valid sides, is the layout the board
      keeps: the 64 squares, each piece in its cell and nothing else in the cells. */
  lemma MirrorsLayout(cells: map<Pos, Option<Piece>>, a: seq<Piece>, b: seq<Piece>, ca: Color, cb: Color)
    requires ca != cb
    requires Side(a, ca) && Side(b, cb) && Apart(a) && Apart(b) && Disjoint(a, b)
    requires Mirrors(cells, a + b)
    ensures Layout(cells, a, b, ca, cb)
  {
    var w := a + b;
    ApartAppend(a, b);
    forall i | 0 <= i < |w|
      ensures w[i].position in Squares
    {
      if i >= |a| {
        assert w[i] == b[i - |a|];
      }
    }
    MirrorsKeys(cells, w);
    MirrorsPlaced(cells, w);
    PlacedParts(cells, a, b);
    MirrorsHeld(cells, a, b);
  }

  /** A destination is a square of the board that is empty or held by the other
      colour; a pawn only enters an occupied cell on a square it controls, and a
      king only a square the opponent does not control, two steps from its king. */
  lemma TargetCell(p: Piece, cells: map<Pos, Option<Piece>>, opp: seq<Piece>, q: Pos)
    requires |opp| > 0 && cells.Keys == Squares
    requires q in Targets(p, cells, opp)
    ensures q in cells
    ensures cells[q].None? || cells[q].value.color != p.color
    ensures p.kind == Pawn && cells[q].Some? ==> q in PawnControl(p.color, p.position, cells.Keys)
    ensures p.kind == King ==> q !in Control(States(opp), cells.Keys) && Chebyshev(opp[|opp| - 1].position, q) >= 2
  {
    var occ := Occupancy(cells);
    if p.kind == Pawn {
      PawnControlMember(p.color, p.position, cells.Keys, q);
    } else {
      KingTargetsSafe(p.color, p.position, occ, Control(States(opp), cells.Keys), opp[|opp| - 1].position, q);
    }
  }

  /** No piece of the mover's side stands on a destination. */
  lemma TargetFree(cells: map<Pos, Option<Piece>>, a: seq<Piece>, b: seq<Piece>, ca: Color, cb: Color, p: Piece, q: Pos)
    requires Layout(cells, a, b, ca, cb)
    requires p in a && q in Targets(p, cells, b)
    ensures q in Squares
    ensures forall i :: 0 <= i < |a| ==> a[i].position != q
  {
    TargetCell(p, cells, b, q);
  }

  /** The sides after a turn keep the layout's separation rules. */
  lemma TurnSeparates(a: seq<Piece>, b: seq<Piece>, ca: Color, cb: Color, p: Piece, q: Pos)
    requires Side(a, ca) && Side(b, cb) && Apart(a) && Apart(b) && Disjoint(a, b)
    requires p in a && q in Squares && forall i :: 0 <= i < |a| ==> a[i].position != q
    requires FirstAt(b, q).None? || FirstAt(b, q).value.kind == Pawn
    ensures Side(Moved(a, p, q), ca) && Side(Captured(b, q), cb)
    ensures Apart(Moved(a, p, q)) && Apart(Captured(b, q))
    ensures Disjoint(Moved(a, p, q), Captured(b, q)) && Disjoint(Captured(b, q), Moved(a, p, q))
  {
    MovedLayout(a, ca, p, q);
    CapturedSide(b, cb, q);
    CapturedApart(b, q);
    var a', b' := Moved(a, p, q), Captured(b, q);
    forall i, j | 0 <= i < |a'| && 0 <= j < |b'|
      ensures a'[i].position != b'[j].position
    {
      var y := b'[j];
      var j' :| 0 <= j' < |b| && b[j'] == y;
      if i != IndexOf(a, p) {
        assert a'[i] == a[i];
      }
    }
  }

  /** A turn from a layout never captures a king, as long as the mover does not
      already keep the opponent's king in check. */
  lemma NoKingCapture(cells: map<Pos, Option<Piece>>, a: seq<Piece>, b: seq<Piece>, cb: Color, p: Piece, q: Pos)
    requires Side(b, cb) && Placed(cells, b) && cells.Keys == Squares
    requires p in a && q in Targets(p, cells, b)
    requires !InCheck(b, a)
    ensures FirstAt(b, q).None? || FirstAt(b, q).value.kind == Pawn
  {
    var c := FirstAt(b, q);
    if c.Some? && c.value.kind == King {
      var k := IndexOf(b, c.value);
      assert k == |b| - 1 && Last(b).position == q;
      TargetCell(p, cells, b, q);
      if p.kind == Pawn {
        assert cells[q] == Some(b[k]);
        ControlOfMember(a, p, Squares, q);
        assert InCheck(b, a);
      }
      assert false;
    }
  }

  /** The king of side a, its last piece, stands on a square that side b
      controls: what king_in_check answers for that king. */
  ghost predicate InCheck(a: seq<Piece>, b: seq<Piece>)
  {
    |a| > 0 && Last(a).position in Control(States(b), Squares)
  }

  /** After a turn the mover's king is not in check: a king moves out of the
      opponent's control, a pawn moves only when its king is not in check, and a
      capture only removes squares from the opponent's control. */
  lemma KingSafeAfter(a: seq<Piece>, b: seq<Piece>, ca: Color, p: Piece, q: Pos)
    requires Side(a, ca) && p in a
    requires p.kind == King ==> q !in Control(States(b), Squares)
    requires p.kind == Pawn ==> !InCheck(a, b)
    ensures !InCheck(Moved(a, p, q), Captured(b, q))
  {
    var k := IndexOf(a, p);
    var a', b' := Moved(a, p, q), Captured(b, q);
    var safe := Last(a').position;
    if p.kind == King {
      assert k == |a| - 1;
      MovedAt(a, p, q, k);
      assert safe == q;
    } else {
      assert k < |a| - 1;
      MovedAt(a, p, q, |a| - 1);
      assert safe == Last(a).position;
    }
    if safe in Control(States(b'), Squares) {
      CapturedWithin(b, q);
      ControlSublist(b', b, Squares, safe);
      assert false;
    }
  }

  // ---------------------------------------------------------------------------
  // The starting position
  // ---------------------------------------------------------------------------

  /** The pieces Player.__init__ gives the side of colour c: pawn i on column
      i + 1 of the pawn row, then the king on column 5 of the king row. */
  ghost predicate StartSide(ps: seq<Piece>, c: Color)
  {
    && |ps| == 9
    && (forall i :: 0 <= i < 8 ==> ps[i].kind == Pawn && ps[i].color == c && ps[i].position == Pos(i + 1, PawnRow(c)))
    && ps[8].kind == King && ps[8].color == c && ps[8].position == Pos(5, KingRow(c))
    && (forall i :: 0 <= i < 9 ==> ps[i].startingPosition == ps[i].position)
  }

  /** A starting side is a valid side whose pieces are apart. */
  lemma StartSideValid(ps: seq<Piece>, c: Color)
    requires StartSide(ps, c)
    ensures Side(ps, c) && Apart(ps)
  {
    forall i | 0 <= i < 9
      ensures ps[i].position in Squares
    {
      SquaresMember(ps[i].position);
    }
  }

  /** The white and the black starting sides share no square. */
  lemma StartDisjoint(a: seq<Piece>, b: seq<Piece>)
    requires StartSide(a, White) && StartSide(b, Black)
    ensures Disjoint(a, b)
  {
    forall i, j | 0 <= i < 9 && 0 <= j < 9
      ensures a[i].position != b[j].position
    {
      assert a[i].position.y <= 2 && b[j].position.y >= 7;
    }
  }

  /** The squares of a starting king's row are not controlled by the other
      starting side: its pawns control the third or sixth row, its king the
      rows next to its own. */
  lemma StartRowUncontrolled(b: seq<Piece>, ca: Color, cb: Color, q: Pos)
    requires StartSide(b, cb) && ca != cb && q.y == KingRow(ca)
    ensures q !in Control(States(b), Squares)
  {
    if q in Control(States(b), Squares) {
      var i := ControlWitness(States(b), Squares, q);
      StatesAt(b, i);
      if i < 8 {
        PawnControlMember(cb, b[i].position, Squares, q);
      } else {
        KingControlMember(b[8].position, q);
      }
      assert false;
    }
  }

  /** In the starting position no king is in check. */
  lemma StartNotInCheck(a: seq<Piece>, b: seq<Piece>, ca: Color, cb: Color)
    requires StartSide(a, ca) && StartSide(b, cb) && ca != cb
    ensures !InCheck(a, b)
  {
    StartRowUncontrolled(b, ca, cb, Last(a).position);
  }

  /** In the starting position a cell on which no starting piece stands is empty. */
  lemma StartEmpty(cells: map<Pos, Option<Piece>>, a: seq<Piece>, b: seq<Piece>, ca: Color, cb: Color, q: Pos)
    requires StartSide(a, ca) && StartSide(b, cb) && Held(cells, a, b)
    requires q in cells && q.y != PawnRow(ca) && q.y != PawnRow(cb)
    requires q != Pos(5, KingRow(ca)) && q != Pos(5, KingRow(cb))
    ensures cells[q].None?
  {
    assert forall j :: 0 <= j < 9 ==> a[j].position != q && b[j].position != q;
  }

  /** Each starting pawn has exactly two destinations, its normal step and its
      long step: both cells ahead are empty, and no piece of the other side is
      on a square it could capture. */
  lemma StartPawnTargets(cells: map<Pos, Option<Piece>>, a: seq<Piece>, b: seq<Piece>, ca: Color, cb: Color, i: int)
    requires Layout(cells, a, b, ca, cb) && StartSide(a, ca) && StartSide(b, cb) && 0 <= i < 8
    ensures ca == White ==> Targets(a[i], cells, b) == [Pos(i + 1, 3), Pos(i + 1, 4)]
    ensures ca == Black ==> Targets(a[i], cells, b) == [Pos(i + 1, 6), Pos(i + 1, 5)]
  {
    var p := a[i].position;
    var forward := PawnDest(ca, p, NormalStep);
    var right := PawnDest(ca, p, CaptureRight);
    var left := PawnDest(ca, p, CaptureLeft);
    var long := PawnDest(ca, p, InitialLongStep);
    SquaresMember(forward);
    SquaresMember(long);
    StartEmpty(cells, a, b, ca, cb, forward);
    StartEmpty(cells, a, b, ca, cb, long);
    if right in cells {
      StartEmpty(cells, a, b, ca, cb, right);
    }
    if left in cells {
      StartEmpty(cells, a, b, ca, cb, left);
    }
  }

  /** From its starting square a king may enter exactly the two squares beside it
      on its own row: the squares ahead hold its pawns and those behind are off
      the board. */
  lemma StartKingStep(cells: map<Pos, Option<Piece>>, a: seq<Piece>, b: seq<Piece>, ca: Color, cb: Color, d: Pos)
    requires Layout(cells, a, b, ca, cb) && StartSide(a, ca) && StartSide(b, cb)
    requires d in KingSteps(ca)
    ensures KingMayEnter(ca, Add(a[8].position, d), Occupancy(cells), Control(States(b), cells.Keys), b[8].position)
            <==> d.y == 0
  {
    var q := Add(a[8].position, d);
    KingStepsAreNeighbours(ca, d);
    SquaresMember(q);
    if d.y == 0 {
      StartEmpty(cells, a, b, ca, cb, q);
      StartRowUncontrolled(b, ca, cb, q);
      BeyondKingReachIsApart(b[8].position, q);
    } else if q.y == PawnRow(ca) {
      assert a[q.x - 1].position == q;
    }
  }

  /** The king's loop over eight steps of which only the fourth and the fifth
      lead to a square it may enter returns those two squares, in that order. */
  lemma {:induction false} KingTargetsFourthFifth(c: Color, pos: Pos, occ: map<Pos, Option<Color>>, inCheck: seq<Pos>,
                                                  otherKing: Pos, steps: seq<Pos>)
    requires |steps| == 8
    requires forall i :: 0 <= i < 8 ==> (KingMayEnter(c, Add(pos, steps[i]), occ, inCheck, otherKing) <==> i == 3 || i == 4)
    ensures KingTargetsAmong(c, pos, occ, inCheck, otherKing, steps) == [Add(pos, steps[3]), Add(pos, steps[4])]
  {
    assert steps[..0] == [] && steps[..8] == steps;
    for i := 0 to 8
      invariant KingTargetsAmong(c, pos, occ, inCheck, otherKing, steps[..i]) ==
        if i <= 3 then [] else if i == 4 then [Add(pos, steps[3])] else [Add(pos, steps[3]), Add(pos, steps[4])]
    {
      KingTargetsAmongPrefix(c, pos, occ, inCheck, otherKing, steps, i);
    }
  }

  /** The starting king's destinations are the squares its fourth and fifth
      steps lead to. */
  lemma StartKingSteps(cells: map<Pos, Option<Piece>>, a: seq<Piece>, b: seq<Piece>, ca: Color, cb: Color)
    requires Layout(cells, a, b, ca, cb) && StartSide(a, ca) && StartSide(b, cb)
    ensures var k, steps := a[8].position, KingSteps(ca);
      KingTargets(ca, k, Occupancy(cells), Control(States(b), cells.Keys), b[8].position) == [Add(k, steps[3]), Add(k, steps[4])]
  {
    var steps := KingSteps(ca);
    var k, other := a[8].position, b[8].position;
    var occ, ctrl := Occupancy(cells), Control(States(b), cells.Keys);
    KingStepsSideways(ca);
    forall i | 0 <= i < 8
      ensures KingMayEnter(ca, Add(k, steps[i]), occ, ctrl, other) <==> steps[i].y == 0
    {
      StartKingStep(cells, a, b, ca, cb, steps[i]);
    }
    KingTargetsFourthFifth(ca, k, occ, ctrl, other, steps);
  }

  /** Each starting king has exactly two destinations, the squares beside it:
      f1 and d1 for white, d8 and f8 for black, in the order of its steps. */
  lemma StartKingTargets(cells: map<Pos, Option<Piece>>, a: seq<Piece>, b: seq<Piece>, ca: Color, cb: Color)
    requires Layout(cells, a, b, ca, cb) && StartSide(a, ca) && StartSide(b, cb)
    ensures ca == White ==> Targets(a[8], cells, b) == [Pos(6, 1), Pos(4, 1)]
    ensures ca == Black ==> Targets(a[8], cells, b) == [Pos(4, 8), Pos(6, 8)]
  {
    StartKingSteps(cells, a, b, ca, cb);
    assert a[8].kind == King && a[8].position == Pos(5, KingRow(ca)) && |b| == 9;
  }
}
