/** The pure rules of the pawns-and-kings game in chess.py: board geometry, the
    colour-dependent step offsets, and the destination and control sets that the
    move generators of chess.py compute.  The classes in module Chess are proved
    against the functions of this module, and the lemmas here say what those
    functions mean. */
module Rules {

  datatype Option<T> = None | Some(value: T)

  datatype Color = White | Black
  datatype Kind = Pawn | King

  /** A board coordinate (x, y), as the numpy arrays and tuples of chess.py;
      the squares of the board have x and y in 1..8. */
  datatype Pos = Pos(x: int, y: int)

  function Add(p: Pos, d: Pos): Pos
  {
    Pos(p.x + d.x, p.y + d.y)
  }

  predicate OnBoard(p: Pos)
  {
    1 <= p.x <= 8 && 1 <= p.y <= 8
  }

  // ---------------------------------------------------------------------------
  // The squares: Board.all_positions and the keys of Board.cells
  // ---------------------------------------------------------------------------

  /** Column x of itertools.product(range(1, 9), range(1, 9)). */
  function Column(x: int): seq<Pos>
  {
    seq(8, j => Pos(x, j + 1))
  }

  function ColumnsFrom(x: int): seq<Pos>
    decreases 9 - x
  {
    if x > 8 then [] else Column(x) + ColumnsFrom(x + 1)
  }

  /** The square at index i of all_positions. */
  function SquareAt(i: int): Pos
  {
    Pos(i / 8 + 1, i % 8 + 1)
  }

  /** Board.all_positions: the 64 squares, x-major, as itertools.product lists them. */
  function AllPositions(): seq<Pos>
  {
    seq(64, SquareAt)
  }

  /** The keys of Board.cells. */
  const Squares: set<Pos> := set x: int, y: int | 1 <= x <= 8 && 1 <= y <= 8 :: Pos(x, y)

  lemma {:induction false} ColumnsFromAt(x: int, i: int)
    requires 1 <= x <= 9 && 0 <= i < 8 * (9 - x)
    ensures |ColumnsFrom(x)| == 8 * (9 - x)
    ensures ColumnsFrom(x)[i] == Pos(x + i / 8, i % 8 + 1)
    decreases 9 - x
  {
    if i < 8 {
      if x < 8 {
        ColumnsFromAt(x + 1, 0);
      }
    } else {
      ColumnsFromAt(x + 1, i - 8);
    }
  }

  /** all_positions lists square (x, y) at index 8 * (x - 1) + (y - 1), so it holds
      each of the 64 squares exactly once and nothing else. */
  lemma AllPositionsAt(i: int)
    requires 0 <= i < 64
    ensures |AllPositions()| == 64
    ensures AllPositions()[i] == Pos(i / 8 + 1, i % 8 + 1)
  {
  }

  /** all_positions is the concatenation of the eight columns. */
  lemma AllPositionsColumns()
    ensures AllPositions() == ColumnsFrom(1)
  {
    ColumnsFromAt(1, 0);
    forall i | 0 <= i < 64
      ensures AllPositions()[i] == ColumnsFrom(1)[i]
    {
      ColumnsFromAt(1, i);
    }
  }

  lemma SquaresMember(q: Pos)
    ensures q in Squares <==> OnBoard(q)
  {
    if OnBoard(q) {
      assert q == Pos(q.x, q.y);
    }
  }

  lemma AllPositionsMember(q: Pos)
    ensures q in AllPositions() <==> OnBoard(q)
    ensures q in Squares <==> OnBoard(q)
  {
    SquaresMember(q);
    AllPositionsAt(0);
    if q in AllPositions() {
      var i :| 0 <= i < |AllPositions()| && AllPositions()[i] == q;
      AllPositionsAt(i);
    }
    if OnBoard(q) {
      var i := 8 * (q.x - 1) + (q.y - 1);
      AllPositionsAt(i);
      assert AllPositions()[i] == q;
    }
  }

  lemma AllPositionsDistinct(i: int, j: int)
    requires 0 <= i < j < 64
    ensures AllPositions()[i] != AllPositions()[j]
  {
    AllPositionsAt(i);
    AllPositionsAt(j);
  }

  // ---------------------------------------------------------------------------
  // Distances: the float tests of chess.py in integers
  // ---------------------------------------------------------------------------

  function Abs(v: int): nat
  {
    if v < 0 then -v else v
  }

  function Max(a: nat, b: nat): nat
  {
    if a < b then b else a
  }

  function SqDist(a: Pos, b: Pos): int
  {
    (a.x - b.x) * (a.x - b.x) + (a.y - b.y) * (a.y - b.y)
  }

  /** `np.linalg.norm(a - b) < 1.5`, exact for integer coordinates: norm < 3/2 iff 4 * norm^2 < 9. */
  predicate WithinKingReach(a: Pos, b: Pos)
  {
    4 * SqDist(a, b) < 9
  }

  /** `np.linalg.norm(a - b) > 1.5`, exact for integer coordinates. */
  predicate BeyondKingReach(a: Pos, b: Pos)
  {
    4 * SqDist(a, b) > 9
  }

  /** The number of king steps between two squares. */
  function Chebyshev(a: Pos, b: Pos): nat
  {
    Max(Abs(a.x - b.x), Abs(a.y - b.y))
  }

  lemma SquareOfFar(v: int)
    requires Abs(v) >= 2
    ensures v * v >= 4
  {
    if v >= 2 {
      calc {
        v * v;
      >= { assert v * v - 2 * v == v * (v - 2) >= 0; }
        2 * v;
      }
    } else {
      calc {
        v * v;
      == (-v) * (-v);
      >= { assert (-v) * (-v) - 2 * (-v) == (-v) * (-v - 2) >= 0; }
        2 * (-v);
      }
    }
  }

  lemma SquareOfNear(v: int)
    requires Abs(v) <= 1
    ensures 0 <= v * v <= 1
  {
  }

  /** norm < 1.5 is exactly "at most one king step away". */
  lemma WithinKingReachIsNeighbour(a: Pos, b: Pos)
    ensures WithinKingReach(a, b) <==> Chebyshev(a, b) <= 1
  {
    var dx, dy := a.x - b.x, a.y - b.y;
    assert dx * dx >= 0 && dy * dy >= 0;
    if Abs(dx) >= 2 {
      SquareOfFar(dx);
    } else if Abs(dy) >= 2 {
      SquareOfFar(dy);
    } else {
      SquareOfNear(dx);
      SquareOfNear(dy);
    }
  }

  /** norm > 1.5 is exactly "at least two king steps away". */
  lemma BeyondKingReachIsApart(a: Pos, b: Pos)
    ensures BeyondKingReach(a, b) <==> Chebyshev(a, b) >= 2
  {
    WithinKingReachIsNeighbour(a, b);
  }

  // ---------------------------------------------------------------------------
  // Pawn
  // ---------------------------------------------------------------------------

  /** The four keys of Pawn.white_steps / Pawn.black_steps. */
  datatype PawnStep = NormalStep | CaptureRight | CaptureLeft | InitialLongStep

  /** Pawn.white_steps and Pawn.black_steps. */
  function PawnOffset(c: Color, s: PawnStep): Pos
  {
    match c
    case White =>
      (match s
       case NormalStep => Pos(0, 1)
       case CaptureRight => Pos(1, 1)
       case CaptureLeft => Pos(-1, 1)
       case InitialLongStep => Pos(0, 2))
    case Black =>
      (match s
       case NormalStep => Pos(0, -1)
       case CaptureRight => Pos(-1, -1)
       case CaptureLeft => Pos(1, -1)
       case InitialLongStep => Pos(0, -2))
  }

  function PawnDest(c: Color, pos: Pos, s: PawnStep): Pos
  {
    Add(pos, PawnOffset(c, s))
  }

  /** Whether a cell holds a piece of the colour other than c. */
  predicate HoldsOpponent(cell: Option<Color>, c: Color)
  {
    cell.Some? && cell.value != c
  }

  /** What Pawn.get_available_positions returns, over the colours of the cells'
      occupants (a position missing from occ is off the board: the KeyError). */
  function PawnTargets(c: Color, pos: Pos, start: Pos, occ: map<Pos, Option<Color>>): seq<Pos>
  {
    var forward := PawnDest(c, pos, NormalStep);
    var right := PawnDest(c, pos, CaptureRight);
    var left := PawnDest(c, pos, CaptureLeft);
    var long := PawnDest(c, pos, InitialLongStep);
    (if forward in occ && occ[forward].None? then [forward] else [])
    + (if right in occ && HoldsOpponent(occ[right], c) then [right] else [])
    + (if left in occ && HoldsOpponent(occ[left], c) then [left] else [])
    + (if long in occ && occ[long].None? && pos == start then [long] else [])
  }

  /** What Pawn.positions_kept_in_check returns; keys are the keys of Board.cells. */
  function PawnControl(c: Color, pos: Pos, keys: set<Pos>): seq<Pos>
  {
    var left := PawnDest(c, pos, CaptureLeft);
    var right := PawnDest(c, pos, CaptureRight);
    (if left in keys then [left] else []) + (if right in keys then [right] else [])
  }

  /** White pawns step towards growing y, black pawns towards shrinking y,
      whichever of the four steps they take. */
  lemma PawnOffsetsForward(c: Color, s: PawnStep)
    ensures c == White ==> PawnOffset(c, s).y > 0
    ensures c == Black ==> PawnOffset(c, s).y < 0
    ensures Abs(PawnOffset(c, s).x) <= 1 && 1 <= Abs(PawnOffset(c, s).y) <= 2
  {
  }

  /** Every pawn destination is the pawn's position plus one of its four offsets,
      lies on the board, and is ahead of the pawn for its colour. */
  lemma PawnTargetIsStep(c: Color, pos: Pos, start: Pos, occ: map<Pos, Option<Color>>, q: Pos)
    requires occ.Keys == Squares
    requires q in PawnTargets(c, pos, start, occ)
    ensures exists s :: q == PawnDest(c, pos, s)
    ensures OnBoard(q)
    ensures c == White ==> q.y > pos.y
    ensures c == Black ==> q.y < pos.y
  {
    AllPositionsMember(q);
    var s :| q == PawnDest(c, pos, s);
    PawnOffsetsForward(c, s);
  }

  /** The straight steps (one or two cells forward) only ever go to an empty cell. */
  lemma PawnStraightTargetsEmpty(c: Color, pos: Pos, start: Pos, occ: map<Pos, Option<Color>>, q: Pos)
    requires q in PawnTargets(c, pos, start, occ)
    requires q.x == pos.x
    ensures q in occ && occ[q].None?
    ensures q == PawnDest(c, pos, NormalStep) || q == PawnDest(c, pos, InitialLongStep)
  {
  }

  /** A diagonal destination is returned if and only if it is one of the two
      capture cells and holds a piece of the other colour. */
  lemma PawnCaptureTargets(c: Color, pos: Pos, start: Pos, occ: map<Pos, Option<Color>>, q: Pos)
    requires q.x != pos.x
    ensures q in PawnTargets(c, pos, start, occ) <==>
      (q == PawnDest(c, pos, CaptureLeft) || q == PawnDest(c, pos, CaptureRight))
      && q in occ && HoldsOpponent(occ[q], c)
  {
  }

  /** The long step is returned exactly when the pawn stands on its starting
      position and the destination cell is on the board and empty: the cell it
      passes over is not looked at, so a pawn may jump over a piece. */
  lemma PawnLongStep(c: Color, pos: Pos, start: Pos, occ: map<Pos, Option<Color>>)
    ensures var long := PawnDest(c, pos, InitialLongStep);
      long in PawnTargets(c, pos, start, occ) <==> pos == start && long in occ && occ[long].None?
  {
  }

  /** A concrete case of the above: a white pawn on (1, 2) with a black piece on
      (1, 3) in front of it may still step to the empty (1, 4). */
  lemma PawnLongStepJumps()
    ensures var occ := map[Pos(1, 3) := Some(Black), Pos(1, 4) := None, Pos(2, 3) := None];
      PawnTargets(White, Pos(1, 2), Pos(1, 2), occ) == [Pos(1, 4)]
  {
  }

  /** Pawn.positions_kept_in_check: exactly the capture cells that are on the
      board, whatever occupies them; at most two, never the cell straight ahead. */
  lemma PawnControlMember(c: Color, pos: Pos, keys: set<Pos>, q: Pos)
    ensures q in PawnControl(c, pos, keys) <==>
      q in keys && (q == PawnDest(c, pos, CaptureLeft) || q == PawnDest(c, pos, CaptureRight))
    ensures |PawnControl(c, pos, keys)| <= 2
    ensures PawnDest(c, pos, NormalStep) !in PawnControl(c, pos, keys)
  {
  }

  // ---------------------------------------------------------------------------
  // King
  // ---------------------------------------------------------------------------

  /** The values of King.white_steps / King.black_steps, in the order of their keys
      (forward, forward_right, forward_left, right, left, backward, backward_right,
      backward_left). */
  function KingSteps(c: Color): seq<Pos>
  {
    match c
    case White => [Pos(0, 1), Pos(1, 1), Pos(-1, 1), Pos(1, 0), Pos(-1, 0), Pos(0, -1), Pos(1, -1), Pos(-1, -1)]
    case Black => [Pos(0, -1), Pos(-1, -1), Pos(1, -1), Pos(-1, 0), Pos(1, 0), Pos(0, 1), Pos(-1, 1), Pos(1, 1)]
  }

  /** Either colour's eight king steps are the eight offsets one king step away. */
  lemma KingStepsAreNeighbours(c: Color, d: Pos)
    ensures d in KingSteps(c) <==> Chebyshev(d, Pos(0, 0)) == 1
    ensures |KingSteps(c)| == 8
  {
  }

  /** The squares among s that are within king reach of pos, in the order of s:
      the loop of King.positions_kept_in_check over a prefix of all_positions. */
  function KingControlAmong(pos: Pos, s: seq<Pos>): seq<Pos>
  {
    if s == [] then []
    else KingControlAmong(pos, s[..|s| - 1]) + (if WithinKingReach(pos, s[|s| - 1]) then [s[|s| - 1]] else [])
  }

  /** What King.positions_kept_in_check returns. */
  function KingControl(pos: Pos): seq<Pos>
  {
    KingControlAmong(pos, AllPositions())
  }

  lemma {:induction false} KingControlAmongMember(pos: Pos, s: seq<Pos>, q: Pos)
    ensures q in KingControlAmong(pos, s) <==> q in s && WithinKingReach(pos, q)
    decreases |s|
  {
    if s != [] {
      KingControlAmongMember(pos, s[..|s| - 1], q);
      assert s == s[..|s| - 1] + [s[|s| - 1]];
    }
  }

  /** King.positions_kept_in_check returns precisely the board squares at most one
      king step away, the king's own square included. */
  lemma KingControlMember(pos: Pos, q: Pos)
    ensures q in KingControl(pos) <==> OnBoard(q) && Chebyshev(pos, q) <= 1
  {
    KingControlAmongMember(pos, AllPositions(), q);
    AllPositionsMember(q);
    WithinKingReachIsNeighbour(pos, q);
  }

  lemma {:induction false} KingControlAmongAppend(pos: Pos, a: seq<Pos>, b: seq<Pos>)
    ensures KingControlAmong(pos, a + b) == KingControlAmong(pos, a) + KingControlAmong(pos, b)
    decreases |b|
  {
    if b != [] {
      var b' := b[..|b| - 1];
      var z := b[|b| - 1];
      assert (a + b)[..|a + b| - 1] == a + b';
      assert (a + b)[|a + b| - 1] == z;
      KingControlAmongAppend(pos, a, b');
      var tail := if WithinKingReach(pos, z) then [z] else [];
      calc {
        KingControlAmong(pos, a + b);
        KingControlAmong(pos, a + b') + tail;
        KingControlAmong(pos, a) + KingControlAmong(pos, b') + tail;
        KingControlAmong(pos, a) + (KingControlAmong(pos, b') + tail);
        KingControlAmong(pos, a) + KingControlAmong(pos, b);
      }
    } else {
      assert a + b == a;
    }
  }

  /** How many of the first n squares of a column lie within one step of row py. */
  function NearCount(py: int, n: nat): nat
  {
    if n == 0 then 0 else NearCount(py, n - 1) + (if Abs(n - py) <= 1 then 1 else 0)
  }

  /** How many lines of the board (1..8) lie within one step of line v. */
  function Reach(v: int): nat
  {
    if v == 1 || v == 8 then 2 else 3
  }

  lemma NearCountOnBoard(py: int)
    requires 1 <= py <= 8
    ensures NearCount(py, 8) == Reach(py)
  {
    assert NearCount(py, 1) == (if py <= 2 then 1 else 0);
    assert NearCount(py, 2) == (if py <= 3 then NearCount(py, 1) + 1 else 0);
    assert NearCount(py, 3) == NearCount(py, 2) + (if 2 <= py <= 4 then 1 else 0);
    assert NearCount(py, 4) == NearCount(py, 3) + (if 3 <= py <= 5 then 1 else 0);
    assert NearCount(py, 5) == NearCount(py, 4) + (if 4 <= py <= 6 then 1 else 0);
    assert NearCount(py, 6) == NearCount(py, 5) + (if 5 <= py <= 7 then 1 else 0);
    assert NearCount(py, 7) == NearCount(py, 6) + (if 6 <= py then 1 else 0);
    assert NearCount(py, 8) == NearCount(py, 7) + (if 7 <= py then 1 else 0);
  }

  lemma {:induction false} ColumnPrefixCount(pos: Pos, x: int, n: nat)
    requires n <= 8
    ensures |KingControlAmong(pos, Column(x)[..n])| ==
      if Abs(x - pos.x) <= 1 then NearCount(pos.y, n) else 0
  {
    if n > 0 {
      ColumnPrefixCount(pos, x, n - 1);
      assert Column(x)[..n][..n - 1] == Column(x)[..n - 1];
      var q := Column(x)[n - 1];
      assert q == Pos(x, n);
      WithinKingReachIsNeighbour(pos, q);
    }
  }

  /** How many columns from x to 8 lie within one step of column px, weighted by
      the number of near squares in each. */
  function ColumnsCount(px: int, py: int, x: int): nat
    decreases 9 - x
  {
    if x > 8 then 0 else (if Abs(x - px) <= 1 then NearCount(py, 8) else 0) + ColumnsCount(px, py, x + 1)
  }

  lemma {:induction false} ColumnsFromCount(pos: Pos, x: int)
    requires 1 <= x <= 9
    ensures |KingControlAmong(pos, ColumnsFrom(x))| == ColumnsCount(pos.x, pos.y, x)
    decreases 9 - x
  {
    if x <= 8 {
      KingControlAmongAppend(pos, Column(x), ColumnsFrom(x + 1));
      ColumnPrefixCount(pos, x, 8);
      assert Column(x)[..8] == Column(x);
      ColumnsFromCount(pos, x + 1);
    }
  }

  lemma ColumnsCountOnBoard(px: int, py: int)
    requires 1 <= px <= 8 && 1 <= py <= 8
    ensures ColumnsCount(px, py, 1) == Reach(px) * Reach(py)
  {
    NearCountOnBoard(py);
    var k := NearCount(py, 8);
    assert ColumnsCount(px, py, 9) == 0;
    assert ColumnsCount(px, py, 8) == (if 7 <= px then k else 0);
    assert ColumnsCount(px, py, 7) == ColumnsCount(px, py, 8) + (if 6 <= px then k else 0);
    assert ColumnsCount(px, py, 6) == ColumnsCount(px, py, 7) + (if 5 <= px <= 7 then k else 0);
    assert ColumnsCount(px, py, 5) == ColumnsCount(px, py, 6) + (if 4 <= px <= 6 then k else 0);
    assert ColumnsCount(px, py, 4) == ColumnsCount(px, py, 5) + (if 3 <= px <= 5 then k else 0);
    assert ColumnsCount(px, py, 3) == ColumnsCount(px, py, 4) + (if 2 <= px <= 4 then k else 0);
    assert ColumnsCount(px, py, 2) == ColumnsCount(px, py, 3) + (if px <= 3 then k else 0);
    assert ColumnsCount(px, py, 1) == ColumnsCount(px, py, 2) + (if px <= 2 then k else 0);
  }

  /** A king controls the squares within one step of it on both axes. */
  lemma KingControlCount(pos: Pos)
    requires OnBoard(pos)
    ensures |KingControl(pos)| == Reach(pos.x) * Reach(pos.y)
  {
    AllPositionsColumns();
    ColumnsFromCount(pos, 1);
    ColumnsCountOnBoard(pos.x, pos.y);
  }

  /** A king controls 9 squares in the interior and 4 in a corner. */
  lemma KingControlSizes(pos: Pos)
    requires OnBoard(pos)
    ensures 2 <= pos.x <= 7 && 2 <= pos.y <= 7 ==> |KingControl(pos)| == 9
    ensures (pos.x == 1 || pos.x == 8) && (pos.y == 1 || pos.y == 8) ==> |KingControl(pos)| == 4
  {
    KingControlCount(pos);
  }

  /** Of either colour's eight king steps, in their order, the fourth and the
      fifth are the two that stay on the king's row. */
  lemma KingStepsSideways(c: Color)
    ensures forall i :: 0 <= i < 8 ==> (KingSteps(c)[i].y == 0 <==> i == 3 || i == 4)
  {
  }

  /** The conditions under which King.get_available_positions keeps the square q:
      on the board, empty or held by the other colour, not controlled by the
      opponent, and norm > 1.5 from the other king. */
  predicate KingMayEnter(c: Color, q: Pos, occ: map<Pos, Option<Color>>, inCheck: seq<Pos>, otherKing: Pos)
  {
    q in occ && (occ[q].None? || occ[q].value != c) && q !in inCheck && BeyondKingReach(otherKing, q)
  }

  /** The destinations reached from pos by the steps of s, in the order of s: the
      loop of King.get_available_positions over a prefix of its step directions. */
  function KingTargetsAmong(c: Color, pos: Pos, occ: map<Pos, Option<Color>>, inCheck: seq<Pos>, otherKing: Pos,
                            steps: seq<Pos>): seq<Pos>
  {
    if steps == [] then []
    else
      var q := Add(pos, steps[|steps| - 1]);
      KingTargetsAmong(c, pos, occ, inCheck, otherKing, steps[..|steps| - 1])
      + (if KingMayEnter(c, q, occ, inCheck, otherKing) then [q] else [])
  }

  /** What King.get_available_positions returns, given the squares the opponent
      controls (get_positions_in_check) and the other king's position. */
  function KingTargets(c: Color, pos: Pos, occ: map<Pos, Option<Color>>, inCheck: seq<Pos>, otherKing: Pos): seq<Pos>
  {
    KingTargetsAmong(c, pos, occ, inCheck, otherKing, KingSteps(c))
  }

  /** One pass of the loop of King.get_available_positions: the step i is kept
      after the steps before it exactly when the king may enter its square. */
  lemma KingTargetsAmongPrefix(c: Color, pos: Pos, occ: map<Pos, Option<Color>>, inCheck: seq<Pos>, otherKing: Pos,
                               steps: seq<Pos>, i: int)
    requires 0 <= i < |steps|
    ensures var q := Add(pos, steps[i]);
      KingTargetsAmong(c, pos, occ, inCheck, otherKing, steps[..i + 1]) ==
      KingTargetsAmong(c, pos, occ, inCheck, otherKing, steps[..i]) + (if KingMayEnter(c, q, occ, inCheck, otherKing) then [q] else [])
  {
    assert steps[..i + 1][..i] == steps[..i];
  }

  lemma {:induction false} KingTargetsAmongMember(c: Color, pos: Pos, occ: map<Pos, Option<Color>>, inCheck: seq<Pos>,
                                                  otherKing: Pos, steps: seq<Pos>, q: Pos)
    ensures q in KingTargetsAmong(c, pos, occ, inCheck, otherKing, steps) <==>
      (exists d :: d in steps && q == Add(pos, d)) && KingMayEnter(c, q, occ, inCheck, otherKing)
    decreases |steps|
  {
    if steps != [] {
      var steps' := steps[..|steps| - 1];
      KingTargetsAmongMember(c, pos, occ, inCheck, otherKing, steps', q);
      assert steps == steps' + [steps[|steps| - 1]];
      if q == Add(pos, steps[|steps| - 1]) {
        assert steps[|steps| - 1] in steps;
      }
      if exists d :: d in steps && q == Add(pos, d) {
        var d :| d in steps && q == Add(pos, d);
        if d != steps[|steps| - 1] {
          assert d in steps';
        }
      }
    }
  }

  /** King.get_available_positions keeps precisely the squares one king step away
      that the king may enter. */
  lemma KingTargetsMember(c: Color, pos: Pos, occ: map<Pos, Option<Color>>, inCheck: seq<Pos>, otherKing: Pos, q: Pos)
    ensures q in KingTargets(c, pos, occ, inCheck, otherKing) <==>
      Chebyshev(pos, q) == 1 && KingMayEnter(c, q, occ, inCheck, otherKing)
  {
    KingTargetsAmongMember(c, pos, occ, inCheck, otherKing, KingSteps(c), q);
    var d := Pos(q.x - pos.x, q.y - pos.y);
    assert q == Add(pos, d);
    KingStepsAreNeighbours(c, d);
    if exists d' :: d' in KingSteps(c) && q == Add(pos, d') {
      var d' :| d' in KingSteps(c) && q == Add(pos, d');
      assert d' == d;
    }
  }

  /** Every king destination is on the board, one king step from the king, not
      held by a piece of the king's colour, not controlled by the opponent, and at
      least two king steps from the other king; and every square with these
      properties is a destination. */
  lemma KingTargetsSafe(c: Color, pos: Pos, occ: map<Pos, Option<Color>>, inCheck: seq<Pos>, otherKing: Pos, q: Pos)
    requires occ.Keys == Squares
    ensures q in KingTargets(c, pos, occ, inCheck, otherKing) ==> OnBoard(q)
    ensures q in KingTargets(c, pos, occ, inCheck, otherKing) <==>
      && q in Squares
      && Chebyshev(pos, q) == 1
      && occ[q] != Some(c)
      && q !in inCheck
      && Chebyshev(otherKing, q) >= 2
  {
    KingTargetsMember(c, pos, occ, inCheck, otherKing, q);
    AllPositionsMember(q);
    BeyondKingReachIsApart(otherKing, q);
  }

  // ---------------------------------------------------------------------------
  // Control: King.get_positions_in_check
  // ---------------------------------------------------------------------------

  /** What check detection needs of a piece. */
  datatype PieceState = PieceState(kind: Kind, color: Color, position: Pos)

  /** positions_kept_in_check of one piece. */
  function PieceControl(p: PieceState, keys: set<Pos>): seq<Pos>
  {
    match p.kind
    case Pawn => PawnControl(p.color, p.position, keys)
    case King => KingControl(p.position)
  }

  /** King.get_positions_in_check: the concatenation, in list order, of what each
      of the given pieces controls. */
  function Control(ps: seq<PieceState>, keys: set<Pos>): seq<Pos>
  {
    if ps == [] then [] else Control(ps[..|ps| - 1], keys) + PieceControl(ps[|ps| - 1], keys)
  }

  /** A square controlled by a list of pieces is controlled by one of them. */
  lemma {:induction false} ControlWitness(ps: seq<PieceState>, keys: set<Pos>, q: Pos) returns (i: int)
    requires q in Control(ps, keys)
    ensures 0 <= i < |ps| && q in PieceControl(ps[i], keys)
    decreases |ps|
  {
    var n := |ps| - 1;
    if q in PieceControl(ps[n], keys) {
      i := n;
    } else {
      i := ControlWitness(ps[..n], keys, q);
      assert ps[..n][i] == ps[i];
    }
  }

  /** A square one piece of a list controls is controlled by the list. */
  lemma {:induction false} ControlOfOne(ps: seq<PieceState>, keys: set<Pos>, q: Pos, i: int)
    requires 0 <= i < |ps| && q in PieceControl(ps[i], keys)
    ensures q in Control(ps, keys)
    decreases |ps|
  {
    var n := |ps| - 1;
    if i < n {
      assert ps[..n][i] == ps[i];
      ControlOfOne(ps[..n], keys, q, i);
    }
  }

  /** A square is controlled by a list of pieces iff one of them controls it. */
  lemma ControlMember(ps: seq<PieceState>, keys: set<Pos>, q: Pos)
    ensures q in Control(ps, keys) <==> exists i :: 0 <= i < |ps| && q in PieceControl(ps[i], keys)
  {
    if q in Control(ps, keys) {
      var i := ControlWitness(ps, keys, q);
    }
    if exists i :: 0 <= i < |ps| && q in PieceControl(ps[i], keys) {
      var i :| 0 <= i < |ps| && q in PieceControl(ps[i], keys);
      ControlOfOne(ps, keys, q, i);
    }
  }

  // ---------------------------------------------------------------------------
  // Lists: Piece.drop_out_of_bounds_positions and Player.pop_piece
  // ---------------------------------------------------------------------------

  /** The positions of s that are on the board, in order. */
  function KeepOnBoard(s: seq<Pos>): seq<Pos>
  {
    if s == [] then [] else KeepOnBoard(s[..|s| - 1]) + (if OnBoard(s[|s| - 1]) then [s[|s| - 1]] else [])
  }

  lemma {:induction false} KeepOnBoardMember(s: seq<Pos>, q: Pos)
    ensures q in KeepOnBoard(s) <==> q in s && OnBoard(q)
    ensures |KeepOnBoard(s)| <= |s|
    decreases |s|
  {
    if s != [] {
      KeepOnBoardMember(s[..|s| - 1], q);
      assert s == s[..|s| - 1] + [s[|s| - 1]];
    }
  }

  /** list.index: the first index holding x. */
  function IndexOf<T(==)>(s: seq<T>, x: T): (i: nat)
    requires x in s
    ensures i < |s| && s[i] == x && x !in s[..i]
  {
    if s[0] == x then 0 else
      var j := IndexOf(s[1..], x);
      assert s[1..][..j] == s[1..j + 1];
      1 + j
  }

  /** list.pop(list.index(x)): the list without its first x. */
  function RemoveFirst<T(==)>(s: seq<T>, x: T): seq<T>
    requires x in s
  {
    s[..IndexOf(s, x)] + s[IndexOf(s, x) + 1..]
  }

  /** Popping x drops exactly one occurrence of x and keeps every other entry. */
  lemma RemoveFirstSpec<T>(s: seq<T>, x: T, y: T)
    requires x in s
    ensures |RemoveFirst(s, x)| == |s| - 1
    ensures multiset(RemoveFirst(s, x)) == multiset(s) - multiset{x}
    ensures y != x ==> (y in RemoveFirst(s, x) <==> y in s)
  {
    var i := IndexOf(s, x);
    assert s == s[..i] + [x] + s[i + 1..];
    assert multiset(s) == multiset(s[..i]) + multiset{x} + multiset(s[i + 1..]);
    if y != x && y in s {
      assert y in multiset(s);
      assert y in multiset(RemoveFirst(s, x));
    }
  }

  /** The entries of a popped list, by index. */
  lemma RemoveFirstAt<T>(s: seq<T>, x: T, i: int)
    requires x in s && 0 <= i < |s| - 1
    ensures |RemoveFirst(s, x)| == |s| - 1
    ensures RemoveFirst(s, x)[i] == s[if i < IndexOf(s, x) then i else i + 1]
  {
  }
}
