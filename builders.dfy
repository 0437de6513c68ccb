/**
 The board builders (`RectangleSolitaire`, `EuropeanSolitaire`): a first pass
 creates one covered position per cell of the shape, column by column, and
 indexes it by coordinate; a second pass links every position to the positions
 one step left, right, up and down of it.
 */
module Builders {
  import opened BoardSpec
  import opened Boards

  function Clamp(n: int): nat
  {
    if n < 0 then 0 else n
  }

  /** The cell test of the 7x7 European board (a cross with the four inner corners filled). */
  predicate EuropeanShape(x: int, y: int)
  {
    (1 < y < 5) || (1 < x < 5) || ((y == 1 || y == 5) && 0 < x < 6) || ((x == 1 || x == 5) && 0 < y < 6)
  }

  predicate InEuropean(k: (int, int))
  {
    0 <= k.0 < 7 && 0 <= k.1 < 7 && EuropeanShape(k.0, k.1)
  }

  /** (cx, cy) comes before (x, y) in the column-by-column order of the construction loops. */
  predicate Before(cx: int, cy: int, x: int, y: int)
  {
    cx < x || (cx == x && cy < y)
  }

  /** A position with no links, as `BoardPosition.__init__` makes it. */
  predicate Unlinked(p: Position)
  {
    p.left.None? && p.right.None? && p.up.None? && p.down.None?
  }

  /** Each link of `p` is the position one step away in that direction, or None if there is none. */
  predicate LinkedPos(p: Position, index: map<(int, int), nat>)
  {
    p.left == Lookup(index, (p.x - 1, p.y)) && p.right == Lookup(index, (p.x + 1, p.y))
    && p.up == Lookup(index, (p.x, p.y - 1)) && p.down == Lookup(index, (p.x, p.y + 1))
  }

  predicate LinkedByCoordinates(ps: seq<Position>, index: map<(int, int), nat>)
  {
    forall i :: 0 <= i < |ps| ==> LinkedPos(ps[i], index)
  }

  /** Number of European cells that come before (x, y) in column-by-column order, for 0 <= y <= 7. */
  function CellsBefore(x: int, y: int): nat
    decreases x, y
  {
    if x <= 0 && y <= 0 then 0
    else if y <= 0 then CellsBefore(x - 1, 7)
    else CellsBefore(x, y - 1) + (if InEuropean((x, y - 1)) then 1 else 0)
  }

  /** Number of European cells in column x (0 <= x < 7) with a row below y (0 <= y <= 7). */
  function ColumnHeight(x: int, y: int): int
  {
    if 1 < x < 5 then y
    else if x == 1 || x == 5 then (if y <= 1 then 0 else if y <= 6 then y - 1 else 5)
    else (if y <= 2 then 0 else if y <= 5 then y - 2 else 3)
  }

  lemma {:induction false} ColumnIs(x: int, y: int)
    requires 0 <= x < 7 && 0 <= y <= 7
    ensures CellsBefore(x, y) == CellsBefore(x, 0) + ColumnHeight(x, y)
  {
    if y > 0 {
      ColumnIs(x, y - 1);
      ColumnStep(x, y);
    }
  }

  lemma ColumnStep(x: int, y: int)
    requires 0 <= x < 7 && 0 < y <= 7
    ensures ColumnHeight(x, y) == ColumnHeight(x, y - 1) + (if InEuropean((x, y - 1)) then 1 else 0)
  {
  }

  /** The European shape has 37 cells: 3, 5, 7, 7, 7, 5 and 3 per column. */
  lemma EuropeanCount()
    ensures CellsBefore(7, 0) == 37
  {
    ColumnIs(0, 7);
    ColumnIs(1, 7);
    ColumnIs(2, 7);
    ColumnIs(3, 7);
    ColumnIs(4, 7);
    ColumnIs(5, 7);
    ColumnIs(6, 7);
  }

  /** The positions before (x, y) carry their coordinate links; the others are as the first pass left them. */
  ghost predicate LinkedUpTo(ps: seq<Position>, ps0: seq<Position>, index: map<(int, int), nat>, x: int, y: int)
  {
    |ps| == |ps0|
    && (forall i :: 0 <= i < |ps| ==> ps[i].x == ps0[i].x && ps[i].y == ps0[i].y)
    && (forall i :: 0 <= i < |ps| && Before(ps0[i].x, ps0[i].y, x, y) ==> LinkedPos(ps[i], index))
    && (forall i :: 0 <= i < |ps| && !Before(ps0[i].x, ps0[i].y, x, y) ==> ps[i] == ps0[i])
  }

  /** Linking the position at (x, y) extends the linked prefix by one cell. */
  lemma LinkStep(ps: seq<Position>, ps0: seq<Position>, index: map<(int, int), nat>, x: int, y: int, p: Position)
    requires LinkedUpTo(ps, ps0, index, x, y) && IndexConsistent(ps, index)
    requires (x, y) in index && p.x == x && p.y == y && LinkedPos(p, index)
    ensures LinkedUpTo(ps[index[(x, y)] := p], ps0, index, x, y + 1)
    ensures IndexConsistent(ps[index[(x, y)] := p], index)
  {
    var i := index[(x, y)];
    assert ps0[i].x == x && ps0[i].y == y;
    LinkedStep(ps, ps0, index, x, y, i, p);
    ReplaceKeepsIndex(ps, index, i, p);
  }

  /** Replacing position `i` by one at the same coordinate keeps the index consistent. */
  lemma ReplaceKeepsIndex(ps: seq<Position>, index: map<(int, int), nat>, i: nat, p: Position)
    requires IndexConsistent(ps, index) && i < |ps| && p.x == ps[i].x && p.y == ps[i].y
    ensures IndexConsistent(ps[i := p], index)
  {
  }

  lemma LinkedStep(ps: seq<Position>, ps0: seq<Position>, index: map<(int, int), nat>, x: int, y: int, i: nat, p: Position)
    requires LinkedUpTo(ps, ps0, index, x, y) && IndexConsistent(ps, index)
    requires i < |ps| && ps0[i].x == x && ps0[i].y == y && p.x == x && p.y == y && LinkedPos(p, index)
    ensures LinkedUpTo(ps[i := p], ps0, index, x, y + 1)
  {
    var ps' := ps[i := p];
    forall j | 0 <= j < |ps'| && j != i ensures (ps0[j].x, ps0[j].y) != (x, y) {
      assert index[(ps[j].x, ps[j].y)] == j;
    }
    forall j | 0 <= j < |ps'| && Before(ps0[j].x, ps0[j].y, x, y + 1) ensures LinkedPos(ps'[j], index) {
      if j != i {
        assert Before(ps0[j].x, ps0[j].y, x, y);
      }
    }
    forall j | 0 <= j < |ps'| && !Before(ps0[j].x, ps0[j].y, x, y + 1) ensures ps'[j] == ps0[j] {
    }
  }

  /** A linked prefix that covers the column x of cells with rows below `height` reaches the next column. */
  lemma NextColumn(ps: seq<Position>, ps0: seq<Position>, index: map<(int, int), nat>, x: int, height: int)
    requires LinkedUpTo(ps, ps0, index, x, height)
    requires forall i :: 0 <= i < |ps0| ==> 0 <= ps0[i].y < height
    ensures LinkedUpTo(ps, ps0, index, x + 1, 0)
  {
    forall i | 0 <= i < |ps| ensures Before(ps0[i].x, ps0[i].y, x + 1, 0) == Before(ps0[i].x, ps0[i].y, x, height) {
    }
  }

  /**
   Linking positions by coordinate lookup gives a well-formed topology whose
   links are mutual: A.right is B iff B.left is A, and A.down is B iff B.up is A.
   */
  lemma CoordinateLinksSymmetric(ps: seq<Position>, index: map<(int, int), nat>)
    requires IndexConsistent(ps, index) && LinkedByCoordinates(ps, index)
    ensures WellFormed(ps, index) && Symmetric(ps)
  {
    forall i, d | 0 <= i < |ps|
      ensures Neighbour(ps[i], d) != Some(i)
      ensures Neighbour(ps[i], d).Some? ==> Neighbour(ps[i], d).value < |ps|
    {
      LinkTarget(ps, index, i, d);
    }
    forall i, j | 0 <= i < |ps| && 0 <= j < |ps|
      ensures (ps[i].right == Some(j) <==> ps[j].left == Some(i))
      ensures (ps[i].down == Some(j) <==> ps[j].up == Some(i))
    {
      PairSymmetric(ps, index, i, j);
    }
  }

  lemma PairSymmetric(ps: seq<Position>, index: map<(int, int), nat>, i: nat, j: nat)
    requires IndexConsistent(ps, index) && i < |ps| && j < |ps|
    requires LinkedPos(ps[i], index) && LinkedPos(ps[j], index)
    ensures ps[i].right == Some(j) <==> ps[j].left == Some(i)
    ensures ps[i].down == Some(j) <==> ps[j].up == Some(i)
  {
    LookupAt(ps, index, (ps[i].x + 1, ps[i].y), j);
    LookupAt(ps, index, (ps[j].x - 1, ps[j].y), i);
    LookupAt(ps, index, (ps[i].x, ps[i].y + 1), j);
    LookupAt(ps, index, (ps[j].x, ps[j].y - 1), i);
  }

  /** With a consistent index, a lookup finds position j exactly at j's coordinates. */
  lemma LookupAt(ps: seq<Position>, index: map<(int, int), nat>, k: (int, int), j: nat)
    requires IndexConsistent(ps, index) && j < |ps|
    ensures Lookup(index, k) == Some(j) <==> (ps[j].x, ps[j].y) == k
  {
    if (ps[j].x, ps[j].y) == k {
      assert index[k] == j;
    }
  }

  /** A coordinate link points at a position one step away, so into the list and never at itself. */
  lemma LinkTarget(ps: seq<Position>, index: map<(int, int), nat>, i: nat, d: Dir)
    requires IndexConsistent(ps, index) && LinkedByCoordinates(ps, index) && i < |ps|
    ensures Neighbour(ps[i], d) != Some(i)
    ensures Neighbour(ps[i], d).Some? ==> Neighbour(ps[i], d).value < |ps|
  {
    assert LinkedPos(ps[i], index);
    match Neighbour(ps[i], d)
    case None =>
    case Some(n) =>
      var k := match d
        case Left => (ps[i].x - 1, ps[i].y)
        case Right => (ps[i].x + 1, ps[i].y)
        case Up => (ps[i].x, ps[i].y - 1)
        case Down => (ps[i].x, ps[i].y + 1);
      assert k in index && index[k] == n;
      assert (ps[n].x, ps[n].y) == k;
  }

  /** First pass of `RectangleSolitaire.__init__`: positions column by column, indexed by coordinate. */
  method RectanglePositions(width: int, height: int) returns (ps: seq<Position>, index: map<(int, int), nat>)
    ensures |ps| == Clamp(width) * Clamp(height)
    ensures IndexConsistent(ps, index)
    ensures forall k :: k in index <==> 0 <= k.0 < width && 0 <= k.1 < height
    ensures InLoopOrder(ps) && AllBefore(ps, Clamp(width), 0)
  {
    ps, index := [], map[];
    var x := 0;
    while x < width
      invariant 0 <= x <= Clamp(width)
      invariant |ps| == x * Clamp(height)
      invariant IndexConsistent(ps, index)
      invariant forall k :: k in index <==> 0 <= k.0 < x && 0 <= k.1 < height
      invariant InLoopOrder(ps) && AllBefore(ps, x, 0)
    {
      ps, index := RectangleColumn(ps, index, x, height);
      assert (x + 1) * Clamp(height) == x * Clamp(height) + Clamp(height);
      x := x + 1;
    }
  }

  /** One column of the rectangle's first pass: the cells (x, 0) to (x, height - 1). */
  method RectangleColumn(ps0: seq<Position>, index0: map<(int, int), nat>, x: int, height: int)
    returns (ps: seq<Position>, index: map<(int, int), nat>)
    requires 0 <= x && IndexConsistent(ps0, index0)
    requires forall k :: k in index0 <==> 0 <= k.0 < x && 0 <= k.1 < height
    requires InLoopOrder(ps0) && AllBefore(ps0, x, 0)
    ensures |ps| == |ps0| + Clamp(height)
    ensures IndexConsistent(ps, index)
    ensures forall k :: k in index <==> 0 <= k.0 < x + 1 && 0 <= k.1 < height
    ensures InLoopOrder(ps) && AllBefore(ps, x + 1, 0)
  {
    ps, index := ps0, index0;
    var y := 0;
    while y < height
      invariant 0 <= y <= Clamp(height)
      invariant |ps| == |ps0| + y
      invariant IndexConsistent(ps, index)
      invariant forall k :: k in index <==> (0 <= k.0 < x && 0 <= k.1 < height) || (k.0 == x && 0 <= k.1 < y)
      invariant InLoopOrder(ps) && AllBefore(ps, x, y)
    {
      AppendIndexed(ps, index, Position(x, y, None, None, None, None));
      AppendInOrder(ps, x, y);
      ps := ps + [Position(x, y, None, None, None, None)];
      index := index[(x, y) := |ps| - 1];
      y := y + 1;
    }
    forall i | 0 <= i < |ps| ensures Before(ps[i].x, ps[i].y, x + 1, 0) {
      assert Before(ps[i].x, ps[i].y, x, y);
    }
  }

  /**
   `RectangleSolitaire.__init__` without the board object: width x height
   positions in column order, each linked to its four neighbours, with no link
   exactly on the rectangle's edge.
   */
  method RectangleLayout(width: int, height: int) returns (ps: seq<Position>, index: map<(int, int), nat>)
    ensures |ps| == Clamp(width) * Clamp(height)
    ensures IndexConsistent(ps, index) && LinkedByCoordinates(ps, index)
    ensures forall k :: k in index <==> 0 <= k.0 < width && 0 <= k.1 < height
    ensures forall i, j :: 0 <= i < j < |ps| ==> Before(ps[i].x, ps[i].y, ps[j].x, ps[j].y)
    ensures forall i :: 0 <= i < |ps| ==>
      (ps[i].left.None? <==> ps[i].x == 0) && (ps[i].right.None? <==> ps[i].x == width - 1) &&
      (ps[i].up.None? <==> ps[i].y == 0) && (ps[i].down.None? <==> ps[i].y == height - 1)
  {
    ps, index := RectanglePositions(width, height);
    ghost var ps0 := ps;
    var x := 0;
    while x < width
      invariant 0 <= x <= Clamp(width)
      invariant IndexConsistent(ps, index) && LinkedUpTo(ps, ps0, index, x, 0)
    {
      ps := LinkRectangleColumn(ps, ps0, index, width, height, x);
      x := x + 1;
    }
    RectangleEdges(ps, index, width, height);
  }

  /** One column of the rectangle's second pass: links the positions of column x, top to bottom. */
  method LinkRectangleColumn(ps0: seq<Position>, ghost first: seq<Position>, index: map<(int, int), nat>,
                             width: int, height: int, x: int) returns (ps: seq<Position>)
    requires forall k :: k in index <==> 0 <= k.0 < width && 0 <= k.1 < height
    requires forall i :: 0 <= i < |first| ==> Unlinked(first[i])
    requires 0 <= x < width
    requires IndexConsistent(ps0, index) && LinkedUpTo(ps0, first, index, x, 0)
    ensures IndexConsistent(ps, index) && LinkedUpTo(ps, first, index, x + 1, 0)
  {
    ps := ps0;
    var y := 0;
    while y < height
      invariant 0 <= y <= Clamp(height)
      invariant IndexConsistent(ps, index) && LinkedUpTo(ps, first, index, x, y)
    {
      ps := LinkRectangleCell(ps, first, index, width, height, x, y);
      y := y + 1;
    }
    NextColumn(ps, first, index, x, height);
  }

  /** One cell of the rectangle's second pass: sets the links of (x, y) that lie inside the rectangle. */
  method LinkRectangleCell(ps0: seq<Position>, ghost first: seq<Position>, index: map<(int, int), nat>,
                           width: int, height: int, x: int, y: int) returns (ps: seq<Position>)
    requires forall k :: k in index <==> 0 <= k.0 < width && 0 <= k.1 < height
    requires forall i :: 0 <= i < |first| ==> Unlinked(first[i])
    requires 0 <= x < width && 0 <= y < height
    requires IndexConsistent(ps0, index) && LinkedUpTo(ps0, first, index, x, y)
    ensures IndexConsistent(ps, index) && LinkedUpTo(ps, first, index, x, y + 1)
  {
    var i := index[(x, y)];
    var p := ps0[i].(
      left := if x > 0 then Some(index[(x - 1, y)]) else ps0[i].left,
      right := if x < width - 1 then Some(index[(x + 1, y)]) else ps0[i].right,
      up := if y > 0 then Some(index[(x, y - 1)]) else ps0[i].up,
      down := if y < height - 1 then Some(index[(x, y + 1)]) else ps0[i].down);
    RectangleStep(ps0, first, index, width, height, x, y, p);
    ps := ps0[i := p];
  }

  /** Linking the position at (x, y) with the rectangle builder's conditional links extends the linked prefix. */
  lemma RectangleStep(ps: seq<Position>, first: seq<Position>, index: map<(int, int), nat>,
                      width: int, height: int, x: int, y: int, p: Position)
    requires forall k :: k in index <==> 0 <= k.0 < width && 0 <= k.1 < height
    requires forall i :: 0 <= i < |first| ==> Unlinked(first[i])
    requires 0 <= x < width && 0 <= y < height
    requires IndexConsistent(ps, index) && LinkedUpTo(ps, first, index, x, y)
    requires p == ps[index[(x, y)]].(
        left := if x > 0 then Some(index[(x - 1, y)]) else ps[index[(x, y)]].left,
        right := if x < width - 1 then Some(index[(x + 1, y)]) else ps[index[(x, y)]].right,
        up := if y > 0 then Some(index[(x, y - 1)]) else ps[index[(x, y)]].up,
        down := if y < height - 1 then Some(index[(x, y + 1)]) else ps[index[(x, y)]].down)
    ensures IndexConsistent(ps[index[(x, y)] := p], index) && LinkedUpTo(ps[index[(x, y)] := p], first, index, x, y + 1)
  {
    var i := index[(x, y)];
    assert first[i].x == x && first[i].y == y;
    assert ps[i] == first[i];
    RectangleLink(index, width, height, x, y, first[i], p);
    LinkStep(ps, first, index, x, y, p);
  }

  /** The conditional links of the rectangle builder are the coordinate lookups. */
  lemma RectangleLink(index: map<(int, int), nat>, width: int, height: int, x: int, y: int, p0: Position, p: Position)
    requires forall k :: k in index <==> 0 <= k.0 < width && 0 <= k.1 < height
    requires 0 <= x < width && 0 <= y < height && p0.x == x && p0.y == y && Unlinked(p0)
    requires p.x == x && p.y == y
    requires p.left == (if x > 0 then Some(index[(x - 1, y)]) else p0.left)
    requires p.right == (if x < width - 1 then Some(index[(x + 1, y)]) else p0.right)
    requires p.up == (if y > 0 then Some(index[(x, y - 1)]) else p0.up)
    requires p.down == (if y < height - 1 then Some(index[(x, y + 1)]) else p0.down)
    ensures LinkedPos(p, index)
  {
    assert (x - 1, y) in index <==> x > 0;
    assert (x + 1, y) in index <==> x < width - 1;
    assert (x, y - 1) in index <==> y > 0;
    assert (x, y + 1) in index <==> y < height - 1;
  }

  /** In a rectangle linked by coordinates, a link is missing exactly on the matching edge. */
  lemma RectangleEdges(ps: seq<Position>, index: map<(int, int), nat>, width: int, height: int)
    requires IndexConsistent(ps, index) && LinkedByCoordinates(ps, index)
    requires forall k :: k in index <==> 0 <= k.0 < width && 0 <= k.1 < height
    ensures forall i :: 0 <= i < |ps| ==>
      (ps[i].left.None? <==> ps[i].x == 0) && (ps[i].right.None? <==> ps[i].x == width - 1) &&
      (ps[i].up.None? <==> ps[i].y == 0) && (ps[i].down.None? <==> ps[i].y == height - 1)
  {
    forall i | 0 <= i < |ps|
      ensures (ps[i].left.None? <==> ps[i].x == 0) && (ps[i].right.None? <==> ps[i].x == width - 1)
      ensures (ps[i].up.None? <==> ps[i].y == 0) && (ps[i].down.None? <==> ps[i].y == height - 1)
    {
      assert (ps[i].x, ps[i].y) in index;
      EdgeAt(ps[i], index, width, height);
    }
  }

  lemma EdgeAt(p: Position, index: map<(int, int), nat>, width: int, height: int)
    requires forall k :: k in index <==> 0 <= k.0 < width && 0 <= k.1 < height
    requires (p.x, p.y) in index && LinkedPos(p, index)
    ensures (p.left.None? <==> p.x == 0) && (p.right.None? <==> p.x == width - 1)
    ensures (p.up.None? <==> p.y == 0) && (p.down.None? <==> p.y == height - 1)
  {
    assert (p.x - 1, p.y) in index <==> p.x > 0;
    assert (p.x + 1, p.y) in index <==> p.x < width - 1;
    assert (p.x, p.y - 1) in index <==> p.y > 0;
    assert (p.x, p.y + 1) in index <==> p.y < height - 1;
  }

  /**
   The state of the European first pass before cell (x, y): the cells of the
   shape in the earlier columns and the earlier rows of column x, in loop order.
   */
  ghost predicate EuropeanPrefix(ps: seq<Position>, index: map<(int, int), nat>, x: int, y: int)
  {
    0 <= x <= 7 && 0 <= y <= 7
    && |ps| == CellsBefore(x, y)
    && IndexConsistent(ps, index)
    && EuropeanKeysBefore(index, x, y)
    && InLoopOrder(ps)
    && AllBefore(ps, x, y)
  }

  ghost predicate EuropeanKeysBefore(index: map<(int, int), nat>, x: int, y: int)
  {
    forall k :: k in index <==> InEuropean(k) && Before(k.0, k.1, x, y)
  }

  predicate InLoopOrder(ps: seq<Position>)
  {
    forall i, j :: 0 <= i < j < |ps| ==> Before(ps[i].x, ps[i].y, ps[j].x, ps[j].y)
  }

  predicate AllBefore(ps: seq<Position>, x: int, y: int)
  {
    forall i :: 0 <= i < |ps| ==> Before(ps[i].x, ps[i].y, x, y) && Unlinked(ps[i])
  }

  /** Appending the cell (x, y) of the shape keeps the prefix state one cell further on. */
  lemma PlaceCell(ps: seq<Position>, index: map<(int, int), nat>, x: int, y: int)
    requires EuropeanPrefix(ps, index, x, y) && x < 7 && y < 7 && EuropeanShape(x, y)
    ensures EuropeanPrefix(ps + [Position(x, y, None, None, None, None)], index[(x, y) := |ps|], x, y + 1)
  {
    assert (x, y) !in index;
    AppendIndexed(ps, index, Position(x, y, None, None, None, None));
    assert CellsBefore(x, y + 1) == CellsBefore(x, y) + 1;
    EuropeanKeyStep(index, x, y, |ps|);
    AppendInOrder(ps, x, y);
  }

  lemma EuropeanKeyStep(index: map<(int, int), nat>, x: int, y: int, n: nat)
    requires EuropeanKeysBefore(index, x, y) && InEuropean((x, y))
    ensures EuropeanKeysBefore(index[(x, y) := n], x, y + 1)
  {
  }

  /** Appending an unlinked position at (x, y) after positions all before it keeps the loop order. */
  lemma AppendInOrder(ps: seq<Position>, x: int, y: int)
    requires InLoopOrder(ps) && AllBefore(ps, x, y)
    ensures InLoopOrder(ps + [Position(x, y, None, None, None, None)])
    ensures AllBefore(ps + [Position(x, y, None, None, None, None)], x, y + 1)
  {
    var ps' := ps + [Position(x, y, None, None, None, None)];
    forall i, j | 0 <= i < j < |ps'| ensures Before(ps'[i].x, ps'[i].y, ps'[j].x, ps'[j].y) {
      if j == |ps| {
        assert Before(ps[i].x, ps[i].y, x, y);
      }
    }
  }

  /** Appending a position at a fresh coordinate, and indexing it, keeps the index consistent. */
  lemma AppendIndexed(ps: seq<Position>, index: map<(int, int), nat>, p: Position)
    requires IndexConsistent(ps, index) && (p.x, p.y) !in index
    ensures IndexConsistent(ps + [p], index[(p.x, p.y) := |ps|])
  {
    var ps', index' := ps + [p], index[(p.x, p.y) := |ps|];
    forall i | 0 <= i < |ps'|
      ensures (ps'[i].x, ps'[i].y) in index' && index'[(ps'[i].x, ps'[i].y)] == i
    {
      if i < |ps| {
        assert (ps[i].x, ps[i].y) in index;
      }
    }
    forall k | k in index' ensures index'[k] < |ps'| && (ps'[index'[k]].x, ps'[index'[k]].y) == k {
      if k != (p.x, p.y) {
        assert k in index;
      }
    }
  }

  /** A coordinate outside the shape leaves the prefix state as it is. */
  lemma SkipShape(ps: seq<Position>, index: map<(int, int), nat>, x: int, y: int)
    requires EuropeanPrefix(ps, index, x, y) && x < 7 && y < 7 && !EuropeanShape(x, y)
    ensures EuropeanPrefix(ps, index, x, y + 1)
  {
    assert CellsBefore(x, y + 1) == CellsBefore(x, y) + (if InEuropean((x, y)) then 1 else 0);
  }

  /** The end of column x is the start of column x + 1. */
  lemma NextEuropeanColumn(ps: seq<Position>, index: map<(int, int), nat>, x: int)
    requires EuropeanPrefix(ps, index, x, 7) && x < 7
    ensures EuropeanPrefix(ps, index, x + 1, 0)
  {
    forall k ensures k in index <==> InEuropean(k) && Before(k.0, k.1, x + 1, 0) {
    }
  }

  /** One column of the European first pass: the cells of column x, top to bottom. */
  method EuropeanColumn(ps0: seq<Position>, index0: map<(int, int), nat>, x: int)
    returns (ps: seq<Position>, index: map<(int, int), nat>)
    requires EuropeanPrefix(ps0, index0, x, 0) && x < 7
    ensures EuropeanPrefix(ps, index, x + 1, 0)
  {
    ps, index := ps0, index0;
    for y := 0 to 7
      invariant EuropeanPrefix(ps, index, x, y)
    {
      if EuropeanShape(x, y) {
        PlaceCell(ps, index, x, y);
        ps := ps + [Position(x, y, None, None, None, None)];
        index := index[(x, y) := |ps| - 1];
      } else {
        SkipShape(ps, index, x, y);
      }
    }
    NextEuropeanColumn(ps, index, x);
  }

  /** First pass of `EuropeanSolitaire.__init__`: the 37 cells of the shape, column by column. */
  method EuropeanPositions() returns (ps: seq<Position>, index: map<(int, int), nat>)
    ensures |ps| == 37
    ensures IndexConsistent(ps, index)
    ensures forall k :: k in index <==> InEuropean(k)
    ensures forall i, j :: 0 <= i < j < |ps| ==> Before(ps[i].x, ps[i].y, ps[j].x, ps[j].y)
    ensures forall i :: 0 <= i < |ps| ==> Unlinked(ps[i])
  {
    ps, index := [], map[];
    EuropeanStart();
    for x := 0 to 7
      invariant EuropeanPrefix(ps, index, x, 0)
    {
      ps, index := EuropeanColumn(ps, index, x);
    }
    EuropeanDone(ps, index);
  }

  lemma EuropeanStart()
    ensures EuropeanPrefix([], map[], 0, 0)
  {
  }

  lemma EuropeanDone(ps: seq<Position>, index: map<(int, int), nat>)
    requires EuropeanPrefix(ps, index, 7, 0)
    ensures |ps| == 37 && IndexConsistent(ps, index)
    ensures forall k :: k in index <==> InEuropean(k)
    ensures forall i, j :: 0 <= i < j < |ps| ==> Before(ps[i].x, ps[i].y, ps[j].x, ps[j].y)
    ensures forall i :: 0 <= i < |ps| ==> Unlinked(ps[i])
  {
    EuropeanCount();
  }

  /**
   `EuropeanSolitaire.__init__` without the board object: the 37 cells, each
   linked to the cells one step away, with None where the step leaves the shape.
   */
  method EuropeanLayout() returns (ps: seq<Position>, index: map<(int, int), nat>)
    ensures |ps| == 37
    ensures IndexConsistent(ps, index) && LinkedByCoordinates(ps, index)
    ensures forall k :: k in index <==> InEuropean(k)
    ensures forall i, j :: 0 <= i < j < |ps| ==> Before(ps[i].x, ps[i].y, ps[j].x, ps[j].y)
  {
    ps, index := EuropeanPositions();
    ghost var ps0 := ps;
    var x := 0;
    while x < 7
      invariant 0 <= x <= 7
      invariant IndexConsistent(ps, index) && LinkedUpTo(ps, ps0, index, x, 0)
    {
      var y := 0;
      while y < 7
        invariant 0 <= y <= 7
        invariant IndexConsistent(ps, index) && LinkedUpTo(ps, ps0, index, x, y)
      {
        var pos := Lookup(index, (x, y));
        if pos.Some? {
          var i := pos.value;
          var p := ps[i].(left := Lookup(index, (x - 1, y)), right := Lookup(index, (x + 1, y)),
                          up := Lookup(index, (x, y - 1)), down := Lookup(index, (x, y + 1)));
          LinkStep(ps, ps0, index, x, y, p);
          ps := ps[i := p];
        } else {
          SkipCell(ps, ps0, index, x, y);
        }
        y := y + 1;
      }
      NextColumn(ps, ps0, index, x, 7);
      x := x + 1;
    }
  }

  /** A coordinate with no position does not interrupt the linked prefix. */
  lemma SkipCell(ps: seq<Position>, ps0: seq<Position>, index: map<(int, int), nat>, x: int, y: int)
    requires LinkedUpTo(ps, ps0, index, x, y) && IndexConsistent(ps, index) && (x, y) !in index
    ensures LinkedUpTo(ps, ps0, index, x, y + 1)
  {
    forall j | 0 <= j < |ps| ensures (ps[j].x, ps[j].y) != (x, y) {
      assert (ps[j].x, ps[j].y) in index;
    }
  }

  /** `RectangleSolitaire(width, height)`: every cell of the rectangle holds a marble. */
  method RectangleSolitaire(width: int, height: int) returns (b: Board)
    ensures fresh(b) && fresh(b.covered) && b.Valid()
    ensures b.width == width && b.height == height
    ensures |b.positions| == Clamp(width) * Clamp(height) && b.NumberMarbles() == |b.positions| && b.spaces == []
    ensures forall k :: k in b.indexed <==> 0 <= k.0 < width && 0 <= k.1 < height
    ensures LinkedByCoordinates(b.positions, b.indexed) && Symmetric(b.positions)
  {
    var ps, index := RectangleLayout(width, height);
    CoordinateLinksSymmetric(ps, index);
    b := new Board(width, height, ps, index);
  }

  /** `EuropeanSolitaire()`: every one of the 37 cells holds a marble. */
  method EuropeanSolitaire() returns (b: Board)
    ensures fresh(b) && fresh(b.covered) && b.Valid()
    ensures b.width == 7 && b.height == 7
    ensures |b.positions| == 37 && b.NumberMarbles() == 37 && b.spaces == []
    ensures forall k :: k in b.indexed <==> InEuropean(k)
    ensures LinkedByCoordinates(b.positions, b.indexed) && Symmetric(b.positions)
  {
    var ps, index := EuropeanLayout();
    CoordinateLinksSymmetric(ps, index);
    b := new Board(7, 7, ps, index);
  }
}
