/**
 Values of the peg-solitaire board: the fixed topology of the positions, the
 occupancy state (covered flags plus the list of spaces), the effect of every
 board mutation as a function of the state, the move generator, and the replay
 of a sequence of moves.
 */
module BoardSpec {

  datatype Option<T> = None | Some(value: T)

  /** The four jump directions, in the order the move generator tries them. */
  datatype Dir = Left | Right | Up | Down

  /**
   The unchanging part of a board position: its coordinates and its links to
   the neighbouring positions, given as indices into the board's position list.
   Whether the position is covered lives in the board's mutable state.
   */
  datatype Position = Position(x: int, y: int, left: Option<nat>, right: Option<nat>, up: Option<nat>, down: Option<nat>)

  /** A jump: `jumper` passes over `jumped` and lands on the empty `landing`. */
  datatype Move = Move(jumper: nat, jumped: nat, landing: nat)

  /** Covered flag of every position, and the list of spaces in the order they were vacated. */
  datatype Occupancy = Occupancy(covered: seq<bool>, spaces: seq<nat>)

  function Neighbour(p: Position, d: Dir): Option<nat>
  {
    match d
    case Left => p.left
    case Right => p.right
    case Up => p.up
    case Down => p.down
  }

  /** Dictionary lookup that yields None for a missing key. */
  function Lookup(index: map<(int, int), nat>, k: (int, int)): Option<nat>
  {
    if k in index then Some(index[k]) else None
  }

  // ---------------------------------------------------------------------------
  // Topology

  predicate LinksInRange(ps: seq<Position>)
  {
    forall i, d :: 0 <= i < |ps| && Neighbour(ps[i], d).Some? ==> Neighbour(ps[i], d).value < |ps|
  }

  predicate NoSelfLinks(ps: seq<Position>)
  {
    forall i, d :: 0 <= i < |ps| ==> Neighbour(ps[i], d) != Some(i)
  }

  /** The coordinate index and the position list describe the same positions. */
  predicate IndexConsistent(ps: seq<Position>, index: map<(int, int), nat>)
  {
    (forall i :: 0 <= i < |ps| ==> (ps[i].x, ps[i].y) in index && index[(ps[i].x, ps[i].y)] == i)
    && (forall k :: k in index ==> index[k] < |ps| && (ps[index[k]].x, ps[index[k]].y) == k)
  }

  predicate WellFormed(ps: seq<Position>, index: map<(int, int), nat>)
  {
    LinksInRange(ps) && NoSelfLinks(ps) && IndexConsistent(ps, index)
  }

  /** Neighbour links are mutual: A.right is B iff B.left is A, and A.down is B iff B.up is A. */
  predicate Symmetric(ps: seq<Position>)
  {
    forall i, j :: 0 <= i < |ps| && 0 <= j < |ps| ==>
      (ps[i].right == Some(j) <==> ps[j].left == Some(i)) &&
      (ps[i].down == Some(j) <==> ps[j].up == Some(i))
  }

  // ---------------------------------------------------------------------------
  // Occupancy state and its invariant

  predicate Distinct(s: seq<nat>)
  {
    forall j, k :: 0 <= j < k < |s| ==> s[j] != s[k]
  }

  /** A position is listed in `spaces` exactly once if it is uncovered, and not at all otherwise. */
  predicate Synced(o: Occupancy)
  {
    (forall j :: 0 <= j < |o.spaces| ==> o.spaces[j] < |o.covered| && !o.covered[o.spaces[j]])
    && (forall i :: 0 <= i < |o.covered| && !o.covered[i] ==> i in o.spaces)
    && Distinct(o.spaces)
  }

  /** Number of covered positions (marbles). */
  function CountCovered(c: seq<bool>): (n: nat)
    ensures n <= |c|
  {
    if c == [] then 0 else CountCovered(c[..|c| - 1]) + (if c[|c| - 1] then 1 else 0)
  }

  function Uncovered(c: seq<bool>): set<nat>
  {
    set i: nat | i < |c| && !c[i]
  }

  function Elems(s: seq<nat>): set<nat>
  {
    set x | x in s
  }

  /**
   Python's `list.remove`: drop the first occurrence of `v`. Where `list.remove`
   would raise (no occurrence), this returns the list unchanged; on a board
   whose spaces list is in step with the flags that case does not arise, since
   `add_marble_pos` only removes a position that is uncovered and so listed.
   */
  function RemoveFirst(s: seq<nat>, v: nat): seq<nat>
  {
    if s == [] then []
    else if s[0] == v then s[1..]
    else [s[0]] + RemoveFirst(s[1..], v)
  }

  // ---------------------------------------------------------------------------
  // The board mutations, as functions of the occupancy state

  /** Effect of `remove_marble_pos`: a covered position becomes a space, appended to the list. */
  function Removed(o: Occupancy, pos: Option<nat>): Occupancy
  {
    if pos.Some? && pos.value < |o.covered| && o.covered[pos.value]
    then Occupancy(o.covered[pos.value := false], o.spaces + [pos.value])
    else o
  }

  /** Effect of `add_marble_pos`: a space becomes covered and leaves the list. */
  function Added(o: Occupancy, pos: Option<nat>): Occupancy
  {
    if pos.Some? && pos.value < |o.covered| && !o.covered[pos.value]
    then Occupancy(o.covered[pos.value := true], RemoveFirst(o.spaces, pos.value))
    else o
  }

  predicate InRange(m: Move, n: nat)
  {
    m.jumper < n && m.jumped < n && m.landing < n
  }

  /** The guard of `make_move`. */
  predicate CanMake(c: seq<bool>, m: Move)
  {
    InRange(m, |c|) && c[m.jumper] && c[m.jumped] && !c[m.landing]
  }

  /** The guard of `undo_move`. */
  predicate CanUndo(c: seq<bool>, m: Move)
  {
    InRange(m, |c|) && !c[m.jumper] && !c[m.jumped] && c[m.landing]
  }

  /** Effect of `make_move`: the three mutations, only when the guard holds. */
  function AfterMove(o: Occupancy, m: Move): Occupancy
  {
    if CanMake(o.covered, m)
    then Added(Removed(Removed(o, Some(m.jumper)), Some(m.jumped)), Some(m.landing))
    else o
  }

  /** Effect of `undo_move`: the three inverse mutations, only when the guard holds. */
  function AfterUndo(o: Occupancy, m: Move): Occupancy
  {
    if CanUndo(o.covered, m)
    then Added(Added(Removed(o, Some(m.landing)), Some(m.jumper)), Some(m.jumped))
    else o
  }

  /** The covered flags after `make_move`; the spaces list is determined by them up to order. */
  function Apply(c: seq<bool>, m: Move): seq<bool>
  {
    if CanMake(c, m) then c[m.jumper := false][m.jumped := false][m.landing := true] else c
  }

  /** The covered flags after `undo_move`. */
  function Unapply(c: seq<bool>, m: Move): seq<bool>
  {
    if CanUndo(c, m) then c[m.landing := false][m.jumper := true][m.jumped := true] else c
  }

  /** The covered flags after playing `ms` in order from `c`. */
  function Replay(c: seq<bool>, ms: seq<Move>): (r: seq<bool>)
    ensures |r| == |c|
    decreases |ms|
  {
    if ms == [] then c else Apply(Replay(c, ms[..|ms| - 1]), ms[|ms| - 1])
  }

  // ---------------------------------------------------------------------------
  // Move generation

  /** The jump into space `s` from direction `d`, if the two positions beyond are covered. */
  function JumpInto(ps: seq<Position>, c: seq<bool>, s: nat, d: Dir): seq<Move>
    requires |ps| == |c| && LinksInRange(ps) && s < |ps|
  {
    match Neighbour(ps[s], d)
    case None => []
    case Some(n) =>
      if !c[n] then []
      else
        match Neighbour(ps[n], d)
        case None => []
        case Some(nn) => if c[nn] then [Move(nn, n, s)] else []
  }

  /** The jumps into space `s`, in the order left, right, up, down. */
  function MovesAt(ps: seq<Position>, c: seq<bool>, s: nat): seq<Move>
    requires |ps| == |c| && LinksInRange(ps) && s < |ps|
  {
    JumpInto(ps, c, s, Left) + JumpInto(ps, c, s, Right) + JumpInto(ps, c, s, Up) + JumpInto(ps, c, s, Down)
  }

  /** `possible_moves`: the jumps into every space, in the order of the spaces list. */
  function Moves(ps: seq<Position>, c: seq<bool>, spaces: seq<nat>): seq<Move>
    requires |ps| == |c| && LinksInRange(ps)
    requires forall j :: 0 <= j < |spaces| ==> spaces[j] < |ps|
  {
    if spaces == [] then [] else MovesAt(ps, c, spaces[0]) + Moves(ps, c, spaces[1..])
  }

  /** `m` is the jump from two positions away in direction `d` into `m.landing`. */
  predicate IsJump(ps: seq<Position>, m: Move, d: Dir)
  {
    m.landing < |ps| && Neighbour(ps[m.landing], d) == Some(m.jumped)
    && m.jumped < |ps| && Neighbour(ps[m.jumped], d) == Some(m.jumper)
  }

  /** `m` is a straight-line jump whose jumper and jumped positions are covered. */
  predicate Jumpable(ps: seq<Position>, c: seq<bool>, m: Move)
  {
    InRange(m, |c|) && c[m.jumper] && c[m.jumped] && exists d :: IsJump(ps, m, d)
  }

  /** A jump the rules allow on board `c`: a straight jump of a covered position over a covered one into a space. */
  predicate Legal(ps: seq<Position>, c: seq<bool>, m: Move)
  {
    InRange(m, |c|) && !c[m.landing] && Jumpable(ps, c, m)
  }
}
