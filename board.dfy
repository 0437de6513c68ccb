/**
 The mutable board (`AbstractBoard`): a fixed list of positions with their
 coordinate index, one covered flag per position, and the list of spaces that
 the mutators keep in step with the flags.
 */
module Boards {
  import opened BoardSpec
  import opened BoardLaws

  class Board {
    const width: int
    const height: int
    /** All positions, in construction order; their neighbour links never change. */
    const positions: seq<Position>
    /** Positions by coordinate. */
    const indexed: map<(int, int), nat>
    /** The covered flag of each position. */
    const covered: array<bool>
    /** The uncovered positions, in the order they were vacated. */
    var spaces: seq<nat>

    ghost predicate Valid()
      reads this, covered
    {
      covered.Length == |positions| && WellFormed(positions, indexed) && Synced(Occupancy(covered[..], spaces))
    }

    function State(): Occupancy
      reads this, covered
    {
      Occupancy(covered[..], spaces)
    }

    /** A board whose every position holds a marble. */
    constructor (width: int, height: int, positions: seq<Position>, indexed: map<(int, int), nat>)
      requires WellFormed(positions, indexed)
      ensures Valid() && fresh(covered)
      ensures this.width == width && this.height == height
      ensures this.positions == positions && this.indexed == indexed
      ensures covered[..] == seq(|positions|, _ => true) && spaces == []
      ensures NumberMarbles() == |positions|
    {
      this.width := width;
      this.height := height;
      this.positions := positions;
      this.indexed := indexed;
      covered := new bool[|positions|](_ => true);
      spaces := [];
    }

    /** `remove_marble_pos`: a covered position becomes a space; anything else is left alone. */
    method RemoveMarblePos(pos: Option<nat>)
      requires Valid()
      requires pos.Some? ==> pos.value < |positions|
      modifies this, covered
      ensures Valid()
      ensures State() == Removed(old(State()), pos)
      ensures pos.Some? && old(covered[pos.value]) ==>
        covered[..] == old(covered[..])[pos.value := false] && spaces == old(spaces) + [pos.value]
      ensures pos.None? || !old(covered[pos.value]) ==>
        covered[..] == old(covered[..]) && spaces == old(spaces)
    {
      if pos.Some? && covered[pos.value] {
        spaces := spaces + [pos.value];
        covered[pos.value] := false;
      }
      RemovedKeepsSync(old(State()), pos);
    }

    /** `add_marble_pos`: a space becomes covered; anything else is left alone. */
    method AddMarblePos(pos: Option<nat>)
      requires Valid()
      requires pos.Some? ==> pos.value < |positions|
      modifies this, covered
      ensures Valid()
      ensures State() == Added(old(State()), pos)
      ensures pos.Some? && !old(covered[pos.value]) ==>
        covered[..] == old(covered[..])[pos.value := true] && spaces == RemoveFirst(old(spaces), pos.value)
      ensures pos.None? || old(covered[pos.value]) ==>
        covered[..] == old(covered[..]) && spaces == old(spaces)
    {
      if pos.Some? && !covered[pos.value] {
        spaces := RemoveFirst(spaces, pos.value);
        covered[pos.value] := true;
      }
      AddedKeepsSync(old(State()), pos);
    }

    /** `remove_marble`: by coordinate; a coordinate off the board changes nothing. */
    method RemoveMarble(coord: (int, int))
      requires Valid()
      modifies this, covered
      ensures Valid()
      ensures State() == Removed(old(State()), Lookup(indexed, coord))
      ensures coord !in indexed ==> State() == old(State())
      ensures !HasMarble(coord)
    {
      RemoveMarblePos(Lookup(indexed, coord));
    }

    /** `add_marble`: by coordinate; a coordinate off the board changes nothing. */
    method AddMarble(coord: (int, int))
      requires Valid()
      modifies this, covered
      ensures Valid()
      ensures State() == Added(old(State()), Lookup(indexed, coord))
      ensures coord !in indexed ==> State() == old(State())
      ensures coord in indexed <==> HasMarble(coord)
    {
      AddMarblePos(Lookup(indexed, coord));
    }

    /** `has_marble`: false off the board; on the board, true exactly when the position is not a space. */
    function HasMarble(coord: (int, int)): (r: bool)
      reads this, covered
      requires Valid()
      ensures coord !in indexed ==> !r
      ensures coord in indexed ==> (r <==> indexed[coord] !in spaces)
    {
      match Lookup(indexed, coord)
      case None => false
      case Some(i) => covered[i]
    }

    /** `get_number_marbles`: the number of covered positions. */
    function NumberMarbles(): (n: int)
      reads this, covered
      requires Valid()
      ensures n == CountCovered(covered[..])
      ensures 0 <= n <= |positions|
    {
      SpacesCount(State());
      |positions| - |spaces|
    }

    /** `possible_moves`: exactly the legal jumps into the spaces, each of which `make_move` accepts. */
    function PossibleMoves(): (ms: seq<Move>)
      reads this, covered
      requires Valid()
      ensures forall m :: m in ms <==> m.landing in spaces && Jumpable(positions, covered[..], m)
      ensures forall m :: m in ms <==> Legal(positions, covered[..], m)
      ensures forall m :: m in ms ==> CanMake(covered[..], m) && m.jumper != m.jumped
    {
      var ms := Moves(positions, covered[..], spaces);
      forall m ensures m in ms <==> m.landing in spaces && Jumpable(positions, covered[..], m) {
        MovesCharacterised(positions, covered[..], spaces, m);
      }
      forall m ensures m in ms <==> Legal(positions, covered[..], m) {
        ListedIffLegal(positions, State(), m);
      }
      forall m | m in ms ensures CanMake(covered[..], m) && m.jumper != m.jumped {
        ListedMovesApply(positions, State(), m);
      }
      ms
    }

    /** `make_move`: applies the jump only when jumper and jumped are covered and landing is not. */
    method MakeMove(m: Move)
      requires Valid() && InRange(m, |positions|)
      modifies this, covered
      ensures Valid()
      ensures State() == AfterMove(old(State()), m)
      ensures covered[..] == Apply(old(covered[..]), m)
      ensures !CanMake(old(covered[..]), m) ==> spaces == old(spaces)
    {
      if covered[m.jumper] && covered[m.jumped] && !covered[m.landing] {
        RemoveMarblePos(Some(m.jumper));
        RemoveMarblePos(Some(m.jumped));
        AddMarblePos(Some(m.landing));
      }
      AfterMoveCovered(old(State()), m);
    }

    /** `undo_move`: reverses a jump only when jumper and jumped are spaces and landing is covered. */
    method UndoMove(m: Move)
      requires Valid() && InRange(m, |positions|)
      modifies this, covered
      ensures Valid()
      ensures State() == AfterUndo(old(State()), m)
      ensures covered[..] == Unapply(old(covered[..]), m)
      ensures !CanUndo(old(covered[..]), m) ==> spaces == old(spaces)
    {
      if !covered[m.jumper] && !covered[m.jumped] && covered[m.landing] {
        RemoveMarblePos(Some(m.landing));
        AddMarblePos(Some(m.jumper));
        AddMarblePos(Some(m.jumped));
      }
      AfterUndoCovered(old(State()), m);
    }
  }
}
