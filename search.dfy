/**
 The depth-first solver (`solve`): plays the last untried legal jump at the
 current depth, and when none is left, records the marble count, stops if it
 is one, and otherwise takes the last jump back.
 */
module Search {
  import opened BoardSpec
  import opened BoardLaws
  import opened Boards
  import opened Play

  /**
   What the solver reports: a winning game, or the lowest marble count seen
   when every game has been tried, or that the step budget ran out first.
   */
  datatype SolveResult = Solved(moves: seq<Move>) | Unsolved(lowest: int) | OutOfFuel

  /** The linear scan of the moves already tried at one depth. */
  method Contains(tried: seq<Move>, m: Move) returns (there: bool)
    ensures there <==> m in tried
  {
    there := false;
    var i := 0;
    while i < |tried|
      invariant 0 <= i <= |tried|
      invariant m !in tried[..i]
    {
      if tried[i] == m {
        there := true;
        break;
      }
      i := i + 1;
    }
    if !there {
      assert tried[..i] == tried;
    }
  }

  /** `m` has already been played at depth `level` since the solver last came down to it. */
  predicate Tried(completed: map<int, seq<Move>>, level: int, m: Move)
  {
    level in completed && m in completed[level]
  }

  /**
   The move-selection loop of `solve`: pops moves off the end of the list
   until one has not been tried at this depth.
   */
  method PickMove(moves: seq<Move>, completed: map<int, seq<Move>>, level: int) returns (m: Option<Move>)
    ensures m.None? ==> forall mv :: mv in moves ==> Tried(completed, level, mv)
    ensures m.Some? ==>
      exists k :: 0 <= k < |moves| && moves[k] == m.value && !Tried(completed, level, m.value) &&
        (forall j :: k < j < |moves| ==> Tried(completed, level, moves[j]))
  {
    var rest := moves;
    m := None;
    while rest != []
      invariant |rest| <= |moves| && rest == moves[..|rest|]
      invariant forall j :: |rest| <= j < |moves| ==> Tried(completed, level, moves[j])
      invariant m.None?
    {
      var c := rest[|rest| - 1];
      rest := rest[..|rest| - 1];
      m := Some(c);
      if level in completed {
        var there := Contains(completed[level], c);
        if there {
          m := None;
          continue;
        }
      }
      assert moves[|rest|] == c;
      break;
    }
  }

  /** What the solver does at a dead end that is not a solution. */
  datatype DeadEndAction = UndoLast(m: Move) | RootExhausted | UnpackError

  /** The solver's `last_move`: the last jump of the current game, or None. */
  function LastMove(allmoves: seq<Move>): (r: Option<Move>)
    ensures r.None? <==> allmoves == []
    ensures r.Some? ==> r.value in allmoves
  {
    if allmoves == [] then None else Some(allmoves[|allmoves| - 1])
  }

  /**
   The dead-end step as written: `undo_move(last_move)` comes before the test
   for an empty game, and unpacking None fails.
   */
  function DeadEndAsWritten(allmoves: seq<Move>, lastMove: Option<Move>): DeadEndAction
  {
    if lastMove.None? then UnpackError
    else if allmoves == [] then RootExhausted
    else UndoLast(lastMove.value)
  }

  /**
   With `last_move` kept as the last jump of the game, the as-written step
   never stops the search: at the root it fails instead.
   */
  lemma AsWrittenRootFails(allmoves: seq<Move>)
    ensures DeadEndAsWritten(allmoves, LastMove(allmoves)) != RootExhausted
    ensures DeadEndAsWritten(allmoves, LastMove(allmoves)) == UnpackError <==> allmoves == []
  {
  }

  /** The dead-end step as intended: stop at the root, otherwise take back the last jump. */
  function DeadEnd(allmoves: seq<Move>): (b: DeadEndAction)
    ensures b.RootExhausted? <==> allmoves == []
    ensures !b.UnpackError?
    ensures b.UndoLast? ==> LastMove(allmoves) == Some(b.m)
  {
    if allmoves == [] then RootExhausted else UndoLast(allmoves[|allmoves| - 1])
  }

  /** Away from the root, the intended step is the as-written one. */
  lemma DeadEndAgrees(allmoves: seq<Move>)
    requires allmoves != []
    ensures DeadEnd(allmoves) == DeadEndAsWritten(allmoves, LastMove(allmoves))
  {
  }

  /**
   The solver's bookkeeping, with `dead` a set of boards known to be
   unsolvable: `allmoves` is a legal game from `init` of length `level`; only
   depths up to `level` have tried moves; for each depth below `level`, the
   moves tried there end with the game's jump at that depth, and the ones
   before it lead to boards in `dead`; every move tried at depth `level` leads
   to a board in `dead`.
   */
  ghost predicate SearchState(ps: seq<Position>, init: seq<bool>, allmoves: seq<Move>,
                              completed: map<int, seq<Move>>, level: int, dead: set<seq<bool>>)
  {
    level == |allmoves| && LegalPlay(ps, init, allmoves)
    && KeysUpTo(completed, level)
    && EndsWithGame(completed, allmoves)
    && DeadBefore(init, allmoves, completed, dead)
    && DeadAt(init, allmoves, completed, dead)
  }

  predicate KeysUpTo(completed: map<int, seq<Move>>, level: int)
  {
    forall k :: k in completed ==> 0 <= k <= level
  }

  predicate EndsWithGame(completed: map<int, seq<Move>>, allmoves: seq<Move>)
  {
    forall k :: 0 <= k < |allmoves| ==>
      k in completed && |completed[k]| > 0 && completed[k][|completed[k]| - 1] == allmoves[k]
  }

  predicate DeadBefore(init: seq<bool>, allmoves: seq<Move>, completed: map<int, seq<Move>>, dead: set<seq<bool>>)
  {
    forall k, j :: 0 <= k < |allmoves| && k in completed && 0 <= j < |completed[k]| - 1 ==>
      Apply(Replay(init, allmoves[..k]), completed[k][j]) in dead
  }

  predicate DeadAt(init: seq<bool>, allmoves: seq<Move>, completed: map<int, seq<Move>>, dead: set<seq<bool>>)
  {
    |allmoves| in completed ==> forall j :: 0 <= j < |completed[|allmoves|]| ==>
      Apply(Replay(init, allmoves), completed[|allmoves|][j]) in dead
  }

  /** Every board in `dead` is unsolvable. */
  ghost predicate AllUnsolvable(ps: seq<Position>, dead: set<seq<bool>>)
  {
    forall b :: b in dead ==> Unsolvable(ps, b)
  }

  lemma SearchStart(ps: seq<Position>, init: seq<bool>)
    ensures SearchState(ps, init, [], map[], 0, {})
  {
  }

  /** The tried moves after playing `m` at depth `level`. */
  function Record(completed: map<int, seq<Move>>, level: int, m: Move): (r: map<int, seq<Move>>)
    ensures level in r && |r[level]| > 0 && r[level][|r[level]| - 1] == m
    ensures forall k :: k in r <==> k in completed || k == level
    ensures forall k :: k in completed && k != level ==> r[k] == completed[k]
    ensures level in completed ==> r[level][..|r[level]| - 1] == completed[level]
    ensures level !in completed ==> |r[level]| == 1
  {
    if level in completed then completed[level := completed[level] + [m]] else completed[level := [m]]
  }

  /** Playing a legal jump and recording it at the current depth keeps the bookkeeping. */
  lemma Advance(ps: seq<Position>, init: seq<bool>, allmoves: seq<Move>,
                completed: map<int, seq<Move>>, level: int, dead: set<seq<bool>>, m: Move)
    requires SearchState(ps, init, allmoves, completed, level, dead)
    requires Legal(ps, Replay(init, allmoves), m)
    ensures SearchState(ps, init, allmoves + [m], Record(completed, level, m), level + 1, dead)
  {
    PlayExtend(ps, init, allmoves, m);
    AdvanceKeys(completed, level, m);
    AdvanceEnds(completed, allmoves, m);
    AdvanceDeadBefore(init, allmoves, completed, dead, m);
    AdvanceDeadAt(init, allmoves, completed, dead, m);
  }

  lemma AdvanceKeys(completed: map<int, seq<Move>>, level: int, m: Move)
    requires KeysUpTo(completed, level) && 0 <= level
    ensures KeysUpTo(Record(completed, level, m), level + 1)
  {
  }

  lemma AdvanceEnds(completed: map<int, seq<Move>>, allmoves: seq<Move>, m: Move)
    requires EndsWithGame(completed, allmoves)
    ensures EndsWithGame(Record(completed, |allmoves|, m), allmoves + [m])
  {
    var all', done' := allmoves + [m], Record(completed, |allmoves|, m);
    forall k | 0 <= k < |all'|
      ensures k in done' && |done'[k]| > 0 && done'[k][|done'[k]| - 1] == all'[k]
    {
      if k < |allmoves| {
        assert done'[k] == completed[k];
      }
    }
  }

  /** Nothing has been tried yet one level further down. */
  lemma AdvanceDeadAt(init: seq<bool>, allmoves: seq<Move>, completed: map<int, seq<Move>>,
                      dead: set<seq<bool>>, m: Move)
    requires KeysUpTo(completed, |allmoves|)
    ensures DeadAt(init, allmoves + [m], Record(completed, |allmoves|, m), dead)
  {
    assert |allmoves + [m]| !in Record(completed, |allmoves|, m);
  }

  lemma AdvanceDeadBefore(init: seq<bool>, allmoves: seq<Move>, completed: map<int, seq<Move>>,
                          dead: set<seq<bool>>, m: Move)
    requires KeysUpTo(completed, |allmoves|)
    requires DeadBefore(init, allmoves, completed, dead) && DeadAt(init, allmoves, completed, dead)
    ensures DeadBefore(init, allmoves + [m], Record(completed, |allmoves|, m), dead)
  {
    var all', done' := allmoves + [m], Record(completed, |allmoves|, m);
    forall k, j | 0 <= k < |all'| && k in done' && 0 <= j < |done'[k]| - 1
      ensures Apply(Replay(init, all'[..k]), done'[k][j]) in dead
    {
      assert all'[..k] == allmoves[..k];
      if k == |allmoves| {
        assert done'[k][j] == completed[k][j];
        assert allmoves[..k] == allmoves;
      }
    }
  }

  /**
   Taking the last jump back, forgetting the moves tried at this depth and
   counting the board just left as dead keeps the bookkeeping.
   */
  lemma Retreat(ps: seq<Position>, init: seq<bool>, allmoves: seq<Move>,
                completed: map<int, seq<Move>>, level: int, dead: set<seq<bool>>, completed': map<int, seq<Move>>)
    requires SearchState(ps, init, allmoves, completed, level, dead) && allmoves != []
    requires completed' == if level in completed then completed - {level} else completed
    ensures SearchState(ps, init, allmoves[..|allmoves| - 1], completed', level - 1, dead + {Replay(init, allmoves)})
  {
    RetreatKeys(completed, level, completed');
    RetreatEnds(completed, allmoves, completed');
    RetreatDeadBefore(init, allmoves, completed, dead, completed');
    var l' := |allmoves| - 1;
    assert l' in completed' && completed'[l'] == completed[l'];
    assert allmoves[..l'][..l'] == allmoves[..l'];
    DeadBeforeAt(init, allmoves, completed, dead, l');
    RetreatDeadAt(init, allmoves, completed[l'], dead, completed');
  }

  lemma RetreatKeys(completed: map<int, seq<Move>>, level: int, completed': map<int, seq<Move>>)
    requires KeysUpTo(completed, level)
    requires completed' == if level in completed then completed - {level} else completed
    ensures KeysUpTo(completed', level - 1)
  {
  }

  lemma RetreatEnds(completed: map<int, seq<Move>>, allmoves: seq<Move>, completed': map<int, seq<Move>>)
    requires allmoves != [] && EndsWithGame(completed, allmoves)
    requires completed' == if |allmoves| in completed then completed - {|allmoves|} else completed
    ensures EndsWithGame(completed', allmoves[..|allmoves| - 1])
  {
    var all' := allmoves[..|allmoves| - 1];
    forall k | 0 <= k < |all'|
      ensures k in completed' && |completed'[k]| > 0 && completed'[k][|completed'[k]| - 1] == all'[k]
    {
      assert completed'[k] == completed[k];
    }
  }

  lemma RetreatDeadBefore(init: seq<bool>, allmoves: seq<Move>, completed: map<int, seq<Move>>,
                          dead: set<seq<bool>>, completed': map<int, seq<Move>>)
    requires allmoves != [] && DeadBefore(init, allmoves, completed, dead)
    requires completed' == if |allmoves| in completed then completed - {|allmoves|} else completed
    ensures DeadBefore(init, allmoves[..|allmoves| - 1], completed', dead + {Replay(init, allmoves)})
  {
    var all' := allmoves[..|allmoves| - 1];
    forall k, j | 0 <= k < |all'| && k in completed' && 0 <= j < |completed'[k]| - 1
      ensures Apply(Replay(init, all'[..k]), completed'[k][j]) in dead
    {
      assert all'[..k] == allmoves[..k];
      assert completed'[k] == completed[k];
    }
  }

  /** The moves tried one level up: the earlier ones by the bookkeeping, the last one is the board just left. */
  lemma RetreatDeadAt(init: seq<bool>, allmoves: seq<Move>, tried: seq<Move>,
                      dead: set<seq<bool>>, completed': map<int, seq<Move>>)
    requires allmoves != [] && |tried| > 0 && tried[|tried| - 1] == allmoves[|allmoves| - 1]
    requires |allmoves| - 1 in completed' && completed'[|allmoves| - 1] == tried
    requires forall j :: 0 <= j < |tried| - 1 ==> Apply(Replay(init, allmoves[..|allmoves| - 1]), tried[j]) in dead
    ensures DeadAt(init, allmoves[..|allmoves| - 1], completed', dead + {Replay(init, allmoves)})
  {
    LastTriedLeft(Replay(init, allmoves[..|allmoves| - 1]), tried, dead, Replay(init, allmoves));
  }

  /** The moves tried at depth `k` below the current one, all but the last, lead to dead boards. */
  lemma DeadBeforeAt(init: seq<bool>, allmoves: seq<Move>, completed: map<int, seq<Move>>, dead: set<seq<bool>>, k: int)
    requires DeadBefore(init, allmoves, completed, dead) && 0 <= k < |allmoves| && k in completed
    ensures forall j :: 0 <= j < |completed[k]| - 1 ==> Apply(Replay(init, allmoves[..k]), completed[k][j]) in dead
  {
  }

  /** When the last of the tried moves led to `left`, all of them lead to `dead` once `left` is added. */
  lemma LastTriedLeft(base: seq<bool>, tried: seq<Move>, dead: set<seq<bool>>, left: seq<bool>)
    requires |tried| > 0 && left == Apply(base, tried[|tried| - 1])
    requires forall j :: 0 <= j < |tried| - 1 ==> Apply(base, tried[j]) in dead
    ensures forall j :: 0 <= j < |tried| ==> Apply(base, tried[j]) in dead + {left}
  {
  }

  /** The board the game has reached has other than one marble, and every legal jump on it was tried. */
  ghost predicate Exhausted(ps: seq<Position>, init: seq<bool>, allmoves: seq<Move>,
                            completed: map<int, seq<Move>>, level: int)
  {
    CountCovered(Replay(init, allmoves)) != 1
    && forall mv :: Legal(ps, Replay(init, allmoves), mv) ==> Tried(completed, level, mv)
  }

  /** An exhausted board whose tried jumps all lead to unsolvable boards is unsolvable. */
  lemma StateDead(ps: seq<Position>, init: seq<bool>, allmoves: seq<Move>,
                  completed: map<int, seq<Move>>, level: int, dead: set<seq<bool>>)
    requires level == |allmoves| && DeadAt(init, allmoves, completed, dead) && AllUnsolvable(ps, dead)
    requires Exhausted(ps, init, allmoves, completed, level)
    ensures Unsolvable(ps, Replay(init, allmoves))
  {
    var c := Replay(init, allmoves);
    forall m | Legal(ps, c, m) ensures Unsolvable(ps, Apply(c, m)) {
      assert Tried(completed, level, m);
      var j :| 0 <= j < |completed[level]| && completed[level][j] == m;
      assert Apply(c, m) in dead;
    }
    DeadFromChildren(ps, c);
  }

  /**
   `solve`: depth-first search over the legal jumps, at most `fuel` steps.
   A solution is a legal game that leaves one marble; an answer of Unsolved
   means no legal game from the starting board leaves one marble, the board
   is back where it started, and `lowest` is the marble count of a board that
   some legal game reaches.
   */
  method Solve(board: Board, fuel: nat) returns (r: SolveResult, ghost best: seq<Move>)
    requires board.Valid()
    modifies board, board.covered
    ensures board.Valid()
    ensures r.Solved? ==> LegalPlay(board.positions, old(board.covered[..]), r.moves)
    ensures r.Solved? ==> board.covered[..] == Replay(old(board.covered[..]), r.moves)
    ensures r.Solved? ==> board.NumberMarbles() == 1 && |r.moves| == old(board.NumberMarbles()) - 1
    ensures r.Unsolved? ==> Unsolvable(board.positions, old(board.covered[..]))
    ensures r.Unsolved? ==> board.covered[..] == old(board.covered[..])
    ensures r.Unsolved? ==> LegalPlay(board.positions, old(board.covered[..]), best)
    ensures r.Unsolved? ==> CountCovered(Replay(old(board.covered[..]), best)) == r.lowest <= old(board.NumberMarbles())
  {
    ghost var ps := board.positions;
    ghost var init := board.covered[..];
    var allmoves: seq<Move> := [];
    var completed: map<int, seq<Move>> := map[];
    var lowest := |board.positions|;
    var lastMove: Option<Move> := None;
    var level := 0;
    ghost var found := false;
    ghost var dead: set<seq<bool>> := {};
    best := [];
    SearchStart(ps, init);
    var steps := fuel;
    while steps > 0
      invariant board.Valid()
      invariant SearchState(ps, init, allmoves, completed, level, dead) && AllUnsolvable(ps, dead)
      invariant board.covered[..] == Replay(init, allmoves)
      invariant lastMove == LastMove(allmoves)
      invariant found ==> LegalPlay(ps, init, best) && CountCovered(Replay(init, best)) == lowest
      invariant !found ==> lowest == |ps|
      decreases steps
    {
      steps := steps - 1;
      var moves := board.PossibleMoves();
      var m := PickMove(moves, completed, level);
      if m.None? {
        var marbles := board.NumberMarbles();
        if lowest > marbles {
          lowest := marbles;
          best, found := allmoves, true;
        } else if !found {
          best, found := allmoves, true;
        }
        if marbles == 1 {
          PlayCount(ps, init, allmoves);
          return Solved(allmoves), best;
        }
        assert Exhausted(ps, init, allmoves, completed, level);
        StateDead(ps, init, allmoves, completed, level, dead);
        var step := DeadEnd(allmoves);
        if step.RootExhausted? {
          return Unsolved(lowest), best;
        }
        ghost var left := Replay(init, allmoves);
        allmoves, completed, level := Backtrack(board, ps, init, allmoves, completed, level, dead, lastMove.value);
        dead := dead + {left};
        lastMove := LastMove(allmoves);
      } else {
        allmoves, completed, level := Descend(board, ps, init, allmoves, completed, level, dead, m.value);
        lastMove := m;
      }
    }
    r := OutOfFuel;
  }

  /**
   The backtracking branch of `solve` away from the root: takes `last_move`,
   the last jump of the game, back, forgets the moves tried at this depth and
   goes up one level.
   */
  method Backtrack(board: Board, ghost ps: seq<Position>, ghost init: seq<bool>, allmoves: seq<Move>,
                   completed: map<int, seq<Move>>, level: int, ghost dead: set<seq<bool>>, lastMove: Move)
    returns (allmoves': seq<Move>, completed': map<int, seq<Move>>, level': int)
    requires board.Valid() && ps == board.positions
    requires SearchState(ps, init, allmoves, completed, level, dead) && allmoves != []
    requires LastMove(allmoves) == Some(lastMove)
    requires board.covered[..] == Replay(init, allmoves)
    modifies board, board.covered
    ensures board.Valid()
    ensures allmoves' == allmoves[..|allmoves| - 1] && level' == level - 1
    ensures completed' == if level in completed then completed - {level} else completed
    ensures level' in completed' && allmoves[|allmoves| - 1] in completed'[level']
    ensures SearchState(ps, init, allmoves', completed', level', dead + {Replay(init, allmoves)})
    ensures board.covered[..] == Replay(init, allmoves')
  {
    PlayRetract(ps, init, allmoves);
    board.UndoMove(lastMove);
    completed' := completed;
    if level in completed {
      completed' := completed - {level};
    }
    Retreat(ps, init, allmoves, completed, level, dead, completed');
    level' := level - 1;
    allmoves' := allmoves[..|allmoves| - 1];
  }

  /**
   The advancing branch of `solve`: plays `m`, appends it to the game and to
   the moves tried at this depth, and goes down one level.
   */
  method Descend(board: Board, ghost ps: seq<Position>, ghost init: seq<bool>, allmoves: seq<Move>,
                 completed: map<int, seq<Move>>, level: int, ghost dead: set<seq<bool>>, m: Move)
    returns (allmoves': seq<Move>, completed': map<int, seq<Move>>, level': int)
    requires board.Valid() && ps == board.positions
    requires SearchState(ps, init, allmoves, completed, level, dead)
    requires board.covered[..] == Replay(init, allmoves)
    requires Legal(ps, board.covered[..], m)
    modifies board, board.covered
    ensures board.Valid()
    ensures allmoves' == allmoves + [m] && level' == level + 1 && completed' == Record(completed, level, m)
    ensures SearchState(ps, init, allmoves', completed', level', dead)
    ensures board.covered[..] == Replay(init, allmoves')
  {
    Advance(ps, init, allmoves, completed, level, dead, m);
    PlayExtend(ps, init, allmoves, m);
    board.MakeMove(m);
    allmoves' := allmoves + [m];
    if level in completed {
      completed' := completed[level := completed[level] + [m]];
    } else {
      completed' := completed[level := [m]];
    }
    level' := level + 1;
  }
}
