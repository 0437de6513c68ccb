/**
 Games: sequences of legal jumps played from a board, and the boards from
 which no game ends with a single marble. These are the notions the solver's
 answers are stated in.
 */
module Play {
  import opened BoardSpec
  import opened BoardLaws

  /** Every jump of `ms` is legal on the board it is played on. */
  predicate LegalPlay(ps: seq<Position>, c: seq<bool>, ms: seq<Move>)
    decreases |ms|
  {
    ms == [] || (LegalPlay(ps, c, ms[..|ms| - 1]) && Legal(ps, Replay(c, ms[..|ms| - 1]), ms[|ms| - 1]))
  }

  /** No game of legal jumps from `c` leaves exactly one marble. */
  ghost predicate Unsolvable(ps: seq<Position>, c: seq<bool>)
  {
    forall ms :: LegalPlay(ps, c, ms) ==> CountCovered(Replay(c, ms)) != 1
  }

  /** A board with a single marble is solved by the empty game. */
  lemma OneMarbleSolved(ps: seq<Position>, c: seq<bool>)
    requires CountCovered(c) == 1
    ensures !Unsolvable(ps, c)
  {
    assert LegalPlay(ps, c, []);
  }

  /** Playing a legal jump at the end of a legal game gives a legal game. */
  lemma PlayExtend(ps: seq<Position>, c: seq<bool>, ms: seq<Move>, m: Move)
    requires LegalPlay(ps, c, ms) && Legal(ps, Replay(c, ms), m)
    ensures LegalPlay(ps, c, ms + [m])
    ensures Replay(c, ms + [m]) == Apply(Replay(c, ms), m)
  {
    assert (ms + [m])[..|ms|] == ms;
  }

  /** Taking the last jump back out of a legal game gives the board before it. */
  lemma PlayRetract(ps: seq<Position>, c: seq<bool>, ms: seq<Move>)
    requires LegalPlay(ps, c, ms) && ms != [] && NoSelfLinks(ps)
    ensures LegalPlay(ps, c, ms[..|ms| - 1])
    ensures InRange(ms[|ms| - 1], |c|)
    ensures Unapply(Replay(c, ms), ms[|ms| - 1]) == Replay(c, ms[..|ms| - 1])
  {
    var m := ms[|ms| - 1];
    LegalApplies(ps, Replay(c, ms[..|ms| - 1]), m);
    UnapplyApply(Replay(c, ms[..|ms| - 1]), m);
  }

  /** Every jump of a legal game removes exactly one marble. */
  lemma {:induction false} PlayCount(ps: seq<Position>, c: seq<bool>, ms: seq<Move>)
    requires LegalPlay(ps, c, ms) && NoSelfLinks(ps)
    ensures CountCovered(Replay(c, ms)) == CountCovered(c) - |ms|
    decreases |ms|
  {
    if ms != [] {
      var m := ms[|ms| - 1];
      PlayCount(ps, c, ms[..|ms| - 1]);
      LegalApplies(ps, Replay(c, ms[..|ms| - 1]), m);
      ApplyCount(Replay(c, ms[..|ms| - 1]), m);
    }
  }

  /** A game that starts with `m` is `m` followed by a game from the board after `m`. */
  lemma {:induction false} ReplayCons(c: seq<bool>, m: Move, rest: seq<Move>)
    ensures Replay(c, [m] + rest) == Replay(Apply(c, m), rest)
    decreases |rest|
  {
    if rest == [] {
      assert [m] + rest == [m];
      assert ([m] + rest)[..0] == [];
    } else {
      var front := rest[..|rest| - 1];
      assert ([m] + rest)[..|rest|] == [m] + front;
      ReplayCons(c, m, front);
    }
  }

  lemma {:induction false} LegalPlayCons(ps: seq<Position>, c: seq<bool>, m: Move, rest: seq<Move>)
    ensures LegalPlay(ps, c, [m] + rest) <==> Legal(ps, c, m) && LegalPlay(ps, Apply(c, m), rest)
    decreases |rest|
  {
    if rest == [] {
      assert [m] + rest == [m];
      assert ([m] + rest)[..0] == [];
    } else {
      var front := rest[..|rest| - 1];
      assert ([m] + rest)[..|rest|] == [m] + front;
      LegalPlayCons(ps, c, m, front);
      ReplayCons(c, m, front);
    }
  }

  /**
   A board with other than one marble, all of whose legal jumps lead to
   unsolvable boards, is unsolvable: the backtracking step of the solver.
   */
  lemma DeadFromChildren(ps: seq<Position>, c: seq<bool>)
    requires CountCovered(c) != 1
    requires forall m :: Legal(ps, c, m) ==> Unsolvable(ps, Apply(c, m))
    ensures Unsolvable(ps, c)
  {
    forall ms | LegalPlay(ps, c, ms) ensures CountCovered(Replay(c, ms)) != 1 {
      if ms != [] {
        var m, rest := ms[0], ms[1..];
        assert ms == [m] + rest;
        LegalPlayCons(ps, c, m, rest);
        ReplayCons(c, m, rest);
      }
    }
  }
}
