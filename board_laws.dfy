/**
 Laws of the board state: the spaces list stays in step with the covered flags,
 the marble count moves by exactly one per jump, an undo right after a move
 restores the flags, and the move generator lists exactly the legal jumps in
 the order of the spaces list.
 */
module BoardLaws {
  import opened BoardSpec

  // ---------------------------------------------------------------------------
  // Counting

  lemma {:induction false} DistinctCard(s: seq<nat>)
    requires Distinct(s)
    ensures |Elems(s)| == |s|
  {
    if s == [] {
      assert Elems(s) == {};
    } else {
      var t := s[1..];
      assert Distinct(t) by {
        forall j, k | 0 <= j < k < |t| ensures t[j] != t[k] {
          assert t[j] == s[j + 1] && t[k] == s[k + 1];
        }
      }
      DistinctCard(t);
      assert s[0] !in t by {
        forall k | 0 <= k < |t| ensures t[k] != s[0] {
          assert t[k] == s[k + 1];
        }
      }
      assert Elems(s) == {s[0]} + Elems(t);
    }
  }

  lemma {:induction false} UncoveredCard(c: seq<bool>)
    ensures |Uncovered(c)| == |c| - CountCovered(c)
  {
    if c != [] {
      var n := |c| - 1;
      UncoveredCard(c[..n]);
      assert Uncovered(c) == Uncovered(c[..n]) + (if c[n] then {} else {n});
    }
  }

  /** `get_number_marbles` is right: the positions not listed as spaces are exactly the covered ones. */
  lemma SpacesCount(o: Occupancy)
    requires Synced(o)
    ensures |o.spaces| == |o.covered| - CountCovered(o.covered)
  {
    DistinctCard(o.spaces);
    UncoveredCard(o.covered);
    assert Elems(o.spaces) == Uncovered(o.covered);
  }

  /** Setting one flag changes the marble count by the difference of the old and new flag. */
  lemma {:induction false} CountUpdate(c: seq<bool>, i: nat, b: bool)
    requires i < |c|
    ensures CountCovered(c[i := b]) == CountCovered(c) - (if c[i] then 1 else 0) + (if b then 1 else 0)
  {
    var n := |c| - 1;
    if i == n {
      assert c[i := b][..n] == c[..n];
    } else {
      CountUpdate(c[..n], i, b);
      assert c[i := b][..n] == c[..n][i := b];
    }
  }

  /** A successful `make_move` removes one marble (none when jumper and jumped coincide). */
  lemma ApplyCount(c: seq<bool>, m: Move)
    requires CanMake(c, m)
    ensures CountCovered(Apply(c, m)) == CountCovered(c) - (if m.jumper == m.jumped then 0 else 1)
  {
    var c1 := c[m.jumper := false];
    var c2 := c1[m.jumped := false];
    CountUpdate(c, m.jumper, false);
    CountUpdate(c1, m.jumped, false);
    CountUpdate(c2, m.landing, true);
  }

  /** A successful `undo_move` puts one marble back (none when jumper and jumped coincide). */
  lemma UnapplyCount(c: seq<bool>, m: Move)
    requires CanUndo(c, m)
    ensures CountCovered(Unapply(c, m)) == CountCovered(c) + (if m.jumper == m.jumped then 0 else 1)
  {
    var c1 := c[m.landing := false];
    var c2 := c1[m.jumper := true];
    CountUpdate(c, m.landing, false);
    CountUpdate(c1, m.jumper, true);
    CountUpdate(c2, m.jumped, true);
  }

  // ---------------------------------------------------------------------------
  // list.remove

  lemma {:induction false} RemoveFirstDistinct(s: seq<nat>, v: nat)
    requires Distinct(s)
    ensures Distinct(RemoveFirst(s, v))
    ensures forall x :: x in RemoveFirst(s, v) <==> x in s && x != v
    ensures v in s ==> |RemoveFirst(s, v)| == |s| - 1
  {
    if s != [] && s[0] != v {
      assert Distinct(s[1..]) by {
        forall j, k | 0 <= j < k < |s[1..]| ensures s[1..][j] != s[1..][k] {
          assert s[1..][j] == s[j + 1] && s[1..][k] == s[k + 1];
        }
      }
      RemoveFirstDistinct(s[1..], v);
      assert s[0] !in s[1..];
    } else if s != [] {
      assert forall j :: 0 < j < |s| ==> s[j] != s[0];
    }
  }

  lemma {:induction false} RemoveFirstAppend(s: seq<nat>, t: seq<nat>, v: nat)
    ensures v in s ==> RemoveFirst(s + t, v) == RemoveFirst(s, v) + t
    ensures v !in s ==> RemoveFirst(s + t, v) == s + RemoveFirst(t, v)
  {
    if s != [] {
      assert (s + t)[1..] == s[1..] + t;
      RemoveFirstAppend(s[1..], t, v);
    } else {
      assert s + t == t;
    }
  }

  // ---------------------------------------------------------------------------
  // The spaces list stays in step with the covered flags

  lemma RemovedKeepsSync(o: Occupancy, pos: Option<nat>)
    requires Synced(o)
    ensures Synced(Removed(o, pos))
  {
    if pos.Some? && pos.value < |o.covered| && o.covered[pos.value] {
      var r := Removed(o, pos);
      assert forall j :: 0 <= j < |o.spaces| ==> o.spaces[j] != pos.value;
      assert forall i :: 0 <= i < |r.covered| && !r.covered[i] ==> i in r.spaces by {
        forall i | 0 <= i < |r.covered| && !r.covered[i] ensures i in r.spaces {
          if i != pos.value {
            assert i in o.spaces;
          } else {
            assert r.spaces[|r.spaces| - 1] == i;
          }
        }
      }
    }
  }

  lemma AddedKeepsSync(o: Occupancy, pos: Option<nat>)
    requires Synced(o)
    ensures Synced(Added(o, pos))
  {
    if pos.Some? && pos.value < |o.covered| && !o.covered[pos.value] {
      RemoveFirstDistinct(o.spaces, pos.value);
      var r := Added(o, pos);
      forall j | 0 <= j < |r.spaces| ensures r.spaces[j] < |r.covered| && !r.covered[r.spaces[j]] {
        assert r.spaces[j] in o.spaces;
      }
    }
  }

  lemma MoveKeepsSync(o: Occupancy, m: Move)
    requires Synced(o)
    ensures Synced(AfterMove(o, m))
  {
    if CanMake(o.covered, m) {
      var o1 := Removed(o, Some(m.jumper));
      RemovedKeepsSync(o, Some(m.jumper));
      RemovedKeepsSync(o1, Some(m.jumped));
      AddedKeepsSync(Removed(o1, Some(m.jumped)), Some(m.landing));
    }
  }

  lemma UndoKeepsSync(o: Occupancy, m: Move)
    requires Synced(o)
    ensures Synced(AfterUndo(o, m))
  {
    if CanUndo(o.covered, m) {
      var o1 := Removed(o, Some(m.landing));
      RemovedKeepsSync(o, Some(m.landing));
      AddedKeepsSync(o1, Some(m.jumper));
      AddedKeepsSync(Added(o1, Some(m.jumper)), Some(m.jumped));
    }
  }

  /** `make_move` changes the covered flags exactly as `Apply` says. */
  lemma AfterMoveCovered(o: Occupancy, m: Move)
    ensures AfterMove(o, m).covered == Apply(o.covered, m)
  {
  }

  /** `undo_move` changes the covered flags exactly as `Unapply` says. */
  lemma AfterUndoCovered(o: Occupancy, m: Move)
    ensures AfterUndo(o, m).covered == Unapply(o.covered, m)
  {
  }

  // ---------------------------------------------------------------------------
  // Undo after move

  /** Undoing a move that was just made restores every covered flag. */
  lemma UnapplyApply(c: seq<bool>, m: Move)
    requires CanMake(c, m)
    ensures CanUndo(Apply(c, m), m)
    ensures Unapply(Apply(c, m), m) == c
  {
  }

  /** The positions `make_move` appends to the spaces list: the jumper, then the jumped one. */
  function Vacated(m: Move): seq<nat>
  {
    if m.jumper == m.jumped then [m.jumper] else [m.jumper, m.jumped]
  }

  /** After a successful `make_move` the landing position has left the spaces list and the vacated ones are appended. */
  lemma MoveSpaces(o: Occupancy, m: Move)
    requires Synced(o) && CanMake(o.covered, m)
    ensures AfterMove(o, m) == Occupancy(Apply(o.covered, m), RemoveFirst(o.spaces, m.landing) + Vacated(m))
  {
    var a, b, l := m.jumper, m.jumped, m.landing;
    var c, s := o.covered, o.spaces;
    var o1 := Removed(o, Some(a));
    assert o1 == Occupancy(c[a := false], s + [a]);
    var o2 := Removed(o1, Some(b));
    assert o2 == Occupancy(c[a := false][b := false], s + Vacated(m)) by {
      if a != b {
        assert s + [a] + [b] == s + [a, b];
      }
    }
    assert l in s;
    RemoveFirstAppend(s, Vacated(m), l);
  }

  /** Undoing after the state `make_move` produced brings back the flags and re-appends the landing position. */
  lemma UndoSpaces(o: Occupancy, m: Move)
    requires Synced(o) && CanMake(o.covered, m)
    ensures AfterUndo(Occupancy(Apply(o.covered, m), RemoveFirst(o.spaces, m.landing) + Vacated(m)), m)
            == Occupancy(o.covered, RemoveFirst(o.spaces, m.landing) + [m.landing])
  {
    var a, b, l := m.jumper, m.jumped, m.landing;
    var c, rest := o.covered, RemoveFirst(o.spaces, m.landing);
    RemoveFirstDistinct(o.spaces, l);
    assert a !in o.spaces && b !in o.spaces;
    assert a !in rest && b !in rest;
    var c1 := Apply(c, m);
    UnapplyApply(c, m);
    var o1 := Removed(Occupancy(c1, rest + Vacated(m)), Some(l));
    assert o1.spaces == rest + (Vacated(m) + [l]);
    var o2 := Added(o1, Some(a));
    RemoveFirstAppend(rest, Vacated(m) + [l], a);
    if a == b {
      assert RemoveFirst([a, l], a) == [l];
      assert o2.spaces == rest + [l];
      assert Added(o2, Some(b)) == o2;
    } else {
      assert RemoveFirst([a, b, l], a) == [b, l];
      assert o2.spaces == rest + [b, l];
      RemoveFirstAppend(rest, [b, l], b);
      assert RemoveFirst([b, l], b) == [l];
    }
  }

  /**
   Undoing a move that was just made restores every covered flag and the set
   of spaces, but the landing position moves to the end of the spaces list.
   */
  lemma UndoAfterMove(o: Occupancy, m: Move)
    requires Synced(o) && CanMake(o.covered, m)
    ensures AfterUndo(AfterMove(o, m), m) == Occupancy(o.covered, RemoveFirst(o.spaces, m.landing) + [m.landing])
    ensures forall x :: x in AfterUndo(AfterMove(o, m), m).spaces <==> x in o.spaces
  {
    MoveSpaces(o, m);
    UndoSpaces(o, m);
    RemoveFirstDistinct(o.spaces, m.landing);
  }

  // ---------------------------------------------------------------------------
  // Move generation

  lemma JumpIntoCharacterised(ps: seq<Position>, c: seq<bool>, s: nat, d: Dir, m: Move)
    requires |ps| == |c| && LinksInRange(ps) && s < |ps|
    ensures m in JumpInto(ps, c, s, d) <==>
      m.landing == s && IsJump(ps, m, d) && c[m.jumped] && m.jumper < |c| && c[m.jumper]
  {
  }

  lemma MovesAtCharacterised(ps: seq<Position>, c: seq<bool>, s: nat, m: Move)
    requires |ps| == |c| && LinksInRange(ps) && s < |ps|
    ensures m in MovesAt(ps, c, s) <==> m.landing == s && Jumpable(ps, c, m)
  {
    JumpIntoCharacterised(ps, c, s, Left, m);
    JumpIntoCharacterised(ps, c, s, Right, m);
    JumpIntoCharacterised(ps, c, s, Up, m);
    JumpIntoCharacterised(ps, c, s, Down, m);
    if m.landing == s && Jumpable(ps, c, m) {
      var d :| IsJump(ps, m, d);
      assert d == Left || d == Right || d == Up || d == Down;
    }
  }

  /**
   `possible_moves` lists a triple exactly when its landing position is in the
   spaces list, its jumper and jumped positions are covered, and it is a
   straight jump along one direction.
   */
  lemma {:induction false} MovesCharacterised(ps: seq<Position>, c: seq<bool>, spaces: seq<nat>, m: Move)
    requires |ps| == |c| && LinksInRange(ps)
    requires forall j :: 0 <= j < |spaces| ==> spaces[j] < |ps|
    ensures m in Moves(ps, c, spaces) <==> m.landing in spaces && Jumpable(ps, c, m)
  {
    if spaces != [] {
      MovesAtCharacterised(ps, c, spaces[0], m);
      MovesCharacterised(ps, c, spaces[1..], m);
      assert m.landing in spaces <==> m.landing == spaces[0] || m.landing in spaces[1..];
    }
  }

  /** Every move `possible_moves` lists passes the guard of `make_move`, and its jumper and jumped differ. */
  lemma ListedMovesApply(ps: seq<Position>, o: Occupancy, m: Move)
    requires |ps| == |o.covered| && LinksInRange(ps) && NoSelfLinks(ps) && Synced(o)
    requires m in Moves(ps, o.covered, o.spaces)
    ensures CanMake(o.covered, m) && m.jumper != m.jumped
  {
    MovesCharacterised(ps, o.covered, o.spaces, m);
    var d :| IsJump(ps, m, d);
    var j :| 0 <= j < |o.spaces| && o.spaces[j] == m.landing;
  }

  /**
   On a synchronised board, `possible_moves` lists exactly the legal jumps,
   whatever the order of the spaces list.
   */
  lemma ListedIffLegal(ps: seq<Position>, o: Occupancy, m: Move)
    requires |ps| == |o.covered| && LinksInRange(ps) && Synced(o)
    ensures m in Moves(ps, o.covered, o.spaces) <==> Legal(ps, o.covered, m)
  {
    MovesCharacterised(ps, o.covered, o.spaces, m);
    if m.landing in o.spaces {
      var j :| 0 <= j < |o.spaces| && o.spaces[j] == m.landing;
    }
  }

  /** A legal jump passes the guard of `make_move`, and its jumper and jumped positions differ. */
  lemma LegalApplies(ps: seq<Position>, c: seq<bool>, m: Move)
    requires NoSelfLinks(ps) && Legal(ps, c, m)
    ensures CanMake(c, m) && m.jumper != m.jumped
  {
    var d :| IsJump(ps, m, d);
  }

  lemma {:induction false} MovesAppend(ps: seq<Position>, c: seq<bool>, s1: seq<nat>, s2: seq<nat>)
    requires |ps| == |c| && LinksInRange(ps)
    requires forall j :: 0 <= j < |s1| ==> s1[j] < |ps|
    requires forall j :: 0 <= j < |s2| ==> s2[j] < |ps|
    ensures Moves(ps, c, s1 + s2) == Moves(ps, c, s1) + Moves(ps, c, s2)
  {
    if s1 != [] {
      assert (s1 + s2)[1..] == s1[1..] + s2;
      MovesAppend(ps, c, s1[1..], s2);
    } else {
      assert s1 + s2 == s2;
    }
  }

  lemma InConcat<T>(x: seq<T>, y: seq<T>, k: nat)
    requires k < |x + y|
    ensures k < |x| ==> (x + y)[k] in x
    ensures k >= |x| ==> (x + y)[k] in y
  {
    if k >= |x| {
      assert (x + y)[k] == y[k - |x|];
    }
  }

  /** Every listed move lands on a position of the spaces list. */
  lemma MovesLandIn(ps: seq<Position>, c: seq<bool>, spaces: seq<nat>)
    requires |ps| == |c| && LinksInRange(ps)
    requires forall k :: 0 <= k < |spaces| ==> spaces[k] < |ps|
    ensures forall m :: m in Moves(ps, c, spaces) ==> m.landing in spaces
  {
    forall m | m in Moves(ps, c, spaces) ensures m.landing in spaces {
      MovesCharacterised(ps, c, spaces, m);
    }
  }

  /**
   `possible_moves` follows the spaces list: every jump into an earlier space
   comes before every jump into a later one.
   */
  lemma MovesFollowSpaces(ps: seq<Position>, c: seq<bool>, spaces: seq<nat>, i: nat, j: nat, a: nat, b: nat)
    requires |ps| == |c| && LinksInRange(ps)
    requires forall k :: 0 <= k < |spaces| ==> spaces[k] < |ps|
    requires Distinct(spaces) && i < j < |spaces|
    requires a < |Moves(ps, c, spaces)| && Moves(ps, c, spaces)[a].landing == spaces[i]
    requires b < |Moves(ps, c, spaces)| && Moves(ps, c, spaces)[b].landing == spaces[j]
    ensures a < b
  {
    var front, back := spaces[..j], spaces[j..];
    assert spaces == front + back;
    MovesAppend(ps, c, front, back);
    var ms, mf, mb := Moves(ps, c, spaces), Moves(ps, c, front), Moves(ps, c, back);
    assert spaces[i] !in back by {
      forall k | 0 <= k < |back| ensures back[k] != spaces[i] {
        assert back[k] == spaces[j + k];
      }
    }
    assert spaces[j] !in front by {
      forall k | 0 <= k < |front| ensures front[k] != spaces[j] {
        assert front[k] == spaces[k];
      }
    }
    MovesLandIn(ps, c, back);
    MovesLandIn(ps, c, front);
    InConcat(mf, mb, a);
    InConcat(mf, mb, b);
  }
}
