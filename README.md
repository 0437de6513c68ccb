# Peg solitaire: board, builders and depth-first solver

This project models `solitaire.py`, a small peg-solitaire engine, and proves
properties of the model.

The engine has three parts:

- **The board** (`AbstractBoard`). A board is a list of positions. Each position
  knows its coordinates and its left, right, up and down neighbours, and carries
  a covered flag (a marble). The board also keeps a list of spaces, the
  uncovered positions, which every mutation keeps in step with the flags. On top
  of these sit:
  - the mutators `remove_marble(_pos)` and `add_marble(_pos)`;
  - the queries `has_marble`, `get_number_marbles` and `possible_moves`;
  - `make_move` and `undo_move`, which apply or reverse a jump
    (jumper, jumped, landing).
- **The builders.** `RectangleSolitaire(width, height)` and the 7x7
  `EuropeanSolitaire` create a covered position per cell. They then link every
  position to its neighbours by coordinate.
- **The solver** `solve`. It is an iterative depth-first search. It plays the
  last untried legal jump at the current depth. When no jump is left, it
  records the marble count, stops if the count is one, and otherwise takes the
  last jump back.

## Files

- `board_spec.dfy` (module `BoardSpec`) holds the values:
  - a position's fixed part and the jump triple;
  - the occupancy state (flags plus spaces list);
  - the effect of each mutation as a function of the state;
  - the move generator;
  - `Legal`, the rules' notion of a jump;
  - `Replay` of a sequence of jumps.
- `board_laws.dfy` (module `BoardLaws`) holds the laws of that state. The spaces
  list stays in step with the flags. Each jump changes the count by one. Undo
  after move restores the flags. The generator lists exactly the legal jumps,
  in spaces order.
- `board.dfy` (module `Boards`) holds the class `Board`. It has
  `covered: array<bool>` and `spaces: seq<nat>`, and one method per mutator and
  one function per query. Each is proved against the functions of
  `BoardSpec`.
- `builders.dfy` (module `Builders`) holds the two builders. Each is a first
  loop that creates and indexes the positions and a second loop that links
  them, with its invariants.
- `play.dfy` (module `Play`) defines legal games and unsolvable boards: no
  legal game leaves one marble.
- `search.dfy` (module `Search`) holds `solve`: the move-selection loop, the
  dead-end step, the advance and backtrack branches, and the bookkeeping
  invariant that justifies an "unsolvable" answer.

Positions are indices into the board's position list. A jump is a triple of
indices, so two jumps are equal exactly when the source's position triples are
identical objects.

The shape test at `solitaire.py:128-130` admits 37 cells: the 33-hole cross
of the English board plus the four inner corner cells (1,1), (5,1), (1,5) and
(5,5), which is the usual European (French) board. A 33-cell count would be
the English board's, not what this builder makes; the model follows the code,
and `EuropeanCount` proves the count is 37.

## Model

| member | source | states |
|---|---|---|
| BoardSpec.Lookup | solitaire.py:32 | `indexed_positions.get`: the position at a coordinate, or None when the coordinate has none (also at lines 41, 50 and 137-142) |
| BoardSpec.RemoveFirst | solitaire.py:46 | `spaces.remove(pos)`: the list without the first occurrence of the position |
| BoardSpec.Removed | solitaire.py:35-38 | `remove_marble_pos` on the state: a covered position is uncovered and appended to spaces; None, an out-of-range index or an uncovered position leaves the state as it is |
| BoardSpec.Added | solitaire.py:44-47 | `add_marble_pos` on the state: an uncovered position is covered and its first occurrence leaves spaces; anything else leaves the state as it is |
| BoardSpec.AfterMove | solitaire.py:74-78 | `make_move` on the state: under the guard, remove the jumper, remove the jumped, add the landing, in that order; otherwise nothing |
| BoardSpec.AfterUndo | solitaire.py:80-84 | `undo_move` on the state: under the guard, remove the landing, add the jumper, add the jumped, in that order; otherwise nothing |
| BoardSpec.Apply | solitaire.py:74-78 | the covered flags after `make_move`: jumper and jumped cleared and landing set when the guard holds, unchanged otherwise |
| BoardSpec.Unapply | solitaire.py:80-84 | the covered flags after `undo_move`: landing cleared and jumper and jumped set when the guard holds, unchanged otherwise |
| BoardSpec.JumpInto | solitaire.py:61-71 | one direction's test of `possible_moves`: the triple `(s.d.d, s.d, s)` when `s.d` and `s.d.d` exist and are covered, else nothing |
| BoardSpec.MovesAt | solitaire.py:60-71 | the jumps into one space, in the order left, right, up, down |
| BoardSpec.Moves | solitaire.py:58-72 | `possible_moves`: the jumps into every space, in the order of the spaces list |
| BoardLaws.SpacesCount | solitaire.py:55-56 | on a board whose spaces list is in step with the flags, `len(positions) - len(spaces)` is the number of covered positions |
| BoardLaws.ApplyCount | solitaire.py:74-78 | a `make_move` that passes its guard removes exactly one marble when jumper and jumped differ |
| BoardLaws.UnapplyCount | solitaire.py:80-84 | an `undo_move` that passes its guard puts back exactly one marble when jumper and jumped differ |
| BoardLaws.RemoveFirstDistinct | solitaire.py:46 | `list.remove` on a duplicate-free list keeps it duplicate-free, drops exactly the removed value, and shortens the list by one when the value was present |
| BoardLaws.RemoveFirstAppend | solitaire.py:46 | `list.remove` on a concatenation removes from the first part that holds the value |
| BoardLaws.RemovedKeepsSync | solitaire.py:35-38 | `remove_marble_pos` keeps "a position is listed in spaces exactly once iff it is uncovered" |
| BoardLaws.AddedKeepsSync | solitaire.py:44-47 | `add_marble_pos` keeps the same invariant |
| BoardLaws.MoveKeepsSync | solitaire.py:74-78 | `make_move`, three mutations under a guard, keeps the invariant |
| BoardLaws.UndoKeepsSync | solitaire.py:80-84 | `undo_move` keeps the invariant |
| BoardLaws.AfterMoveCovered | solitaire.py:74-78 | the flags after `make_move` are those of a single jump when the guard holds, and unchanged otherwise |
| BoardLaws.AfterUndoCovered | solitaire.py:80-84 | the flags after `undo_move` are those of the reversed jump when the guard holds, and unchanged otherwise |
| BoardLaws.UnapplyApply | solitaire.py:74-84 | after a successful `make_move` the `undo_move` guard holds, and the undo restores every covered flag |
| BoardLaws.MoveSpaces | solitaire.py:74-78 | after a successful `make_move` the landing position has left the spaces list, and jumper then jumped are appended |
| BoardLaws.UndoSpaces | solitaire.py:80-84 | undoing from that state restores the flags, and the landing position is re-appended at the end of the spaces list |
| BoardLaws.UndoAfterMove | solitaire.py:74-84 | `undo_move` right after `make_move` restores every flag and the set of spaces; only the landing position's place in the list changes |
| BoardLaws.JumpIntoCharacterised | solitaire.py:61-71 | one direction's test yields the triple `(s.d.d, s.d, s)` exactly when both neighbours exist and are covered |
| BoardLaws.MovesAtCharacterised | solitaire.py:60-71 | the jumps into one space are exactly the straight jumps into it with jumper and jumped covered |
| BoardLaws.MovesCharacterised | solitaire.py:58-72 | `possible_moves` lists a triple iff its landing is in spaces, its jumper and jumped are covered, and it is a straight jump in some direction |
| BoardLaws.ListedMovesApply | solitaire.py:58-78 | every listed triple passes the guard of `make_move`, and its jumper and jumped differ |
| BoardLaws.ListedIffLegal | solitaire.py:58-72 | on a board in step, the listed triples are exactly the legal jumps |
| BoardLaws.LegalApplies | solitaire.py:74-78 | a legal jump passes the guard of `make_move` and removes a marble other than its jumper |
| BoardLaws.MovesAppend | solitaire.py:58-72 | the moves for a concatenated spaces list are the moves for each part, in order |
| BoardLaws.MovesLandIn | solitaire.py:58-72 | every listed triple lands on a listed space |
| BoardLaws.MovesFollowSpaces | solitaire.py:58-72 | triples come in spaces order: a jump into an earlier space is listed before any jump into a later one |
| Boards.Board.constructor | solitaire.py:27-29 | a new board has every position covered and no spaces, so its marble count is its number of positions |
| Boards.Board.RemoveMarblePos | solitaire.py:35-38 | a covered position is uncovered and appended to spaces; None or an uncovered position changes nothing; the invariant holds after |
| Boards.Board.AddMarblePos | solitaire.py:44-47 | an uncovered position is covered and removed from spaces; None or a covered position changes nothing; the invariant holds after |
| Boards.Board.RemoveMarble | solitaire.py:31-33 | removal by coordinate; a coordinate with no position changes nothing; afterwards there is no marble there |
| Boards.Board.AddMarble | solitaire.py:40-42 | addition by coordinate; a coordinate with no position changes nothing; afterwards there is a marble there iff the coordinate is on the board |
| Boards.Board.HasMarble | solitaire.py:49-53 | false off the board; on it, true exactly when the position is not listed as a space |
| Boards.Board.NumberMarbles | solitaire.py:55-56 | the number of covered positions, between 0 and the number of positions |
| Boards.Board.PossibleMoves | solitaire.py:58-72 | the triples listed are exactly the legal jumps, each lands in a space, and each passes the guard of `make_move` |
| Boards.Board.MakeMove | solitaire.py:74-78 | the state becomes that of the three mutations when the guard holds, and stays as it was otherwise |
| Boards.Board.UndoMove | solitaire.py:80-84 | the state becomes that of the three inverse mutations when the guard holds, and stays as it was otherwise |
| Builders.ColumnIs | solitaire.py:126-130 | the cells of the shape before row y of column x number a closed form per column |
| Builders.EuropeanCount | solitaire.py:128-130 | the shape test admits 37 cells: 3, 5, 7, 7, 7, 5 and 3 per column |
| Builders.AppendIndexed | solitaire.py:107-109 | appending a position at a fresh coordinate and indexing it keeps the list and the dictionary describing the same positions |
| Builders.AppendInOrder | solitaire.py:105-109 | creating the cells in loop order keeps the list sorted column by column, with every new position unlinked |
| Builders.RectangleColumn | solitaire.py:106-109 | one column of the rectangle's first pass adds `height` positions and indexes (x, 0) to (x, height - 1) |
| Builders.RectanglePositions | solitaire.py:105-109 | the first pass creates `width * height` unlinked positions in column order, indexed by exactly the rectangle's coordinates |
| Builders.RectangleLink | solitaire.py:113-121 | the rectangle's guarded assignments set each link to the coordinate lookup one step away |
| Builders.RectangleStep | solitaire.py:113-121 | linking cell (x, y) extends the linked prefix by that cell |
| Builders.LinkRectangleCell | solitaire.py:113-121 | the body of the second loop links cell (x, y) and leaves every later cell as the first pass made it |
| Builders.LinkRectangleColumn | solitaire.py:112-121 | one column of the second loop links every cell of that column |
| Builders.RectangleLayout | solitaire.py:102-121 | `width * height` positions in column order; every link is the coordinate lookup, and a link is None exactly on the matching edge |
| Builders.EdgeAt | solitaire.py:113-121 | for a rectangle position linked by coordinates, each link is missing exactly on its edge |
| Builders.RectangleEdges | solitaire.py:113-121 | the same for every position of the rectangle |
| Builders.LinkStep | solitaire.py:137-142 | setting the four links of cell (x, y) by lookup extends the linked prefix, and the index stays consistent |
| Builders.SkipCell | solitaire.py:137-138 | a coordinate with no position leaves the linked prefix growing |
| Builders.PlaceCell | solitaire.py:128-132 | a cell that passes the shape test is appended and indexed, and the count and key set advance by one cell |
| Builders.SkipShape | solitaire.py:128-130 | a cell that fails the shape test leaves the list and index as they are |
| Builders.EuropeanColumn | solitaire.py:126-132 | one column of the European first pass creates exactly the column's shape cells |
| Builders.EuropeanPositions | solitaire.py:125-132 | the first pass creates 37 unlinked positions in column order, indexed by exactly the shape's coordinates |
| Builders.EuropeanLayout | solitaire.py:124-142 | 37 positions; every link is the coordinate lookup one step away, so None exactly where the shape ends |
| Builders.CoordinateLinksSymmetric | solitaire.py:111-142 | links set by coordinate point into the list, never at the position itself, and are mutual: A.right is B iff B.left is A, and A.down is B iff B.up is A |
| Builders.RectangleSolitaire | solitaire.py:102-121 | a fresh valid board of `width * height` covered positions with no spaces, keyed by the rectangle's coordinates, with links by coordinate and mutual |
| Builders.EuropeanSolitaire | solitaire.py:123-142 | a fresh valid 7x7 board of 37 covered positions with no spaces, keyed by the shape, with links by coordinate and mutual |
| Play.OneMarbleSolved | solitaire.py:175-178 | a board with one marble is solved by the empty game |
| Play.PlayExtend | solitaire.py:195-197 | playing a legal jump at the end of a legal game gives a legal game whose board is one jump further on |
| Play.PlayRetract | solitaire.py:181-188 | taking the last jump back out of a legal game: the prefix is legal, and `undo_move` of the last jump gives the prefix's board |
| Play.PlayCount | solitaire.py:175-176 | a legal game removes one marble per jump |
| Play.ReplayCons | solitaire.py:194-197 | a game that starts with a jump is that jump followed by a game from the board after it |
| Play.LegalPlayCons | solitaire.py:194-197 | a game that starts with a jump is legal iff that jump is legal and the rest is legal on the board after it |
| Play.DeadFromChildren | solitaire.py:169-192 | a board with other than one marble whose legal jumps all lead to unsolvable boards is unsolvable, which justifies backtracking |
| Search.Contains | solitaire.py:157-163 | the scan of the moves tried at this depth finds the move iff it is there |
| Search.PickMove | solitaire.py:154-167 | None only when every listed move was tried at this depth; otherwise the last untried move of the list, with every later one tried |
| Search.LastMove | solitaire.py:189-192 | `last_move` is None exactly for the empty game, and otherwise a jump of the game |
| Search.DeadEndAsWritten | solitaire.py:181-187 | the dead-end step as written: `undo_move(last_move)` first, failing on None, and only then the test for an empty game |
| Search.AsWrittenRootFails | solitaire.py:181-187 | as written, the dead-end step never reaches the root exit: with an empty game it fails unpacking None |
| Search.DeadEnd | solitaire.py:179-192 | the intended dead-end step: stop exactly at the root, otherwise undo the last jump of the game |
| Search.DeadEndAgrees | solitaire.py:179-192 | away from the root the intended and as-written steps agree |
| Search.SearchStart | solitaire.py:146-150 | the initial bookkeeping (no moves, nothing tried, level 0) satisfies the search invariant |
| Search.Record | solitaire.py:198-201 | the tried moves at this depth gain the jump at their end; other depths are unchanged |
| Search.Advance | solitaire.py:194-202 | playing a legal untried jump, recording it and going down one level keeps the search invariant |
| Search.Retreat | solitaire.py:181-192 | undoing the last jump, deleting this depth's tried moves and going up one level keeps the invariant, with the board just left counted as dead |
| Search.StateDead | solitaire.py:169-181 | when every legal jump at a dead end was tried and leads to a dead board, the board reached is unsolvable |
| Search.Backtrack | solitaire.py:179-192 | the backtrack branch: undoes `last_move`, the last jump of the game, drops this depth's entry, goes up a level where the undone jump is recorded as tried, and keeps the invariant |
| Search.Descend | solitaire.py:193-202 | the advance branch: plays the jump, appends it to the game and this depth's tried moves, goes down a level, and keeps the invariant |
| Search.Solve | solitaire.py:144-202 | Solved is a legal game from the starting board that leaves one marble, with one jump per marble removed; Unsolved means no legal game leaves one marble, the board is back at the start, and `lowest` is the count some legal game reaches |

## Left out

- Search.Solve: does not prove termination. The search runs for at most `fuel` loop steps and reports `OutOfFuel` if it has not finished, because the number of games grows exponentially with the board.
- Search.Solve: `lowest` is proved to be the marble count of a board that some legal game reaches, and at most the starting count. It is not proved to be the minimum over all games.
- Search.Solve: returns a result instead of printing the solution and breaking out of the loop.
- The `print` statements of `solve` are progress output and are left out.
- `__repr__` of positions and boards renders text for display only, and is left out.
- The driver at the end of the file and the unused `import copy` are left out.
- In the source, `positions`, `spaces` and `indexed_positions` are class attributes shared by every board, so a second board would extend the first board's lists. The model gives each board its own state.
- A position's covered flag lives in the board's `covered` array, indexed by position, rather than in the position object. The neighbour links are fixed after building and are indices into the position list.
- Boards.Board.MakeMove: requires the triple's indices to name positions of the board. The source's triples hold position objects, so it has no out-of-range case.
- Boards.Board.UndoMove: requires the same. The one call the source makes with `None` is the root case recorded under Findings.

## Findings

| source | as written | input that shows it | evidently intended | confidence | as-written member | corrected member |
|---|---|---|---|---|---|---|
| solitaire.py:181-187 | at a dead end `undo_move(last_move)` runs before the `len(allmoves) == 0` test, so once the root's jumps are exhausted it unpacks `last_move = None` and fails, and the `break` at 186-187 is never reached | `solve(RectangleSolitaire(2, 1))`: two marbles and no legal jump, so the first step is a dead end at the root with `last_move` None | stop the search when the root is exhausted, which is the purpose of the test at 186-187 | not executed | Search.DeadEndAsWritten, Search.AsWrittenRootFails | Search.DeadEnd |
