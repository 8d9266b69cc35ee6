# rubygo rules engine in Dafny

This project models the Go rules engine of rubygo, the class
`Rubygo::Model::Game` and its `Cell` struct, as pure state transitions.
It proves what the engine's operations do.

The model has six parts:

- **Board** (`grid.dfy`, module `Grid`). A `height × width` grid is a map from
  `Pos(row, col)` to `Cell(player, dead)`. The player is -1 for Black, 1 for
  White and 0 for empty. Neighbours are listed in the engine's order: up,
  left, down, right.
- **Groups** (`groups.dfy`, module `Groups`). `find_group` is modelled as a
  worklist walk with a visited set. It is proved against a declarative
  definition: the group of a stone is the least set that holds the stone and
  is closed under same-owner adjacency.
- **Captures** (`captures.dfy`, module `Captures`). `capture` scans the four
  neighbours and collects every opponent group without a liberty.
- **Turn history** (`ledger.dfy`, module `Ledger`). The history is a sequence
  of `PlayTurn` and `PassTurn` entries. It also holds the `ko?` test.
- **Session** (`game.dfy`, modules `Session` and `SessionLaws`). The game
  state carries the board, the player to move, the game-over flag, the two
  capture counters and the history. It provides `initialize`, `pass`,
  `reset`, `resume`, `revert_history` and `play`, plus the laws that relate
  them.
- **Board invariant** (`liberties.dfy`, module `Liberties`). Every stone
  belongs to a group with at least one liberty (`GroupsBreathe`). `play`
  keeps this, and so do `initialize`, `pass`, `reset` and `resume`.

The invariant `Session.Valid` holds in every reachable state and is preserved
by every operation. It says four things:

- the board has exactly one cell per on-board point;
- the player to move is Black or White;
- every recorded mover is Black or White;
- every recorded turn refers to on-board points.

## Model

| member | source | states |
|---|---|---|
| Grid.Neighbors | app/rubygo/model/game.rb:57-60 | The neighbour list holds exactly the on-board orthogonal neighbours of a point, each once. |
| Grid.NeighborsSymmetric | app/rubygo/model/game.rb:65-79 | For two on-board points, adjacency holds in both directions, so a walk can move either way. |
| Grid.EmptyBoard | app/rubygo/model/game.rb:16-20 | A new board has one cell per on-board point, and every cell is empty and not marked dead. |
| Grid.ToggleDead | app/rubygo/model/game.rb:130 | Toggling flips the dead mark of one point and keeps its owner. Every other point is unchanged. |
| Grid.ClearOwners | app/rubygo/model/game.rb:40-42 | Every point becomes empty and keeps its dead mark. |
| Grid.ClearDead | app/rubygo/model/game.rb:47-51 | Every dead mark is cleared, and every owner is kept. |
| Groups.ComponentIsLeastClosed | app/rubygo/model/game.rb:55-82 | The group of a stone contains the stone and is closed under same-owner adjacency. It lies inside every other closed set that holds the stone, so it is the 4-connected same-owner group. |
| Groups.ComponentOfMember | app/rubygo/model/game.rb:55-82 | Every member of a group has the starting stone's owner and the very same group, so groups partition the stones. |
| Groups.Explore | app/rubygo/model/game.rb:55-82 | The walk returns `[]` exactly when the group has a liberty. Otherwise it returns the whole group with no duplicates. |
| Groups.FindGroup | app/rubygo/model/game.rb:55-82 | `find_group([c])` is `[]` exactly when some stone of `c`'s group has an empty orthogonal neighbour. Otherwise it is that whole group: no duplicates, every member owned by `c`'s player. |
| Captures.CollectCaptures | app/rubygo/model/game.rb:154-166 | The stones collected by the neighbour scan are distinct, on the board, and owned by the opponent. |
| Captures.CollectCapturesExact | app/rubygo/model/game.rb:154-166 | The scan collects exactly the stones already collected plus the stones of liberty-less opponent groups met at the scanned neighbours. |
| Captures.Capture | app/rubygo/model/game.rb:153-169 | `capture` returns a duplicate-free list of opponent stones. Those points become empty with their dead marks kept. The placed stone and every other point are unchanged. |
| Captures.CaptureExact | app/rubygo/model/game.rb:153-169 | A stone is captured exactly when it belongs to an opponent group without a liberty that touches the placed stone. |
| Ledger.LastPlayFrom | app/rubygo/model/game.rb:88-94 | The backward walk finds the latest play at or before the given index and never looks at index 0. Everything between that play and the index is a pass. With no such play, every entry from 1 to the index is a pass. |
| Ledger.Ko | app/rubygo/model/game.rb:84-98 | `ko?` holds exactly when the history has at least 3 entries and the latest earlier play (passes skipped, index 0 excluded) captured exactly one stone, at the current move's point. It ignores who made that play and how many stones the current move takes. |
| Session.NewGame | app/rubygo/model/game.rb:8-22 | A new game is valid and has an empty board of the given size, 19 × 19 by default. Black is to move, the game is not over, the history is empty, and the counters start at the given scores, 0 by default. |
| Session.Pass | app/rubygo/model/game.rb:24-34 | `pass` always appends one pass. Right after a pass it ends the game and keeps the player to move. Otherwise it hands the move over and leaves game-over as it was. |
| Session.Reset | app/rubygo/model/game.rb:36-43 | `reset` empties every cell and keeps the dead marks. It clears the history, sets Black to move and clears game-over. The capture counters are kept. |
| Session.Resume | app/rubygo/model/game.rb:45-53 | `resume` clears game-over and every dead mark. Every owner and everything else is untouched. |
| Session.Credit | app/rubygo/model/game.rb:142-146 | A mover's captures go to `white_captures` for White (1) and to `black_captures` for Black (-1). The other counter and the rest of the state are unchanged. |
| Session.Unplay | app/rubygo/model/game.rb:114-123 | Taking back a play keeps the state valid and makes the mover the player to move. The played point becomes empty and each captured point goes back to the mover's opponent; dead marks and other points are kept. The mover's counter loses the number of captures. |
| Session.RevertLast | app/rubygo/model/game.rb:106-123 | Undoing one turn keeps the state valid, pops exactly the last history entry, makes its mover the player to move, and keeps game-over. |
| Session.RevertLastEffect | app/rubygo/model/game.rb:106-123 | Undoing a pass changes nothing else. Undoing a play makes three changes: the played point becomes empty, each captured point goes back to the mover's opponent, and the mover's counter loses the number of captures. |
| Session.RevertHistory | app/rubygo/model/game.rb:105-125 | `revert_history(turns = 1)` removes exactly the last `min(turns, history length)` entries and keeps game-over and validity. A count below one removes nothing. |
| SessionLaws.RevertHistoryNone | app/rubygo/model/game.rb:106-108 | With an empty history, or for fewer than one turn, `revert_history` stops without changing anything. |
| SessionLaws.RevertHistoryStep | app/rubygo/model/game.rb:106-124 | Each pass of the `turns.times` loop on a non-empty history undoes the last turn, as `RevertLast` and `RevertLastEffect` describe, and leaves one turn fewer to undo. |
| Session.Suicide | app/rubygo/model/game.rb:100-103 | `suicide?` holds exactly when the group of the placed stone has no liberty. |
| Session.Tentative | app/rubygo/model/game.rb:133-146 | Before the move is judged, the state is valid and exactly one play has been pushed. |
| Session.TentativePlaced | app/rubygo/model/game.rb:133-146 | The state before judgement puts the mover's stone on the point and empties the captured opponent stones. Nothing else changes. It records one play with the point and the captures, and adds the number of captures to the mover's counter. |
| Session.TentativeTakes | app/rubygo/model/game.rb:133-146 | The captures recorded are exactly the liberty-less opponent groups next to the placed stone. |
| Session.Attempt | app/rubygo/model/game.rb:133-150 | A move on an empty point either leaves the history as it was or pushes exactly one entry and hands the move over. Game-over and validity are kept. |
| Session.Play | app/rubygo/model/game.rb:127-151 | When the game is not over, `play` on an occupied point changes nothing. When the game is over, it only flips that point's dead mark, with no history entry and no change of turn. It always keeps validity and game-over. |
| SessionLaws.PlayRejected | app/rubygo/model/game.rb:148 | A move that is suicide or ko is rolled back completely. The board, both counters, the history and the player to move equal their values before the move. |
| SessionLaws.PlayAccepted | app/rubygo/model/game.rb:133-150 | A move that stands places the mover's stone and takes exactly the liberty-less opponent groups next to it. It pushes one play with the point and the captures, credits the mover's counter and hands the move over. Its group has a liberty, and it does not retake a ko. |
| SessionLaws.PlayKeeps | app/rubygo/model/game.rb:148-150 | A move that stands is the state before judgement, with the move handed over. |
| SessionLaws.RevertPlaced | app/rubygo/model/game.rb:106-123 | Undoing a recorded placement restores the state before it exactly: board, dead marks, counters, history and player to move. |
| SessionLaws.RevertTentative | app/rubygo/model/game.rb:105-125 | Undoing the state before judgement gives back the state before the move. |
| SessionLaws.PlayThenUndo | app/rubygo/model/game.rb:105-151 | `revert_history(1)` right after a move that stands gives back the state before the move exactly. |
| SessionLaws.PassThenUndo | app/rubygo/model/game.rb:105-112 | Undoing a pass gives back the state before it, except that game-over stays set when that pass ended the game. |
| SessionLaws.CaptureGivesLiberty | app/rubygo/model/game.rb:100-103 | A move that captures anything is never suicide, because an emptied neighbour is a liberty of the placed stone. |
| SessionLaws.TakenNeighborIsLiberty | app/rubygo/model/game.rb:153-169 | Once the captured stones are emptied, the placed point has an empty neighbour. |
| Liberties.SameOwnersBreathe | app/rubygo/model/game.rb:130 | Changing dead marks only, as toggling after the game does, keeps every group breathing: groups and liberties depend on the owners alone. |
| Liberties.StoneBreathes | app/rubygo/model/game.rb:133-150 | After a move that stands, each stone's group has a liberty. For the placed group the suicide test ensures it. A group next to a taken stone gets the emptied point. Any other group had a liberty before, and it cannot be the placed point: an opponent group touching the move without a liberty was taken. |
| Liberties.PlacedBreathes | app/rubygo/model/game.rb:133-150 | If every group had a liberty before a move that stands, every group has one after it. |
| Liberties.PlayKeepsLiberties | app/rubygo/model/game.rb:127-151 | `play` keeps every group breathing on any on-board point: a rejected move restores the board, a dead-mark toggle changes no owner, and a move that stands is covered by `PlacedBreathes`. |
| Liberties.BookkeepingKeepsLiberties | app/rubygo/model/game.rb:8-53 | A new game and a reset board have every group breathing, since they hold no stone. `pass` and `resume` keep every group breathing. |

## Left out

- `scale`: a display size computed in `initialize`, with no effect on the rules.
- `komi`: only an accessor with no behaviour.
- `@has_passed`: assigned in `play` and never read.
- Out-of-range coordinates: `play` requires `0 <= row < height` and `0 <= column < width`. Ruby's negative and nil indexing has no rule to model.
- Groups.FindGroup: states which stones are in the list and that none repeats. It does not state the order in which Ruby's recursive walk lists them. Nothing in the engine depends on that order: `revert_history` uses the captures as a set, and `ko?` reads them only when there is exactly one.
- Captures.Capture: states the captured stones as a set without repeats, not in Ruby's order, for the same reason.
- Captured cells: the history stores captured points as positions, where Ruby stores clones of the `Cell` structs. Only row and column of those clones are ever read.
- The user interface and the settings defaults are not part of this model.
- `revert_history` and the board invariant: the model does not prove that undo keeps every group breathing. Undo puts the recorded captures back as the opponent's stones and empties the played point. That gives back a breathing board only when the history is a faithful record of the moves that built the board. `Valid` does not state this replay invariant, so the history may hold any on-board turns.
- Territory scoring, handicap placement and resignation are not in the engine.

## Behaviour kept as written

Where the engine departs from the usual Go rules, the model keeps the engine's behaviour:

- `revert_history`: undoing never clears game-over, not even when it undoes the pass that ended the game.
- `play`: on an empty point after the game is over, the model places a stone and applies the usual rules, as the engine does.
- `reset`: keeps the capture counters and the dead marks, as the engine does.
- `resume`: only clears dead marks and game-over. It does not turn stones marked dead into captures, because the engine does not.
- `ko?`: the test does not check who made the earlier play, and it does not require the current move to capture a single stone. The model follows the code.
