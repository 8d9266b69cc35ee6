/**
 The game session: board, player to move, the game-over flag, the two
 capture counters and the turn history, with the engine's operations as
 pure state transitions.
 */
module Session {
  import opened Grid
  import opened Groups
  import opened Captures
  import opened Ledger

  datatype Game = Game(
    board: Board,
    curPlayer: Player,
    gameOver: bool,
    whiteCaptures: int,
    blackCaptures: int,
    history: seq<Turn>)

  /** Every recorded play lies on the board, and every mover is Black or White. */
  ghost predicate TurnFits(b: Board, t: Turn)
  {
    && t.player != Empty
    && (t.PlayTurn? ==> t.pos in b.cells && forall c | c in t.captures :: c in b.cells)
  }

  /** The states the engine can reach. */
  ghost predicate Valid(g: Game)
  {
    && WellFormed(g.board)
    && g.curPlayer != Empty
    && forall t | t in g.history :: TurnFits(g.board, t)
  }

  /** Validity depends on the board only through its set of points. */
  lemma ValidWithBoard(g: Game, b: Board, h: seq<Turn>)
    requires Valid(g) && WellFormed(b) && b.cells.Keys == g.board.cells.Keys
    requires forall t | t in h :: TurnFits(g.board, t)
    ensures Valid(g.(board := b, history := h))
  {
  }

  /** `initialize(height = 19, width = 19, _, white_score = 0, black_score = 0)`. */
  function NewGame(height: nat := 19, width: nat := 19, whiteScore: int := 0, blackScore: int := 0): (g: Game)
    ensures Valid(g)
    ensures g.board.height == height && g.board.width == width
    ensures forall p | p in g.board.cells :: g.board.cells[p] == Cell(Empty, false)
    ensures g.curPlayer == Black && !g.gameOver && g.history == []
    ensures g.whiteCaptures == whiteScore && g.blackCaptures == blackScore
  {
    Game(EmptyBoard(height, width), Black, false, whiteScore, blackScore, [])
  }

  /** The counter credited with a mover's captures. */
  function Credit(g: Game, mover: Player, n: int): (r: Game)
    ensures r.board == g.board && r.curPlayer == g.curPlayer && r.gameOver == g.gameOver && r.history == g.history
    ensures mover == White ==> r.whiteCaptures == g.whiteCaptures + n && r.blackCaptures == g.blackCaptures
    ensures mover == Black ==> r.blackCaptures == g.blackCaptures + n && r.whiteCaptures == g.whiteCaptures
    ensures mover == Empty ==> r == g
  {
    if mover == White then g.(whiteCaptures := g.whiteCaptures + n)
    else if mover == Black then g.(blackCaptures := g.blackCaptures + n)
    else g
  }

  /**
   `pass`: always records a pass; a pass right after a pass ends the game and
   keeps the player to move, any other pass hands the move over.
   */
  function Pass(g: Game): (r: Game)
    requires Valid(g)
    ensures Valid(r)
    ensures r.history == g.history + [PassTurn(g.curPlayer)]
    ensures r.board == g.board && r.whiteCaptures == g.whiteCaptures && r.blackCaptures == g.blackCaptures
    ensures g.history != [] && g.history[|g.history| - 1].PassTurn? ==> r.gameOver && r.curPlayer == g.curPlayer
    ensures !(g.history != [] && g.history[|g.history| - 1].PassTurn?) ==>
      r.gameOver == g.gameOver && r.curPlayer == -g.curPlayer
  {
    var hasPassed := |g.history| > 0 && g.history[|g.history| - 1].PassTurn?;
    var g' := g.(history := g.history + [PassTurn(g.curPlayer)]);
    if hasPassed then g'.(gameOver := true) else g'.(curPlayer := -g.curPlayer)
  }

  /**
   `reset`: empties every cell and clears the history; Black to move, game
   not over. Capture counters and dead marks are kept.
   */
  function Reset(g: Game): (r: Game)
    requires Valid(g)
    ensures Valid(r)
    ensures r.board.height == g.board.height && r.board.width == g.board.width
    ensures r.board.cells.Keys == g.board.cells.Keys
    ensures forall p | p in g.board.cells :: r.board.cells[p] == Cell(Empty, g.board.cells[p].dead)
    ensures r.curPlayer == Black && !r.gameOver && r.history == []
    ensures r.whiteCaptures == g.whiteCaptures && r.blackCaptures == g.blackCaptures
  {
    Game(ClearOwners(g.board), Black, false, g.whiteCaptures, g.blackCaptures, [])
  }

  /** `resume`: leaves the game-over state and clears every dead mark; owners are untouched. */
  function Resume(g: Game): (r: Game)
    requires Valid(g)
    ensures Valid(r)
    ensures !r.gameOver
    ensures r.board.cells.Keys == g.board.cells.Keys
    ensures forall p | p in g.board.cells :: r.board.cells[p] == Cell(g.board.cells[p].player, false)
    ensures r == g.(board := r.board, gameOver := false)
  {
    g.(gameOver := false, board := ClearDead(g.board))
  }

  /**
   `r` is `b` with `pos` emptied and then every point of `caps` given to
   `owner`; dead marks and all other points are kept.
   */
  ghost predicate Restored(b: Board, pos: Pos, caps: seq<Pos>, owner: Player, r: Board)
  {
    && r.height == b.height && r.width == b.width && r.cells.Keys == b.cells.Keys
    && (forall q | q in b.cells && q in caps :: r.cells[q] == Cell(owner, b.cells[q].dead))
    && (pos in b.cells && pos !in caps ==> r.cells[pos] == Cell(Empty, b.cells[pos].dead))
    && (forall q | q in b.cells && q != pos && q !in caps :: r.cells[q] == b.cells[q])
  }

  /** Take back the play `t`, leaving `h` as the history. */
  function Unplay(g: Game, t: Turn, h: seq<Turn>): (r: Game)
    requires Valid(g) && t.PlayTurn? && TurnFits(g.board, t)
    requires forall u | u in h :: TurnFits(g.board, u)
    ensures Valid(r) && r.history == h && r.curPlayer == t.player && r.gameOver == g.gameOver
    ensures Restored(g.board, t.pos, t.captures, -t.player, r.board)
    ensures r.whiteCaptures == g.whiteCaptures - (if t.player == White then |t.captures| else 0)
    ensures r.blackCaptures == g.blackCaptures - (if t.player == Black then |t.captures| else 0)
  {
    var b := Fill(SetPlayer(g.board, t.pos, Empty), t.captures, -t.player);
    ValidWithBoard(g, b, h);
    Credit(g.(board := b, history := h, curPlayer := t.player), t.player, -|t.captures|)
  }

  /**
   Undo of the last turn: the mover is to play again; for a play, the point
   is emptied, the captured stones come back as the mover's opponent and the
   mover's counter loses the captures.
   */
  function RevertLast(g: Game): (r: Game)
    requires Valid(g) && g.history != []
    ensures Valid(r)
    ensures r.history == g.history[..|g.history| - 1]
    ensures r.curPlayer == g.history[|g.history| - 1].player
    ensures r.gameOver == g.gameOver
  {
    var t := g.history[|g.history| - 1];
    var h := g.history[..|g.history| - 1];
    assert t in g.history;
    assert forall u | u in h :: u in g.history;
    if t.PassTurn? then g.(history := h, curPlayer := t.player)
    else Unplay(g, t, h)
  }

  /**
   What undoing the last turn does to the rest of the state: after a pass
   nothing else changes; after a play the board is restored around the
   played point and the mover's counter loses the captures.
   */
  lemma RevertLastEffect(g: Game)
    requires Valid(g) && g.history != []
    ensures var r := RevertLast(g);
      g.history[|g.history| - 1].PassTurn? ==> r == g.(history := r.history, curPlayer := r.curPlayer)
    ensures var r := RevertLast(g);
      var t := g.history[|g.history| - 1];
      t.PlayTurn? ==>
        && Restored(g.board, t.pos, t.captures, -t.player, r.board)
        && r.whiteCaptures == g.whiteCaptures - (if t.player == White then |t.captures| else 0)
        && r.blackCaptures == g.blackCaptures - (if t.player == Black then |t.captures| else 0)
  {
  }

  /**
   `revert_history(turns = 1)`: undo up to `turns` turns, stopping quietly on
   an empty history; a count below one undoes nothing, as `Integer#times` runs
   no iteration then.
   */
  function RevertHistory(g: Game, turns: int := 1): (r: Game)
    requires Valid(g)
    ensures Valid(r) && r.gameOver == g.gameOver
    ensures |r.history| == if turns <= 0 then |g.history| else if turns <= |g.history| then |g.history| - turns else 0
    ensures r.history == g.history[..|r.history|]
    decreases turns
  {
    if turns <= 0 || g.history == [] then g
    else RevertHistory(RevertLast(g), turns - 1)
  }

  /** `suicide?(cell)`: the group of the stone at `p` has no liberty. */
  function Suicide(b: Board, p: Pos): (r: bool)
    requires WellFormed(b) && p in b.cells
    ensures r <==> !HasLiberty(b, Component(b, p))
  {
    FindGroup(b, p) != []
  }

  /**
   `caps` is what the mover `g.curPlayer` takes by playing `pos`: exactly the
   stones of liberty-less opponent groups next to `pos`.
   */
  ghost predicate TakenBy(g: Game, pos: Pos, caps: seq<Pos>)
    requires WellFormed(g.board) && pos in g.board.cells
  {
    var b1 := SetPlayer(g.board, pos, g.curPlayer);
    forall x :: x in caps <==> exists n | n in Neighbors(b1, pos) :: InCapturedGroup(b1, g.curPlayer, n, x)
  }

  /**
   `b` is `g.board` with the mover's stone on `pos` and the points `caps`,
   all opponent stones, emptied; every other point and every dead mark is as
   before.
   */
  ghost predicate PlacedBoard(g: Game, pos: Pos, caps: seq<Pos>, b: Board)
    requires WellFormed(g.board) && pos in g.board.cells
  {
    && Distinct(caps)
    && (forall x | x in caps :: x in g.board.cells && x != pos && g.board.cells[x].player == -g.curPlayer)
    && b.height == g.board.height && b.width == g.board.width
    && b.cells.Keys == g.board.cells.Keys
    && b.cells[pos] == Cell(g.curPlayer, g.board.cells[pos].dead)
    && (forall q | q in g.board.cells && q in caps :: b.cells[q] == Cell(Empty, g.board.cells[q].dead))
    && (forall q | q in g.board.cells && q != pos && q !in caps :: b.cells[q] == g.board.cells[q])
  }

  /**
   `r` is `g` after the mover put a stone on `pos` and took `caps`: one play
   recorded, the mover's counter grown by the number of captures.
   */
  ghost predicate Placed(g: Game, pos: Pos, caps: seq<Pos>, r: Game)
    requires WellFormed(g.board) && pos in g.board.cells
  {
    && PlacedBoard(g, pos, caps, r.board)
    && r.history == g.history + [PlayTurn(g.curPlayer, pos, caps)]
    && r.whiteCaptures == g.whiteCaptures + (if g.curPlayer == White then |caps| else 0)
    && r.blackCaptures == g.blackCaptures + (if g.curPlayer == Black then |caps| else 0)
    && r.gameOver == g.gameOver
  }

  /**
   The state `play` builds before judging the move: the stone placed,
   captures removed and recorded, the mover credited.
   */
  function Tentative(g: Game, pos: Pos): (t: Game)
    requires Valid(g) && pos in g.board.cells && g.board.cells[pos].player == Empty
    ensures Valid(t)
    ensures t.history != [] && t.history[|t.history| - 1].PlayTurn?
    ensures |t.history| == |g.history| + 1 && t.history[..|g.history|] == g.history
    ensures t.curPlayer == g.curPlayer
  {
    var c := Capture(SetPlayer(g.board, pos, g.curPlayer), pos);
    var turn := PlayTurn(g.curPlayer, pos, c.1);
    ValidWithBoard(g, c.0, g.history + [turn]);
    Credit(g.(board := c.0, history := g.history + [turn]), g.curPlayer, |c.1|)
  }

  /** The tentative state is the placed stone with its captures. */
  lemma TentativePlaced(g: Game, pos: Pos)
    requires Valid(g) && pos in g.board.cells && g.board.cells[pos].player == Empty
    ensures var t := Tentative(g, pos);
      Placed(g, pos, t.history[|t.history| - 1].captures, t)
  {
    var b1 := SetPlayer(g.board, pos, g.curPlayer);
    assert b1.cells[pos].player == g.curPlayer;
  }

  /** The tentative move takes exactly the liberty-less opponent groups next to it. */
  lemma TentativeTakes(g: Game, pos: Pos)
    requires Valid(g) && pos in g.board.cells && g.board.cells[pos].player == Empty
    ensures var t := Tentative(g, pos);
      TakenBy(g, pos, t.history[|t.history| - 1].captures)
  {
    CaptureExact(SetPlayer(g.board, pos, g.curPlayer), pos);
  }

  /** A move on an empty point is rejected when it is suicide or ko. */
  ghost predicate Rejected(g: Game, pos: Pos)
    requires Valid(g) && pos in g.board.cells && g.board.cells[pos].player == Empty
  {
    var t := Tentative(g, pos);
    !HasLiberty(t.board, Component(t.board, pos)) || KoPattern(t.history)
  }

  /**
   `play` on an empty point: the tentative move is kept, handing the move
   over, unless it is suicide or ko, in which case it is undone.
   */
  function Attempt(g: Game, pos: Pos): (r: Game)
    requires Valid(g) && pos in g.board.cells && g.board.cells[pos].player == Empty
    ensures Valid(r) && r.gameOver == g.gameOver
    ensures r.history == g.history || (|r.history| == |g.history| + 1 && r.curPlayer == -g.curPlayer)
  {
    var t := Tentative(g, pos);
    if Suicide(t.board, pos) || Ko(t.history) then RevertHistory(t)
    else t.(curPlayer := -g.curPlayer)
  }

  /**
   `play(row, column)`. After the game is over a stone is only marked or
   unmarked dead; otherwise an occupied point is ignored, and on an empty
   point the move is attempted.
   */
  function Play(g: Game, pos: Pos): (r: Game)
    requires Valid(g) && InBounds(g.board, pos)
    ensures Valid(r) && r.gameOver == g.gameOver
    ensures g.board.cells[pos].player != Empty && !g.gameOver ==> r == g
    ensures g.board.cells[pos].player != Empty && g.gameOver ==>
      && r == g.(board := r.board)
      && r.board.cells.Keys == g.board.cells.Keys
      && r.board.cells[pos] == Cell(g.board.cells[pos].player, !g.board.cells[pos].dead)
      && forall q | q in g.board.cells && q != pos :: r.board.cells[q] == g.board.cells[q]
    ensures g.board.cells[pos].player == Empty ==>
      r.history == g.history || (|r.history| == |g.history| + 1 && r.curPlayer == -g.curPlayer)
  {
    var cell := g.board.cells[pos];
    if g.gameOver && cell.player != Empty then g.(board := ToggleDead(g.board, pos))
    else if cell.player != Empty then g
    else Attempt(g, pos)
  }
}

/** Laws relating the session operations to one another. */
module SessionLaws {
  import opened Grid
  import opened Groups
  import opened Captures
  import opened Ledger
  import opened Session

  /**
   Undoing a placement restores the state before it exactly, whoever is
   recorded as next to move.
   */
  lemma RevertPlaced(g: Game, pos: Pos, caps: seq<Pos>, t: Game)
    requires Valid(g) && pos in g.board.cells && g.board.cells[pos].player == Empty
    requires Valid(t) && Placed(g, pos, caps, t)
    ensures RevertLast(t) == g
  {
    var r := RevertLast(t);
    RevertLastEffect(t);
    assert t.history[|t.history| - 1] == PlayTurn(g.curPlayer, pos, caps);
    UnplaceBoard(g, pos, caps, t.board, r.board);
    assert r.history == g.history;
  }

  /** Emptying the played point and giving the captures back to the opponent restores the board. */
  lemma UnplaceBoard(g: Game, pos: Pos, caps: seq<Pos>, placed: Board, restored: Board)
    requires Valid(g) && pos in g.board.cells && g.board.cells[pos].player == Empty
    requires PlacedBoard(g, pos, caps, placed)
    requires Restored(placed, pos, caps, -g.curPlayer, restored)
    ensures restored == g.board
  {
    forall q | q in g.board.cells
      ensures restored.cells[q] == g.board.cells[q]
    {
      if q in caps {
        assert g.board.cells[q].player == -g.curPlayer;
      }
    }
    assert restored.cells == g.board.cells;
  }

  /** Undoing the tentative move restores the state before it exactly. */
  lemma RevertTentative(g: Game, pos: Pos)
    requires Valid(g) && pos in g.board.cells && g.board.cells[pos].player == Empty
    ensures RevertLast(Tentative(g, pos)) == g
  {
    TentativePlaced(g, pos);
    var t := Tentative(g, pos);
    RevertPlaced(g, pos, t.history[|t.history| - 1].captures, t);
  }

  /** `revert_history` on an empty history, or for fewer than one turn, changes nothing. */
  lemma RevertHistoryNone(g: Game, n: int)
    requires Valid(g) && (n <= 0 || g.history == [])
    ensures RevertHistory(g, n) == g
  {
  }

  /** One turn of `revert_history(n)` undoes the last turn and leaves `n - 1` to go. */
  lemma RevertHistoryStep(g: Game, n: int)
    requires Valid(g) && n > 0 && g.history != []
    ensures RevertHistory(g, n) == RevertHistory(RevertLast(g), n - 1)
  {
  }

  /**
   Undoing a pass gives the state before it back, except that a game ended
   by that pass stays over.
   */
  lemma PassThenUndo(g: Game)
    requires Valid(g)
    ensures var r := RevertLast(Pass(g));
      && r == g.(gameOver := r.gameOver)
      && r.gameOver == (g.gameOver || (g.history != [] && g.history[|g.history| - 1].PassTurn?))
  {
    var p := Pass(g);
    RevertLastEffect(p);
    assert p.history[..|p.history| - 1] == g.history;
  }

  /** A rejected move (suicide or ko) leaves the game exactly as it was. */
  lemma PlayRejected(g: Game, pos: Pos)
    requires Valid(g) && InBounds(g.board, pos) && g.board.cells[pos].player == Empty
    ensures Rejected(g, pos) ==> Play(g, pos) == g
  {
    if Rejected(g, pos) {
      var t := Tentative(g, pos);
      RevertTentative(g, pos);
      RevertHistoryStep(t, 1);
      RevertHistoryNone(RevertLast(t), 0);
    }
  }

  /**
   An accepted move places the mover's stone, takes exactly the liberty-less
   opponent groups next to it, records the play and hands the move over;
   the placed stone's group has a liberty and the move does not retake a ko.
   */
  ghost predicate Accepted(g: Game, pos: Pos, r: Game)
    requires Valid(g) && pos in g.board.cells
  {
    && r.history != [] && r.history[|r.history| - 1].PlayTurn?
    && var caps := r.history[|r.history| - 1].captures;
    && Placed(g, pos, caps, r)
    && TakenBy(g, pos, caps)
    && r.curPlayer == -g.curPlayer
    && HasLiberty(r.board, Component(r.board, pos))
    && !KoPattern(r.history)
  }

  /** A move on an empty point that is neither suicide nor ko stands, as `Accepted` describes. */
  lemma PlayAccepted(g: Game, pos: Pos)
    requires Valid(g) && InBounds(g.board, pos) && g.board.cells[pos].player == Empty
    ensures !Rejected(g, pos) ==> Accepted(g, pos, Play(g, pos))
  {
    if !Rejected(g, pos) {
      var t := Tentative(g, pos);
      PlayKeeps(g, pos);
      TentativePlaced(g, pos);
      TentativeTakes(g, pos);
      AcceptedOf(g, pos, t, Play(g, pos));
    }
  }

  /** The tentative state with the move handed over is accepted when the tentative move is legal. */
  lemma AcceptedOf(g: Game, pos: Pos, t: Game, r: Game)
    requires Valid(g) && pos in g.board.cells
    requires t.history != [] && t.history[|t.history| - 1].PlayTurn?
    requires Placed(g, pos, t.history[|t.history| - 1].captures, t)
    requires TakenBy(g, pos, t.history[|t.history| - 1].captures)
    requires HasLiberty(t.board, Component(t.board, pos)) && !KoPattern(t.history)
    requires r == t.(curPlayer := -g.curPlayer)
    ensures Accepted(g, pos, r)
  {
    assert r.board == t.board && r.history == t.history;
    // The captures are read off the last entry; naming them lets both predicates be matched.
    var caps := r.history[|r.history| - 1].captures;
    assert Placed(g, pos, caps, r) && TakenBy(g, pos, caps);
  }

  /** An accepted move keeps the tentative state, with the move handed over. */
  lemma PlayKeeps(g: Game, pos: Pos)
    requires Valid(g) && InBounds(g.board, pos) && g.board.cells[pos].player == Empty
    ensures !Rejected(g, pos) ==> Play(g, pos) == Tentative(g, pos).(curPlayer := -g.curPlayer)
  {
  }

  /** An accepted move is undone exactly by `revert_history(1)`. */
  lemma PlayThenUndo(g: Game, pos: Pos)
    requires Valid(g) && InBounds(g.board, pos) && g.board.cells[pos].player == Empty
    ensures !Rejected(g, pos) ==> RevertHistory(Play(g, pos)) == g
  {
    if !Rejected(g, pos) {
      PlayAccepted(g, pos);
      var r := Play(g, pos);
      RevertPlaced(g, pos, r.history[|r.history| - 1].captures, r);
      RevertHistoryStep(r, 1);
      RevertHistoryNone(RevertLast(r), 0);
    }
  }

  /** A move that captures is never suicide: a taken neighbour becomes its liberty. */
  lemma CaptureGivesLiberty(g: Game, pos: Pos)
    requires Valid(g) && InBounds(g.board, pos) && g.board.cells[pos].player == Empty
    ensures var t := Tentative(g, pos);
      t.history[|t.history| - 1].captures != [] ==> HasLiberty(t.board, Component(t.board, pos))
  {
    var t := Tentative(g, pos);
    var caps := t.history[|t.history| - 1].captures;
    if caps != [] {
      TentativePlaced(g, pos);
      TentativeTakes(g, pos);
      TakenNeighborIsLiberty(SetPlayer(g.board, pos, g.curPlayer), g.curPlayer, pos, caps, t.board);
      ComponentIsLeastClosed(t.board, pos);
    }
  }

  /** Once the stones `caps` taken around `pos` are emptied, `pos` has a liberty. */
  lemma TakenNeighborIsLiberty(b1: Board, pl: Player, pos: Pos, caps: seq<Pos>, b2: Board)
    requires WellFormed(b1) && pos in b1.cells && caps != []
    requires forall x :: x in caps <==> exists n | n in Neighbors(b1, pos) :: InCapturedGroup(b1, pl, n, x)
    requires b2.height == b1.height && b2.width == b1.width && b2.cells.Keys == b1.cells.Keys
    requires forall q | q in caps :: q in b2.cells && b2.cells[q].player == Empty
    ensures LibertyAt(b2, pos)
  {
    assert caps[0] in caps;
    var n :| n in Neighbors(b1, pos) && InCapturedGroup(b1, pl, n, caps[0]);
    ComponentIsLeastClosed(b1, n);
    assert InCapturedGroup(b1, pl, n, n);
    assert n in caps;
    assert n in Neighbors(b2, pos);
  }
}
