/**
 The board invariant of the rules: every stone belongs to a group with at
 least one liberty. `play` keeps it, and so do `initialize`, `pass`,
 `reset` and `resume`.
 */
module Liberties {
  import opened Grid
  import opened Groups
  import opened Captures
  import opened Ledger
  import opened Session
  import opened SessionLaws

  /** Every stone on `b` belongs to a group with a liberty. */
  ghost predicate GroupsBreathe(b: Board)
  {
    forall p | p in b.cells && b.cells[p].player != Empty :: HasLiberty(b, Component(b, p))
  }

  /** `b'` has the points, the size and the owners of `b`; only dead marks may differ. */
  ghost predicate SameOwners(b: Board, b': Board)
  {
    && b'.height == b.height && b'.width == b.width && b'.cells.Keys == b.cells.Keys
    && forall q | q in b.cells :: b'.cells[q].player == b.cells[q].player
  }

  /** Some member of `c` has a neighbour among `caps`. */
  ghost predicate Touches(b: Board, c: set<Pos>, caps: seq<Pos>)
  {
    exists q, n | q in c && n in Neighbors(b, q) :: n in caps
  }

  /** A set closed on `b` is closed on any board with the same owners. */
  lemma ClosedAcross(b: Board, b': Board, pl: Player, s: set<Pos>)
    requires SameOwners(b, b') && Closed(b, pl, s)
    ensures Closed(b', pl, s)
  {
    forall p, q | p in s && q in Neighbors(b', p) && q in b'.cells && b'.cells[q].player == pl
      ensures q in s
    {
      NeighborsOfSize(b, b', p);
    }
  }

  /** Boards with the same owners have the same groups. */
  lemma SameComponent(b: Board, b': Board, p: Pos)
    requires WellFormed(b) && SameOwners(b, b') && p in b.cells
    ensures p in b'.cells && Component(b', p) == Component(b, p)
  {
    assert WellFormed(b');
    assert SameOwners(b', b);
    var pl := b.cells[p].player;
    ComponentIsLeastClosed(b, p);
    ComponentIsLeastClosed(b', p);
    ClosedAcross(b, b', pl, Component(b, p));
    ClosedAcross(b', b, pl, Component(b', p));
  }

  /** Boards with the same owners give a set of points the same liberties. */
  lemma SameLiberty(b: Board, b': Board, s: set<Pos>)
    requires SameOwners(b, b') && HasLiberty(b, s)
    ensures HasLiberty(b', s)
  {
    var q :| q in s && LibertyAt(b, q);
    NeighborsOfSize(b, b', q);
    var l :| l in Neighbors(b, q) && l in b.cells && b.cells[l].player == Empty;
    assert l in b'.cells && b'.cells[l].player == Empty;
    assert LibertyAt(b', q);
  }

  /** The neighbours of a point depend on the size of the board only. */
  lemma NeighborsOfSize(b: Board, b': Board, p: Pos)
    requires b'.height == b.height && b'.width == b.width
    ensures Neighbors(b', p) == Neighbors(b, p)
  {
  }

  /** Groups and liberties depend on the owners only, so dead marks cannot change them. */
  lemma SameOwnersBreathe(b: Board, b': Board)
    requires WellFormed(b) && SameOwners(b, b')
    ensures GroupsBreathe(b) ==> GroupsBreathe(b')
  {
    forall p | p in b'.cells && b'.cells[p].player != Empty && GroupsBreathe(b)
      ensures HasLiberty(b', Component(b', p))
    {
      SameComponent(b, b', p);
      SameLiberty(b, b', Component(b, p));
    }
  }

  /**
   `b2` is `b1` with the `-m` stones `caps` emptied: same points, and every
   other owner kept.
   */
  ghost predicate Emptied(b1: Board, m: Player, caps: seq<Pos>, b2: Board)
  {
    && b2.height == b1.height && b2.width == b1.width && b2.cells.Keys == b1.cells.Keys
    && (forall x | x in caps :: x in b1.cells && b1.cells[x].player == -m && b2.cells[x].player == Empty)
    && (forall q | q in b1.cells && q !in caps :: b2.cells[q].player == b1.cells[q].player)
  }

  /** The board of a placed move is the board with the stone set and the captures emptied. */
  lemma PlacedEmptied(g: Game, pos: Pos, caps: seq<Pos>, b2: Board)
    requires Valid(g) && pos in g.board.cells && g.board.cells[pos].player == Empty
    requires PlacedBoard(g, pos, caps, b2)
    ensures WellFormed(SetPlayer(g.board, pos, g.curPlayer)) && WellFormed(b2)
    ensures Emptied(SetPlayer(g.board, pos, g.curPlayer), g.curPlayer, caps, b2)
  {
  }

  /** A stone that the move did not take was not in a liberty-less opponent group next to the move. */
  lemma NotTaken(g: Game, pos: Pos, caps: seq<Pos>, p: Pos)
    requires WellFormed(g.board) && pos in g.board.cells
    requires TakenBy(g, pos, caps) && p !in caps
    ensures forall n | n in Neighbors(SetPlayer(g.board, pos, g.curPlayer), pos) ::
      !InCapturedGroup(SetPlayer(g.board, pos, g.curPlayer), g.curPlayer, n, p)
  {
  }

  /**
   A group of `b1` that does not hold the placed stone and was not taken had
   a liberty already: it is a group of `b0`, or it grew from one, and the
   only point it could have lost is the placed one.
   */
  lemma GroupBreathedBefore(b0: Board, pos: Pos, m: Player, b1: Board, p: Pos)
    requires WellFormed(b0) && pos in b0.cells && b0.cells[pos].player == Empty && m != Empty
    requires b1 == SetPlayer(b0, pos, m) && WellFormed(b1)
    requires p in b1.cells && b1.cells[p].player != Empty && pos !in Component(b1, p)
    requires forall n | n in Neighbors(b1, pos) :: !InCapturedGroup(b1, m, n, p)
    requires HasLiberty(b0, Component(b0, p))
    ensures HasLiberty(b1, Component(b1, p))
  {
    var c1 := Component(b1, p);
    if b1.cells[p].player == -m && exists n | n in Neighbors(b1, pos) :: n in c1 {
      var n :| n in Neighbors(b1, pos) && n in c1;
      ComponentOfMember(b1, p, n);
      assert !InCapturedGroup(b1, m, n, p);
    } else {
      FarGroupBreathedBefore(b0, pos, m, b1, p);
    }
  }

  /** A group of `b1` without the placed stone is closed on `b0`, so it holds the group of `b0` at the same stone. */
  lemma GroupWithoutPlaced(b0: Board, pos: Pos, m: Player, b1: Board, p: Pos)
    requires WellFormed(b0) && pos in b0.cells && b0.cells[pos].player == Empty
    requires b1 == SetPlayer(b0, pos, m) && WellFormed(b1)
    requires p in b1.cells && b1.cells[p].player != Empty && pos !in Component(b1, p)
    ensures b0.cells[p].player == b1.cells[p].player
    ensures Component(b0, p) <= Component(b1, p)
  {
    var pl := b1.cells[p].player;
    var c1 := Component(b1, p);
    ComponentIsLeastClosed(b1, p);
    forall q, n | q in c1 && n in Neighbors(b0, q) && n in b0.cells && b0.cells[n].player == pl
      ensures n in c1
    {
      NeighborsOfSize(b0, b1, q);
    }
    assert Closed(b0, pl, c1);
    ComponentIsLeastClosed(b0, p);
  }

  /**
   A group of `b1` that is the mover's but lacks the placed stone, or an
   opponent's away from it, keeps the liberty of the group of `b0` it holds:
   that liberty cannot be the placed point.
   */
  lemma FarGroupBreathedBefore(b0: Board, pos: Pos, m: Player, b1: Board, p: Pos)
    requires WellFormed(b0) && pos in b0.cells && b0.cells[pos].player == Empty && m != Empty
    requires b1 == SetPlayer(b0, pos, m) && WellFormed(b1)
    requires p in b1.cells && b1.cells[p].player != Empty && pos !in Component(b1, p)
    requires b1.cells[p].player == m || forall n | n in Neighbors(b1, pos) :: n !in Component(b1, p)
    requires HasLiberty(b0, Component(b0, p))
    ensures HasLiberty(b1, Component(b1, p))
  {
    GroupWithoutPlaced(b0, pos, m, b1, p);
    var q :| q in Component(b0, p) && LibertyAt(b0, q);
    var l :| l in Neighbors(b0, q) && l in b0.cells && b0.cells[l].player == Empty;
    NeighborsOfSize(b0, b1, q);
    assert l != pos by {
      ComponentIsLeastClosed(b1, p);
      NeighborsSymmetric(b1, q, pos);
      assert q in Component(b1, p) && InBounds(b1, q) && InBounds(b1, pos);
    }
    assert LibertyAt(b1, q);
  }

  /** A group of `b2` that does not touch an emptied point holds the group of `b1` at the same stone. */
  lemma UntouchedGroupGrows(b1: Board, m: Player, caps: seq<Pos>, b2: Board, p: Pos)
    requires WellFormed(b1) && Emptied(b1, m, caps, b2) && m != Empty
    requires WellFormed(b2) && p in b2.cells && b2.cells[p].player != Empty
    requires !Touches(b2, Component(b2, p), caps)
    ensures p in b1.cells && b1.cells[p].player == b2.cells[p].player
    ensures Component(b1, p) <= Component(b2, p)
  {
    var pl := b2.cells[p].player;
    var c := Component(b2, p);
    ComponentIsLeastClosed(b2, p);
    forall q, n | q in c && n in Neighbors(b1, q) && n in b1.cells && b1.cells[n].player == pl
      ensures n in c
    {
      NeighborsOfSize(b1, b2, q);
    }
    assert Closed(b1, pl, c);
    ComponentIsLeastClosed(b1, p);
  }

  /** Such a group also keeps the liberty of the group of `b1` it holds. */
  lemma UntouchedGroupBreathes(b1: Board, m: Player, caps: seq<Pos>, b2: Board, p: Pos)
    requires WellFormed(b1) && Emptied(b1, m, caps, b2) && m != Empty
    requires WellFormed(b2) && p in b2.cells && b2.cells[p].player != Empty
    requires !Touches(b2, Component(b2, p), caps)
    requires p in b1.cells && HasLiberty(b1, Component(b1, p))
    ensures HasLiberty(b2, Component(b2, p))
  {
    UntouchedGroupGrows(b1, m, caps, b2, p);
    var q :| q in Component(b1, p) && LibertyAt(b1, q);
    var l :| l in Neighbors(b1, q) && l in b1.cells && b1.cells[l].player == Empty;
    NeighborsOfSize(b1, b2, q);
    assert LibertyAt(b2, q);
  }

  /**
   After a move that stands every group has a liberty: the placed group by
   the ko and suicide test, a group next to a taken stone by that emptied
   point, and any other group because it had one before.
   */
  lemma PlacedBreathes(g: Game, pos: Pos, caps: seq<Pos>, b2: Board)
    requires Valid(g) && pos in g.board.cells && g.board.cells[pos].player == Empty
    requires PlacedBoard(g, pos, caps, b2) && TakenBy(g, pos, caps)
    requires HasLiberty(b2, Component(b2, pos))
    ensures GroupsBreathe(g.board) ==> GroupsBreathe(b2)
  {
    PlacedEmptied(g, pos, caps, b2);
    if GroupsBreathe(g.board) {
      EveryStoneBreathes(g, pos, caps, SetPlayer(g.board, pos, g.curPlayer), b2);
    }
  }

  /** The quantified form of `StoneBreathes`. */
  lemma EveryStoneBreathes(g: Game, pos: Pos, caps: seq<Pos>, b1: Board, b2: Board)
    requires WellFormed(g.board) && g.curPlayer != Empty && pos in g.board.cells && g.board.cells[pos].player == Empty
    requires b1 == SetPlayer(g.board, pos, g.curPlayer) && WellFormed(b1) && WellFormed(b2)
    requires Emptied(b1, g.curPlayer, caps, b2) && TakenBy(g, pos, caps)
    requires HasLiberty(b2, Component(b2, pos)) && GroupsBreathe(g.board)
    ensures GroupsBreathe(b2)
  {
    forall p | p in b2.cells && b2.cells[p].player != Empty
      ensures HasLiberty(b2, Component(b2, p))
    {
      StoneBreathes(g, pos, caps, b1, b2, p);
    }
  }

  /** One stone of the board after a move that stands: the case split behind `PlacedBreathes`. */
  lemma StoneBreathes(g: Game, pos: Pos, caps: seq<Pos>, b1: Board, b2: Board, p: Pos)
    requires WellFormed(g.board) && g.curPlayer != Empty && pos in g.board.cells && g.board.cells[pos].player == Empty
    requires b1 == SetPlayer(g.board, pos, g.curPlayer) && WellFormed(b1) && WellFormed(b2)
    requires Emptied(b1, g.curPlayer, caps, b2) && TakenBy(g, pos, caps)
    requires HasLiberty(b2, Component(b2, pos)) && GroupsBreathe(g.board)
    requires p in b2.cells && b2.cells[p].player != Empty
    ensures HasLiberty(b2, Component(b2, p))
  {
    var c := Component(b2, p);
    ComponentIsLeastClosed(b2, p);
    if pos in c {
      ComponentOfMember(b2, p, pos);
    } else if Touches(b2, c, caps) {
      var q, n :| q in c && n in Neighbors(b2, q) && n in caps;
      assert LibertyAt(b2, q);
    } else {
      assert p !in caps && p != pos;
      NotTaken(g, pos, caps, p);
      assert HasLiberty(g.board, Component(g.board, p));
      UntouchedGroupGrows(b1, g.curPlayer, caps, b2, p);
      GroupBreathedBefore(g.board, pos, g.curPlayer, b1, p);
      UntouchedGroupBreathes(b1, g.curPlayer, caps, b2, p);
    }
  }

  /** `play` keeps every group breathing, whatever the point and the state of the game. */
  lemma PlayKeepsLiberties(g: Game, pos: Pos)
    requires Valid(g) && InBounds(g.board, pos)
    ensures GroupsBreathe(g.board) ==> GroupsBreathe(Play(g, pos).board)
  {
    if g.board.cells[pos].player != Empty {
      SameOwnersBreathe(g.board, Play(g, pos).board);
    } else if Rejected(g, pos) {
      PlayRejected(g, pos);
    } else {
      PlayAccepted(g, pos);
      var r := Play(g, pos);
      PlacedBreathes(g, pos, r.history[|r.history| - 1].captures, r.board);
    }
  }

  /**
   A new game and a reset board hold no stone; `pass` leaves the board as it
   is and `resume` only clears dead marks, so both keep every group breathing.
   */
  lemma BookkeepingKeepsLiberties(g: Game, height: nat, width: nat, whiteScore: int, blackScore: int)
    requires Valid(g)
    ensures GroupsBreathe(NewGame(height, width, whiteScore, blackScore).board)
    ensures GroupsBreathe(Reset(g).board)
    ensures GroupsBreathe(g.board) ==> GroupsBreathe(Pass(g).board) && GroupsBreathe(Resume(g).board)
  {
    SameOwnersBreathe(g.board, Resume(g).board);
  }
}
