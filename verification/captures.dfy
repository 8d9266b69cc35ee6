/**
 Capture resolution: after a stone is placed, every orthogonally adjacent
 opponent group left without a liberty is removed from the board.
 */
module Captures {
  import opened Grid
  import opened Groups

  /** `x` is a stone of a liberty-less `-pl` group that contains the neighbour `n`. */
  ghost predicate InCapturedGroup(b: Board, pl: Player, n: Pos, x: Pos)
  {
    && n in b.cells
    && b.cells[n].player == -pl
    && !HasLiberty(b, Component(b, n))
    && x in Component(b, n)
  }

  /** `acc` is a duplicate-free union of whole groups of `-pl` stones. */
  ghost predicate UnionOfGroups(b: Board, pl: Player, acc: seq<Pos>)
  {
    && WellFormed(b)
    && Distinct(acc)
    && (forall x | x in acc :: x in b.cells && b.cells[x].player == -pl)
    && (forall x, y | x in acc && x in b.cells && y in Component(b, x) :: y in acc)
  }

  /** Adding the group found from a neighbour not yet in `acc` keeps `acc` a duplicate-free union of groups. */
  lemma AddGroup(b: Board, pl: Player, acc: seq<Pos>, n: Pos)
    requires UnionOfGroups(b, pl, acc)
    requires n in b.cells && b.cells[n].player == -pl && n !in acc
    ensures UnionOfGroups(b, pl, acc + FindGroup(b, n))
  {
    var g := FindGroup(b, n);
    ComponentIsLeastClosed(b, n);
    forall x | x in g
      ensures x !in acc
      ensures x in b.cells && b.cells[x].player == -pl
      ensures Component(b, x) == Component(b, n)
    {
      ComponentOfMember(b, n, x);
    }
    DistinctAppend(acc, g);
  }

  /**
   The scan of the neighbours `ns` in order: a `-pl` neighbour not already
   collected contributes its group when that group has no liberty.
   */
  function CollectCaptures(b: Board, pl: Player, ns: seq<Pos>, acc: seq<Pos>): (r: seq<Pos>)
    requires UnionOfGroups(b, pl, acc)
    requires forall n | n in ns :: n in b.cells
    ensures Distinct(r)
    ensures forall x | x in r :: x in b.cells && b.cells[x].player == -pl
    decreases |ns|
  {
    if ns == [] then acc
    else
      var n := ns[0];
      if n !in acc && b.cells[n].player == -pl then
        AddGroup(b, pl, acc, n);
        CollectCaptures(b, pl, ns[1..], acc + FindGroup(b, n))
      else
        CollectCaptures(b, pl, ns[1..], acc)
  }

  /** The scan collects exactly the stones of liberty-less `-pl` groups met at the scanned neighbours. */
  lemma {:induction false} CollectCapturesExact(b: Board, pl: Player, ns: seq<Pos>, acc: seq<Pos>)
    requires UnionOfGroups(b, pl, acc)
    requires forall n | n in ns :: n in b.cells
    ensures forall x :: x in CollectCaptures(b, pl, ns, acc) <==>
      x in acc || exists n | n in ns :: InCapturedGroup(b, pl, n, x)
    decreases |ns|
  {
    if ns != [] {
      var n := ns[0];
      if n !in acc && b.cells[n].player == -pl {
        AddGroup(b, pl, acc, n);
        CollectCapturesExact(b, pl, ns[1..], acc + FindGroup(b, n));
      } else {
        CollectCapturesExact(b, pl, ns[1..], acc);
      }
      assert ns == [n] + ns[1..];
    }
  }

  /**
   `capture(cell)`: the stones removed by the stone at `p`, and the board with
   them emptied: those points become empty, nothing else changes.
   */
  function Capture(b: Board, p: Pos): (r: (Board, seq<Pos>))
    requires WellFormed(b) && p in b.cells
    ensures WellFormed(r.0) && r.0.height == b.height && r.0.width == b.width
    ensures Distinct(r.1)
    ensures forall x | x in r.1 :: x in b.cells && b.cells[x].player == -b.cells[p].player
    ensures forall q | q in b.cells && q in r.1 :: r.0.cells[q] == Cell(Empty, b.cells[q].dead)
    ensures forall q | q in b.cells && q !in r.1 :: r.0.cells[q] == b.cells[q]
  {
    var caps := CollectCaptures(b, b.cells[p].player, Neighbors(b, p), []);
    (Fill(b, caps, Empty), caps)
  }

  /** The stones `capture` removes are exactly those of liberty-less opponent groups next to `p`. */
  lemma CaptureExact(b: Board, p: Pos)
    requires WellFormed(b) && p in b.cells
    ensures forall x :: x in Capture(b, p).1 <==>
      exists n | n in Neighbors(b, p) :: InCapturedGroup(b, b.cells[p].player, n, x)
  {
    CollectCapturesExact(b, b.cells[p].player, Neighbors(b, p), []);
  }
}
