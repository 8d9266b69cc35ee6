/**
 Groups and liberties. A group is the maximal 4-connected set of cells that
 share an owner; a liberty is an empty cell orthogonally next to one of its
 members. The engine's `find_group` walks a group from one stone and gives
 up with `[]` as soon as it meets a liberty; here the walk is a worklist
 with a visited set.
 */
module Groups {
  import opened Grid

  /** `p` has an empty orthogonal neighbour. */
  predicate LibertyAt(b: Board, p: Pos)
  {
    exists q | q in Neighbors(b, p) :: q in b.cells && b.cells[q].player == Empty
  }

  ghost predicate HasLiberty(b: Board, s: set<Pos>)
  {
    exists p | p in s :: LibertyAt(b, p)
  }

  /** `s` holds only cells owned by `pl` and every `pl`-owned neighbour of its members. */
  ghost predicate Closed(b: Board, pl: Player, s: set<Pos>)
  {
    && (forall p | p in s :: p in b.cells && b.cells[p].player == pl)
    && (forall p, q | p in s && q in Neighbors(b, p) && q in b.cells && b.cells[q].player == pl :: q in s)
  }

  /**
   The group of `start`: the cells that lie in every closed set containing
   `start`, that is, the least such set.
   */
  ghost function Component(b: Board, start: Pos): set<Pos>
    requires start in b.cells
  {
    set q | q in b.cells && forall t: set<Pos> {:trigger Closed(b, b.cells[start].player, t)} | start in t && Closed(b, b.cells[start].player, t) :: q in t
  }

  /** All cells owned by `pl`: a closed set, the witness used in `ComponentIsLeastClosed`. */
  function OwnedBy(b: Board, pl: Player): (s: set<Pos>)
    ensures forall q :: q in s <==> q in b.cells && b.cells[q].player == pl
  {
    set q | q in b.cells && b.cells[q].player == pl
  }

  lemma ComponentIsLeastClosed(b: Board, start: Pos)
    requires WellFormed(b) && start in b.cells
    ensures start in Component(b, start)
    ensures Closed(b, b.cells[start].player, Component(b, start))
    ensures forall t | start in t && Closed(b, b.cells[start].player, t) :: Component(b, start) <= t
  {
    var pl := b.cells[start].player;
    var c := Component(b, start);
    var own := OwnedBy(b, pl);
    assert Closed(b, pl, own);
    forall p | p in c
      ensures p in b.cells && b.cells[p].player == pl
    {
      assert p in own;
    }
    forall p, q | p in c && q in Neighbors(b, p) && q in b.cells && b.cells[q].player == pl
      ensures q in c
    {
      forall t | start in t && Closed(b, pl, t)
        ensures q in t
      {
        assert p in t;
      }
    }
  }

  /** Any member of a group has that same group: groups partition the stones. */
  lemma {:induction false} ComponentOfMember(b: Board, start: Pos, x: Pos)
    requires WellFormed(b) && start in b.cells
    requires x in Component(b, start)
    ensures x in b.cells && b.cells[x].player == b.cells[start].player
    ensures Component(b, x) == Component(b, start)
  {
    var pl := b.cells[start].player;
    var cs := Component(b, start);
    ComponentIsLeastClosed(b, start);
    assert x in b.cells && b.cells[x].player == pl;
    var cx := Component(b, x);
    ComponentIsLeastClosed(b, x);
    assert cx <= cs;
    var t := cs - cx;
    forall p, q | p in t && q in Neighbors(b, p) && q in b.cells && b.cells[q].player == pl
      ensures q in t
    {
      NeighborsSymmetric(b, p, q);
    }
    assert Closed(b, pl, t);
    assert x !in t;
    assert start in cx;
    assert cs <= cx;
  }

  /** The "processed" part of the walk: no liberty and every same-owner neighbour discovered. */
  ghost predicate Settled(b: Board, pl: Player, p: Pos, visited: set<Pos>)
  {
    && !LibertyAt(b, p)
    && forall q | q in Neighbors(b, p) && q in b.cells && b.cells[q].player == pl :: q in visited
  }

  /**
   What holds between steps of the walk; `group` stands for the group of
   `start`, of which only closedness is needed here.
   */
  ghost predicate WalkInvariant(b: Board, start: Pos, group: set<Pos>, stack: seq<Pos>, visited: set<Pos>, order: seq<Pos>)
  {
    && WellFormed(b)
    && start in b.cells
    && Closed(b, b.cells[start].player, group)
    && start in visited
    && visited <= group
    && Distinct(order)
    && (forall q :: q in order <==> q in visited)
    && (forall q | q in stack :: q in visited)
    && (forall q {:trigger q in visited, q in stack} | q in visited && q !in stack :: Settled(b, b.cells[start].player, q, visited))
  }

  /** The `pl`-owned neighbours of `p` not yet visited, in neighbour order. */
  function Undiscovered(b: Board, pl: Player, ns: seq<Pos>, visited: set<Pos>): (r: seq<Pos>)
    requires Distinct(ns)
    ensures Distinct(r)
    ensures forall q :: q in r <==> q in ns && q in b.cells && b.cells[q].player == pl && q !in visited
  {
    if ns == [] then []
    else
      var rest := Undiscovered(b, pl, ns[1..], visited);
      if ns[0] in b.cells && b.cells[ns[0]].player == pl && ns[0] !in visited then [ns[0]] + rest
      else rest
  }

  /** The visited set after discovering `found`. */
  function Mark(visited: set<Pos>, found: seq<Pos>): (r: set<Pos>)
    ensures forall q :: q in r <==> q in visited || q in found
  {
    visited + set q | q in found
  }

  lemma CardinalityDrops(keys: set<Pos>, visited: set<Pos>, found: set<Pos>)
    requires found <= keys && found !! visited && found != {}
    ensures |keys - (visited + found)| < |keys - visited|
  {
    var rest := keys - (visited + found);
    assert keys - visited == rest + found;
    assert rest !! found;
  }

  lemma DistinctAppend(a: seq<Pos>, c: seq<Pos>)
    requires Distinct(a) && Distinct(c)
    requires forall q | q in c :: q !in a
    ensures Distinct(a + c)
  {
    forall i, j | 0 <= i < j < |a + c|
      ensures (a + c)[i] != (a + c)[j]
    {
      if j >= |a| && i < |a| {
        assert (a + c)[j] in c;
      }
    }
  }

  /** Settling the popped stone `p` keeps every settled stone settled. */
  lemma SettledStep(b: Board, pl: Player, stack: seq<Pos>, visited: set<Pos>, found: seq<Pos>)
    requires stack != [] && !LibertyAt(b, stack[|stack| - 1])
    requires forall q :: q in found <==>
      q in Neighbors(b, stack[|stack| - 1]) && q in b.cells && b.cells[q].player == pl && q !in visited
    requires forall q {:trigger q in visited, q in stack} | q in visited && q !in stack :: Settled(b, pl, q, visited)
    ensures forall q {:trigger q in Mark(visited, found), q in stack[..|stack| - 1] + found}
      | q in Mark(visited, found) && q !in stack[..|stack| - 1] + found :: Settled(b, pl, q, Mark(visited, found))
  {
    var p := stack[|stack| - 1];
    var visited' := Mark(visited, found);
    var stack' := stack[..|stack| - 1] + found;
    assert Settled(b, pl, p, visited');
    forall q | q in visited' && q !in stack'
      ensures Settled(b, pl, q, visited')
    {
      if q != p {
        assert q in visited && q !in stack;
      }
    }
  }

  /** Appending the newly discovered stones keeps `order` an enumeration of `visited`. */
  lemma OrderStep(stack: seq<Pos>, visited: set<Pos>, order: seq<Pos>, found: seq<Pos>)
    requires stack != []
    requires Distinct(order) && (forall q :: q in order <==> q in visited)
    requires forall q | q in stack :: q in visited
    requires Distinct(found) && forall q | q in found :: q !in visited
    ensures Distinct(order + found)
    ensures forall q :: q in order + found <==> q in Mark(visited, found)
    ensures forall q | q in stack[..|stack| - 1] + found :: q in Mark(visited, found)
  {
    DistinctAppend(order, found);
  }

  /** The newly discovered stones are members of the group. */
  lemma GroupStep(b: Board, pl: Player, group: set<Pos>, p: Pos, visited: set<Pos>, found: seq<Pos>)
    requires Closed(b, pl, group) && visited <= group && p in group
    requires forall q | q in found :: q in Neighbors(b, p) && q in b.cells && b.cells[q].player == pl
    ensures Mark(visited, found) <= group
  {
  }

  /** The measure of the walk drops when stones are discovered. */
  lemma MeasureStep(b: Board, visited: set<Pos>, found: seq<Pos>)
    requires forall q | q in found :: q in b.cells && q !in visited
    ensures found == [] ==> Mark(visited, found) == visited
    ensures found != [] ==> |b.cells.Keys - Mark(visited, found)| < |b.cells.Keys - visited|
  {
    if found != [] {
      var visited' := Mark(visited, found);
      assert found[0] in visited' - visited;
      CardinalityDrops(b.cells.Keys, visited, visited' - visited);
    }
  }

  /**
   Depth-first walk: pop the last stack entry; stop with `[]` on a liberty,
   otherwise push its undiscovered same-owner neighbours. When the stack
   runs dry every discovered stone has been settled and `order` is the group.
   */
  function Explore(b: Board, start: Pos, ghost group: set<Pos>, stack: seq<Pos>, visited: set<Pos>, order: seq<Pos>): (r: seq<Pos>)
    requires WalkInvariant(b, start, group, stack, visited, order)
    requires group == Component(b, start)
    ensures r == [] <==> HasLiberty(b, group)
    ensures r != [] ==> Distinct(r) && forall q :: q in r <==> q in group
    decreases |b.cells.Keys - visited|, |stack|
  {
    if stack == [] then
      ComponentIsLeastClosed(b, start);
      assert Closed(b, b.cells[start].player, visited);
      assert start in order;
      order
    else if LibertyAt(b, stack[|stack| - 1]) then
      assert stack[|stack| - 1] in group;
      []
    else
      var found := Undiscovered(b, b.cells[start].player, Neighbors(b, stack[|stack| - 1]), visited);
      var pl := b.cells[start].player;
      var p := stack[|stack| - 1];
      SettledStep(b, pl, stack, visited, found);
      OrderStep(stack, visited, order, found);
      GroupStep(b, pl, group, p, visited, found);
      MeasureStep(b, visited, found);
      Explore(b, start, group, stack[..|stack| - 1] + found, Mark(visited, found), order + found)
  }

  /**
   `find_group([c])`: `[]` when the group of `c` has a liberty, otherwise the
   whole group, each stone once.
   */
  function FindGroup(b: Board, start: Pos): (r: seq<Pos>)
    requires WellFormed(b) && start in b.cells
    ensures r == [] <==> HasLiberty(b, Component(b, start))
    ensures r != [] ==> Distinct(r) && forall q :: q in r <==> q in Component(b, start)
    ensures forall q | q in r :: q in b.cells && b.cells[q].player == b.cells[start].player
  {
    ComponentIsLeastClosed(b, start);
    Explore(b, start, Component(b, start), [start], {start}, [start])
  }
}
