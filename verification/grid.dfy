/**
 The Go board of the rules engine: a `height × width` grid of cells, each
 holding the owning player (-1 Black, 1 White, 0 empty) and an advisory
 `dead` mark used after the game ends.
 */
module Grid {

  /** Player values as the engine stores them. */
  type Player = p: int | -1 <= p <= 1

  const Black: Player := -1
  const White: Player := 1
  const Empty: Player := 0

  datatype Pos = Pos(row: int, col: int)

  datatype Cell = Cell(player: Player, dead: bool)

  datatype Board = Board(height: nat, width: nat, cells: map<Pos, Cell>)

  predicate InBounds(b: Board, p: Pos)
  {
    0 <= p.row < b.height && 0 <= p.col < b.width
  }

  /** Exactly one cell per on-board coordinate. */
  ghost predicate WellFormed(b: Board)
  {
    forall p :: p in b.cells <==> InBounds(b, p)
  }

  /** Orthogonal adjacency. */
  predicate Adjacent(p: Pos, q: Pos)
  {
    || (p.row == q.row && (p.col - q.col == 1 || q.col - p.col == 1))
    || (p.col == q.col && (p.row - q.row == 1 || q.row - p.row == 1))
  }

  predicate Distinct<T(==)>(s: seq<T>)
  {
    forall i, j | 0 <= i < j < |s| :: s[i] != s[j]
  }

  /** The on-board neighbours of `p`, in the engine's order: up, left, down, right. */
  function Neighbors(b: Board, p: Pos): (r: seq<Pos>)
    ensures forall q :: q in r <==> InBounds(b, q) && Adjacent(p, q)
    ensures Distinct(r)
  {
    var up := Pos(p.row - 1, p.col);
    var left := Pos(p.row, p.col - 1);
    var down := Pos(p.row + 1, p.col);
    var right := Pos(p.row, p.col + 1);
    (if InBounds(b, up) then [up] else [])
    + (if InBounds(b, left) then [left] else [])
    + (if InBounds(b, down) then [down] else [])
    + (if InBounds(b, right) then [right] else [])
  }

  lemma NeighborsSymmetric(b: Board, p: Pos, q: Pos)
    requires InBounds(b, p) && InBounds(b, q)
    ensures q in Neighbors(b, p) <==> p in Neighbors(b, q)
  {
  }

  function Positions(height: nat, width: nat): (s: set<Pos>)
    ensures forall p :: p in s <==> 0 <= p.row < height && 0 <= p.col < width
  {
    set r: int, c: int | 0 <= r < height && 0 <= c < width :: Pos(r, c)
  }

  /** A fresh board: every cell empty and unmarked. */
  function EmptyBoard(height: nat, width: nat): (b: Board)
    ensures WellFormed(b) && b.height == height && b.width == width
    ensures forall p | p in b.cells :: b.cells[p] == Cell(Empty, false)
  {
    Board(height, width, map p | p in Positions(height, width) :: Cell(Empty, false))
  }

  /** Change the owner of one cell, keeping its dead mark. */
  function SetPlayer(b: Board, p: Pos, v: Player): (r: Board)
    requires p in b.cells
    ensures r.height == b.height && r.width == b.width && r.cells.Keys == b.cells.Keys
    ensures r.cells[p] == Cell(v, b.cells[p].dead)
    ensures forall q | q in b.cells && q != p :: r.cells[q] == b.cells[q]
  {
    b.(cells := b.cells[p := b.cells[p].(player := v)])
  }

  /** Give every listed cell, one after the other, the owner `v`. */
  function Fill(b: Board, ps: seq<Pos>, v: Player): (r: Board)
    requires forall p | p in ps :: p in b.cells
    ensures r.height == b.height && r.width == b.width && r.cells.Keys == b.cells.Keys
    ensures forall q | q in b.cells && q in ps :: r.cells[q] == Cell(v, b.cells[q].dead)
    ensures forall q | q in b.cells && q !in ps :: r.cells[q] == b.cells[q]
    decreases |ps|
  {
    if ps == [] then b else Fill(SetPlayer(b, ps[0], v), ps[1..], v)
  }

  /** Flip the dead mark of one cell, keeping its owner. */
  function ToggleDead(b: Board, p: Pos): (r: Board)
    requires p in b.cells
    ensures r.height == b.height && r.width == b.width && r.cells.Keys == b.cells.Keys
    ensures r.cells[p].player == b.cells[p].player && r.cells[p].dead == !b.cells[p].dead
    ensures forall q | q in b.cells && q != p :: r.cells[q] == b.cells[q]
  {
    b.(cells := b.cells[p := b.cells[p].(dead := !b.cells[p].dead)])
  }

  /** Empty every cell, keeping the dead marks. */
  function ClearOwners(b: Board): (r: Board)
    ensures r.height == b.height && r.width == b.width && r.cells.Keys == b.cells.Keys
    ensures forall q | q in b.cells :: r.cells[q] == Cell(Empty, b.cells[q].dead)
  {
    b.(cells := map q | q in b.cells :: b.cells[q].(player := Empty))
  }

  /** Clear every dead mark, keeping the owners. */
  function ClearDead(b: Board): (r: Board)
    ensures r.height == b.height && r.width == b.width && r.cells.Keys == b.cells.Keys
    ensures forall q | q in b.cells :: r.cells[q] == Cell(b.cells[q].player, false)
  {
    b.(cells := map q | q in b.cells :: b.cells[q].(dead := false))
  }
}
