/**
 The turn history: a stack of `:play` and `:pass` entries, used for undo and
 for the engine's positional ko test.
 */
module Ledger {
  import opened Grid

  /** A play records the mover, the point played and the stones it captured. */
  datatype Turn =
    | PlayTurn(player: Player, pos: Pos, captures: seq<Pos>)
    | PassTurn(player: Player)

  datatype Option<T> = None | Some(value: T)

  /**
   Walk back from index `i` towards the start, skipping passes, to the most
   recent play; index 0 is never examined.
   */
  function LastPlayFrom(h: seq<Turn>, i: int): (r: Option<nat>)
    requires i < |h|
    ensures r.Some? ==> 1 <= r.value <= i && h[r.value].PlayTurn?
    ensures r.Some? ==> forall j | r.value < j <= i :: h[j].PassTurn?
    ensures r.None? ==> forall j | 1 <= j <= i :: h[j].PassTurn?
    decreases i
  {
    if i < 1 then None
    else if h[i].PlayTurn? then Some(i)
    else LastPlayFrom(h, i - 1)
  }

  /** The ko rule stated without the backward walk. */
  ghost predicate KoPattern(h: seq<Turn>)
    requires h != [] && h[|h| - 1].PlayTurn?
  {
    && |h| >= 3
    && exists i | 1 <= i <= |h| - 2 ::
      && h[i].PlayTurn?
      && (forall j | i < j <= |h| - 2 :: h[j].PassTurn?)
      && h[i].captures == [h[|h| - 1].pos]
  }

  /**
   `ko?`, evaluated with the current play already pushed: false on a history
   shorter than 3; otherwise true exactly when the previous play (passes
   skipped, index 0 excluded) captured a single stone at the current point.
   */
  function Ko(h: seq<Turn>): (r: bool)
    requires h != [] && h[|h| - 1].PlayTurn?
    ensures r <==> KoPattern(h)
  {
    if |h| < 3 then false
    else
      match LastPlayFrom(h, |h| - 2)
      case None => false
      case Some(i) => |h[i].captures| == 1 && h[i].captures[0] == h[|h| - 1].pos
  }
}
