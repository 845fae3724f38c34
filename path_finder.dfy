/**
 * The taxi's grid stepper: each call moves one cell per axis toward the
 * target (diagonally when both coordinates differ) and raises the `stop`
 * flag once the taxi stands on the target.
 */
module PathFinder {
  import opened Entities

  datatype Pos = Pos(x: int, y: int)

  function Abs(n: int): nat {
    if n < 0 then -n else n
  }

  function Max(a: nat, b: nat): nat {
    if a < b then b else a
  }

  /** The move `getNextPosition` makes on one axis. */
  function StepAxis(current: int, target: int): (r: int)
    ensures Abs(r - current) <= 1
    ensures Abs(target - r) == if current == target then 0 else Abs(target - current) - 1
    ensures current <= target ==> current <= r <= target
    ensures target <= current ==> target <= r <= current
  {
    if target < current then current - 1
    else if target > current then current + 1
    else current
  }

  /** The number of moves to reach `t` from `p`: the larger of the two axis distances. */
  function Dist(p: Pos, t: Pos): nat {
    Max(Abs(t.x - p.x), Abs(t.y - p.y))
  }

  /** One call of `getNextPosition`, on positions: it takes the taxi exactly one move closer. */
  function Step(p: Pos, t: Pos): (q: Pos)
    ensures Dist(q, t) == if p == t then 0 else Dist(p, t) - 1
    ensures q == t <==> Dist(p, t) <= 1
  {
    Pos(StepAxis(p.x, t.x), StepAxis(p.y, t.y))
  }

  /** The position after `n` calls. */
  function Walk(p: Pos, t: Pos, n: nat): Pos
    decreases n
  {
    if n == 0 then p else Walk(Step(p, t), t, n - 1)
  }

  /**
   * The taxi stands on the target after `n` calls exactly when `n` is at
   * least the distance: it arrives after `Dist` calls and stays there.
   */
  lemma {:induction false} WalkArrives(p: Pos, t: Pos, n: nat)
    ensures Walk(p, t, n) == t <==> n >= Dist(p, t)
    decreases n
  {
    if n > 0 {
      WalkArrives(Step(p, t), t, n - 1);
    }
  }

  /**
   * The positions reported along a leg: every position reached before the
   * one that lands on the target, in order.
   */
  function Path(p: Pos, t: Pos): (path: seq<Pos>)
    ensures |path| == if Dist(p, t) == 0 then 0 else Dist(p, t) - 1
    decreases Dist(p, t)
  {
    var q := Step(p, t);
    if q == t then [] else [q] + Path(q, t)
  }

  /** The i-th reported position is the position after i + 1 calls, and it is never the target. */
  lemma {:induction false} PathIsWalk(p: Pos, t: Pos, i: nat)
    requires i < |Path(p, t)|
    ensures Path(p, t)[i] == Walk(p, t, i + 1)
    ensures Path(p, t)[i] != t
    decreases i
  {
    if i > 0 {
      PathIsWalk(Step(p, t), t, i - 1);
    }
  }

  /** The taxi's position, its arrival flag and its phase, shared with the sensor listener. */
  class ShortestPathFinder {
    var currentX: int
    var currentY: int
    var stop: bool
    var taxiState: TaxiState

    constructor()
      ensures currentX == 0 && currentY == 0 && !stop && taxiState == Assigned
    {
      currentX := 0;
      currentY := 0;
      stop := false;
      taxiState := Assigned;
    }

    function Position(): Pos
      reads this
    {
      Pos(currentX, currentY)
    }

    /**
     * `getNextPosition`: one move toward (endX, endY); `stop` is raised on
     * arrival and never lowered here; the phase is left alone.
     */
    method GetNextPosition(endX: int, endY: int) returns (xy: (int, int))
      modifies this
      ensures Position() == Step(old(Position()), Pos(endX, endY))
      ensures stop == (old(stop) || Position() == Pos(endX, endY))
      ensures taxiState == old(taxiState)
      ensures xy == (currentX, currentY)
    {
      if endX < currentX {
        currentX := currentX - 1;
      } else if endX > currentX {
        currentX := currentX + 1;
      }
      if endY < currentY {
        currentY := currentY - 1;
      } else if endY > currentY {
        currentY := currentY + 1;
      }
      if currentY == endY && currentX == endX {
        stop := true;
      }
      xy := (currentX, currentY);
    }
  }
}
