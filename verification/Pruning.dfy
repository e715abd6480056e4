/** What pruning leaves out: neighbours that the tile before leads to as well, for the same cost. */
module Pruning {
  import opened Positions
  import opened Terrain
  import opened Searches
  import opened JumpPoints
  import Jps

  /** From `u` there is a way to `v` past `n`: over another tile beside `n`, of the same cost. */
  predicate LeadsRound(q: Query, u: Pos, n: Pos, v: Pos, w: Pos)
    requires q.Valid()
  {
    w != n && Adjacent(w, n) && CanMove(u, w) && CanMove(w, v) && q.Cost(w) == q.Cost(n)
  }

  ghost predicate Round(q: Query, u: Pos, n: Pos, v: Pos)
    requires q.Valid()
  {
    exists w :: LeadsRound(q, u, n, v, w)
  }

  /** The direction of travel, or one of its two parts. */
  predicate InFront(dx: int, dy: int, ex: int, ey: int) {
    IsDirection(ex, ey) && (ex == dx || ex == 0) && (ey == dy || ey == 0)
  }

  /** Arriving at `n` in direction `dx`, `dy`, a neighbour must be looked for from here. */
  ghost predicate Needed(q: Query, n: Pos, dx: int, dy: int, ex: int, ey: int)
    requires q.Valid()
  {
    var u, v := n.Translate(-dx, -dy), n.Translate(ex, ey);
    IsDirection(ex, ey) && v != u && !Adjacent(u, v) && (InFront(dx, dy, ex, ey) || !Round(q, u, n, v))
  }

  // The steps of an expansion, one direction at a time

  predicate Around(p: Pos) {
    BorderSide(p.xx) == 0 && BorderSide(p.yy) == 0
  }

  lemma AroundInside(p: Pos)
    requires AroundIsInterior(p)
    ensures Interior(p) && Around(p)
  {
    assert Interior(p.Translate(0, 0)) && Interior(p.Translate(1, 1)) && Interior(p.Translate(-1, -1));
    BorderCoords(p.xx);
    BorderCoords(p.xx + 1);
    BorderCoords(p.xx - 1);
    BorderCoords(p.yy);
    BorderCoords(p.yy + 1);
    BorderCoords(p.yy - 1);
  }

  /** Tiles around an inner tile may be entered from one another. */
  lemma AroundMoves(n: Pos, a: Pos, b: Pos)
    requires AroundIsInterior(n) && (a == n || Adjacent(a, n))
    ensures CanMove(a, b) <==> Adjacent(a, b)
  {
    hide IsBorderCoord;
    var dx, dy := a.xx - n.xx, a.yy - n.yy;
    assert Interior(n.Translate(dx, dy)) && n.Translate(dx, dy) == a;
    BorderCoords(a.xx);
    BorderCoords(a.yy);
  }

  /** The tile beside, on the way round: for straight travel that beside `n`, else the one behind it on that side. */
  function BesideOf(dx: int, dy: int, ex: int, ey: int): (int, int) {
    if dy == 0 then (0, ey) else if dx == 0 then (ex, 0) else if ex == -dx then (-dx, 0) else (0, -dy)
  }

  /** Neighbours askew that the tile before does not lead to: it leads round exactly over the tile beside. */
  lemma RoundIffBeside(q: Query, n: Pos, dx: int, dy: int, ex: int, ey: int)
    requires q.Valid() && AroundIsInterior(n) && IsDirection(dx, dy) && IsDirection(ex, ey) && !InFront(dx, dy, ex, ey)
    requires var u, v := n.Translate(-dx, -dy), n.Translate(ex, ey); v != u && !Adjacent(u, v)
    ensures ex != 0 && ey != 0
    ensures var (sx, sy) := BesideOf(dx, dy, ex, ey);
      Round(q, n.Translate(-dx, -dy), n, n.Translate(ex, ey)) <==> q.Cost(n.Translate(sx, sy)) == q.Cost(n)
  {
    hide Query.Cost, CanMove, AroundIsInterior;
    var u, v := n.Translate(-dx, -dy), n.Translate(ex, ey);
    var (sx, sy) := BesideOf(dx, dy, ex, ey);
    var w := n.Translate(sx, sy);
    AroundMoves(n, u, w);
    AroundMoves(n, w, v);
    if q.Cost(w) == q.Cost(n) {
      assert LeadsRound(q, u, n, v, w);
    }
    forall x | LeadsRound(q, u, n, v, x) ensures x == w {
      AroundMoves(n, u, x);
      AroundMoves(n, x, v);
    }
  }

  /** A step is pushed if and only if it lies in a direction that must be looked in. */
  lemma SuccessorsAreNeeded(q: Query, n: Pos, dx: int, dy: int, st: Step)
    requires q.Valid() && Inner(q, n) && AroundIsInterior(n) && IsDirection(dx, dy)
    ensures st in Jps.Successors(q, n, dx, dy) <==>
      exists ex, ey :: IsDirection(ex, ey) && Needed(q, n, dx, dy, ex, ey) && st in JumpStep(q, n, ex, ey)
  {
    hide Query.Cost, JumpStep, AroundIsInterior, Needed;
    AroundInside(n);
    forall ex, ey | IsDirection(ex, ey) && Needed(q, n, dx, dy, ex, ey) && st in JumpStep(q, n, ex, ey)
      ensures st in Jps.Successors(q, n, dx, dy)
    {
      NeededIsPushed(q, n, dx, dy, ex, ey, st);
    }
    if st in Jps.Successors(q, n, dx, dy) {
      var ex, ey := PushedIsNeeded(q, n, dx, dy, st);
    }
  }

  lemma NeededIsPushed(q: Query, n: Pos, dx: int, dy: int, ex: int, ey: int, st: Step)
    requires q.Valid() && Inner(q, n) && AroundIsInterior(n) && Around(n) && IsDirection(dx, dy)
    requires IsDirection(ex, ey) && Needed(q, n, dx, dy, ex, ey) && st in JumpStep(q, n, ex, ey)
    ensures st in Jps.Successors(q, n, dx, dy)
  {
    hide Query.Cost, JumpStep, AroundIsInterior, Round, BorderSide;
    if !InFront(dx, dy, ex, ey) {
      RoundIffBeside(q, n, dx, dy, ex, ey);
      assert st in SideStep(q, n, BesideOf(dx, dy, ex, ey), ex, ey);
    }
  }

  lemma PushedIsNeeded(q: Query, n: Pos, dx: int, dy: int, st: Step) returns (ex: int, ey: int)
    requires q.Valid() && Inner(q, n) && AroundIsInterior(n) && Around(n) && IsDirection(dx, dy)
    requires st in Jps.Successors(q, n, dx, dy)
    ensures IsDirection(ex, ey) && Needed(q, n, dx, dy, ex, ey) && st in JumpStep(q, n, ex, ey)
  {
    hide Query.Cost, JumpStep, AroundIsInterior, Round, BorderSide;
    ex, ey := PushedSomewhere(q, n, dx, dy, st);
    if !InFront(dx, dy, ex, ey) {
      RoundIffBeside(q, n, dx, dy, ex, ey);
    }
  }

  /** Straight on, or askew because of the tile beside. */
  lemma PushedSomewhere(q: Query, n: Pos, dx: int, dy: int, st: Step) returns (ex: int, ey: int)
    requires q.Valid() && Inner(q, n) && Around(n) && IsDirection(dx, dy)
    requires st in Jps.Successors(q, n, dx, dy)
    ensures IsDirection(ex, ey) && st in JumpStep(q, n, ex, ey)
    ensures var u, v := n.Translate(-dx, -dy), n.Translate(ex, ey); v != u && !Adjacent(u, v)
    ensures InFront(dx, dy, ex, ey) ||
      var (sx, sy) := BesideOf(dx, dy, ex, ey); q.Cost(n.Translate(sx, sy)) != q.Cost(n)
  {
    hide Query.Cost, JumpStep, BorderSide;
    if dx != 0 && st in JumpStep(q, n, dx, 0) {
      return dx, 0;
    } else if dy != 0 && st in JumpStep(q, n, 0, dy) {
      return 0, dy;
    } else if st in JumpStep(q, n, dx, dy) {
      return dx, dy;
    } else if dy == 0 {
      if st in SideStep(q, n, (0, 1), dx, 1) { return dx, 1; } else { return dx, -1; }
    } else if dx == 0 {
      if st in SideStep(q, n, (1, 0), 1, dy) { return 1, dy; } else { return -1, dy; }
    } else {
      if st in SideStep(q, n, (-dx, 0), -dx, dy) { return -dx, dy; } else { return dx, -dy; }
    }
  }

  // On any inner tile

  /** Of a passable neighbour, the step onto it is among `steps`, or the jump from there on, unless it lands nowhere. */
  predicate LooksFor(q: Query, n: Pos, v: Pos, steps: seq<Step>)
    requires q.Valid() && Adjacent(n, v)
  {
    || Step(v, q.Cost(v)) in steps
    || (v.InWorld() && Interior(v) && q.Cost(v) == q.Cost(n)
        && var r := Jump(q, v, v.xx - n.xx, v.yy - n.yy, q.Cost(v)); r == NOWHERE || exists st :: st in steps && st.pos == r)
  }

  lemma JumpStepLooks(q: Query, n: Pos, ex: int, ey: int, steps: seq<Step>)
    requires q.Valid() && Inner(q, n) && IsDirection(ex, ey) && q.Cost(n.Translate(ex, ey)) != OBSTACLE
    requires forall st :: st in JumpStep(q, n, ex, ey) ==> st in steps
    ensures LooksFor(q, n, n.Translate(ex, ey), steps)
  {
    hide Query.Cost, Jump, Interior;
    NeighbourInRoom(n, ex, ey);
    var v := n.Translate(ex, ey);
    if q.Cost(v) != q.Cost(n) || !Interior(v) {
      assert Step(v, q.Cost(v)) in JumpStep(q, n, ex, ey);
    } else {
      var r := Jump(q, v, ex, ey, q.Cost(v));
      if r != NOWHERE {
        var st := Step(r, q.Cost(v) * (n.RangeTo(r) - 1) + q.Cost(r));
        assert st in JumpStep(q, n, ex, ey);
      }
    }
  }

  lemma PlainStepLooks(q: Query, n: Pos, ex: int, ey: int, steps: seq<Step>)
    requires q.Valid() && IsDirection(ex, ey) && q.Cost(n.Translate(ex, ey)) != OBSTACLE
    requires forall st :: st in PlainStep(q, n.Translate(ex, ey)) ==> st in steps
    ensures LooksFor(q, n, n.Translate(ex, ey), steps)
  {
    hide Query.Cost, Jump;
    assert Step(n.Translate(ex, ey), q.Cost(n.Translate(ex, ey))) in PlainStep(q, n.Translate(ex, ey));
  }

  /**
   * Every passable neighbour is the tile before, or that one leads there too, straight or round, or it is
   * looked for. Only on the border of a room, going in, are there others.
   */
  lemma PruningLosesNothing(q: Query, n: Pos, dx: int, dy: int, v: Pos)
    requires q.Valid() && Inner(q, n) && IsDirection(dx, dy) && CanMove(n, v) && q.Cost(v) != OBSTACLE
    requires Interior(v) || Interior(n.Translate(-dx, -dy))
    ensures var u := n.Translate(-dx, -dy);
      v == u || CanMove(u, v) || Round(q, u, n, v) || LooksFor(q, n, v, Jps.Successors(q, n, dx, dy))
  {
    hide Query.Cost, JumpStep, PlainStep, SideStep, CanMove, Round, LooksFor, IsBorderCoord, BorderSide;
    var u, ex, ey := n.Translate(-dx, -dy), v.xx - n.xx, v.yy - n.yy;
    var steps := Jps.Successors(q, n, dx, dy);
    assert v == n.Translate(ex, ey) && IsDirection(ex, ey) by { MovesAreSteps(n, v); }
    if InFront(dx, dy, ex, ey) {
      if ex == 0 || ey == 0 {
        StraightLooks(q, n, dx, dy, ex, ey);
      } else {
        JumpStepLooks(q, n, ex, ey, steps);
      }
    } else if v != u && !CanMove(u, v) {
      AskewIsBeside(n, dx, dy, ex, ey);
      var (sx, sy) := BesideOf(dx, dy, ex, ey);
      var w := n.Translate(sx, sy);
      if q.Cost(w) == q.Cost(n) && CanMove(u, w) && CanMove(w, v) {
        assert LeadsRound(q, u, n, v, w);
        IsRound(q, u, n, v, w);
      } else {
        AskewLooks(q, n, dx, dy, ex, ey);
        JumpStepLooks(q, n, ex, ey, steps);
      }
    }
  }

  lemma MovesAreSteps(n: Pos, v: Pos)
    requires CanMove(n, v)
    ensures IsDirection(v.xx - n.xx, v.yy - n.yy)
  {
  }

  lemma IsRound(q: Query, u: Pos, n: Pos, v: Pos, w: Pos)
    requires q.Valid() && LeadsRound(q, u, n, v, w)
    ensures Round(q, u, n, v)
  {
  }

  lemma StraightLooks(q: Query, n: Pos, dx: int, dy: int, ex: int, ey: int)
    requires q.Valid() && Inner(q, n) && IsDirection(dx, dy) && InFront(dx, dy, ex, ey) && (ex == 0 || ey == 0)
    requires q.Cost(n.Translate(ex, ey)) != OBSTACLE
    ensures LooksFor(q, n, n.Translate(ex, ey), Jps.Successors(q, n, dx, dy))
  {
    hide Query.Cost, JumpStep, PlainStep, SideStep, LooksFor, BorderSide, IsBorderCoord;
    var steps := Jps.Successors(q, n, dx, dy);
    if (if ex != 0 then BorderSide(n.yy) else BorderSide(n.xx)) == 0 {
      JumpStepLooks(q, n, ex, ey, steps);
    } else {
      PlainStepLooks(q, n, ex, ey, steps);
    }
  }

  /** What is left is askew, and beside it is a tile that the one before leads to. */
  lemma AskewIsBeside(n: Pos, dx: int, dy: int, ex: int, ey: int)
    requires Interior(n) && IsDirection(dx, dy) && IsDirection(ex, ey) && !InFront(dx, dy, ex, ey)
    requires var u, v := n.Translate(-dx, -dy), n.Translate(ex, ey); v != u && !CanMove(u, v) && (Interior(v) || Interior(u))
    ensures ex != 0 && ey != 0
    ensures dx == 0 || dy == 0 ==> (ex == dx || dx == 0) && (ey == dy || dy == 0)
    ensures dx != 0 && dy != 0 ==> (ex == -dx && ey == dy) || (ex == dx && ey == -dy)
    ensures var (sx, sy) := BesideOf(dx, dy, ex, ey); var w := n.Translate(sx, sy);
      && w != n && Adjacent(w, n)
      && ((CanMove(n.Translate(-dx, -dy), w) && CanMove(w, n.Translate(ex, ey)))
          || (dy == 0 && BorderSide(n.yy) == ey) || (dx == 0 && BorderSide(n.xx) == ex))
  {
    BorderCoords(n.xx);
    BorderCoords(n.yy);
    BorderCoords(n.xx + 1);
    BorderCoords(n.xx - 1);
    BorderCoords(n.yy + 1);
    BorderCoords(n.yy - 1);
  }

  lemma AskewLooks(q: Query, n: Pos, dx: int, dy: int, ex: int, ey: int)
    requires q.Valid() && Inner(q, n) && IsDirection(dx, dy) && IsDirection(ex, ey) && ex != 0 && ey != 0
    requires dx == 0 || dy == 0 ==> (ex == dx || dx == 0) && (ey == dy || dy == 0)
    requires dx != 0 && dy != 0 ==> (ex == -dx && ey == dy) || (ex == dx && ey == -dy)
    requires var (sx, sy) := BesideOf(dx, dy, ex, ey);
      q.Cost(n.Translate(sx, sy)) != q.Cost(n) || (dy == 0 && BorderSide(n.yy) == ey) || (dx == 0 && BorderSide(n.xx) == ex)
    ensures forall st :: st in JumpStep(q, n, ex, ey) ==> st in Jps.Successors(q, n, dx, dy)
  {
    hide Query.Cost, JumpStep, PlainStep, BorderSide, IsBorderCoord;
    var forced := ForcedSteps(q, n, dx, dy);
    forall st | st in JumpStep(q, n, ex, ey) ensures st in forced {
    }
  }

  // Jumps

  /** From `p` a jump passes over its tile `i`: of the cost it runs at, behind the first, and no jump point. */
  predicate PassesOver(q: Query, p: Pos, dx: int, dy: int, cost: nat, i: nat)
    requires q.Valid() && IsDirection(dx, dy)
  {
    var w := Walk(p, dx, dy, i);
    w.InWorld() && Interior(w) && (i > 0 ==> q.Cost(w) == cost) && !JumpPoint(q, w, dx, dy, cost)
  }

  /** And ends at its tile `k`: at a jump point, a tile of another cost, or before an obstacle, then nowhere. */
  predicate EndsAt(q: Query, p: Pos, dx: int, dy: int, cost: nat, k: nat, r: Pos)
    requires q.Valid() && IsDirection(dx, dy)
  {
    var w := Walk(p, dx, dy, k);
    if k > 0 && q.Cost(w) == OBSTACLE then r == NOWHERE
    else r == w && w.InWorld() && Interior(w) && ((k > 0 && q.Cost(w) != cost) || JumpPoint(q, w, dx, dy, cost))
  }

  lemma {:induction false} JumpPassesOver(q: Query, p: Pos, dx: int, dy: int, cost: nat) returns (k: nat)
    requires q.Valid() && p.InWorld() && Interior(p) && IsDirection(dx, dy) && cost != OBSTACLE
    ensures forall i: nat :: i < k ==> PassesOver(q, p, dx, dy, cost, i)
    ensures EndsAt(q, p, dx, dy, cost, k, Jump(q, p, dx, dy, cost))
    decreases Left(p, dx, dy)
  {
    hide Query.Cost, JumpPoint, Jump, Query.H, Interior, RoomOf, Left;
    assert Walk(p, dx, dy, 0) == p;
    WalkFromNext(p, dx, dy, 0);
    var next := p.Translate(dx, dy);
    if JumpPoint(q, p, dx, dy, cost) {
      JumpEnds(q, p, dx, dy, cost);
      k := 0;
    } else {
      JumpOnward(q, p, dx, dy, cost);
      assert Walk(p, dx, dy, 1) == next;
      if q.Cost(next) != cost {
        k := 1;
      } else {
        var j := JumpPassesOver(q, next, dx, dy, cost);
        k := j + 1;
        forall i: nat | i < k ensures PassesOver(q, p, dx, dy, cost, i) {
          if i > 0 {
            WalkFromNext(p, dx, dy, i - 1);
            assert PassesOver(q, next, dx, dy, cost, i - 1);
            if i == 1 { assert Walk(next, dx, dy, 0) == next; }
          }
        }
        WalkFromNext(p, dx, dy, j);
        assert j == 0 ==> Walk(next, dx, dy, 0) == next;
      }
    }
  }

  /** Askew jumps look along the row and the column of each tile: from there, nothing is found. */
  predicate LookedAside(q: Query, n: Pos, dx: int, dy: int, cost: nat, v: Pos)
    requires q.Valid()
  {
    && dx != 0 && dy != 0 && v.InWorld() && Interior(v)
    && ((IsDirection(dx, 0) && v == n.Translate(dx, 0) && Jump(q, v, dx, 0, cost) == NOWHERE)
        || (IsDirection(0, dy) && v == n.Translate(0, dy) && Jump(q, v, 0, dy, cost) == NOWHERE))
  }

  /**
   * A tile that is passed over is no goal, and every passable neighbour of it is the tile before or the next one,
   * or the tile before leads there too, straight or round, or a jump aside found nothing there.
   */
  lemma PassingLosesNothing(q: Query, n: Pos, dx: int, dy: int, v: Pos)
    requires q.Valid() && n.InWorld() && AroundIsInterior(n) && IsDirection(dx, dy) && Interior(n)
    requires q.Cost(n) != OBSTACLE
    requires !JumpPoint(q, n, dx, dy, q.Cost(n)) && Adjacent(n, v) && q.Cost(v) != OBSTACLE
    ensures q.H(n) != 0
    ensures var u := n.Translate(-dx, -dy);
      v == u || v == n.Translate(dx, dy) || Adjacent(u, v) || Round(q, u, n, v) || LookedAside(q, n, dx, dy, q.Cost(n), v)
  {
    hide Query.Cost, Query.H, CanMove, Round, AroundIsInterior, Jump;
    var u, ex, ey := n.Translate(-dx, -dy), v.xx - n.xx, v.yy - n.yy;
    assert v == n.Translate(ex, ey);
    if v != u && !Adjacent(u, v) {
      if InFront(dx, dy, ex, ey) {
        if ex == 0 || ey == 0 {
          if dx != 0 && dy != 0 {
            AsideIsLookedFor(q, n, dx, dy, ex, ey);
          }
        }
      } else {
        RoundIffBeside(q, n, dx, dy, ex, ey);
        NotForced(q, n, dx, dy, ex, ey);
      }
    }
  }

  lemma AsideIsLookedFor(q: Query, n: Pos, dx: int, dy: int, ex: int, ey: int)
    requires q.Valid() && n.InWorld() && AroundIsInterior(n) && IsDirection(dx, dy) && Interior(n) && dx != 0 && dy != 0
    requires !JumpPoint(q, n, dx, dy, q.Cost(n)) && InFront(dx, dy, ex, ey) && (ex == 0 || ey == 0)
    requires q.Cost(n.Translate(ex, ey)) != OBSTACLE
    ensures LookedAside(q, n, dx, dy, q.Cost(n), n.Translate(ex, ey))
  {
    hide Query.Cost, Query.H, Jump;
  }

  lemma NotForced(q: Query, n: Pos, dx: int, dy: int, ex: int, ey: int)
    requires q.Valid() && n.InWorld() && IsDirection(dx, dy) && Interior(n)
    requires !JumpPoint(q, n, dx, dy, q.Cost(n)) && IsDirection(ex, ey) && !InFront(dx, dy, ex, ey) && ex != 0
    requires ey != 0
    requires var u, v := n.Translate(-dx, -dy), n.Translate(ex, ey); v != u && !Adjacent(u, v)
    requires q.Cost(n.Translate(ex, ey)) != OBSTACLE
    ensures var (sx, sy) := BesideOf(dx, dy, ex, ey); q.Cost(n.Translate(sx, sy)) == q.Cost(n)
  {
    hide Query.Cost, Query.H, Jump, JumpPoint, Interior;
    PassedIsNotForced(q, n, dx, dy, q.Cost(n));
  }

  /** None of the tiles beside a tile passed over forces one beyond it. */
  lemma PassedIsNotForced(q: Query, n: Pos, dx: int, dy: int, cost: nat)
    requires q.Valid() && n.InWorld() && IsDirection(dx, dy) && Interior(n) && !JumpPoint(q, n, dx, dy, cost)
    ensures dy == 0 ==> !Forced(q, n, (0, -1), (dx, -1), cost) && !Forced(q, n, (0, 1), (dx, 1), cost)
    ensures dx == 0 ==> !Forced(q, n, (-1, 0), (-1, dy), cost) && !Forced(q, n, (1, 0), (1, dy), cost)
    ensures dx != 0 && dy != 0 ==> !Forced(q, n, (-dx, 0), (-dx, dy), cost) && !Forced(q, n, (0, -dy), (dx, -dy), cost)
  {
    hide Query.Cost, Query.H, Jump, Forced, IsBorderCoord, IsNearBorderCoord;
  }

  /** Beside the border an expansion goes step by step, since every tile there leads out of the room. */
  lemma StepsAlongBorder(q: Query, n: Pos, dx: int, dy: int, ex: int, ey: int)
    requires q.Valid() && Inner(q, n) && IsDirection(dx, dy) && InFront(dx, dy, ex, ey)
    requires (ey == 0 && (n.yy % 50 == 1 || n.yy % 50 == 48)) || (ex == 0 && (n.xx % 50 == 1 || n.xx % 50 == 48))
    requires q.Cost(n.Translate(ex, ey)) != OBSTACLE
    ensures Step(n.Translate(ex, ey), q.Cost(n.Translate(ex, ey))) in Jps.Successors(q, n, dx, dy)
  {
    hide Query.Cost, JumpStep, SideStep;
  }

  /** Its jumps pass over tiles that are apart from the border. */
  lemma PassedAreInside(q: Query, n: Pos, ex: int, ey: int, cost: nat, i: nat)
    requires q.Valid() && Inner(q, n) && IsDirection(ex, ey)
    requires (ey == 0 ==> n.yy % 50 != 1 && n.yy % 50 != 48) && (ex == 0 ==> n.xx % 50 != 1 && n.xx % 50 != 48)
    requires PassesOver(q, n.Translate(ex, ey), ex, ey, cost, i)
    ensures AroundIsInterior(Walk(n.Translate(ex, ey), ex, ey, i))
  {
    hide Query.Cost, Query.H, JumpPoint, Jump, Left, AroundIsInterior, IsBorderCoord, IsNearBorderCoord;
    var v := n.Translate(ex, ey);
    var w := Walk(v, ex, ey, i);
    WalkGoes(v, ex, ey, i);
    NotNearBorder(q, w, ex, ey, cost);
    BorderCoords(w.xx);
    BorderCoords(w.yy);
    StepsStayInside(w);
  }

  lemma NotNearBorder(q: Query, p: Pos, dx: int, dy: int, cost: nat)
    requires q.Valid() && p.InWorld() && Interior(p) && IsDirection(dx, dy) && !JumpPoint(q, p, dx, dy, cost)
    ensures !NearBorder(p, dx, dy)
  {
    hide Query.Cost, Query.H, Jump, NearBorder, Forced;
  }
}
