/**
 * Where jumps of the jump point search land, which moves its expansions make, and why its runs cross
 * room borders head-on.
 */
module JumpPoints {
  import opened Positions
  import opened Terrain
  import opened Searches

  /** indexed_position_t{}: no jump point. The tile itself is in the outer ring. */
  const NOWHERE := Pos(0, 0)

  // Borders

  /** A tile on a border that was entered in the direction `dx`, `dy` across it. */
  predicate HeadOn(p: Pos, dx: int, dy: int) {
    if IsBorderCoord(p.xx) then dx != 0 else IsBorderCoord(p.yy) && dy != 0
  }

  /** Coming from `p`, the expansion of `v` is one of a border tile, or begins inside a room, where translate may be called. */
  predicate Enters(p: Pos, v: Pos) {
    HeadOn(v, Sign(v.xx - p.xx), Sign(v.yy - p.yy)) || Interior(v)
  }

  /** From a corner, the next tile along the upper or lower border. */
  function Inward(p: Pos): Pos {
    p.Translate(if p.xx % 50 == 0 then 1 else -1, 0)
  }

  /** A move along the border: straight on into the room from a corner. */
  predicate Along(p: Pos, v: Pos) {
    Corner(p) && v == Inward(p)
  }

  /** No other move enters a tile along its border. */
  lemma {:induction false} MovesEnter(p: Pos, v: Pos)
    requires CanMove(p, v)
    ensures Enters(p, v) <==> !Along(p, v)
  {
    BorderCoords(p.xx);
    BorderCoords(p.yy);
    BorderCoords(v.xx);
    BorderCoords(v.yy);
  }

  lemma InwardIsAlong(p: Pos)
    requires Corner(p)
    ensures CanMove(p, Inward(p)) && Along(p, Inward(p)) && !Corner(Inward(p))
    ensures p.InWorld() ==> Inward(p).InWorld() && RoomOf(Inward(p)) == RoomOf(p)
  {
    BorderCoords(p.xx);
    BorderCoords(p.yy);
  }

  /** Nor does a jump. */
  lemma LinksEnter(q: Query, a: Pos, b: Pos, d: int)
    requires q.Valid() && Link(q, a, b, d)
    ensures Enters(a, b) <==> !Along(a, b)
  {
    hide Query.Cost, Enters, Along, CanMove, RunOpen, RunCost, RoomOf;
    var dx, dy, k := Sign(b.xx - a.xx), Sign(b.yy - a.yy), a.RangeTo(b);
    var w := Walk(a, dx, dy, k - 1);
    WalkToEnd(a, b);
    WalkGoes(a, dx, dy, k - 1);
    WalkGoes(a, dx, dy, k);
    MovesEnter(w, b);
    SameDirection(a, w, b);
    if k > 1 {
      AlongIsFirst(a, dx, dy, k - 1);
    }
  }

  /** A run that stays in its room does not come to a corner and go on along the border. */
  lemma AlongIsFirst(a: Pos, dx: int, dy: int, k: nat)
    requires IsDirection(dx, dy) && k > 0 && SameRoom(a, Walk(a, dx, dy, k))
    ensures !Along(a, Walk(a, dx, dy, k + 1)) && !Along(Walk(a, dx, dy, k), Walk(a, dx, dy, k + 1))
  {
    hide Walk;
    WalkGoes(a, dx, dy, k);
    WalkGoes(a, dx, dy, k + 1);
    var w := Walk(a, dx, dy, k);
    if Corner(w) && dy == 0 {
      BorderCoords(w.xx);
      assert w.xx / 50 == a.xx / 50;
    }
  }

  /** From a tile on the way. */
  lemma SameDirection(a: Pos, w: Pos, b: Pos)
    requires Sign(b.xx - w.xx) == Sign(b.xx - a.xx) && Sign(b.yy - w.yy) == Sign(b.yy - a.yy)
    ensures Enters(w, b) <==> Enters(a, b)
  {
  }

  /** Every seen tile but the origin can be expanded. */
  predicate Perpendicular(s: State) {
    forall p :: p in s.parent ==> Enters(s.parent[p], p)
  }

  /** The origin does not lead along the border, unless it is a corner beside a passable tile. */
  predicate SafeOrigin(q: Query, origin: Pos)
    requires q.Valid()
  {
    Corner(origin) ==> q.Cost(Inward(origin)) == OBSTACLE
  }

  /** Neither does any tile that a search from there can enter. */
  ghost predicate SafeCorners(q: Query, origin: Pos)
    requires q.Valid()
  {
    forall p: Pos :: p == origin || q.Cost(p) != OBSTACLE ==> SafeOrigin(q, p)
  }

  /** Terrain as it is made has walls in the corners of rooms. */
  ghost predicate CornersBlocked(q: Query)
    requires q.Valid()
  {
    forall p: Pos :: Corner(p) ==> q.Cost(p) == OBSTACLE
  }

  /** There it is for the origin alone to be safe. */
  lemma BlockedCornersAreSafe(q: Query, origin: Pos)
    requires q.Valid() && CornersBlocked(q)
    ensures SafeCorners(q, origin) <==> SafeOrigin(q, origin)
  {
    hide Query.Cost;
  }

  /** A plain room but for walls in its corners. */
  function CornerWalls(): (terrain: seq<Terrain.byte>)
    ensures |terrain| == 625
  {
    seq(625, i => if i == 0 then 1 else if i == 12 then 4 else if i == 612 then 16 else if i == 624 then 64 else 0)
  }

  /** Blocked corners do not make an origin safe: here it is the corner of the only room. */
  lemma OriginInCorner(q: Query)
    requires q.env == Env(map[Room(1, 1) := CornerWalls()], map[], 1, 5, 1) && 1.0 < q.weight <= 9.0
    ensures q.Valid() && CornersBlocked(q) && !SafeOrigin(q, Pos(50, 50))
  {
    hide Env.Cost, CornerWalls;
    forall p | Corner(p) ensures q.Cost(p) == OBSTACLE {
      CornerOfOnlyRoom(q.env, p);
    }
    BesideCorner(q.env);
  }

  lemma CornerOfOnlyRoom(env: Env, p: Pos)
    requires env == Env(map[Room(1, 1) := CornerWalls()], map[], 1, 5, 1) && Corner(p)
    ensures env.Valid() && env.Cost(p) == OBSTACLE
  {
    hide CornerWalls, RoomTerrain.TerrainLook, RoomOf;
    if p.InWorld() && env.Passable(RoomOf(p)) {
      BorderCoords(p.xx);
      BorderCoords(p.yy);
      CornerIsWall(env.TerrainOf(RoomOf(p)), env.LookTable(), p.xx % 50, p.yy % 50);
    }
  }

  lemma CornerIsWall(t: RoomTerrain, costs: seq<nat>, xx: nat, yy: nat)
    requires t.terrain == CornerWalls() && t.matrix == [] && |costs| == 4 && costs[1] == OBSTACLE
    requires xx in {0, 49} && yy in {0, 49}
    ensures t.TerrainLook(costs, xx, yy) == OBSTACLE
  {
    var index := yy * 50 + xx;
    assert index in {0, 49, 2450, 2499};
    Shifts();
  }

  lemma BesideCorner(env: Env)
    requires env == Env(map[Room(1, 1) := CornerWalls()], map[], 1, 5, 1)
    ensures env.Valid() && env.Cost(Pos(51, 50)) == 1 && Inward(Pos(50, 50)) == Pos(51, 50)
  {
    hide CornerWalls;
    var t := env.TerrainOf(Room(1, 1));
    assert RoomOf(Pos(51, 50)) == Room(1, 1);
    assert CornerWalls()[0] == 1 by { FirstWall(); }
    assert Shift(1) == 4;
  }

  lemma FirstWall()
    ensures CornerWalls()[0] == 1
  {
  }

  // Jumping

  /** Steps left before a jump comes near the border. */
  function Left(p: Pos, dx: int, dy: int): nat
    requires IsDirection(dx, dy)
  {
    if dx == 1 then 50 - p.xx % 50
    else if dx == -1 then p.xx % 50
    else if dy == 1 then 50 - p.yy % 50
    else p.yy % 50
  }

  /** A jump in this direction comes no further than near the border. */
  predicate NearBorder(p: Pos, dx: int, dy: int) {
    (dx != 0 && IsNearBorderCoord(p.xx)) || (dy != 0 && IsNearBorderCoord(p.yy))
  }

  /** A tile that is entered best through `p`: the way around is of another cost, or blocked. */
  predicate Forced(q: Query, p: Pos, around: (int, int), beyond: (int, int), cost: nat)
    requires q.Valid()
  {
    q.Cost(p.Translate(beyond.0, beyond.1)) != OBSTACLE && q.Cost(p.Translate(around.0, around.1)) != cost
  }

  /** `p` is a jump point for runs in this direction over tiles of this cost. */
  predicate JumpPoint(q: Query, p: Pos, dx: int, dy: int, cost: nat)
    requires q.Valid() && p.InWorld() && Interior(p) && IsDirection(dx, dy)
    decreases if dx != 0 && dy != 0 then 1 else 0, Left(p, dx, dy), 0
  {
    if q.H(p) == 0 || NearBorder(p, dx, dy) then true
    else if dy == 0 then
      Forced(q, p, (0, -1), (dx, -1), cost) || Forced(q, p, (0, 1), (dx, 1), cost)
    else if dx == 0 then
      Forced(q, p, (-1, 0), (-1, dy), cost) || Forced(q, p, (1, 0), (1, dy), cost)
    else
      assert AroundIsInterior(p) by { StepsStayInside(p); }
      Forced(q, p, (-dx, 0), (-dx, dy), cost) || Forced(q, p, (0, -dy), (dx, -dy), cost)
      || (q.Cost(p.Translate(dx, 0)) != OBSTACLE && Jump(q, p.Translate(dx, 0), dx, 0, cost) != NOWHERE)
      || (q.Cost(p.Translate(0, dy)) != OBSTACLE && Jump(q, p.Translate(0, dy), 0, dy, cost) != NOWHERE)
  }

  /** The first jump point from `p` on, the first tile of another cost, or nowhere if an obstacle comes first. */
  function Jump(q: Query, p: Pos, dx: int, dy: int, cost: nat): Pos
    requires q.Valid() && p.InWorld() && Interior(p) && IsDirection(dx, dy)
    decreases if dx != 0 && dy != 0 then 1 else 0, Left(p, dx, dy), 1
  {
    if JumpPoint(q, p, dx, dy, cost) then p
    else
      var next := p.Translate(dx, dy);
      assert next.InWorld() && Interior(next) && Left(next, dx, dy) < Left(p, dx, dy) by { StepStaysInside(p, dx, dy); }
      if q.Cost(next) == OBSTACLE then NOWHERE
      else if q.Cost(next) != cost then next
      else Jump(q, next, dx, dy, cost)
  }

  /** The eight tiles around, in the same room and away from its border. */
  predicate AroundIsInterior(p: Pos) {
    forall dx, dy :: -1 <= dx <= 1 && -1 <= dy <= 1 ==>
      p.Translate(dx, dy).InWorld() && Interior(p.Translate(dx, dy)) && RoomOf(p.Translate(dx, dy)) == RoomOf(p)
  }

  lemma StepsStayInside(p: Pos)
    requires p.InWorld() && !IsNearBorderCoord(p.xx) && !IsNearBorderCoord(p.yy)
    ensures AroundIsInterior(p)
  {
    BorderCoords(p.xx);
    BorderCoords(p.yy);
    forall dx, dy | -1 <= dx <= 1 && -1 <= dy <= 1
      ensures p.Translate(dx, dy).InWorld() && Interior(p.Translate(dx, dy)) && RoomOf(p.Translate(dx, dy)) == RoomOf(p)
    {
      AroundInterior(p.xx, dx);
      AroundInterior(p.yy, dy);
    }
  }

  lemma StepStaysInside(p: Pos, dx: int, dy: int)
    requires p.InWorld() && Interior(p) && IsDirection(dx, dy) && !NearBorder(p, dx, dy)
    ensures var next := p.Translate(dx, dy);
      next.InWorld() && Interior(next) && RoomOf(next) == RoomOf(p) && Left(next, dx, dy) < Left(p, dx, dy)
  {
    AroundInterior(p.xx, dx);
    AroundInterior(p.yy, dy);
  }

  /** One step of a jump that does not end where it begins. */
  lemma JumpOnward(q: Query, p: Pos, dx: int, dy: int, cost: nat)
    requires q.Valid() && p.InWorld() && Interior(p) && IsDirection(dx, dy)
    requires !JumpPoint(q, p, dx, dy, cost)
    ensures var next := p.Translate(dx, dy);
      && next.InWorld() && Interior(next) && RoomOf(next) == RoomOf(p) && Left(next, dx, dy) < Left(p, dx, dy)
      && Jump(q, p, dx, dy, cost) == (if q.Cost(next) == OBSTACLE then NOWHERE else if q.Cost(next) != cost then next else Jump(q, next, dx, dy, cost))
  {
    hide Query.Cost, Query.H;
    assert !NearBorder(p, dx, dy);
    StepStaysInside(p, dx, dy);
  }

  lemma JumpEnds(q: Query, p: Pos, dx: int, dy: int, cost: nat)
    requires q.Valid() && p.InWorld() && Interior(p) && IsDirection(dx, dy) && JumpPoint(q, p, dx, dy, cost)
    ensures Jump(q, p, dx, dy, cost) == p
  {
    hide Query.Cost, Query.H;
  }

  /** A jump lands in the room it began in, over tiles of one cost only. */
  lemma {:induction false} JumpLands(q: Query, p: Pos, dx: int, dy: int, cost: nat) returns (k: nat)
    requires q.Valid() && p.InWorld() && Interior(p) && IsDirection(dx, dy) && q.Cost(p) == cost != OBSTACLE
    requires Jump(q, p, dx, dy, cost) != NOWHERE
    ensures var r := Jump(q, p, dx, dy, cost);
      && r == Walk(p, dx, dy, k) && q.Cost(r) != OBSTACLE
      && r.InWorld() && Interior(r) && RoomOf(r) == RoomOf(p)
      && RunLegal(p, dx, dy, k) && RunOpen(q, p, dx, dy, k) && (k > 0 ==> RunCost(q, p, dx, dy, k) == cost * (k - 1) + q.Cost(r))
    decreases Left(p, dx, dy)
  {
    hide Query.Cost, JumpPoint, Jump, Query.H, Interior, RoomOf, Left, RunLegal, RunCost, RunOpen, CanMove;
    RunOfNone(q, p, dx, dy);
    if JumpPoint(q, p, dx, dy, cost) {
      JumpEnds(q, p, dx, dy, cost);
      k := 0;
    } else {
      var next := p.Translate(dx, dy);
      JumpOnward(q, p, dx, dy, cost);
      if q.Cost(next) != cost {
        k := 1;
        LegalFromNext(p, dx, dy, 0);
        RunFromNext(q, p, dx, dy, 0);
        RunOfNone(q, next, dx, dy);
      } else {
        var j := JumpLands(q, next, dx, dy, cost);
        LegalFromNext(p, dx, dy, j);
        RunFromNext(q, p, dx, dy, j);
        k := j + 1;
        RunOfNone(q, next, dx, dy);
        OneMore(cost, j);
      }
    }
  }

  /** The first step of a run, and the rest of it. */
  lemma {:induction false} RunFromNext(q: Query, p: Pos, dx: int, dy: int, k: nat)
    requires q.Valid()
    ensures var next := p.Translate(dx, dy);
      && Walk(p, dx, dy, k + 1) == Walk(next, dx, dy, k)
      && RunCost(q, p, dx, dy, k + 1) == q.Cost(next) + RunCost(q, next, dx, dy, k)
      && (RunOpen(q, p, dx, dy, k + 1) <==> q.Cost(next) != OBSTACLE && RunOpen(q, next, dx, dy, k))
  {
    hide Query.Cost;
    if k == 0 {
      assert Walk(p, dx, dy, 1) == Walk(p, dx, dy, 0).Translate(dx, dy);
      assert RunOpen(q, p, dx, dy, 0) && RunCost(q, p, dx, dy, 0) == 0;
    } else {
      RunFromNext(q, p, dx, dy, k - 1);
    }
  }

  /** Legal moves on from the next tile of the room make a legal run from an inner tile. */
  lemma {:induction false} LegalFromNext(p: Pos, dx: int, dy: int, k: nat)
    requires p.InWorld() && Interior(p) && IsDirection(dx, dy)
    requires k > 0 ==> SameRoom(p, p.Translate(dx, dy)) && RunLegal(p.Translate(dx, dy), dx, dy, k)
    ensures RunLegal(p, dx, dy, k + 1)
  {
    hide RoomOf;
    if k == 0 {
      assert Walk(p, dx, dy, 1) == Walk(p, dx, dy, 0).Translate(dx, dy);
      assert RunLegal(p, dx, dy, 0);
    } else {
      var next := p.Translate(dx, dy);
      assert k > 1 ==> RunLegal(next, dx, dy, k - 1);
      LegalFromNext(p, dx, dy, k - 1);
      WalkFromNext(p, dx, dy, k - 1);
      WalkFromNext(p, dx, dy, k);
    }
  }

  lemma {:induction false} WalkFromNext(p: Pos, dx: int, dy: int, k: nat)
    ensures Walk(p, dx, dy, k + 1) == Walk(p.Translate(dx, dy), dx, dy, k)
  {
    if k > 0 {
      WalkFromNext(p, dx, dy, k - 1);
    } else {
      assert Walk(p, dx, dy, 1) == Walk(p, dx, dy, 0).Translate(dx, dy);
    }
  }

  // What an expansion pushes

  /** A successor and what its link costs. */
  datatype Step = Step(pos: Pos, cost: int)

  /** A neighbour, unless it is blocked. */
  function PlainStep(q: Query, v: Pos): seq<Step>
    requires q.Valid()
  {
    if q.Cost(v) == OBSTACLE then [] else [Step(v, q.Cost(v))]
  }

  /** jump_neighbor: onto the next tile if it is different, else on from there. */
  function JumpStep(q: Query, p: Pos, dx: int, dy: int): seq<Step>
    requires q.Valid() && p.InWorld() && Interior(p) && IsDirection(dx, dy) && q.Cost(p) != OBSTACLE
  {
    var v := p.Translate(dx, dy);
    if q.Cost(v) != q.Cost(p) || !Interior(v) then PlainStep(q, v)
    else
      assert v.InWorld() by { NeighbourInRoom(p, dx, dy); }
      var r := Jump(q, v, dx, dy, q.Cost(v));
      if r == NOWHERE then [] else [Step(r, q.Cost(v) * (p.RangeTo(r) - 1) + q.Cost(r))]
  }

  lemma NeighbourInRoom(p: Pos, dx: int, dy: int)
    requires p.InWorld() && Interior(p) && -1 <= dx <= 1 && -1 <= dy <= 1
    ensures var v := p.Translate(dx, dy); v.InWorld() && RoomOf(v) == RoomOf(p)
  {
    AroundInterior(p.xx, dx);
    AroundInterior(p.yy, dy);
  }

  /** A jump is a link: the tiles it skips cost what its first tile does, and so add up. */
  lemma JumpStepLinks(q: Query, p: Pos, dx: int, dy: int)
    requires q.Valid() && p.InWorld() && Interior(p) && IsDirection(dx, dy) && q.Cost(p) != OBSTACLE
    requires Interior(p.Translate(dx, dy)) && q.Cost(p.Translate(dx, dy)) == q.Cost(p)
    ensures p.Translate(dx, dy).InWorld()
    ensures var v := p.Translate(dx, dy); var r := Jump(q, v, dx, dy, q.Cost(v)); r != NOWHERE ==>
      && p.RangeTo(r) >= 1 && Link(q, p, r, q.Cost(v) * (p.RangeTo(r) - 1) + q.Cost(r))
      && r.InWorld() && Interior(r) && RoomOf(r) == RoomOf(p)
  {
    hide Query.Cost, Jump, RunCost, RunOpen, RunLegal, Interior, RoomOf, Walk;
    NeighbourInRoom(p, dx, dy);
    var v := p.Translate(dx, dy);
    var r := Jump(q, v, dx, dy, q.Cost(v));
    if r != NOWHERE {
      var k := JumpLands(q, v, dx, dy, q.Cost(v));
      RunFromNext(q, p, dx, dy, k);
      LegalFromNext(p, dx, dy, k);
      WalkIsStraight(p, dx, dy, k + 1);
      WalkToEnd(p, r);
      assert RunCost(q, p, dx, dy, k + 1) == q.Cost(v) * k + q.Cost(r) by {
        assert k == 0 ==> RunCost(q, v, dx, dy, k) == 0 by { RunOfNone(q, v, dx, dy); }
        OneMore(q.Cost(v), k);
      }
    }
  }

  lemma RunOfNone(q: Query, p: Pos, dx: int, dy: int)
    requires q.Valid()
    ensures RunCost(q, p, dx, dy, 0) == 0 && Walk(p, dx, dy, 0) == p && RunOpen(q, p, dx, dy, 0)
    ensures RunLegal(p, dx, dy, 0)
  {
  }

  lemma OneMore(cost: int, k: int)
    ensures cost + cost * (k - 1) == cost * k
  {
  }

  /** Every successor is reached by a link. */
  predicate IsSuccessor(q: Query, p: Pos, st: Step)
    requires q.Valid()
  {
    Link(q, p, st.pos, st.cost) && st.pos.InWorld()
  }

  lemma PlainStepIsSuccessor(q: Query, p: Pos, v: Pos, st: Step)
    requires q.Valid() && p.InWorld() && CanMove(p, v) && v.InWorld() && st in PlainStep(q, v)
    ensures IsSuccessor(q, p, st) && st == Step(v, q.Cost(v))
  {
    hide Query.Cost, Link;
    StepLinks(q, p, v);
  }

  lemma JumpStepIsSuccessor(q: Query, p: Pos, dx: int, dy: int, st: Step)
    requires q.Valid() && p.InWorld() && Interior(p) && IsDirection(dx, dy) && q.Cost(p) != OBSTACLE
    requires st in JumpStep(q, p, dx, dy)
    ensures IsSuccessor(q, p, st) && RoomOf(st.pos) == RoomOf(p)
  {
    hide Query.Cost, Jump, Link, RoomOf;
    var v := p.Translate(dx, dy);
    NeighbourInRoom(p, dx, dy);
    if q.Cost(v) != q.Cost(p) || !Interior(v) {
      PlainStepIsSuccessor(q, p, v, st);
    } else {
      JumpStepLinks(q, p, dx, dy);
    }
  }

  /** On from a border tile: across it, or ahead into the room. */
  function Onward(p: Pos, dx: int, dy: int): seq<Pos>
    requires HeadOn(p, dx, dy)
  {
    if IsBorderCoord(p.xx) then
      if p.xx % 50 == 0 <==> dx == -1 then [p.Translate(dx, 0)]
      else [p.Translate(dx, -1), p.Translate(dx, 0), p.Translate(dx, 1)]
    else
      if p.yy % 50 == 0 <==> dy == -1 then [p.Translate(0, dy)]
      else [p.Translate(-1, dy), p.Translate(0, dy), p.Translate(1, dy)]
  }

  /** These are the moves that A* makes from the tile, but for the ones back. */
  lemma {:induction false} OnwardIsForward(p: Pos, dx: int, dy: int, v: Pos)
    requires HeadOn(p, dx, dy) && IsDirection(dx, dy)
    ensures v in Onward(p, dx, dy) <==> CanMove(p, v) && (if IsBorderCoord(p.xx) then v.xx - p.xx == dx else v.yy - p.yy == dy)
  {
    hide Onward, CanMove, IsBorderCoord;
    if IsBorderCoord(p.xx) { OnwardInX(p, dx, dy, v); } else { OnwardInY(p, dx, dy, v); }
  }

  lemma OnwardInX(p: Pos, dx: int, dy: int, v: Pos)
    requires HeadOn(p, dx, dy) && IsDirection(dx, dy) && IsBorderCoord(p.xx)
    ensures v in Onward(p, dx, dy) <==> CanMove(p, v) && v.xx - p.xx == dx
  {
    BorderCoords(p.xx);
    var out := p.xx % 50 == 0 <==> dx == -1;
    if v.xx - p.xx == dx {
      assert out ==> v.xx % 50 == 49 - p.xx % 50;
      assert !out ==> v.xx % 50 in {1, 48};
    }
  }

  lemma OnwardInY(p: Pos, dx: int, dy: int, v: Pos)
    requires HeadOn(p, dx, dy) && IsDirection(dx, dy) && !IsBorderCoord(p.xx)
    ensures v in Onward(p, dx, dy) <==> CanMove(p, v) && v.yy - p.yy == dy
  {
    BorderCoords(p.xx);
    BorderCoords(p.yy);
    var out := p.yy % 50 == 0 <==> dy == -1;
    if v.yy - p.yy == dy {
      assert out ==> v.yy % 50 == 49 - p.yy % 50;
      assert !out ==> v.yy % 50 in {1, 48};
    }
  }

  /** From `a` to `b` and on to `c`: a path that does not turn on the border. */
  predicate Forward(a: Pos, b: Pos, c: Pos) {
    Interior(b) || (HeadOn(b, Sign(b.xx - a.xx), Sign(b.yy - a.yy)) && c in Onward(b, Sign(b.xx - a.xx), Sign(b.yy - a.yy)))
  }

  /** A tile was reached straight on from the border, if from there. */
  predicate GoesOnward(s: State, p: Pos)
    requires p in s.parent
  {
    var from := s.parent[p];
    from != s.origin ==> from in s.parent && Forward(s.parent[from], from, p)
  }

  predicate AllOnward(s: State) {
    forall p :: p in s.parent ==> GoesOnward(s, p)
  }

  predicate ClosedOnward(s: State) {
    forall p :: p in s.closed && p in s.parent ==> GoesOnward(s, p)
  }

  /** Legal moves in one direction do not turn. */
  lemma StraightIsForward(a: Pos, b: Pos, c: Pos)
    requires CanMove(a, b) && CanMove(b, c) && c.xx - b.xx == b.xx - a.xx && c.yy - b.yy == b.yy - a.yy
    ensures Forward(a, b, c)
  {
    hide Onward;
    if !Interior(b) {
      MovesEnter(a, b);
      if Along(a, b) {
        BorderCoords(a.xx);
        BorderCoords(b.xx);
        BorderCoords(b.yy);
        assert false;
      }
      OnwardIsForward(b, b.xx - a.xx, b.yy - a.yy, c);
    }
  }

  /** The side on which the next tile is on the border. */
  function BorderSide(xy: int): int {
    if xy % 50 == 1 then -1 else if xy % 50 == 48 then 1 else 0
  }

  predicate Inner(q: Query, p: Pos)
    requires q.Valid()
  {
    p.InWorld() && Interior(p) && q.Cost(p) != OBSTACLE
  }

  function StraightSteps(q: Query, p: Pos, dx: int, dy: int): seq<Step>
    requires q.Valid() && Inner(q, p) && IsDirection(dx, dy)
  {
    (if dx == 0 then [] else if BorderSide(p.yy) == 0 then JumpStep(q, p, dx, 0) else PlainStep(q, p.Translate(dx, 0)))
    + (if dy == 0 then [] else if BorderSide(p.xx) == 0 then JumpStep(q, p, 0, dy) else PlainStep(q, p.Translate(0, dy)))
  }

  /** A step askew, if the tile beside `p` on that side makes it necessary. */
  function SideStep(q: Query, p: Pos, beside: (int, int), dx: int, dy: int): seq<Step>
    requires q.Valid() && Inner(q, p) && IsDirection(dx, dy)
  {
    if q.Cost(p.Translate(beside.0, beside.1)) != q.Cost(p) then JumpStep(q, p, dx, dy) else []
  }

  function ForcedSteps(q: Query, p: Pos, dx: int, dy: int): seq<Step>
    requires q.Valid() && Inner(q, p) && IsDirection(dx, dy)
  {
    if dx != 0 && dy != 0 then
      JumpStep(q, p, dx, dy) + SideStep(q, p, (-dx, 0), -dx, dy) + SideStep(q, p, (0, -dy), dx, -dy)
    else if dx != 0 then
      (if BorderSide(p.yy) == 1 then JumpStep(q, p, dx, 1) else SideStep(q, p, (0, 1), dx, 1))
      + (if BorderSide(p.yy) == -1 then JumpStep(q, p, dx, -1) else SideStep(q, p, (0, -1), dx, -1))
    else
      (if BorderSide(p.xx) == 1 then JumpStep(q, p, 1, dy) else SideStep(q, p, (1, 0), 1, dy))
      + (if BorderSide(p.xx) == -1 then JumpStep(q, p, -1, dy) else SideStep(q, p, (-1, 0), -1, dy))
  }
}
