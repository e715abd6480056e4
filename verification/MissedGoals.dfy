/**
 * Jump point searches leave border tiles straight on, so they miss goals that only a path which turns on the
 * border leads to. A* finds these.
 */
module MissedGoals {
  import opened Positions
  import opened Terrain
  import opened Searches
  import opened Optimality
  import opened JumpPoints
  import opened CompletePath
  import opened Search
  import opened MakeSearch

  /** An answer whose goals all need a turn on the border is incomplete. */
  lemma NotAroundTheBorder(q: Query, s: State, result: Result)
    requires q.Valid() && q.weight != 1.0 && Promised(q, s, s.origin, result)
    requires forall way :: IsPath(q, s, way) && IsForward(way) ==> q.H(way[|way| - 1]) != 0
    ensures result.incomplete
  {
    hide IsPath, IsForward, Query.Cost, Query.H;
  }

  // Three tiles

  const ORIGIN := Pos(51, 51)
  const TURN := Pos(52, 50)
  const GOAL := Pos(53, 51)

  predicate IsOpenTile(p: Pos) {
    p == ORIGIN || p == TURN || p == GOAL
  }

  /** Walls but for an inner tile, a tile on the border beside it, and the next inner tile from there. */
  function ThreeTiles(): (terrain: seq<Terrain.byte>)
    ensures |terrain| == 625
  {
    seq(625, i => if i == 0 then 69 else if i == 12 then 21 else if i == 13 then 81 else 85)
  }

  function OneRoom(): Env {
    Env(map[Room(1, 1) := ThreeTiles()], map[], 1, 5, 1)
  }

  lemma TileOfIndex(xx: nat, yy: nat)
    requires xx < 50 && yy < 50
    ensures var index := yy * 50 + xx;
      ThreeTiles()[index / 4] / Shift(index % 4) % 4 == if index in {2, 51, 53} then 0 else 1
  {
    var index := yy * 50 + xx;
    Shifts();
  }

  lemma CostOfTile(p: Pos)
    ensures OneRoom().Valid() && OneRoom().Cost(p) == if IsOpenTile(p) then 1 else OBSTACLE
  {
    hide ThreeTiles;
    var env := OneRoom();
    assert env.Valid();
    if p.InWorld() && RoomOf(p) == Room(1, 1) {
      TileOfIndex(p.xx % 50, p.yy % 50);
    }
  }

  /** From the tile on the border a forward path would have to leave the room. */
  lemma NoWayOn(q: Query, s: State, way: seq<Pos>)
    requires q.Valid() && q.env == OneRoom() && s.origin == ORIGIN && IsPath(q, s, way) && IsForward(way)
    ensures way[|way| - 1] == ORIGIN || way[|way| - 1] == TURN
  {
    hide Env.Cost, State.Admits, OneRoom;
    if |way| > 1 {
      assert StepAt(q, s, way, 0);
      CostOfTile(way[1]);
      if |way| > 2 {
        assert StepAt(q, s, way, 1) && ForwardAt(way, 1);
        CostOfTile(way[2]);
        assert false;
      }
    }
  }

  /** Two moves lead to the goal, but the jump point search does not find it. */
  lemma GoalIsMissed(q: Query, s: State, result: Result)
    requires q.env == OneRoom() && q.Valid() && q.weight != 1.0 && s.origin == ORIGIN && Room(1, 1) in s.rooms
    requires q.H(ORIGIN) != 0 && q.H(TURN) != 0 && q.H(GOAL) == 0 && Promised(q, s, ORIGIN, result)
    ensures IsPath(q, s, [ORIGIN, TURN, GOAL]) && PathCost(q, [ORIGIN, TURN, GOAL]) == 2 && result.incomplete
  {
    hide Query.Cost, Query.H, IsForward;
    TwoMoves(q, s);
    forall way | IsPath(q, s, way) && IsForward(way) ensures q.H(way[|way| - 1]) != 0 {
      NoWayOn(q, s, way);
    }
    NotAroundTheBorder(q, s, result);
  }

  lemma TwoMoves(q: Query, s: State)
    requires q.env == OneRoom() && q.Valid() && s.origin == ORIGIN && Room(1, 1) in s.rooms
    ensures IsPath(q, s, [ORIGIN, TURN, GOAL]) && PathCost(q, [ORIGIN, TURN, GOAL]) == 2
  {
    hide Env.Cost, OneRoom;
    CostOfTile(TURN);
    CostOfTile(GOAL);
    var way := [ORIGIN, TURN, GOAL];
    assert StepAt(q, s, way, 0) && StepAt(q, s, way, 1);
    assert way[..2] == [ORIGIN, TURN] && [ORIGIN, TURN][..1] == [ORIGIN];
    assert PathCost(q, [ORIGIN, TURN]) == 1;
  }
}
