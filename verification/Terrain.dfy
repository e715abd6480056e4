/** What it costs to enter a tile. */
module Terrain {
  import opened Positions

  type byte = x: int | 0 <= x < 256

  const OBSTACLE := 0

  /** What the room callback says of a room: nothing, yes or no, or a cost matrix. */
  datatype CallbackResult = Unspecified | Allowed(allowed: bool) | Matrix(costs: seq<byte>)

  /** Terrain of one room, two bits a tile, with an optional cost matrix, one byte a tile. */
  datatype RoomTerrain = RoomTerrain(terrain: seq<byte>, matrix: seq<byte>) {
    predicate Valid() {
      |terrain| == 625 && (|matrix| == 0 || |matrix| == 2500)
    }

    function TerrainLook(costs: seq<nat>, xx: nat, yy: nat): nat
      requires Valid() && |costs| == 4 && xx < 50 && yy < 50
    {
      var index := yy * 50 + xx;
      costs[terrain[index / 4] / Shift(index % 4) % 4]
    }

    /** The matrix decides, unless it leaves a tile open; 255 is impassable. */
    function Look(costs: seq<nat>, xx: nat, yy: nat): nat
      requires Valid() && |costs| == 4 && xx < 50 && yy < 50
    {
      if |matrix| == 0 then TerrainLook(costs, xx, yy)
      else
        assert xx * 50 + yy < 2500;
        var cost := matrix[xx * 50 + yy];
        if cost == 0 then TerrainLook(costs, xx, yy) else if cost == 255 then OBSTACLE else cost
    }
  }

  /** 1 << (2 * n) */
  function Shift(n: nat): (r: nat)
    ensures r > 0
  {
    if n == 0 then 1 else 4 * Shift(n - 1)
  }

  lemma Shifts()
    ensures Shift(0) == 1 && Shift(1) == 4 && Shift(2) == 16 && Shift(3) == 64
  {
  }

  /** What a search is asked to search: loaded terrain, callback and costs. */
  datatype Env = Env(terrain: map<Room, seq<byte>>, callback: map<Room, CallbackResult>, plainCost: int, swampCost: int, maxRooms: nat) {
    predicate Valid() {
      && maxRooms > 0
      && (forall r :: r in terrain ==> |terrain[r]| == 625)
      && OuterRingUnloaded()
    }

    /** No terrain is loaded for the rooms on the edge of the world, so no search leaves the world. */
    predicate OuterRingUnloaded() {
      forall r :: r in terrain ==> 1 <= r.xx <= 254 && 1 <= r.yy <= 254
    }

    /** [ plain, wall, swamp, wall ] */
    function LookTable(): seq<nat> {
      [Clamp(plainCost), OBSTACLE, Clamp(swampCost), OBSTACLE]
    }

    function Callback(r: Room): CallbackResult {
      if r in callback then callback[r] else Unspecified
    }

    /** A search may enter the room. */
    predicate Passable(r: Room) {
      r in terrain && Callback(r) != Allowed(false)
    }

    function TerrainOf(r: Room): (t: RoomTerrain)
      requires Valid() && r in terrain
      ensures t.Valid()
    {
      RoomTerrain(terrain[r], match Callback(r) case Matrix(m) => (if |m| == 2500 then m else []) case _ => [])
    }

    /** The cost of entering a tile; an obstacle where no search may enter. */
    function Cost(p: Pos): (c: nat)
      requires Valid()
      ensures c <= 254
    {
      if p.InWorld() && Passable(RoomOf(p)) then
        LookIsBounded(TerrainOf(RoomOf(p)), LookTable(), p.xx % 50, p.yy % 50);
        TerrainOf(RoomOf(p)).Look(LookTable(), p.xx % 50, p.yy % 50)
      else OBSTACLE
    }
  }

  /** std::clamp(cost, 1, 0xfe) */
  function Clamp(cost: int): (r: nat)
    ensures 1 <= r <= 254
  {
    Max(1, Min(cost, 254))
  }

  lemma LookIsBounded(t: RoomTerrain, costs: seq<nat>, xx: nat, yy: nat)
    requires t.Valid() && |costs| == 4 && xx < 50 && yy < 50
    requires forall i :: 0 <= i < 4 ==> costs[i] <= 254
    ensures t.Look(costs, xx, yy) <= 254
  {
  }
}
