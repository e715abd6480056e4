/** World coordinates, rooms of 50 by 50 tiles, node indices, and the moves between tiles. */
module Positions {
  const ROOM_TILES := 2500
  const WORLD_SIZE := 12800

  function Abs(n: int): int {
    if n < 0 then -n else n
  }

  function Max(a: int, b: int): int {
    if a < b then b else a
  }

  function Min(a: int, b: int): int {
    if b < a then b else a
  }

  function Sign(n: int): int {
    if n > 0 then 1 else if n < 0 then -1 else 0
  }

  /** RoomLocation: one byte for each coordinate. */
  datatype Room = Room(xx: nat, yy: nat) {
    predicate InWorld() {
      xx < 256 && yy < 256
    }
  }

  datatype Pos = Pos(xx: int, yy: int) {
    predicate InWorld() {
      0 <= xx < WORLD_SIZE && 0 <= yy < WORLD_SIZE
    }

    function Translate(dx: int, dy: int): Pos {
      Pos(xx + dx, yy + dy)
    }

    /** Chebyshev distance. */
    function RangeTo(p: Pos): int {
      Max(Abs(p.xx - xx), Abs(p.yy - yy))
    }
  }

  function RoomOf(p: Pos): Room
    requires p.InWorld()
  {
    Room(p.xx / 50, p.yy / 50)
  }

  predicate IsBorderCoord(xy: int) {
    (xy + 1) % 50 < 2
  }

  predicate IsNearBorderCoord(xy: int) {
    (xy + 2) % 50 < 4
  }

  predicate Interior(p: Pos) {
    !IsBorderCoord(p.xx) && !IsBorderCoord(p.yy)
  }

  predicate Corner(p: Pos) {
    IsBorderCoord(p.xx) && IsBorderCoord(p.yy)
  }

  lemma BorderCoords(xy: int)
    ensures IsBorderCoord(xy) <==> xy % 50 == 0 || xy % 50 == 49
    ensures IsNearBorderCoord(xy) <==> xy % 50 <= 1 || xy % 50 >= 48
  {
  }

  /** Tiles around an interior tile are in its room. */
  lemma AroundInterior(xy: int, d: int)
    requires xy >= 0 && !IsBorderCoord(xy) && -1 <= d <= 1
    ensures (xy + d) / 50 == xy / 50
    ensures !IsNearBorderCoord(xy) ==> !IsBorderCoord(xy + d)
  {
  }

  // Node indices

  /** The index of a tile of the room numbered `room`, counting rooms from 1. */
  function PosIndex(room: nat, p: Pos): nat
    requires room > 0
  {
    (room - 1) * ROOM_TILES + p.yy % 50 * 50 + p.xx % 50
  }

  /** The tile that an index stands for, given the rooms numbered so far. */
  function PosAt(rooms: seq<Room>, index: nat): Pos
    requires index < |rooms| * ROOM_TILES
  {
    var room := index / ROOM_TILES;
    assert room < |rooms|;
    var coord := index - room * ROOM_TILES;
    Pos(coord % 50 + rooms[room].xx * 50, coord / 50 + rooms[room].yy * 50)
  }

  predicate ValidRooms(rooms: seq<Room>) {
    && (forall i :: 0 <= i < |rooms| ==> rooms[i].InWorld())
    && forall i, j :: 0 <= i < j < |rooms| ==> rooms[i] != rooms[j]
  }

  lemma SplitIndex(room: nat, coord: nat)
    requires coord < ROOM_TILES
    ensures (room * ROOM_TILES + coord) / ROOM_TILES == room
    ensures room * ROOM_TILES + coord - (room * ROOM_TILES + coord) / ROOM_TILES * ROOM_TILES == coord
  {
  }

  lemma SplitCoord(yy: nat, xx: nat)
    requires yy < 50 && xx < 50
    ensures (yy * 50 + xx) / 50 == yy && (yy * 50 + xx) % 50 == xx && yy * 50 + xx < ROOM_TILES
  {
  }

  /** Position to index to position is the identity. */
  lemma IndexRoundTrip(rooms: seq<Room>, room: nat, p: Pos)
    requires 0 < room <= |rooms| && p.InWorld() && rooms[room - 1] == RoomOf(p)
    ensures PosIndex(room, p) < |rooms| * ROOM_TILES
    ensures PosAt(rooms, PosIndex(room, p)) == p
  {
    var coord := p.yy % 50 * 50 + p.xx % 50;
    SplitCoord(p.yy % 50, p.xx % 50);
    SplitIndex(room - 1, coord);
    assert PosIndex(room, p) == (room - 1) * ROOM_TILES + coord;
  }

  /** Index to position to index is the identity: no two indices stand for one tile. */
  lemma {:induction false} PositionRoundTrip(rooms: seq<Room>, index: nat)
    requires ValidRooms(rooms) && index < |rooms| * ROOM_TILES
    ensures var room := index / ROOM_TILES; var p := PosAt(rooms, index);
      room < |rooms| && p.InWorld() && RoomOf(p) == rooms[room] && PosIndex(room + 1, p) == index
  {
    var room := index / ROOM_TILES;
    var coord := index - room * ROOM_TILES;
    assert coord / 50 < 50 && coord == coord / 50 * 50 + coord % 50;
  }

  lemma {:induction false} NoCollisions(rooms: seq<Room>, i: nat, j: nat)
    requires ValidRooms(rooms) && i < |rooms| * ROOM_TILES && j < |rooms| * ROOM_TILES
    requires PosAt(rooms, i) == PosAt(rooms, j)
    ensures i == j
  {
    PositionRoundTrip(rooms, i);
    PositionRoundTrip(rooms, j);
    var a, b := i / ROOM_TILES, j / ROOM_TILES;
    assert a == b;
  }

  /** Numbering another room leaves earlier indices alone. */
  lemma IndicesAreStable(rooms: seq<Room>, more: seq<Room>, index: nat)
    requires rooms <= more && index < |rooms| * ROOM_TILES
    ensures index < |more| * ROOM_TILES && PosAt(more, index) == PosAt(rooms, index)
  {
  }

  // Moves

  /** position_in_direction: TOP, then clockwise. */
  function Delta(dir: nat): (int, int)
    requires dir < 8
  {
    match dir
    case 0 => (0, -1)
    case 1 => (1, -1)
    case 2 => (1, 0)
    case 3 => (1, 1)
    case 4 => (0, 1)
    case 5 => (-1, 1)
    case 6 => (-1, 0)
    case _ => (-1, -1)
  }

  predicate IsDirection(dx: int, dy: int) {
    -1 <= dx <= 1 && -1 <= dy <= 1 && (dx != 0 || dy != 0)
  }

  /** A king move. */
  predicate Adjacent(p: Pos, q: Pos) {
    IsDirection(q.xx - p.xx, q.yy - p.yy)
  }

  /** On a portal tile: no moves along the border, and none askew across it. */
  predicate Impossible(p: Pos, q: Pos) {
    if p.xx % 50 == 0 then (q.xx % 50 == 49 && p.yy != q.yy) || p.xx == q.xx
    else if p.xx % 50 == 49 then (q.xx % 50 == 0 && p.yy != q.yy) || p.xx == q.xx
    else if p.yy % 50 == 0 then (q.yy % 50 == 49 && p.xx != q.xx) || p.yy == q.yy
    else if p.yy % 50 == 49 then (q.yy % 50 == 0 && p.xx != q.xx) || p.yy == q.yy
    else false
  }

  /** The moves of the search graph, obstacles aside. */
  predicate CanMove(p: Pos, q: Pos) {
    Adjacent(p, q) && !Impossible(p, q)
  }

  /**
   * From an inner tile every step is a move. From a side of its room a tile leads off that side, askew only if
   * the step stays in the columns of the room; so do tiles at the top or bottom, by rows.
   */
  lemma MovesByRooms(p: Pos, q: Pos)
    requires Adjacent(p, q)
    ensures !IsBorderCoord(p.xx) && !IsBorderCoord(p.yy) ==> CanMove(p, q)
    ensures IsBorderCoord(p.xx) ==> (CanMove(p, q) <==> q.xx != p.xx && (q.xx / 50 != p.xx / 50 ==> q.yy == p.yy))
    ensures !IsBorderCoord(p.xx) && IsBorderCoord(p.yy) ==>
      (CanMove(p, q) <==> q.yy != p.yy && (q.yy / 50 != p.yy / 50 ==> q.xx == p.xx))
  {
    BorderCoords(p.xx);
    BorderCoords(p.yy);
  }

  /** The eight directions are all king moves. */
  lemma DirectionsAreAll(p: Pos, q: Pos)
    ensures Adjacent(p, q) <==> exists dir: nat :: dir < 8 && q == p.Translate(Delta(dir).0, Delta(dir).1)
  {
    if Adjacent(p, q) {
      var dx, dy := q.xx - p.xx, q.yy - p.yy;
      var dir: nat := if dy == -1 then (if dx == 0 then 0 else if dx == 1 then 1 else 7)
        else if dy == 0 then (if dx == 1 then 2 else 6)
        else if dx == 1 then 3 else if dx == 0 then 4 else 5;
      assert q == p.Translate(Delta(dir).0, Delta(dir).1);
    }
  }

  // Straight runs

  /** The tile reached by `k` steps in one direction. */
  function Walk(p: Pos, dx: int, dy: int, k: nat): Pos {
    if k == 0 then p else Walk(p, dx, dy, k - 1).Translate(dx, dy)
  }

  /** From `p` to `q` there is a horizontal, vertical or diagonal line. */
  predicate Straight(p: Pos, q: Pos) {
    p != q && (p.xx == q.xx || p.yy == q.yy || Abs(q.xx - p.xx) == Abs(q.yy - p.yy))
  }

  lemma {:induction false} WalkGoes(p: Pos, dx: int, dy: int, k: nat)
    requires IsDirection(dx, dy)
    ensures Walk(p, dx, dy, k) == Pos(if dx == 0 then p.xx else if dx == 1 then p.xx + k else p.xx - k,
                                      if dy == 0 then p.yy else if dy == 1 then p.yy + k else p.yy - k)
  {
    if k > 0 {
      WalkGoes(p, dx, dy, k - 1);
    }
  }

  /** A line is a walk in the direction of its end, of the length of the range. */
  lemma WalkToEnd(p: Pos, q: Pos)
    requires Straight(p, q)
    ensures IsDirection(Sign(q.xx - p.xx), Sign(q.yy - p.yy)) && p.RangeTo(q) > 0
    ensures Walk(p, Sign(q.xx - p.xx), Sign(q.yy - p.yy), p.RangeTo(q)) == q
  {
    WalkGoes(p, Sign(q.xx - p.xx), Sign(q.yy - p.yy), p.RangeTo(q));
  }

  /** A walk leads along a line. */
  lemma WalkIsStraight(p: Pos, dx: int, dy: int, k: nat)
    requires IsDirection(dx, dy) && k > 0
    ensures var q := Walk(p, dx, dy, k);
      Straight(p, q) && Sign(q.xx - p.xx) == dx && Sign(q.yy - p.yy) == dy && p.RangeTo(q) == k
  {
    WalkGoes(p, dx, dy, k);
  }
}
