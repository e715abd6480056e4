/** Rooms numbered from 1 in the order a search admits them, with a reverse table by location. */
module RoomTables {
  import opened Positions
  import opened Terrain

  const SENTINEL := 0
  const LOCATIONS := 0x1_0000

  /** bit_cast of a location to its table index. */
  function RoomId(r: Room): (id: nat)
    requires r.InWorld()
    ensures id < LOCATIONS
  {
    r.yy * 256 + r.xx
  }

  lemma RoomIdsDiffer(a: Room, b: Room)
    requires a.InWorld() && b.InWorld() && RoomId(a) == RoomId(b)
    ensures a == b
  {
  }

  datatype Entry = Entry(room: Room, terrain: RoomTerrain)

  function RoomsOf(table: seq<Entry>): (rooms: seq<Room>)
    ensures |rooms| == |table| && forall i :: 0 <= i < |table| ==> rooms[i] == table[i].room
  {
    seq(|table|, i requires 0 <= i < |table| => table[i].room)
  }

  /** The reverse table numbers exactly these rooms. */
  predicate Numbers(rooms: seq<Room>, reverse: seq<nat>)
    requires |reverse| == LOCATIONS && ValidRooms(rooms)
  {
    && (forall i :: 0 <= i < |rooms| ==> reverse[RoomId(rooms[i])] == i + 1)
    && forall id :: 0 <= id < LOCATIONS && reverse[id] != SENTINEL ==>
         reverse[id] <= |rooms| && RoomId(rooms[reverse[id] - 1]) == id
  }

  lemma NumbersOneMore(rooms: seq<Room>, reverse: seq<nat>, room: Room)
    requires |reverse| == LOCATIONS && ValidRooms(rooms) && Numbers(rooms, reverse) && room.InWorld() && room !in rooms
    ensures ValidRooms(rooms + [room])
    ensures Numbers(rooms + [room], reverse[RoomId(room) := |rooms| + 1])
  {
    hide RoomId;
    forall i | 0 <= i < |rooms| ensures RoomId(rooms[i]) != RoomId(room) {
      if RoomId(rooms[i]) == RoomId(room) {
        RoomIdsDiffer(rooms[i], room);
      }
    }
  }

  lemma NumberOf(rooms: seq<Room>, reverse: seq<nat>, room: Room)
    requires |reverse| == LOCATIONS && ValidRooms(rooms) && Numbers(rooms, reverse) && room.InWorld()
    ensures var index := reverse[RoomId(room)];
      (index == SENTINEL <==> room !in rooms) && (index != SENTINEL ==> index <= |rooms| && rooms[index - 1] == room)
  {
    hide RoomId;
    var index := reverse[RoomId(room)];
    if index != SENTINEL {
      RoomIdsDiffer(rooms[index - 1], room);
    }
  }

  class RoomTable {
    const capacity: nat
    var table: seq<Entry>
    const reverse: array<nat>

    ghost function Rooms(): seq<Room>
      reads this
    {
      RoomsOf(table)
    }

    ghost predicate Valid()
      reads this, reverse
    {
      && |table| <= capacity && reverse.Length == LOCATIONS
      && ValidRooms(Rooms()) && Numbers(Rooms(), reverse[..])
    }

    constructor (capacity: nat)
      ensures Valid() && this.capacity == capacity && table == [] && fresh(reverse)
    {
      this.capacity := capacity;
      table := [];
      reverse := new nat[LOCATIONS](_ => SENTINEL);
    }

    /** Only the reverse entries of the rooms in the table are reset, and that resets them all. */
    method Clear()
      requires Valid()
      modifies this`table, reverse
      ensures Valid() && table == []
      ensures forall id :: 0 <= id < LOCATIONS ==> reverse[id] == SENTINEL
    {
      hide RoomId;
      ghost var rooms := Rooms();
      for i := 0 to |table|
        invariant table == old(table)
        invariant forall id :: 0 <= id < LOCATIONS && reverse[id] != SENTINEL ==>
          i < reverse[id] <= |rooms| && RoomId(rooms[reverse[id] - 1]) == id
      {
        reverse[RoomId(table[i].room)] := SENTINEL;
      }
      table := [];
    }

    /** The number of a room, or the sentinel. */
    method Find(room: Room) returns (index: nat)
      requires Valid() && room.InWorld()
      ensures index == SENTINEL <==> room !in Rooms()
      ensures index != SENTINEL ==> index <= |table| && Rooms()[index - 1] == room
    {
      hide Numbers, RoomId;
      index := reverse[RoomId(room)];
      NumberOf(Rooms(), reverse[..], room);
    }

    method Insert(entry: Entry) returns (index: nat)
      requires Valid() && entry.room.InWorld() && entry.room !in Rooms() && |table| < capacity
      modifies this`table, reverse
      ensures Valid() && table == old(table) + [entry] && index == |table|
      ensures Rooms() == old(Rooms()) + [entry.room]
    {
      index := |table| + 1;
      ghost var rooms, before := Rooms(), reverse[..];
      NumbersOneMore(rooms, before, entry.room);
      table := table + [entry];
      reverse[RoomId(entry.room)] := index;
      assert Rooms() == rooms + [entry.room];
      assert reverse[..] == before[RoomId(entry.room) := index];
    }
  }
}
