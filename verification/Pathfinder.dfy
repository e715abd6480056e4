/** The arrays shared by all searches of one pathfinder, and the operations that expansion is made of. */
module Pathfinder {
  import opened Positions
  import opened Terrain
  import opened Heaps
  import opened OpenClosed
  import opened RoomTables
  import opened Searches
  import opened Optimality
  import opened Storage

  /** A tile with the number of its room, 0 for no room. */
  datatype IndexedPos = IndexedPos(room: nat, pos: Pos)

  /** The number in front names the room that the tile is in. */
  ghost predicate Names(s: State, p: IndexedPos) {
    0 < p.room <= |s.rooms| && p.pos.InWorld() && s.rooms[p.room - 1] == RoomOf(p.pos)
  }

  class Instance {
    const capacity: nat
    const rooms: RoomTable
    const parents: array<int>
    const scores: array<int>
    const openClosed: OpenClosedList
    const heap: Heap

    // Of the current search
    var blocked: set<Room>
    var marker: nat
    /** Every room that the callback was asked about. */
    ghost var asked: seq<Room>
    /** The graph that the arrays store. */
    ghost var s: State

    /** Arrays for `capacity` rooms, used for one search after another. */
    constructor (capacity: nat)
      requires capacity > 0 && capacity * ROOM_TILES + ROOM_TILES < SENTINEL_INDEX
      ensures Ready() && this.capacity == capacity
      ensures parents.Length == scores.Length == openClosed.list.Length == capacity * 2500
      ensures heap.data.Length == capacity * 2500 / 8
      ensures fresh(rooms) && fresh(rooms.reverse) && fresh(parents) && fresh(scores)
      ensures fresh(openClosed) && fresh(openClosed.list) && fresh(heap) && fresh(heap.data)
    {
      this.capacity := capacity;
      var table := new RoomTable(capacity);
      var list := new OpenClosedList(capacity * ROOM_TILES);
      var queue := new Heap(capacity * ROOM_TILES / 8);
      rooms := table;
      openClosed := list;
      heap := queue;
      parents := new int[capacity * ROOM_TILES](_ => 0);
      scores := new int[capacity * ROOM_TILES](_ => 0);
      blocked := {};
      marker := 0;
      asked := [];
      s := Start(Pos(0, 0), [], {});
    }

    /** What every search finds and leaves: the arrays may hold anything that stamps allow. */
    ghost predicate Ready()
      reads this, rooms, rooms.reverse, openClosed, openClosed.list, heap, heap.data
    {
      Separate() && Sized() && rooms.Valid() && openClosed.Valid() && heap.size <= heap.data.Length
    }

    ghost predicate Separate() {
      && (parents as object != scores) && (parents as object != openClosed.list) && (scores as object != openClosed.list)
      && (parents as object != rooms.reverse) && (scores as object != rooms.reverse) && (openClosed.list != rooms.reverse)
      && (parents as object != heap.data) && (scores as object != heap.data)
      && (openClosed.list as object != heap.data) && (rooms.reverse as object != heap.data)
    }

    ghost predicate Sized()
      reads rooms
    {
      && capacity > 0 && rooms.capacity == capacity
      && parents.Length == scores.Length == openClosed.list.Length == capacity * ROOM_TILES
      && heap.data.Length == capacity * ROOM_TILES / 8
      && capacity * ROOM_TILES + ROOM_TILES < SENTINEL_INDEX
    }

    /** The room table numbers the admitted rooms and holds their terrain. */
    ghost predicate RoomsStored(q: Query)
      requires q.Valid()
      reads this, rooms, rooms.reverse
    {
      TableStored(q) && rooms.Rooms() == s.rooms && blocked == s.blocked
    }

    ghost predicate TableStored(q: Query)
      requires q.Valid()
      reads this, rooms, rooms.reverse
    {
      && rooms.Valid() && rooms.capacity == capacity && q.env.maxRooms <= capacity
      && forall i :: 0 <= i < |rooms.table| ==>
           rooms.table[i].room in q.env.terrain && rooms.table[i].terrain == q.env.TerrainOf(rooms.table[i].room)
    }

    /** The callback was asked about no room twice, and never about one whose answer is known. */
    ghost predicate AskedOnce()
      reads this
    {
      AskedAmong(s.rooms, s.blocked)
    }

    ghost predicate AskedAmong(known: seq<Room>, turnedAway: set<Room>)
      reads this
    {
      && (forall i, j :: 0 <= i < j < |asked| ==> asked[i] != asked[j])
      && forall r :: r in asked ==> r in known || r in turnedAway
    }

    /** What holds even after a push has found the heap full. */
    ghost predicate Interrupted(q: Query)
      reads this, rooms, rooms.reverse, parents, scores, openClosed, openClosed.list, heap, heap.data
    {
      && q.Valid() && Separate() && Sized() && RoomsStored(q) && AskedOnce()
      && heap.Valid() && openClosed.InUse(marker)
      && Sound(q, s) && ClosedStored(s, parents[..])
    }

    ghost predicate Valid(q: Query)
      reads this, rooms, rooms.reverse, parents, scores, openClosed, openClosed.list, heap, heap.data
    {
      && Interrupted(q)
      && Stamped(s, openClosed.list[..], marker)
      && Stored(q, s, scores[..], parents[..])
      && Queued(q, s, heap.Contents())
    }

    /** Every slot of the heap is taken, by live or stale entries. */
    predicate HeapFull()
      reads this, heap
    {
      heap.size == heap.data.Length
    }

    ghost predicate Indexed(p: IndexedPos)
      reads this
    {
      Names(s, p)
    }

    /** Indices of admitted rooms fit the arrays. */
    lemma SizesOf(q: Query)
      requires Interrupted(q)
      ensures Nodes(s) <= parents.Length && |s.rooms| <= capacity
    {
      hide Link, PosAt, ClosedStored;
    }

    /** What the stamp of a node says. */
    lemma StampMeans(q: Query, index: nat)
      requires Valid(q) && index < Nodes(s)
      ensures index < openClosed.list.Length
      ensures openClosed.IsClosed(marker, index) <==> At(s, index) in s.closed
      ensures openClosed.IsOpen(marker, index) <==> s.IsOpen(At(s, index))
    {
      hide Link, PosAt, ClosedStored, Stored, Queued, Sound;
    }

    /** What the arrays say of a node that was seen. */
    lemma NodeMeans(q: Query, index: nat)
      requires Valid(q) && index < Nodes(s) && At(s, index) in s.g
      ensures index < scores.Length && scores[index] == F(q, s, At(s, index))
      ensures index < parents.Length && ParentStored(s, index, parents[index])
    {
      hide Link, PosAt, ClosedStored, Stamped, Queued, Sound;
      assert NodeStored(q, s, scores[..], parents[..], index);
    }

    /**
     * push_node: opens a node or improves an open one. The heap takes the new score before the node is
     * stamped or its parent set, so a full heap leaves closed nodes as they were.
     */
    method PushNode(q: Query, node: IndexedPos, parentIndex: nat, gCost: int) returns (ok: bool)
      requires Valid(q) && Indexed(node) && parentIndex < Nodes(s) && At(s, parentIndex) in s.closed
      requires At(s, parentIndex) in s.g && Link(q, At(s, parentIndex), node.pos, gCost - s.g[At(s, parentIndex)])
      modifies this`s, parents, scores, openClosed.list, heap, heap.data
      ensures Interrupted(q) && (ok ==> Valid(q))
      ensures s == if ok then Push(old(s), node.pos, At(old(s), parentIndex), gCost) else old(s)
      ensures heap.size <= old(heap.size) + 1 && (old(heap.size) < heap.data.Length ==> ok) && (!ok ==> HeapFull())
    {
      hide PosAt, Sound, Link, Query.WeightedH, Stamped, Stored, Queued, ClosedStored, OpenClosedList.InUse,
           Heap.Valid, Heap.Contents;
      var index := PosIndex(node.room, node.pos);
      NodeOf(s, node.room, node.pos);
      SoundRooms(q, s);
      StampMeans(q, index);
      if openClosed.IsClosed(marker, index) {
        return true;
      }
      var fCost := q.WeightedH(node.pos) + gCost;
      if openClosed.IsOpen(marker, index) {
        NodeMeans(q, index);
        ok := true;
        if scores[index] > fCost {
          ok := Record(q, index, parentIndex, gCost, fCost);
        }
      } else {
        ok := Record(q, index, parentIndex, gCost, fCost);
      }
    }

    /**
     * Stores the score, queues it, stamps the node open and sets its parent, in this order: a full heap
     * leaves only the score behind. Stamping a node that is open already changes nothing.
     */
    method StoreNode(index: nat, parentIndex: nat, fCost: int) returns (ok: bool)
      requires Separate() && heap.Valid() && openClosed.InUse(marker)
      requires index < parents.Length && index < scores.Length && index < openClosed.list.Length
      modifies parents, scores, openClosed.list, heap, heap.data
      ensures heap.Valid() && openClosed.InUse(marker)
      ensures ok ==> heap.Contents() == old(heap.Contents()) + multiset{HeapNode(index, fCost)}
      ensures ok ==> openClosed.list[..] == old(openClosed.list[..])[index := marker]
      ensures !ok ==> heap.Contents() == old(heap.Contents()) && openClosed.list[..] == old(openClosed.list[..])
      ensures scores[..] == old(scores[..])[index := fCost]
      ensures parents[..] == if ok then old(parents[..])[index := parentIndex] else old(parents[..])
      ensures heap.size <= old(heap.size) + 1 && ok == (old(heap.size) < heap.data.Length) && (!ok ==> HeapFull())
    {
      scores[index] := fCost;
      ok := heap.Push(HeapNode(index, fCost));
      if ok {
        openClosed.Open(marker, index);
        parents[index] := parentIndex;
      }
    }

    method Record(q: Query, index: nat, parentIndex: nat, gCost: int, fCost: int) returns (ok: bool)
      requires Valid(q) && index < Nodes(s) && parentIndex < Nodes(s) && At(s, parentIndex) in s.closed
      requires At(s, parentIndex) in s.g && Link(q, At(s, parentIndex), At(s, index), gCost - s.g[At(s, parentIndex)])
      requires s.Admits(At(s, index)) && At(s, index) !in s.closed && (At(s, index) in s.g ==> gCost < s.g[At(s, index)])
      requires fCost == gCost + q.WeightedH(At(s, index))
      modifies this`s, parents, scores, openClosed.list, heap, heap.data
      ensures Interrupted(q) && (ok ==> Valid(q))
      ensures s == if ok then Push(old(s), At(old(s), index), At(old(s), parentIndex), gCost) else old(s)
      ensures heap.size <= old(heap.size) + 1 && ok == (old(heap.size) < heap.data.Length) && (!ok ==> HeapFull())
    {
      hide PosAt, Sound, Link, Query.WeightedH, Stamped, Stored, Queued, ClosedStored, OpenClosedList.InUse, Ordered,
           Heap.Contents, State.Admits, ValidRooms, RoomTable.Valid, Numbers, RoomsOf;
      ghost var s0, list0, scores0, parents0, entries0 := s, openClosed.list[..], scores[..], parents[..], heap.Contents();
      SoundRooms(q, s);
      SizesOf(q);
      ok := StoreNode(index, parentIndex, fCost);
      if ok {
        s := s.(g := s.g[At(s0, index) := gCost], parent := s.parent[At(s0, index) := At(s0, parentIndex)]);
        PushKeeps(q, s0, s, list0, marker, scores0, parents0, entries0, index, parentIndex, gCost);
      }
    }

    /** The answer to a location: admitted, turned away, or turned away without having been blocked. */
    ghost predicate Resolved(q: Query, table: seq<Room>, known: set<Room>, location: Room, index: nat)
      requires q.Valid()
      reads this, rooms, rooms.reverse
    {
      && RoomsAreSound(q, rooms.Rooms(), blocked)
      && (if index == SENTINEL then
            location !in rooms.Rooms() && (location in blocked || |rooms.Rooms()| >= q.env.maxRooms)
          else index <= |rooms.Rooms()| && rooms.Rooms()[index - 1] == location)
      && (if rooms.Rooms() != table then
            rooms.Rooms() == table + [location] && location !in table && location !in known && |table| < q.env.maxRooms
            && q.env.Passable(location) && blocked == known
          else if blocked != known then blocked == known + {location} && !q.env.Passable(location)
          else true)
    }

    /** A room that is new, fits and is loaded: only then the callback is asked about it. */
    predicate MayAsk(q: Query, table: seq<Room>, known: set<Room>, location: Room) {
      location !in table && location !in known && |table| < q.env.maxRooms && location in q.env.terrain
    }

    /**
     * room_index_from_location: a room is admitted at its first mention if it is loaded, allowed and
     * fits; the answer for a location never changes again.
     */
    method ResolveRoom(q: Query, location: Room) returns (index: nat)
      requires q.Valid() && TableStored(q) && RoomsAreSound(q, rooms.Rooms(), blocked) && location.InWorld()
      requires AskedAmong(rooms.Rooms(), blocked)
      modifies this`blocked, this`asked, rooms`table, rooms.reverse
      ensures TableStored(q) && Resolved(q, old(rooms.Rooms()), old(blocked), location, index)
      ensures AskedAmong(rooms.Rooms(), blocked)
      ensures location !in old(asked) || asked == old(asked)
      ensures asked == old(asked) + (if MayAsk(q, old(rooms.Rooms()), old(blocked), location) then [location] else [])
    {
      hide Numbers, RoomsOf, Env.Cost, ValidRooms;
      index := rooms.Find(location);
      if index == SENTINEL {
        if |rooms.table| >= q.env.maxRooms || location in blocked {
          return SENTINEL;
        }
        if location !in q.env.terrain {
          blocked := blocked + {location};
          return SENTINEL;
        }
        asked := asked + [location];
        if q.env.Callback(location) == Allowed(false) {
          blocked := blocked + {location};
          return SENTINEL;
        }
        index := rooms.Insert(RoomTables.Entry(location, q.env.TerrainOf(location)));
      }
    }

    /** The same during a search. */
    method RoomIndexFromLocation(q: Query, location: Room) returns (index: nat)
      requires Valid(q) && location.InWorld()
      modifies this`s, this`blocked, this`asked, rooms`table, rooms.reverse
      ensures Valid(q)
      ensures s == old(s) || s == AdmitRoom(old(s), location) || s == BlockRoom(old(s), location)
      ensures HonoursRefusals(q, old(s), s)
      ensures if index == SENTINEL then Refuses(q, s, location) else index <= |s.rooms| && s.rooms[index - 1] == location
    {
      hide PosAt, Sound, Link, Query.WeightedH, Stamped, Stored, Queued, ClosedStored, OpenClosedList.InUse, Ordered,
           Env.Cost, Heap.Contents, Numbers, RoomsOf, ValidRooms, State.Admits,
           RoomsAreSound, RoomTable.Valid;
      SizesOf(q);
      SoundRooms(q, s);
      index := ResolveRoom(q, location);
      if rooms.Rooms() != s.rooms {
        AdmitKeeps(q, s, location, openClosed.list[..], marker, scores[..], parents[..], heap.Contents());
        s := AdmitRoom(s, location);
      } else if blocked != s.blocked {
        BlockKeeps(q, s, location, openClosed.list[..], marker, scores[..], parents[..], heap.Contents());
        s := BlockRoom(s, location);
      }
    }

    /** The cost of a tile whose room is in the table. */
    method Look(q: Query, p: IndexedPos) returns (cost: nat)
      requires Valid(q) && Indexed(p)
      ensures cost == q.Cost(p.pos)
    {
      hide PosAt, Link, Query.WeightedH, Stamped, Stored, Queued, ClosedStored, OpenClosedList.InUse, Heap.Valid,
           Numbers;
      RoomIsPassable(q, p.room);
      cost := rooms.table[p.room - 1].terrain.Look(q.env.LookTable(), p.pos.xx % 50, p.pos.yy % 50);
    }

    lemma RoomIsPassable(q: Query, room: nat)
      requires Interrupted(q) && 0 < room <= |s.rooms|
      ensures q.env.Passable(s.rooms[room - 1]) && room <= |rooms.table|
      ensures rooms.table[room - 1].room == s.rooms[room - 1]
    {
      hide PosAt, Link, Query.WeightedH, ClosedStored, Numbers;
    }

    /** look_open: the cost of entering a tile, admitting its room if need be. */
    method LookOpen(q: Query, p: Pos) returns (room: nat, cost: nat)
      requires Valid(q) && p.InWorld()
      modifies this`s, this`blocked, this`asked, rooms`table, rooms.reverse
      ensures Valid(q)
      ensures s == old(s) || s == AdmitRoom(old(s), RoomOf(p)) || s == BlockRoom(old(s), RoomOf(p))
      ensures HonoursRefusals(q, old(s), s)
      ensures room == SENTINEL ==> cost == OBSTACLE && Refuses(q, s, RoomOf(p))
      ensures room != SENTINEL ==> Indexed(IndexedPos(room, p)) && cost == q.Cost(p)
    {
      hide PosAt, Sound, Link, Query.WeightedH, Stamped, Stored, Queued, ClosedStored, OpenClosedList.InUse,
           Heap.Valid, Numbers, Env.Cost;
      room := RoomIndexFromLocation(q, RoomOf(p));
      if room == SENTINEL {
        cost := OBSTACLE;
      } else {
        cost := Look(q, IndexedPos(room, p));
      }
    }
  }

  lemma SoundRooms(q: Query, s: State)
    requires q.Valid() && Sound(q, s)
    ensures ValidRooms(s.rooms) && |s.rooms| <= q.env.maxRooms && s.closed <= s.g.Keys
    ensures s.origin in s.closed && RoomsAreSound(q, s.rooms, s.blocked)
  {
    hide Link;
  }

  /** What the arrays say stays true when a room is admitted. */
  /** What StoreNode writes is what Push asks for. */
  lemma PushKeeps(q: Query, s: State, s': State, list: seq<nat>, marker: nat, scores: seq<int>, parents: seq<int>,
      entries: multiset<HeapNode>, index: nat, from: nat, g: int)
    requires q.Valid() && Sound(q, s) && index < Nodes(s) <= |list| && Nodes(s) <= |scores| && Nodes(s) <= |parents|
    requires from < Nodes(s) && At(s, from) in s.closed && At(s, from) in s.g
    requires s.Admits(At(s, index)) && At(s, index) !in s.closed
    requires Link(q, At(s, from), At(s, index), g - s.g[At(s, from)])
    requires At(s, index) in s.g ==> g < s.g[At(s, index)]
    requires Stamped(s, list, marker) && Stored(q, s, scores, parents) && Queued(q, s, entries)
    requires s' == s.(g := s.g[At(s, index) := g], parent := s.parent[At(s, index) := At(s, from)])
    ensures var f := g + q.WeightedH(At(s, index));
      && s' == Push(s, At(s, index), At(s, from), g)
      && Sound(q, s') && Stamped(s', list[index := marker], marker)
      && Stored(q, s', scores[index := f], parents[index := from]) && Queued(q, s', entries + multiset{HeapNode(index, f)})
      && ClosedStored(s', parents[index := from])
  {
    hide PosAt, Sound, Stamped, Stored, Queued, ClosedStored, Link, State.Admits, Query.WeightedH, ValidRooms;
    SoundRooms(q, s);
    PushIsSound(q, s, At(s, index), At(s, from), g);
    PushStamped(s, s', list, marker, index, At(s, from), g);
    PushStored(q, s, s', scores, parents, index, from, g);
    PushQueued(q, s, s', entries, index, At(s, from), g);
    SoundRooms(q, s');
    StoredImpliesClosed(q, s', scores[index := g + q.WeightedH(At(s, index))], parents[index := from]);
  }

  lemma AdmitKeeps(q: Query, s: State, r: Room, list: seq<nat>, marker: nat, scores: seq<int>, parents: seq<int>,
      entries: multiset<HeapNode>)
    requires q.Valid() && Sound(q, s) && r.InWorld() && q.env.Passable(r) && r !in s.rooms && |s.rooms| < q.env.maxRooms
    requires Stamped(s, list, marker) && Stored(q, s, scores, parents) && Queued(q, s, entries)
    requires (|s.rooms| + 1) * ROOM_TILES <= |list| && |list| == |scores|
    ensures var s' := AdmitRoom(s, r);
      && Sound(q, s') && Stamped(s', list, marker) && Stored(q, s', scores, parents) && Queued(q, s', entries)
      && ClosedStored(s', parents)
  {
    hide PosAt, Sound, Stamped, Stored, Queued, ClosedStored, Env.Cost;
    AdmitIsSound(q, s, r);
    AdmitStamped(q, s, r, list, marker);
    AdmitStored(q, s, r, scores, parents);
    AdmitQueued(q, s, r, entries);
    SoundRooms(q, AdmitRoom(s, r));
    StoredImpliesClosed(q, AdmitRoom(s, r), scores, parents);
  }

  lemma BlockKeeps(q: Query, s: State, r: Room, list: seq<nat>, marker: nat, scores: seq<int>, parents: seq<int>,
      entries: multiset<HeapNode>)
    requires q.Valid() && Sound(q, s) && !q.env.Passable(r)
    requires Stamped(s, list, marker) && Stored(q, s, scores, parents) && Queued(q, s, entries)
    ensures var s' := BlockRoom(s, r);
      && Sound(q, s') && Stamped(s', list, marker) && Stored(q, s', scores, parents) && Queued(q, s', entries)
      && ClosedStored(s', parents)
  {
    hide PosAt, Sound, Stamped, Stored, Queued, ClosedStored, Env.Cost;
    BlockIsSound(q, s, r);
    BlockKeepsAll(q, s, r, list, marker, scores, parents, entries);
    SoundRooms(q, BlockRoom(s, r));
    StoredImpliesClosed(q, BlockRoom(s, r), scores, parents);
  }
}
