/** A whole search: from an origin until a goal is popped, nothing is left, or a limit is hit. */
module Search {
  import Wrappers
  import opened Positions
  import opened Terrain
  import opened Heuristics
  import opened Heaps
  import opened OpenClosed
  import opened RoomTables
  import opened Searches
  import opened Optimality
  import opened Storage
  import opened Pathfinder
  import opened AStar
  import opened JumpPoints
  import Jps

  datatype Options = Options(heuristicWeight: real, plainCost: int, swampCost: int, maxCost: int, maxOps: int, maxRooms: int)

  datatype Result = Result(path: seq<Pos>, cost: int, ops: int, incomplete: bool)

  function ClampTo(n: int, low: int, high: int): int {
    Max(low, Min(n, high))
  }

  function ClampWeight(weight: real): real {
    if weight < 1.0 then 1.0 else if weight > 9.0 then 9.0 else weight
  }

  /** numeric_limits<int>::max() */
  const MAX_INT := 0x7fff_ffff

  // The beginning

  lemma StartStamped(s: State, list: seq<nat>, list': seq<nat>, marker: nat, index: nat)
    requires ValidRooms(s.rooms) && index < Nodes(s) <= |list| && s.origin == At(s, index)
    requires s.closed == {s.origin} && s.g.Keys == {s.origin}
    requires forall i :: 0 <= i < |list| ==> list[i] != marker && list[i] != marker + 1
    requires list' == list[index := marker + 1]
    ensures Stamped(s, list', marker)
  {
    hide PosAt;
    forall i | 0 <= i < Nodes(s) && i != index ensures At(s, i) != s.origin {
      if At(s, i) == s.origin { SameNode(s, i, index); }
    }
  }

  lemma StartStored(q: Query, s: State, scores: seq<int>, parents: seq<int>, index: nat)
    requires ValidRooms(s.rooms) && index < Nodes(s) <= |scores| == |parents| && s.origin == At(s, index)
    requires s == Start(s.origin, s.rooms, s.blocked)
    requires scores[index] == q.WeightedH(s.origin) && parents[index] == SENTINEL_INDEX
    ensures Stored(q, s, scores, parents) && ClosedStored(s, parents)
  {
    hide PosAt, Query.WeightedH;
    forall i | 0 <= i < Nodes(s) && At(s, i) in s.g ensures NodeStored(q, s, scores, parents, i) {
      if i != index { SameNode(s, i, index); }
    }
    forall i | 0 <= i < Nodes(s) && At(s, i) in s.closed ensures ParentStored(s, i, parents[i]) {
      assert NodeStored(q, s, scores, parents, i);
    }
  }

  lemma StartQueued(q: Query, s: State)
    requires s == Start(s.origin, s.rooms, s.blocked)
    ensures Queued(q, s, multiset{})
  {
    assert forall p :: !s.IsOpen(p);
  }

  /** Everything that the previous search left is cleared, in constant time but for its rooms. */
  method Clear(pf: Instance)
    requires pf.Ready()
    modifies pf`blocked, pf`asked, pf`marker, pf.rooms`table, pf.rooms.reverse, pf.openClosed`next, pf.openClosed.list, pf.heap`size
    ensures pf.Separate() && pf.Sized() && pf.rooms.Valid() && pf.heap.Valid() && pf.heap.Contents() == multiset{}
    ensures pf.heap.size == 0
    ensures pf.rooms.table == [] && pf.blocked == {} && pf.asked == []
    ensures pf.openClosed.InUse(pf.marker)
    ensures forall i :: 0 <= i < pf.openClosed.list.Length ==> pf.openClosed.list[i] != pf.marker && pf.openClosed.list[i] != pf.marker + 1
  {
    hide Numbers, RoomsOf, ValidRooms;
    pf.heap.Clear();
    pf.rooms.Clear();
    pf.blocked := {};
    pf.asked := [];
    pf.marker := pf.openClosed.ClearAndMakeView();
    forall i | 0 <= i < pf.openClosed.list.Length
      ensures pf.openClosed.list[i] != pf.marker && pf.openClosed.list[i] != pf.marker + 1
    {
      assert !pf.openClosed.IsOpen(pf.marker, i) && !pf.openClosed.IsClosed(pf.marker, i);
    }
  }

  /** The origin is closed at no cost, and nothing else is seen. */
  method CloseOrigin(pf: Instance, q: Query, origin: Pos) returns (index: nat)
    requires pf.Separate() && pf.Sized() && q.Valid() && pf.TableStored(q) && pf.heap.Valid()
    requires pf.openClosed.InUse(pf.marker)
    requires pf.heap.Contents() == multiset{}
    requires forall i :: 0 <= i < pf.openClosed.list.Length ==> pf.openClosed.list[i] != pf.marker && pf.openClosed.list[i] != pf.marker + 1
    requires origin.InWorld() && pf.rooms.Rooms() == [RoomOf(origin)] && pf.blocked == {}
    requires RoomsAreSound(q, pf.rooms.Rooms(), pf.blocked) && pf.AskedAmong(pf.rooms.Rooms(), pf.blocked)
    modifies pf`s, pf.openClosed.list, pf.parents, pf.scores
    ensures pf.Valid(q) && pf.s == Start(origin, [RoomOf(origin)], {})
    ensures pf.Indexed(IndexedPos(1, origin)) && index < Nodes(pf.s) && At(pf.s, index) == origin
  {
    hide Numbers, RoomsOf, PosAt, PosIndex, Query.WeightedH, Env.Cost, Heap.Contents, Heap.Valid, RoomTable.Valid, Sound,
         Stamped, Stored, Queued, ClosedStored, RoomsAreSound, OpenClosedList.InUse, RoomOf, ValidRooms;
    pf.s := Start(origin, pf.rooms.Rooms(), pf.blocked);
    LocationInWorld(origin);
    var room := pf.rooms.Find(RoomOf(origin));
    index := PosIndex(room, origin);
    NodeOf(pf.s, 1, origin);
    ghost var list := pf.openClosed.list[..];
    pf.openClosed.Close(pf.marker, index);
    pf.parents[index] := SENTINEL_INDEX;
    pf.scores[index] := q.WeightedH(origin);
    OneStamp(pf.openClosed, pf.marker, list, index);
    StartKeeps(q, pf.s, list, pf.openClosed.list[..], pf.marker, pf.scores[..], pf.parents[..], index);
  }

  /** What is stored for the origin alone. */
  lemma StartKeeps(q: Query, s: State, list: seq<nat>, list': seq<nat>, marker: nat, scores: seq<int>,
      parents: seq<int>,
      index: nat)
    requires q.Valid() && s == Start(s.origin, s.rooms, s.blocked) && s.origin.InWorld() && RoomOf(s.origin) in s.rooms
    requires RoomsAreSound(q, s.rooms, s.blocked)
    requires index < Nodes(s) <= |list| == |scores| == |parents| && s.origin == At(s, index)
    requires forall i :: 0 <= i < |list| ==> list[i] != marker && list[i] != marker + 1
    requires list' == list[index := marker + 1]
    requires scores[index] == q.WeightedH(s.origin) && parents[index] == SENTINEL_INDEX
    ensures Sound(q, s) && Stamped(s, list', marker) && Stored(q, s, scores, parents) && ClosedStored(s, parents)
    ensures Queued(q, s, multiset{})
  {
    hide RoomsOf, PosAt, Query.WeightedH, Sound, Stamped, Stored, Queued, ClosedStored, RoomsAreSound, RoomOf, ValidRooms;
    StartIsSound(q, s.origin, s.rooms, s.blocked);
    SoundRooms(q, s);
    StartStamped(s, list, list', marker, index);
    StartStored(q, s, scores, parents, index);
    StartQueued(q, s);
  }

  lemma LocationInWorld(p: Pos)
    requires p.InWorld()
    ensures RoomOf(p).InWorld()
  {
  }

  lemma OneStamp(openClosed: OpenClosedList, marker: nat, list: seq<nat>, index: nat)
    requires |list| == openClosed.list.Length && index < |list| && openClosed.IsClosed(marker, index)
    requires forall i :: 0 <= i < |list| && i != index ==> openClosed.list[i] == list[i]
    ensures openClosed.list[..] == list[index := marker + 1]
  {
  }

  lemma NoRoomsAreSound(q: Query, rooms: seq<Room>)
    requires q.Valid() && rooms == []
    ensures RoomsAreSound(q, rooms, {})
  {
  }

  /** Clears what the previous search left and closes the origin, unless its room is inaccessible. */
  method Begin(pf: Instance, q: Query, origin: Pos) returns (found: bool, index: nat)
    requires pf.Ready() && q.Valid() && q.env.maxRooms <= pf.capacity && origin.InWorld()
    modifies pf, pf.rooms`table, pf.rooms.reverse, pf.openClosed, pf.openClosed.list, pf.heap, pf.parents, pf.scores
    ensures found <==> q.env.Passable(RoomOf(origin))
    ensures found ==> pf.Valid(q) && pf.s == Start(origin, [RoomOf(origin)], {}) && pf.heap.size == 0
    ensures found ==> pf.Indexed(IndexedPos(1, origin)) && index < Nodes(pf.s) && At(pf.s, index) == origin
    ensures !found ==> pf.Ready()
  {
    hide Numbers, RoomsOf, ValidRooms, RoomsAreSound, PosAt, PosIndex, RoomOf, Query.WeightedH, Env.Cost, Heap.Valid, Heap.Contents,
         Sound, Stamped, Stored, Queued, ClosedStored, Env.TerrainOf;
    Clear(pf);
    NoRoomsAreSound(q, pf.rooms.Rooms());
    LocationInWorld(origin);
    var room := pf.ResolveRoom(q, RoomOf(origin));
    if room == SENTINEL {
      return false, 0;
    }
    index := CloseOrigin(pf, q, origin);
    found := true;
  }

  // Popping

  /** No open node scores less. */
  ghost predicate IsCheapest(q: Query, s: State, p: Pos) {
    s.IsOpen(p) && forall x :: s.IsOpen(x) ==> F(q, s, p) <= F(q, s, x)
  }

  ghost predicate NothingOpen(s: State) {
    forall x :: !s.IsOpen(x)
  }

  /** A seen tile has a node. */
  lemma NodeOfSeen(q: Query, s: State, p: Pos) returns (i: nat)
    requires q.Valid() && Sound(q, s) && p in s.g
    ensures i < Nodes(s) && At(s, i) == p
  {
    hide Link, PosAt, RoomsAreSound;
    assert s.Admits(p);
    var r :| 0 <= r < |s.rooms| && s.rooms[r] == RoomOf(p);
    NodeOf(s, r + 1, p);
    i := PosIndex(r + 1, p);
  }

  /** An entry of least score that is live is the cheapest open node. */
  lemma LiveTopIsCheapest(q: Query, s: State, entries: multiset<HeapNode>, top: HeapNode)
    requires q.Valid() && Sound(q, s) && Queued(q, s, entries) && top in entries && top.pos < Nodes(s)
    requires forall e :: e in entries ==> top.score <= e.score
    requires At(s, top.pos) in s.g && top.score == F(q, s, At(s, top.pos))
    ensures IsCheapest(q, s, At(s, top.pos)) && s.IsOpen(At(s, top.pos))
  {
    hide Sound, PosAt, Query.WeightedH;
    assert EntrySound(q, s, top);
    forall x | s.IsOpen(x) ensures top.score <= F(q, s, x) {
      var i := NodeOfSeen(q, s, x);
      assert entries[HeapNode(i, F(q, s, At(s, i)))] == 1;
    }
  }

  lemma EmptyMeansDrained(q: Query, s: State)
    requires q.Valid() && Sound(q, s) && Queued(q, s, multiset{})
    ensures NothingOpen(s)
  {
    hide Sound, PosAt, Query.WeightedH;
    forall x ensures !s.IsOpen(x) {
      if s.IsOpen(x) {
        var i := NodeOfSeen(q, s, x);
        assert false;
      }
    }
  }

  /** What the entry on top says. */
  lemma TopMeans(pf: Instance, q: Query, top: HeapNode)
    requires pf.Valid(q) && top in pf.heap.Contents()
    ensures q.Valid() && Sound(q, pf.s) && Queued(q, pf.s, pf.heap.Contents()) && EntrySound(q, pf.s, top)
    ensures top.pos < Nodes(pf.s) && At(pf.s, top.pos) in pf.s.g && pf.heap.Valid()
    ensures top.pos < pf.scores.Length && pf.scores[top.pos] == F(q, pf.s, At(pf.s, top.pos))
  {
    hide Sound, PosAt, Query.WeightedH, ClosedStored, Stamped, Stored, Ordered, OpenClosedList.InUse;
    assert EntrySound(q, pf.s, top);
    pf.NodeMeans(q, top.pos);
  }

  /** Stamps a node closed whose live entry has just been taken off. */
  method CloseNode(pf: Instance, q: Query, top: HeapNode, ghost entries: multiset<HeapNode>)
    requires pf.Interrupted(q) && Stamped(pf.s, pf.openClosed.list[..], pf.marker)
    requires Stored(q, pf.s, pf.scores[..], pf.parents[..])
    requires Queued(q, pf.s, entries) && top in entries && pf.heap.Contents() == entries - multiset{top}
    requires top.pos < Nodes(pf.s) && pf.s.IsOpen(At(pf.s, top.pos)) && top.score == F(q, pf.s, At(pf.s, top.pos))
    modifies pf`s, pf.openClosed.list
    ensures pf.Valid(q) && pf.s == Close(old(pf.s), At(old(pf.s), top.pos))
    ensures top.pos < Nodes(pf.s) && At(pf.s, top.pos) == At(old(pf.s), top.pos)
    ensures At(pf.s, top.pos) in pf.s.g && F(q, pf.s, At(pf.s, top.pos)) == top.score
  {
    hide Numbers, PosAt, Query.WeightedH, Env.Cost, Ordered, Sound, Stamped, Stored, Queued, ClosedStored, EntrySound,
         RoomTable.Valid, OpenClosedList.InUse;
    pf.SizesOf(q);
    SoundRooms(q, pf.s);
    ghost var s, p, list := pf.s, At(pf.s, top.pos), pf.openClosed.list[..];
    pf.openClosed.Close(pf.marker, top.pos);
    OneStamp(pf.openClosed, pf.marker, list, top.pos);
    CloseStamped(s, list, pf.marker, top.pos);
    CloseStored(q, s, pf.scores[..], pf.parents[..], p);
    CloseQueued(q, s, entries, top);
    CloseIsSound(q, s, p);
    SoundRooms(q, Close(s, p));
    StoredImpliesClosed(q, Close(s, p), pf.scores[..], pf.parents[..]);
    pf.s := Close(s, p);
  }

  /** Takes the top entry off the heap; nothing else changes. */
  method PopTop(pf: Instance, q: Query) returns (top: HeapNode)
    requires pf.Valid(q) && pf.heap.size > 0
    modifies pf.heap`size, pf.heap.data
    ensures pf.heap.size <= pf.heap.data.Length && old(pf.heap.size) <= pf.heap.data.Length && q.Valid()
    ensures pf.Interrupted(q) && Stamped(pf.s, pf.openClosed.list[..], pf.marker)
    ensures Stored(q, pf.s, pf.scores[..], pf.parents[..])
    ensures pf.heap.Contents() == old(pf.heap.Contents()) - multiset{top} && pf.heap.size == old(pf.heap.size) - 1
    ensures pf.heap.size <= pf.heap.data.Length && old(pf.heap.size) <= pf.heap.data.Length && q.Valid()
    ensures top in old(pf.heap.Contents()) && forall e :: e in old(pf.heap.Contents()) ==> top.score <= e.score
    ensures Sound(q, pf.s) && Queued(q, pf.s, old(pf.heap.Contents()))
    ensures top.pos < Nodes(pf.s) && top.pos < pf.scores.Length && At(pf.s, top.pos) in pf.s.g
    ensures pf.scores[top.pos] == F(q, pf.s, At(pf.s, top.pos))
  {
    hide Numbers, PosAt, Query.WeightedH, Env.Cost, Ordered, Sound, Stamped, Stored, Queued, ClosedStored, EntrySound,
         RoomTable.Valid, OpenClosedList.InUse, F, Instance.Separate, Instance.RoomsStored, Instance.AskedOnce;
    top := pf.heap.Top();
    TopMeans(pf, q, top);
    pf.heap.Pop();
  }

  /** Takes the top entry off the heap, and closes its node unless the entry is stale. */
  method TakeTop(pf: Instance, q: Query) returns (live: bool, current: nat, score: int)
    requires pf.Valid(q) && pf.heap.size > 0
    modifies pf`s, pf.openClosed.list, pf.heap`size, pf.heap.data
    ensures pf.Valid(q) && pf.heap.size == old(pf.heap.size) - 1
    ensures !live ==> pf.s == old(pf.s)
    ensures live ==> current < Nodes(pf.s) && IsCheapest(q, old(pf.s), At(pf.s, current))
    ensures live ==> pf.s == Close(old(pf.s), At(pf.s, current)) && score == F(q, pf.s, At(pf.s, current))
  {
    hide PosAt, Stamped, Stored, Queued, IsCheapest, F, Instance.Interrupted, Instance.Valid, Sound;
    ghost var s := pf.s;
    var top := PopTop(pf, q);
    ghost var entries := old(pf.heap.Contents());
    current, score := top.pos, top.score;
    live := pf.scores[current] == score;
    if live {
      LiveTopIsCheapest(q, s, entries, top);
      CloseNode(pf, q, top, entries);
    } else {
      DiscardQueued(q, s, entries, top);
      AllStored(pf, q);
    }
  }

  lemma AllStored(pf: Instance, q: Query)
    requires pf.Interrupted(q) && pf.heap.size <= pf.heap.data.Length
    requires Stamped(pf.s, pf.openClosed.list[..], pf.marker) && Stored(q, pf.s, pf.scores[..], pf.parents[..])
    requires Queued(q, pf.s, pf.heap.Contents())
    ensures pf.Valid(q)
  {
  }

  // One iteration

  /** min_node, min_node_g_cost and min_node_h_cost. */
  datatype Best = Best(node: IndexedPos, g: int, h: int)

  /** The best node is the origin, or one of least heuristic among the nodes popped. */
  ghost predicate BestSoFar(q: Query, s: State, best: Best) {
    && best.node.pos in s.closed && best.node.pos in s.g && best.g == s.g[best.node.pos]
    && best.h == (if best.node.pos == s.origin then INFINITE else q.H(best.node.pos))
    && forall n :: n in s.closed && n != s.origin ==> best.h <= q.H(n)
  }

  /** Between iterations of A*, every closed node was expanded and none is dearer than an open one. */
  ghost predicate AllExpanded(q: Query, s: State, newest: Pos)
    requires q.Valid()
  {
    && s.closed <= s.g.Keys && newest in s.closed
    && ExpandedBut(q, s, newest) && Relaxed(q, s, newest) && Frontier(q, s, F(q, s, newest))
  }

  /** In a jump point search every closed node but perhaps one has led to all its successors. */
  ghost predicate FollowedBut(q: Query, s: State, newest: Pos)
    requires q.Valid()
  {
    forall n :: n in s.closed && n != newest ==> Jps.Followed(q, s, n)
  }

  /** The tile that an unsafe origin leads to along the border is reached no dearer than from there. */
  predicate InwardIsNear(q: Query, s: State)
    requires q.Valid()
  {
    var v := Inward(s.origin);
    !SafeOrigin(q, s.origin) ==> v in s.g && s.g[v] <= q.Cost(v)
  }

  /** A popped tile that was entered along the border. */
  predicate EnteredAlong(s: State, n: Pos) {
    n in s.closed && n in s.parent && Along(s.parent[n], n)
  }

  /** What each algorithm keeps between iterations. */
  ghost predicate Kept(q: Query, s: State, newest: Pos)
    requires q.Valid()
  {
    if q.weight == 1.0 then AllExpanded(q, s, newest)
    else FollowedBut(q, s, newest) && Jps.Followed(q, s, newest) && InwardIsNear(q, s) && AllOnward(s)
  }

  /** Every successor of a closed node in an admitted room was closed. */
  ghost predicate AllSuccessorsClosed(q: Query, s: State)
    requires q.Valid()
  {
    forall n, st :: n in s.closed && n != s.origin && Jps.LeadsTo(q, s, n, st) && s.Admits(st.pos) ==> st.pos in s.closed
  }

  lemma FollowedClosesAll(q: Query, s: State, newest: Pos)
    requires q.Valid() && FollowedBut(q, s, newest) && Jps.Followed(q, s, newest) && NothingOpen(s)
    ensures AllSuccessorsClosed(q, s)
  {
    hide Jps.Followed, Jps.LeadsTo, State.Admits;
    forall n, st | n in s.closed && n != s.origin && Jps.LeadsTo(q, s, n, st) && s.Admits(st.pos)
      ensures st.pos in s.closed
    {
      Jps.FollowedToTheEnd(q, s, n, st);
    }
  }

  lemma ClosingKeepsFollowed(q: Query, s: State, p: Pos, newest: Pos)
    requires q.Valid() && FollowedBut(q, s, newest) && Jps.Followed(q, s, newest)
    ensures FollowedBut(q, Close(s, p), p)
  {
    hide Jps.Followed;
    forall n | n in Close(s, p).closed && n != p ensures Jps.Followed(q, Close(s, p), n) {
      Jps.FollowedWhenClosing(q, s, p, n);
    }
  }

  lemma FollowingKeepsFollowed(q: Query, s: State, s': State, p: Pos)
    requires q.Valid() && FollowedBut(q, s, p) && Later(q, s, s')
    ensures FollowedBut(q, s', p)
  {
    hide Jps.Followed, HonoursRefusals;
    forall n | n in s'.closed && n != p ensures Jps.Followed(q, s', n) {
      Jps.FollowedIsStable(q, s, s', n);
    }
  }

  /** No path to a goal within the admitted rooms costs less. */
  ghost predicate NoPathCheaper(q: Query, s: State, cost: int)
    requires q.Valid()
  {
    forall path :: IsPath(q, s, path) && q.H(path[|path| - 1]) == 0 ==> cost <= PathCost(q, path)
  }

  /** Every tile that a path leads to was closed. */
  ghost predicate AllReachableClosed(q: Query, s: State)
    requires q.Valid()
  {
    forall path :: IsPath(q, s, path) ==> path[|path| - 1] in s.closed
  }

  lemma AllRelaxed(q: Query, s: State, newest: Pos)
    requires q.Valid() && AllExpanded(q, s, newest)
    ensures forall n :: n in s.closed ==> n in s.g && Relaxed(q, s, n)
  {
    hide Relaxed;
  }

  /** A* pops a goal: no path to any goal is cheaper. */
  lemma PoppedGoalIsOptimal(q: Query, s: State, goal: Pos, best: Best, newest: Pos)
    requires q.Valid() && q.weight == 1.0 && Sound(q, s) && AllExpanded(q, s, newest)
    requires BestSoFar(q, s, best) && best.h > 0 && q.H(s.origin) != 0
    requires IsCheapest(q, s, goal) && q.H(goal) == 0
    ensures NoPathCheaper(q, Close(s, goal), s.g[goal])
  {
    hide Query.Cost, Query.WeightedH, Sound, Query.H, AllExpanded, Relaxed;
    AllRelaxed(q, s, newest);
    forall path | IsPath(q, Close(s, goal), path) && q.H(path[|path| - 1]) == 0 ensures s.g[goal] <= PathCost(q, path) {
      SamePath(q, Close(s, goal), s, path);
      GoalIsCheapest(q, s, goal, path);
    }
  }

  lemma SamePath(q: Query, s: State, s': State, path: seq<Pos>)
    requires q.Valid() && IsPath(q, s, path) && s'.origin == s.origin && s'.rooms == s.rooms
    ensures IsPath(q, s', path)
  {
    hide Query.Cost, CanMove;
    forall i | 0 <= i < |path| - 1 ensures StepAt(q, s', path, i) {
      assert StepAt(q, s, path, i);
    }
  }

  /** A* runs dry: everything in reach was closed. */
  lemma DrainedClosesAll(q: Query, s: State, newest: Pos)
    requires q.Valid() && Sound(q, s) && AllExpanded(q, s, newest) && NothingOpen(s)
    ensures AllReachableClosed(q, s)
  {
    hide Query.Cost, Query.WeightedH, Sound, AllExpanded, Relaxed, IsPath;
    AllRelaxed(q, s, newest);
    forall path | IsPath(q, s, path) ensures |path| > 0 && path[|path| - 1] in s.closed {
      PathIsSome(q, s, path);
      DrainedIsComplete(q, s, path);
    }
  }

  lemma PathIsSome(q: Query, s: State, path: seq<Pos>)
    requires q.Valid() && IsPath(q, s, path)
    ensures |path| > 0
  {
  }

  /** Closing the cheapest open node. */
  lemma CloseKeeps(q: Query, s: State, p: Pos, newest: Pos)
    requires q.Valid() && Sound(q, s) && Kept(q, s, newest) && IsCheapest(q, s, p)
    ensures Sound(q, Close(s, p)) && p in s.g
    ensures q.weight != 1.0 ==> FollowedBut(q, Close(s, p), p) && InwardIsNear(q, Close(s, p)) && AllOnward(Close(s, p))
    ensures q.weight == 1.0 ==>
      s.closed <= s.g.Keys && ExpandedBut(q, Close(s, p), p) && Frontier(q, Close(s, p), F(q, s, p))
  {
    hide Query.WeightedH, Sound, Relaxed, ExpandedBut, Frontier;
    SoundRooms(q, s);
    CloseIsSound(q, s, p);
    if q.weight == 1.0 {
      CloseKeepsFrontier(q, s, p, F(q, s, newest));
      CloseKeepsExpanded(q, s, p, newest);
    } else {
      ClosingKeepsFollowed(q, s, p, newest);
    }
  }

  /** Expanding the newest closed node. */
  lemma ExpandKeeps(q: Query, s: State, s': State, p: Pos)
    requires q.Valid() && q.weight == 1.0 && Sound(q, s) && Sound(q, s') && Later(q, s, s') && p in s.closed
    requires ExpandedBut(q, s, p) && p in s'.g && Relaxed(q, s', p) && Frontier(q, s', F(q, s', p))
    ensures Kept(q, s', p)
  {
    hide Query.WeightedH, Sound, Relaxed, ExpandedBut, Frontier, Link;
    SoundRooms(q, s);
    SoundRooms(q, s');
    ExpandedIsStable(q, s, s', p);
  }

  /** Successors of tiles on the border are straight on. */
  lemma ExploredOnward(q: Query, s0: State, s: State, n: Pos)
    requires q.Valid() && Sound(q, s0) && n in s0.closed && n in s0.parent && n != s0.origin && AllOnward(s0)
    requires var (dx, dy) := Jps.Heading(s0, n); IsDirection(dx, dy) && (HeadOn(n, dx, dy) || Inner(q, n))
    requires var (dx, dy) := Jps.Heading(s0, n); Jps.Explored(q, s0, s, n, Jps.Successors(q, n, dx, dy))
    ensures AllOnward(s)
  {
    hide Link, Query.Cost, Onward, HeadOn, Interior, Jps.AllReached, HonoursRefusals, RoomsAreSound, StraightSteps, ForcedSteps;
    var (dx, dy) := Jps.Heading(s0, n);
    forall p | p in s.parent ensures GoesOnward(s, p) {
      assert p in s.g && Jps.ReachedBy(s0, s, n, Jps.Successors(q, n, dx, dy), p);
      if p in s0.parent && s.parent[p] == s0.parent[p] {
        assert GoesOnward(s0, p) && s0.parent[p] in s0.closed;
      } else {
        assert s.parent[p] == n;
        if HeadOn(n, dx, dy) {
          OpenStepsAreOf(q, Onward(n, dx, dy));
        }
      }
    }
  }

  lemma {:induction false} OpenStepsAreOf(q: Query, tiles: seq<Pos>)
    requires q.Valid()
    ensures forall st :: st in Jps.OpenSteps(q, tiles) ==> st.pos in tiles
  {
    hide Query.Cost;
    if |tiles| > 0 {
      OpenStepsAreOf(q, tiles[..|tiles| - 1]);
    }
  }

  lemma ThenClosedOnward(s: State)
    requires AllOnward(s)
    ensures ClosedOnward(s)
  {
  }

  /** Whatever an expansion does, closed tiles keep their parents. */
  lemma StaysOnward(q: Query, s: State, s': State)
    requires q.Valid() && Sound(q, s) && Sound(q, s') && ClosedOnward(s) && Later(q, s, s')
    ensures ClosedOnward(s')
  {
    hide Link, Forward, HonoursRefusals, RoomsAreSound;
    forall p | p in s'.closed && p in s'.parent ensures GoesOnward(s', p) {
      assert p in s.closed && p in s.parent && s'.parent[p] == s.parent[p] && GoesOnward(s, p);
      assert s.parent[p] in s.closed;
    }
  }

  lemma StaysNear(q: Query, s: State, s': State)
    requires q.Valid() && InwardIsNear(q, s) && Later(q, s, s')
    ensures InwardIsNear(q, s')
  {
    hide HonoursRefusals, SafeOrigin, Query.Cost;
  }

  lemma SeenHasParent(q: Query, s: State, p: Pos)
    requires q.Valid() && Sound(q, s) && p in s.g && p != s.origin
    ensures p in s.parent
  {
    hide Link, RoomsAreSound;
  }

  /** The algorithm for the weight: cheapest paths with A*, or jumps. */
  method ExpandNode(pf: Instance, q: Query, pos: IndexedPos, index: nat, gCost: int) returns (outcome: Jps.Outcome)
    requires pf.Valid(q) && q.Valid() && pf.Indexed(pos) && index < Nodes(pf.s) && At(pf.s, index) == pos.pos
    requires pos.pos in pf.s.closed && pos.pos != pf.s.origin && pos.pos in pf.s.g && gCost == pf.s.g[pos.pos]
    requires if q.weight == 1.0 then ExpandedBut(q, pf.s, pos.pos) && Frontier(q, pf.s, F(q, pf.s, pos.pos))
             else FollowedBut(q, pf.s, pos.pos) && InwardIsNear(q, pf.s) && AllOnward(pf.s)
    modifies pf`s, pf`blocked, pf`asked, pf.rooms`table, pf.rooms.reverse
    modifies pf.parents, pf.scores, pf.openClosed.list, pf.heap, pf.heap.data
    ensures pf.Interrupted(q) && Later(q, old(pf.s), pf.s) && Sound(q, pf.s)
    ensures outcome == Jps.Done ==> pf.Valid(q) && Kept(q, pf.s, pos.pos)
    ensures outcome == Jps.Aborted <==> q.weight != 1.0 && EnteredAlong(old(pf.s), pos.pos)
    ensures outcome == Jps.Aborted ==> pf.s == old(pf.s)
    ensures outcome == Jps.HeapFull ==> pf.HeapFull()
    ensures q.weight != 1.0 ==> ClosedOnward(pf.s)
  {
    hide PosAt, Link, Query.WeightedH, Stamped, Stored, Queued, ClosedStored, Heap.Valid, Numbers, Query.Cost,
         Frontier, Relaxed, Later, ExpandedBut, Instance.Separate, Instance.Sized, Instance.RoomsStored, Instance.AskedOnce,
         OpenClosedList.InUse, RoomsAreSound, InwardIsNear, AllOnward, ClosedOnward, Along, Jps.Explored, Jps.Heading, HeadOn, Inner;
    ghost var s := pf.s;
    if q.weight == 1.0 {
      var ok := AStar.Expand(pf, q, pos, index, gCost);
      outcome := if ok then Jps.Done else Jps.HeapFull;
      if ok {
        ExpandKeeps(q, s, pf.s, pos.pos);
      }
    } else {
      SeenHasParent(q, s, pos.pos);
      outcome := Jps.Expand(pf, q, pos, index, gCost);
      if outcome == Jps.Done {
        Jps.ExploredIsFollowed(q, s, pf.s, pos.pos);
        FollowingKeepsFollowed(q, s, pf.s, pos.pos);
        StaysNear(q, s, pf.s);
        ExploredOnward(q, s, pf.s, pos.pos);
      }
      ThenClosedOnward(s);
      StaysOnward(q, s, pf.s);
    }
  }

  datatype Status = More | Found | Drained | OverBudget | HeapFull | OutOfOps | Aborted

  /** What holds of the graph between two iterations. */
  ghost predicate Between(q: Query, s: State, best: Best, newest: Pos) {
    && q.Valid() && Sound(q, s) && BestSoFar(q, s, best) && best.h > 0 && Kept(q, s, newest)
    && q.H(s.origin) != 0 && Names(s, best.node)
  }

  /** A search between two iterations. */
  ghost predicate Running(pf: Instance, q: Query, best: Best, newest: Pos)
    reads pf, pf.rooms, pf.rooms.reverse, pf.parents, pf.scores, pf.openClosed, pf.openClosed.list, pf.heap, pf.heap.data
  {
    pf.Valid(q) && Between(q, pf.s, best, newest)
  }

  /** A search that has ended, one way or another. */
  ghost predicate Ended(pf: Instance, q: Query, best: Best, status: Status)
    reads pf, pf.rooms, pf.rooms.reverse, pf.parents, pf.scores, pf.openClosed, pf.openClosed.list, pf.heap, pf.heap.data
  {
    && q.Valid() && pf.Interrupted(q) && BestSoFar(q, pf.s, best) && Names(pf.s, best.node)
    && (status == Found <==> best.h == 0) && best.h >= 0 && q.H(pf.s.origin) != 0
    && (q.weight == 1.0 && status == Found ==> NoPathCheaper(q, pf.s, best.g))
    && (q.weight == 1.0 && status == Drained ==> AllReachableClosed(q, pf.s))
    && (q.weight != 1.0 && status == Drained ==> AllSuccessorsClosed(q, pf.s) && SafeOrigin(q, pf.s.origin))
    && (q.weight != 1.0 ==> ClosedOnward(pf.s))
    && (status == Aborted ==> q.weight != 1.0 && exists n :: EnteredAlong(pf.s, n))
    && (q.weight != 1.0 && status == Drained ==> forall n :: !EnteredAlong(pf.s, n))
  }

  /** The tile of a node, with the number of its room. */
  method PositionOf(pf: Instance, q: Query, index: nat) returns (pos: IndexedPos)
    requires pf.Interrupted(q) && index < Nodes(pf.s)
    ensures pf.Indexed(pos) && pos.pos == At(pf.s, index)
  {
    hide Link, ClosedStored, Ordered, OpenClosedList.InUse, Numbers, Query.WeightedH;
    SoundRooms(q, pf.s);
    PositionRoundTrip(pf.s.rooms, index);
    pos := IndexedPos(index / ROOM_TILES + 1, PosAt(RoomsOf(pf.rooms.table), index));
  }

  lemma Improved(q: Query, s: State, best: Best, pos: IndexedPos, g: int)
    requires q.Valid() && Sound(q, s) && BestSoFar(q, s, best) && s.IsOpen(pos.pos) && g == s.g[pos.pos]
    ensures var h := q.H(pos.pos);
      BestSoFar(q, Close(s, pos.pos), if h < best.h then Best(pos, g, h) else best)
  {
    hide Link, Query.H;
  }

  /** A search that has just closed the cheapest open node `p` of `s0`. */
  ghost predicate Popped(pf: Instance, q: Query, s0: State, best: Best, newest: Pos, p: Pos)
    reads pf, pf.rooms, pf.rooms.reverse, pf.parents, pf.scores, pf.openClosed, pf.openClosed.list, pf.heap, pf.heap.data
  {
    pf.Valid(q) && Between(q, s0, best, newest) && IsCheapest(q, s0, p) && pf.s == Close(s0, p)
  }

  /** What follows for the node, before it is expanded. */
  lemma PoppedMeans(pf: Instance, q: Query, s0: State, best: Best, newest: Pos, p: Pos)
    requires Popped(pf, q, s0, best, newest, p)
    ensures q.Valid() && pf.Interrupted(q) && Sound(q, pf.s) && p in pf.s.g && p in s0.g && pf.s.g[p] == s0.g[p]
    ensures p != pf.s.origin && p in pf.s.closed
    ensures s0.IsOpen(p) && s0.closed < pf.s.closed && pf.s.closed == s0.closed + {p} && p !in s0.closed
    ensures forall pos: IndexedPos :: pos.pos == p ==>
      var h := q.H(p); BestSoFar(q, pf.s, if h < best.h then Best(pos, pf.s.g[p], h) else best)
    ensures if q.weight == 1.0 then ExpandedBut(q, pf.s, p) && Frontier(q, pf.s, F(q, pf.s, p))
            else FollowedBut(q, pf.s, p) && InwardIsNear(q, pf.s) && AllOnward(pf.s) && ClosedOnward(pf.s)
    ensures q.weight == 1.0 && q.H(p) == 0 ==> NoPathCheaper(q, pf.s, pf.s.g[p])
  {
    hide Query.WeightedH, Query.H, Sound, PosAt, Link, Stamped, Stored, Queued, ClosedStored, Ordered, Numbers,
         Instance.Interrupted, InwardIsNear, AllOnward, ClosedOnward, BestSoFar, ExpandedBut, Frontier, NoPathCheaper, IsPath, AllExpanded, Relaxed;
    CloseKeeps(q, s0, p, newest);
    SoundRooms(q, s0);
    forall pos: IndexedPos | pos.pos == p
      ensures var h := q.H(p); BestSoFar(q, pf.s, if h < best.h then Best(pos, pf.s.g[p], h) else best)
    {
      Improved(q, s0, best, pos, s0.g[p]);
    }
    if q.weight == 1.0 && q.H(p) == 0 {
      PoppedGoalIsOptimal(q, s0, p, best, newest);
    }
    if q.weight != 1.0 {
      ThenClosedOnward(pf.s);
    }
  }

  /**
   * What the nodes popped were estimated to cost: all but the last were affordable and no goals. The last ends
   * the search as found if it is a goal, else as over budget if it is not affordable.
   */
  ghost predicate Budgeted(q: Query, s: State, last: Pos, limit: int, status: Status) {
    && last in s.closed && last in s.g
    && (forall n :: n in s.closed && n != s.origin && n != last ==> Affordable(q, s, n, limit))
    && (status == Found <==> last != s.origin && q.H(last) == 0)
    && (status == OverBudget <==> last != s.origin && q.H(last) != 0 && s.g[last] + q.H(last) > limit)
  }

  predicate Affordable(q: Query, s: State, n: Pos, limit: int) {
    n in s.g && q.H(n) != 0 && s.g[n] + q.H(n) <= limit
  }

  /** Closed nodes keep their cost. */
  ghost predicate KeepsCosts(s: State, s': State) {
    s'.origin == s.origin && forall n :: n in s.closed && n in s.g ==> n in s'.g && s'.g[n] == s.g[n]
  }

  lemma LaterKeepsCosts(q: Query, s: State, s': State)
    requires Later(q, s, s')
    ensures KeepsCosts(s, s')
  {
    hide HonoursRefusals;
  }

  lemma StaysBudgeted(q: Query, s0: State, s: State, newest: Pos, p: Pos, limit: int, status: Status)
    requires Budgeted(q, s0, newest, limit, More) && p in s0.g && p !in s0.closed && p != s0.origin
    requires s.closed == s0.closed + {p} && KeepsCosts(Close(s0, p), s)
    requires status == Found <==> q.H(p) == 0
    requires status == OverBudget <==> q.H(p) != 0 && s0.g[p] + q.H(p) > limit
    ensures Budgeted(q, s, p, limit, status)
  {
    hide Query.H;
    forall n | n in s.closed && n != s.origin && n != p ensures Affordable(q, s, n, limit) {
      assert n == newest || Affordable(q, s0, n, limit);
    }
  }

  lemma OriginIsBudgeted(q: Query, s: State, limit: int)
    requires s.closed == {s.origin} && s.origin in s.g
    ensures Budgeted(q, s, s.origin, limit, More)
  {
    hide Query.H;
  }

  lemma EndsBudgeted(q: Query, s: State, last: Pos, limit: int, status: Status)
    requires Budgeted(q, s, last, limit, More) && status in {Drained, OutOfOps}
    ensures Budgeted(q, s, last, limit, status)
  {
  }

  /** The iteration of a node just closed: it may end the search, or improve on the best, and is expanded. */
  method Visit(pf: Instance, q: Query, maxCost: int, best: Best, current: nat, score: int, ghost s0: State,
      ghost newest: Pos)
    returns (status: Status, best': Best)
    requires current < Nodes(pf.s) && Popped(pf, q, s0, best, newest, At(pf.s, current)) && At(pf.s, current) in pf.s.g
    requires q.Valid() && score == F(q, pf.s, At(pf.s, current))
    modifies pf`s, pf`blocked, pf`asked, pf.rooms`table, pf.rooms.reverse
    modifies pf.parents, pf.scores, pf.openClosed.list, pf.heap, pf.heap.data
    ensures status != Drained && status != OutOfOps && pf.s.closed == old(pf.s).closed
    ensures pf.s.origin == old(pf.s).origin
    ensures status == More ==> Running(pf, q, best', At(old(pf.s), current))
    ensures status != More ==> Ended(pf, q, best', status)
    ensures KeepsCosts(old(pf.s), pf.s) && (status == HeapFull ==> pf.HeapFull())
    ensures if q.H(At(old(pf.s), current)) < best.h then best'.node.pos == At(old(pf.s), current) else best' == best
    ensures status == Found <==> q.H(At(old(pf.s), current)) == 0
    ensures status == OverBudget <==>
      q.H(At(old(pf.s), current)) != 0 && old(pf.s).g[At(old(pf.s), current)] + q.H(At(old(pf.s), current)) > maxCost
  {
    hide Query.WeightedH, Query.H, Sound, PosAt, Link, Instance.Valid, Instance.Interrupted, RoomOf, InwardIsNear, AllOnward, ClosedOnward,
         BestSoFar, EnteredAlong,
         ExpandedBut, Frontier, Kept, NoPathCheaper, IsCheapest, RoomsAreSound, Popped;
    ghost var s1, p := pf.s, At(pf.s, current);
    PoppedMeans(pf, q, s0, best, newest, p);
    PoppedIsValid(pf, q, s0, best, newest, p);
    var pos := PositionOf(pf, q, current);
    var h := q.H(pos.pos);
    var g := score - q.WeightedH(pos.pos);
    assert BestSoFar(q, s1, if h < best.h then Best(pos, g, h) else best);
    best' := best;
    if h == 0 {
      best' := Best(pos, g, 0);
      return Found, best';
    } else if h < best.h {
      best' := Best(pos, g, h);
    }
    if g + h > maxCost {
      return OverBudget, best';
    }
    var outcome := ExpandNode(pf, q, pos, current, g);
    LaterKeepsBest(pf, q, s1, best');
    LaterKeepsCosts(q, s1, pf.s);
    status := match outcome case Done => More case HeapFull => HeapFull case Aborted => Aborted;
  }

  lemma PoppedIsValid(pf: Instance, q: Query, s0: State, best: Best, newest: Pos, p: Pos)
    requires Popped(pf, q, s0, best, newest, p)
    ensures pf.Valid(q) && q.H(pf.s.origin) != 0 && Names(pf.s, best.node) && best.h > 0
  {
    hide Instance.Valid, Sound, BestSoFar, Kept, IsCheapest, Query.H;
  }

  /** Expansion leaves the best node alone. */
  lemma LaterKeepsBest(pf: Instance, q: Query, s: State, best: Best)
    requires q.Valid() && BestSoFar(q, s, best) && Later(q, s, pf.s)
    requires Names(s, best.node)
    ensures BestSoFar(q, pf.s, best) && Names(pf.s, best.node)
  {
    hide Query.H, HonoursRefusals;
  }

  /** Pulls entries until one is live: only these count as iterations. */
  method Iterate(pf: Instance, q: Query, maxCost: int, best: Best, ghost newest: Pos)
    returns (status: Status, best': Best, ghost newest': Pos)
    requires Running(pf, q, best, newest) && Budgeted(q, pf.s, newest, maxCost, More)
    modifies pf`s, pf`blocked, pf`asked, pf.rooms`table, pf.rooms.reverse
    modifies pf.parents, pf.scores, pf.openClosed.list, pf.heap, pf.heap.data
    ensures Budgeted(q, pf.s, newest', maxCost, status) && (status == HeapFull ==> pf.HeapFull())
    ensures status != OutOfOps && pf.s.origin == old(pf.s).origin
    ensures status == More ==> Running(pf, q, best', newest')
    ensures status != More ==> Ended(pf, q, best', status)
    ensures if status == Drained then pf.s == old(pf.s) && NothingOpen(pf.s)
            else newest' !in old(pf.s).closed && pf.s.closed == old(pf.s).closed + {newest'}
  {
    hide Query.WeightedH, Query.H, Sound, PosAt, Link, Instance.Valid, IsCheapest, Heap.Contents, Between, Ended, Budgeted,
         KeepsCosts;
    newest' := newest;
    ghost var s0 := pf.s;
    while pf.heap.size > 0
      invariant pf.Valid(q) && Between(q, pf.s, best, newest) && pf.s == s0
      decreases pf.heap.size
    {
      var live, current, score := TakeTop(pf, q);
      if live {
        newest' := At(pf.s, current);
        PoppedMeans(pf, q, s0, best, newest, newest');
        status, best' := Visit(pf, q, maxCost, best, current, score, s0, newest);
        StaysBudgeted(q, s0, pf.s, newest, newest', maxCost, status);
        return;
      }
    }
    best' := best;
    status := Drained;
    RunsDry(pf, q, best, newest);
    EndsBudgeted(q, pf.s, newest, maxCost, status);
  }

  lemma RunsDry(pf: Instance, q: Query, best: Best, newest: Pos)
    requires Running(pf, q, best, newest) && pf.heap.size == 0
    ensures Ended(pf, q, best, Drained) && NothingOpen(pf.s)
  {
    hide Query.H, Sound, PosAt, Link, InwardIsNear, AllOnward, ClosedOnward, BestSoFar, Stamped, Stored, Queued, ClosedStored,
         Instance.Interrupted, FollowedBut, Jps.Followed, SafeOrigin, EnteredAlong,
         AllExpanded, AllReachableClosed, NothingOpen;
    HeapIsEmpty(pf, q);
    EmptyMeansDrained(q, pf.s);
    if q.weight == 1.0 {
      DrainedClosesAll(q, pf.s, newest);
    } else {
      FollowedClosesAll(q, pf.s, newest);
      NoneEnteredAlong(q, pf.s, newest);
      DrainedFromSafe(q, pf.s);
      ThenClosedOnward(pf.s);
    }
  }

  /** Where a tile was entered along the border, its expansion fails. */
  lemma NoneEnteredAlong(q: Query, s: State, newest: Pos)
    requires q.Valid() && Sound(q, s) && FollowedBut(q, s, newest) && Jps.Followed(q, s, newest)
    ensures forall n :: !EnteredAlong(s, n)
  {
    hide Query.Cost, Sound, Along, HeadOn, Inner, Jps.Heading, Jps.Successors, Jps.AllReached, AllMet;
    OriginHasNoParent(q, s);
    forall n ensures !EnteredAlong(s, n) {
      if EnteredAlong(s, n) {
        assert Jps.Followed(q, s, n);
        Jps.HeadingIsDirection(q, s, n);
        assert false;
      }
    }
  }

  /** From an unsafe origin the tile along the border is reached for good, and popped before the search runs dry. */
  lemma DrainedFromSafe(q: Query, s: State)
    requires q.Valid() && Sound(q, s) && InwardIsNear(q, s) && NothingOpen(s) && forall n :: !EnteredAlong(s, n)
    ensures SafeOrigin(q, s.origin)
  {
    hide Query.Cost, Sound;
    if !SafeOrigin(q, s.origin) {
      var v := Inward(s.origin);
      assert !s.IsOpen(v) && !EnteredAlong(s, v);
      NearMeansFromOrigin(q, s, v);
    }
  }

  /** No other tile leads as cheaply to where the origin leads in one step. */
  lemma NearMeansFromOrigin(q: Query, s: State, v: Pos)
    requires q.Valid() && Sound(q, s) && v in s.g && v != s.origin && s.g[v] <= q.Cost(v)
    ensures v in s.parent && s.parent[v] == s.origin
  {
    hide Query.Cost, Sound, Link;
    ParentOf(q, s, v);
    var p := s.parent[v];
    LinkCostsLast(q, p, v, s.g[v] - s.g[p]);
    ParentOf(q, s, p);
    if p != s.origin {
      ParentOf(q, s, s.parent[p]);
    }
  }

  /** A link costs at least its last tile. */
  lemma LinkCostsLast(q: Query, a: Pos, b: Pos, d: int)
    requires q.Valid() && Link(q, a, b, d)
    ensures d >= q.Cost(b)
  {
    hide Query.Cost;
    WalkToEnd(a, b);
  }

  lemma HeapIsEmpty(pf: Instance, q: Query)
    requires pf.Valid(q) && pf.heap.size == 0
    ensures q.Valid() && Queued(q, pf.s, multiset{}) && pf.Interrupted(q)
  {
    hide Query.H, Sound, PosAt, Link, Stamped, Stored, Queued, ClosedStored;
    assert pf.heap.Contents() == multiset{};
  }

  // The end

  /** path_iterator: the tiles from a closed node back to the origin. A full heap leaves them as they were. */
  method PathOf(pf: Instance, q: Query, node: IndexedPos) returns (path: seq<Pos>)
    requires q.Valid() && pf.Interrupted(q) && Sound(q, pf.s) && Names(pf.s, node) && node.pos in pf.s.closed
    requires node.pos in pf.s.g
    ensures path == Trail(q, pf.s, node.pos)
  {
    hide PosAt, Link, Query.WeightedH, Ordered, OpenClosedList.InUse, Numbers, Sound, Instance.Interrupted,
         ValidRooms, Trail, RoomOf, PosIndex, Remains, Names, State.Admits;
    NamesRoom(pf.s, node);
    var index := PosIndex(node.room, node.pos);
    PathStarts(pf, q, node);
    path := [];
    ghost var left := Trail(q, pf.s, node.pos);
    while index != SENTINEL_INDEX
      invariant path + left == Trail(q, pf.s, node.pos)
      invariant index == SENTINEL_INDEX ==> left == []
      invariant index != SENTINEL_INDEX ==> Remains(q, pf.s, index, left)
      decreases |left|
    {
      RemainsMeans(q, pf.s, index, left);
      var p, parent := PathStep(pf, q, index);
      ghost var rest := left[1..];
      RemainsStep(q, pf.s, index, left, p, parent, path);
      path := path + [p];
      index := parent;
      left := rest;
    }
  }

  lemma NamesRoom(s: State, p: IndexedPos)
    requires Names(s, p)
    ensures p.room > 0
  {
  }

  /** The iterator begins at a node, not at the sentinel. */
  lemma PathStarts(pf: Instance, q: Query, node: IndexedPos)
    requires q.Valid() && pf.Interrupted(q) && Sound(q, pf.s) && Names(pf.s, node) && node.room > 0
    requires node.pos in pf.s.closed && node.pos in pf.s.g
    ensures PosIndex(node.room, node.pos) != SENTINEL_INDEX
    ensures Remains(q, pf.s, PosIndex(node.room, node.pos), Trail(q, pf.s, node.pos))
  {
    hide PosAt, Link, Sound, Instance.Interrupted, ValidRooms, RoomOf, PosIndex;
    NodeOf(pf.s, node.room, node.pos);
    NodesFit(pf, q);
  }

  /** What is still to come of a trail. */
  ghost predicate Remains(q: Query, s: State, index: int, left: seq<Pos>)
    requires q.Valid() && Sound(q, s)
  {
    && 0 <= index < Nodes(s) && At(s, index) in s.closed && At(s, index) in s.g
    && left == Trail(q, s, At(s, index)) && left != []
  }

  lemma RemainsMeans(q: Query, s: State, index: int, left: seq<Pos>)
    requires q.Valid() && Sound(q, s) && Remains(q, s, index, left)
    ensures 0 <= index < Nodes(s) && At(s, index) in s.closed && At(s, index) in s.g && |left| > 0
  {
    hide PosAt, Sound, Trail;
  }

  lemma RemainsStep(q: Query, s: State, index: int, left: seq<Pos>, p: Pos, parent: int, path: seq<Pos>)
    requires q.Valid() && Sound(q, s) && Remains(q, s, index, left) && p == At(s, index)
    requires if parent == SENTINEL_INDEX then Trail(q, s, p) == [p]
             else 0 <= parent < Nodes(s) && At(s, parent) in s.closed && At(s, parent) in s.g
    requires parent != SENTINEL_INDEX ==> Trail(q, s, p) == [p] + Trail(q, s, At(s, parent))
    ensures path + left == path + [p] + left[1..]
    ensures if parent == SENTINEL_INDEX then left[1..] == [] else Remains(q, s, parent, left[1..])
  {
    hide PosAt, Sound, Trail;
  }

  lemma NodesFit(pf: Instance, q: Query)
    requires pf.Interrupted(q)
    ensures Nodes(pf.s) < SENTINEL_INDEX
  {
    hide PosAt, Link, Query.WeightedH, Ordered, OpenClosedList.InUse, Numbers, Sound, ValidRooms;
    pf.SizesOf(q);
  }

  /** One step of the iterator. */
  method PathStep(pf: Instance, q: Query, index: nat) returns (p: Pos, parent: int)
    requires q.Valid() && pf.Interrupted(q) && Sound(q, pf.s) && index < Nodes(pf.s) && At(pf.s, index) in pf.s.closed
    requires At(pf.s, index) in pf.s.g
    ensures p == At(pf.s, index)
    ensures if parent == SENTINEL_INDEX then Trail(q, pf.s, p) == [p]
            else 0 <= parent < Nodes(pf.s) && At(pf.s, parent) in pf.s.closed && At(pf.s, parent) in pf.s.g
    ensures parent != SENTINEL_INDEX ==> Trail(q, pf.s, p) == [p] + Trail(q, pf.s, At(pf.s, parent))
    ensures Nodes(pf.s) < SENTINEL_INDEX
  {
    hide PosAt, Link, Query.WeightedH, Ordered, OpenClosedList.InUse, Numbers, Sound, ValidRooms;
    pf.SizesOf(q);
    p := PosAt(RoomsOf(pf.rooms.table), index);
    parent := pf.parents[index];
    assert ParentStored(pf.s, index, parent);
    Searches.ParentOf(q, pf.s, p);
    if p == pf.s.origin {
      OriginHasNoParent(q, pf.s);
    }
  }

  lemma OriginHasNoParent(q: Query, s: State)
    requires q.Valid() && Sound(q, s)
    ensures s.origin !in s.parent
  {
    hide Link, RoomsAreSound;
  }

  // The search

  function MakeQuery(terrain: map<Room, seq<byte>>, callback: map<Room, CallbackResult>, heuristic: Heuristic,
      options: Options, capacity: nat): (q: Query)
    requires capacity > 0
    ensures 0 < q.env.maxRooms <= capacity
  {
    var env := Env(terrain, callback, options.plainCost, options.swampCost, ClampTo(options.maxRooms, 1, capacity));
    Query(env, heuristic, ClampWeight(options.heuristicWeight))
  }

  /** A limit is what the option says, from 1 to the largest 32-bit number. */
  lemma LimitInNumbers(n: int)
    ensures 1 <= n <= 2147483647 ==> ClampTo(n, 1, MAX_INT) == n
    ensures n < 1 ==> ClampTo(n, 1, MAX_INT) == 1
    ensures n > 2147483647 ==> ClampTo(n, 1, MAX_INT) == 2147483647
  {
  }

  /** The weight lies between 1 and 9, the number of rooms between 1 and the capacity; the rest is passed on. */
  lemma QueryInNumbers(terrain: map<Room, seq<byte>>, callback: map<Room, CallbackResult>, heuristic: Heuristic,
      options: Options, capacity: nat)
    requires capacity > 0
    ensures var q := MakeQuery(terrain, callback, heuristic, options, capacity);
      && q.env.terrain == terrain && q.env.callback == callback && q.heuristic == heuristic
      && q.env.plainCost == options.plainCost && q.env.swampCost == options.swampCost
      && (1.0 <= options.heuristicWeight <= 9.0 ==> q.weight == options.heuristicWeight)
      && (options.heuristicWeight < 1.0 ==> q.weight == 1.0) && (options.heuristicWeight > 9.0 ==> q.weight == 9.0)
      && (1 <= options.maxRooms <= capacity ==> q.env.maxRooms == options.maxRooms)
      && (options.maxRooms < 1 ==> q.env.maxRooms == 1) && (options.maxRooms > capacity ==> q.env.maxRooms == capacity)
  {
  }

  /** What a search that could begin promises. */
  ghost predicate IsAnswer(q: Query, s: State, result: Result, status: Status)
    requires q.Valid() && Sound(q, s)
  {
    && |result.path| > 0 && result.path[0] in s.closed && result.path[0] in s.g
    && result.path == Trail(q, s, result.path[0]) && result.cost == s.g[result.path[0]]
    && (result.incomplete <==> q.H(result.path[0]) != 0) && (status == Found <==> !result.incomplete)
    && EndsNearest(q, s, result.path[0])
    && (q.weight == 1.0 && status == Found ==> NoPathCheaper(q, s, result.cost))
    && (q.weight == 1.0 && status == Drained ==> AllReachableClosed(q, s))
    && (q.weight != 1.0 && status == Drained ==> AllSuccessorsClosed(q, s) && SafeOrigin(q, s.origin))
    && (q.weight != 1.0 && status == Drained ==> forall n :: !EnteredAlong(s, n))
    && (q.weight != 1.0 ==> ClosedOnward(s))
    && (status == Drained ==> forall n :: n in s.closed ==> q.H(n) != 0)
  }

  /** What makes a search fail: it popped a tile that it entered along a border. Origins and corners may be to blame. */
  ghost predicate Failed(q: Query, s: State)
    requires q.Valid()
  {
    q.weight != 1.0 && (exists n :: EnteredAlong(s, n)) && !SafeCorners(q, s.origin)
  }

  /** That takes a passable tile beside a corner that is passable itself, or the origin. */
  lemma EnteredFromCorner(q: Query, s: State, n: Pos)
    requires q.Valid() && Sound(q, s) && EnteredAlong(s, n)
    ensures !SafeCorners(q, s.origin)
  {
    hide Query.Cost, Sound, Link;
    var p := s.parent[n];
    ParentIsSeen(q, s, n);
    SeenAreOpen(q, s, n);
    if p != s.origin {
      SeenAreOpen(q, s, p);
    }
    assert !SafeOrigin(q, p);
  }

  lemma SeenAreOpen(q: Query, s: State, p: Pos)
    requires q.Valid() && Sound(q, s) && p in s.g && p != s.origin
    ensures q.Cost(p) != OBSTACLE && p in s.parent && s.parent[p] in s.g
  {
    hide Query.Cost, Sound, Link;
    ParentOf(q, s, p);
    LinksCost(q, s.parent[p], p, s.g[p] - s.g[s.parent[p]]);
  }

  /** The path ends at a node of least heuristic among those popped, if there is one of finite heuristic. */
  ghost predicate EndsNearest(q: Query, s: State, end: Pos) {
    forall n :: n in s.closed && n != s.origin ==> if end == s.origin then q.H(n) >= INFINITE else q.H(end) <= q.H(n)
  }

  ghost function WorldTiles(): set<Pos> {
    set xx, yy | 0 <= xx < WORLD_SIZE && 0 <= yy < WORLD_SIZE :: Pos(xx, yy)
  }

  lemma ClosedInWorld(q: Query, s: State, p: Pos, closed: set<Pos>)
    requires q.Valid() && Sound(q, s) && s.closed == closed + {p} && p !in closed
    ensures WorldTiles() - s.closed < WorldTiles() - closed
    ensures |s.closed| == |closed| + 1
  {
    hide Link, RoomsAreSound;
    assert p in s.g && s.Admits(p);
    assert p in WorldTiles() - closed && p !in WorldTiles() - s.closed;
  }

  lemma EndedAnswers(pf: Instance, q: Query, best: Best, status: Status, path: seq<Pos>, ops: int)
    requires Ended(pf, q, best, status) && status != Aborted && Sound(q, pf.s) && best.node.pos in pf.s.g
    requires path == Trail(q, pf.s, best.node.pos)
    ensures IsAnswer(q, pf.s, Result(path, best.g, ops, best.h != 0), status)
  {
    hide Sound, Instance.Interrupted, Query.H, NoPathCheaper, AllReachableClosed, SafeOrigin, EnteredAlong;
  }

  lemma EndedFails(pf: Instance, q: Query, best: Best)
    requires Ended(pf, q, best, Aborted) && Sound(q, pf.s)
    ensures Failed(q, pf.s)
  {
    hide Sound, Instance.Interrupted, Query.H, SafeCorners, SafeOrigin, EnteredAlong;
    var n :| EnteredAlong(pf.s, n);
    EnteredFromCorner(q, pf.s, n);
  }

  /**
   * The first expansion, of the origin, cannot fill the heap. All tiles that it leads to can be expanded in
   * turn, in either mode, exactly if the origin is safe.
   */
  method ExpandOrigin(pf: Instance, q: Query, origin: Pos, index: nat)
    requires pf.Valid(q) && origin.InWorld() && pf.s == Start(origin, [RoomOf(origin)], {}) && pf.heap.size == 0
    requires pf.Indexed(IndexedPos(1, origin)) && index < Nodes(pf.s) && At(pf.s, index) == origin && q.H(origin) != 0
    modifies pf`s, pf`blocked, pf`asked, pf.rooms`table, pf.rooms.reverse
    modifies pf.parents, pf.scores, pf.openClosed.list, pf.heap, pf.heap.data
    ensures Running(pf, q, Best(IndexedPos(1, origin), 0, INFINITE), origin)
    ensures pf.s.origin == origin && pf.s.closed == {origin}
    ensures Perpendicular(pf.s) <==> SafeOrigin(q, origin)
  {
    hide Query.WeightedH, Query.H, Sound, PosAt, Link, Stamped, Stored, Queued, ClosedStored, Heap.Valid,
         OpenClosedList.InUse, Perpendicular, SafeOrigin, InwardIsNear, AllMet,
         Frontier, Relaxed, Instance.Separate, Instance.RoomsStored, Instance.AskedOnce, RoomOf, Later, NewParents;
    ghost var s0 := pf.s;
    HeapHasRoom(pf, q);
    StartIsFrontier(q, s0);
    var ok := AStar.Expand(pf, q, IndexedPos(1, origin), index, 0);
    StartBetween(q, s0, pf.s, origin);
    FirstTilesEnter(q, s0, pf.s, origin);
  }

  lemma HeapHasRoom(pf: Instance, q: Query)
    requires pf.Valid(q)
    ensures 8 <= pf.heap.data.Length && q.Valid() && Sound(q, pf.s)
  {
    hide Query.WeightedH, Query.H, Sound, PosAt, Link, Stamped, Stored, Queued, ClosedStored, Heap.Valid;
  }

  lemma StartIsFrontier(q: Query, s: State)
    requires q.Valid() && s == Start(s.origin, s.rooms, s.blocked)
    ensures Frontier(q, s, F(q, s, s.origin)) && s.closed <= s.g.Keys
  {
    hide Query.WeightedH;
    assert forall p :: !s.IsOpen(p);
  }

  /** After the first expansion, nothing but the origin is closed, and its neighbours are near. */
  lemma StartBetween(q: Query, s0: State, s: State, origin: Pos)
    requires q.Valid() && origin.InWorld() && s0 == Start(origin, [RoomOf(origin)], {}) && q.H(origin) != 0
    requires Sound(q, s) && Later(q, s0, s)
    requires origin in s.g && AllMet(q, s, origin)
    requires q.weight == 1.0 ==> Relaxed(q, s, origin) && s.closed <= s.g.Keys && Frontier(q, s, F(q, s, origin))
    ensures Between(q, s, Best(IndexedPos(1, origin), 0, INFINITE), origin)
    ensures s.origin == origin && s.closed == {origin} && InwardIsNear(q, s)
  {
    hide Query.WeightedH, Query.H, Link, Frontier, Relaxed, RoomOf, SafeOrigin, InwardIsNear, HonoursRefusals, AllMet, CanMove;
    SoundRooms(q, s);
    OriginLeadsNear(q, s, origin);
  }

  lemma OriginLeadsNear(q: Query, s: State, origin: Pos)
    requires q.Valid() && origin.InWorld() && Sound(q, s) && s.origin == origin && s.closed == {origin}
    requires RoomOf(origin) in s.rooms && origin in s.g && s.g[origin] == 0 && AllMet(q, s, origin)
    ensures InwardIsNear(q, s)
  {
    hide Query.Cost, Link, RoomOf, CanMove;
    if !SafeOrigin(q, origin) {
      InwardIsAlong(origin);
      assert Met(q, s, origin, Inward(origin));
    }
  }

  /** The neighbours that the first expansion leads to were entered from the origin. */
  lemma FirstTilesEnter(q: Query, s0: State, s: State, origin: Pos)
    requires q.Valid() && origin.InWorld() && s0 == Start(origin, [RoomOf(origin)], {}) && Sound(q, s)
    requires s.origin == origin
    requires NewParents(s0, s, origin) && InwardIsNear(q, s)
    ensures Perpendicular(s) <==> SafeOrigin(q, origin)
  {
    hide Query.Cost, Link, CanMove, Sound, Enters;
    forall p | p in s.parent ensures s.parent[p] == origin && (Enters(origin, p) <==> !Along(origin, p)) {
      assert s.parent[p] == origin && CanMove(origin, p);
      MovesEnter(origin, p);
    }
    if SafeOrigin(q, origin) {
      forall p | p in s.parent ensures Enters(s.parent[p], p) {
        ParentIsSeen(q, s, p);
        SeenAreOpen(q, s, p);
      }
    } else {
      var v := Inward(origin);
      SeenHasParent(q, s, v);
      assert !Enters(s.parent[v], v);
    }
  }

  lemma ParentIsSeen(q: Query, s: State, p: Pos)
    requires q.Valid() && Sound(q, s) && p in s.parent
    ensures p in s.g && p != s.origin
  {
    hide Link, RoomsAreSound;
  }

  /** Iterates while operations remain. */
  method Dispatch(pf: Instance, q: Query, maxCost: int, maxOps: nat, start: Best)
    returns (status: Status, best: Best, opsRemaining: int, ghost last: Pos)
    requires maxOps > 0 && Running(pf, q, start, pf.s.origin) && pf.s.closed == {pf.s.origin}
    modifies pf`s, pf`blocked, pf`asked, pf.rooms`table, pf.rooms.reverse
    modifies pf.parents, pf.scores, pf.openClosed.list, pf.heap, pf.heap.data
    ensures status != More && Ended(pf, q, best, status) && pf.s.origin == old(pf.s).origin
    ensures 0 <= opsRemaining <= maxOps && (status == OutOfOps <==> opsRemaining == 0)
    ensures |pf.s.closed| == 1 + (maxOps - opsRemaining) + (if status in {Found, OverBudget, HeapFull, Aborted} then 1 else 0)
    ensures Budgeted(q, pf.s, last, maxCost, status) && (status == HeapFull ==> pf.HeapFull())
  {
    hide Query.WeightedH, Query.H, Sound, PosAt, Link, Instance.Valid, Between, Ended, Budgeted;
    best := start;
    status := More;
    opsRemaining := maxOps;
    last := pf.s.origin;
    RunningMeans(pf, q, best, last);
    OriginIsBudgeted(q, pf.s, maxCost);
    while opsRemaining > 0
      invariant 0 <= opsRemaining <= maxOps && status == More && pf.s.origin == old(pf.s).origin
      invariant Running(pf, q, best, last) && Budgeted(q, pf.s, last, maxCost, More)
      invariant |pf.s.closed| == 1 + (maxOps - opsRemaining)
      decreases WorldTiles() - pf.s.closed
    {
      ghost var closed := pf.s.closed;
      status, best, last := Iterate(pf, q, maxCost, best, last);
      if status != More {
        EndedMeans(pf, q, best, status);
        if status != Drained { ClosedInWorld(q, pf.s, last, closed); }
        return;
      }
      RunningMeans(pf, q, best, last);
      ClosedInWorld(q, pf.s, last, closed);
      opsRemaining := opsRemaining - 1;
    }
    status := OutOfOps;
    RunningEnds(pf, q, best, last);
    EndsBudgeted(q, pf.s, last, maxCost, status);
  }

  lemma EndedMeans(pf: Instance, q: Query, best: Best, status: Status)
    requires Ended(pf, q, best, status)
    ensures q.Valid() && Sound(q, pf.s) && pf.Interrupted(q)
    ensures Names(pf.s, best.node) && best.node.pos in pf.s.closed && best.node.pos in pf.s.g
  {
    hide Sound, Query.H, NoPathCheaper, AllReachableClosed, ClosedStored, OpenClosedList.InUse, Ordered, Numbers;
  }

  lemma RunningMeans(pf: Instance, q: Query, best: Best, newest: Pos)
    requires Running(pf, q, best, newest)
    ensures q.Valid() && Sound(q, pf.s) && pf.s.origin in pf.s.closed && pf.s.origin in pf.s.g
  {
    hide Sound, Instance.Valid, BestSoFar, Kept, Query.H;
    SoundRooms(q, pf.s);
  }

  lemma RunningEnds(pf: Instance, q: Query, best: Best, newest: Pos)
    requires Running(pf, q, best, newest)
    ensures Ended(pf, q, best, OutOfOps)
  {
    hide Sound, BestSoFar, Kept, Query.H, Instance.Interrupted, Stamped, Stored, Queued, PosAt, ClosedOnward;
    if q.weight != 1.0 {
      KeptOnward(q, pf.s, newest);
    }
  }

  lemma KeptOnward(q: Query, s: State, newest: Pos)
    requires q.Valid() && q.weight != 1.0 && Kept(q, s, newest)
    ensures ClosedOnward(s)
  {
    hide FollowedBut, Jps.Followed, InwardIsNear;
    ThenClosedOnward(s);
  }

  lemma InterruptedIsReady(pf: Instance, q: Query)
    requires pf.Interrupted(q)
    ensures pf.Ready()
  {
    hide Sound, ClosedStored, Ordered, Numbers, Query.H, RoomsOf;
  }

  /** The rooms that the callback was asked about, each once. */
  ghost predicate AskedNoneTwice(pf: Instance)
    reads pf
  {
    forall i, j :: 0 <= i < j < |pf.asked| ==> pf.asked[i] != pf.asked[j]
  }

  /** search, for the query that its options amount to. The arrays are left ready for the next search. */
  method Run(pf: Instance, q: Query, origin: Pos, options: Options)
    returns (answer: Wrappers.Option<Result>, ghost status: Status, ghost last: Pos)
    requires pf.Ready() && q.Valid() && q.env.maxRooms <= pf.capacity && origin.InWorld()
    modifies pf, pf.rooms`table, pf.rooms.reverse, pf.openClosed, pf.openClosed.list, pf.heap, pf.heap.data, pf.parents, pf.scores
    ensures pf.Ready()
    ensures q.H(origin) == 0 ==> answer == Wrappers.Some(Result([], 0, 0, false))
    ensures q.H(origin) != 0 && !q.env.Passable(RoomOf(origin)) ==> answer == Wrappers.Some(Result([], 0, 0, true))
    ensures q.H(origin) != 0 && q.env.Passable(RoomOf(origin)) ==>
      && Sound(q, pf.s) && pf.s.origin == origin && AskedNoneTwice(pf) && (answer.None? <==> status == Aborted)
      && (answer.None? ==> Failed(q, pf.s))
      && (answer.Some? ==> IsAnswer(q, pf.s, answer.value, status) && Counts(pf.s, options, answer.value, status))
      && Budgeted(q, pf.s, last, ClampTo(options.maxCost, 1, MAX_INT), status) && (status == HeapFull ==> pf.HeapFull())
  {
    hide Query.WeightedH, Query.H, Sound, PosAt, Link, Instance.Valid, Instance.Interrupted, Instance.Ready, Between, Ended,
         IsAnswer, Failed, SafeOrigin, Env.Cost, RoomOf, Names, Budgeted, BestSoFar, AskedNoneTwice, Trail;
    if q.H(origin) == 0 {
      return Wrappers.Some(Result([], 0, 0, false)), Found, origin;
    }
    var found, index := Begin(pf, q, origin);
    if !found {
      return Wrappers.Some(Result([], 0, 0, true)), Drained, origin;
    }
    var maxCost := ClampTo(options.maxCost, 1, MAX_INT);
    var maxOps := ClampTo(options.maxOps, 1, MAX_INT);
    var best := Best(IndexedPos(1, origin), 0, INFINITE);
    ExpandOrigin(pf, q, origin, index);
    var end, opsRemaining;
    end, best, opsRemaining, last := Dispatch(pf, q, maxCost, maxOps, best);
    status := end;
    EndedMeans(pf, q, best, status);
    InterruptedIsReady(pf, q);
    InterruptedAsks(pf, q);
    if end == Aborted {
      EndedFails(pf, q, best);
      return Wrappers.None, status, last;
    }
    var path := PathOf(pf, q, best.node);
    answer := Wrappers.Some(Result(path, best.g, options.maxOps - opsRemaining, best.h != 0));
    EndedAnswers(pf, q, best, status, path, options.maxOps - opsRemaining);
  }

  /** Every iteration but the last expands the one node that it closes; the operations reported count these. */
  ghost predicate Counts(s: State, options: Options, result: Result, status: Status) {
    var expanded := result.ops + ClampTo(options.maxOps, 1, MAX_INT) - options.maxOps;
    && 0 <= expanded <= ClampTo(options.maxOps, 1, MAX_INT)
    && (status == OutOfOps <==> expanded == ClampTo(options.maxOps, 1, MAX_INT))
    && |s.closed| == 1 + expanded + (if status in {Found, OverBudget, HeapFull} then 1 else 0)
  }

  /** With blocked corners, a jump point search that nothing else ends fails exactly if its origin is unsafe. */
  lemma FailsIffUnsafe(q: Query, s: State, answer: Wrappers.Option<Result>)
    requires q.Valid() && Sound(q, s) && q.weight != 1.0 && CornersBlocked(q)
    requires match answer case None => Failed(q, s) case Some(result) => IsAnswer(q, s, result, Drained)
    ensures answer.None? <==> !SafeOrigin(q, s.origin)
  {
    hide SafeCorners, SafeOrigin, CornersBlocked, EnteredAlong, Sound, Trail, AllSuccessorsClosed, Query.H;
    BlockedCornersAreSafe(q, s.origin);
  }

  lemma InterruptedAsks(pf: Instance, q: Query)
    requires pf.Interrupted(q)
    ensures AskedNoneTwice(pf)
  {
    hide Sound, ClosedStored, Heap.Valid, RoomTable.Valid, OpenClosedList.InUse;
  }

  /** search: a query is made of loaded terrain, callback, heuristic and options, whose values are clamped. */
  method Search(pf: Instance, terrain: map<Room, seq<byte>>, callback: map<Room, CallbackResult>, origin: Pos,
      heuristic: Heuristic, options: Options)
    returns (answer: Wrappers.Option<Result>, ghost q: Query, ghost status: Status, ghost last: Pos)
    requires pf.Ready() && origin.InWorld() && pf.capacity > 0
    requires MakeQuery(terrain, callback, heuristic, options, pf.capacity).Valid()
    modifies pf, pf.rooms`table, pf.rooms.reverse, pf.openClosed, pf.openClosed.list, pf.heap, pf.heap.data, pf.parents, pf.scores
    ensures pf.Ready() && q == MakeQuery(terrain, callback, heuristic, options, pf.capacity)
    ensures q.H(origin) == 0 ==> answer == Wrappers.Some(Result([], 0, 0, false))
    ensures q.H(origin) != 0 && !q.env.Passable(RoomOf(origin)) ==> answer == Wrappers.Some(Result([], 0, 0, true))
    ensures q.H(origin) != 0 && q.env.Passable(RoomOf(origin)) ==>
      && Sound(q, pf.s) && pf.s.origin == origin && AskedNoneTwice(pf) && (answer.None? <==> status == Aborted)
      && (answer.None? ==> Failed(q, pf.s))
      && (answer.Some? ==> IsAnswer(q, pf.s, answer.value, status) && Counts(pf.s, options, answer.value, status))
      && Budgeted(q, pf.s, last, ClampTo(options.maxCost, 1, MAX_INT), status) && (status == HeapFull ==> pf.HeapFull())
  {
    hide Query.H, Sound, Instance.Ready, IsAnswer, Failed, Env.Cost, Counts, Budgeted;
    var query := MakeQuery(terrain, callback, heuristic, options, pf.capacity);
    q := query;
    answer, status, last := Run(pf, query, origin, options);
  }
}
