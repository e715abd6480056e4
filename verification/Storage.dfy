/** How the arrays of a search store its graph, and what each array update does to that. */
module Storage {
  import opened Positions
  import opened Terrain
  import opened Heuristics
  import opened Heaps
  import opened Searches

  /** numeric_limits<pos_index_t>::max() */
  const SENTINEL_INDEX := 0x7fff_ffff

  /** The number of node indices in use. */
  function Nodes(s: State): nat {
    |s.rooms| * ROOM_TILES
  }

  /** The tile of a node. */
  function At(s: State, i: nat): Pos
    requires i < Nodes(s)
  {
    PosAt(s.rooms, i)
  }

  /** The stamp of each node says whether it is closed or open; nodes of rooms yet to come have neither stamp. */
  predicate Stamped(s: State, list: seq<nat>, marker: nat) {
    && Nodes(s) <= |list|
    && (forall i :: 0 <= i < Nodes(s) ==> (list[i] == marker + 1 <==> At(s, i) in s.closed))
    && (forall i :: 0 <= i < Nodes(s) ==> (list[i] == marker <==> s.IsOpen(At(s, i))))
    && forall i :: Nodes(s) <= i < |list| ==> list[i] != marker && list[i] != marker + 1
  }

  predicate ParentStored(s: State, i: nat, parent: int)
    requires i < Nodes(s)
  {
    var p := At(s, i);
    if p in s.parent then 0 <= parent < Nodes(s) && At(s, parent) == s.parent[p] else parent == SENTINEL_INDEX
  }

  /** The score and the parent of a node that was seen. */
  predicate NodeStored(q: Query, s: State, scores: seq<int>, parents: seq<int>, i: nat)
    requires i < Nodes(s) <= |scores| == |parents| && At(s, i) in s.g
  {
    scores[i] == F(q, s, At(s, i)) && ParentStored(s, i, parents[i])
  }

  predicate Stored(q: Query, s: State, scores: seq<int>, parents: seq<int>) {
    && Nodes(s) <= |scores| == |parents|
    && forall i :: 0 <= i < Nodes(s) && At(s, i) in s.g ==> NodeStored(q, s, scores, parents, i)
  }

  /** As above for closed nodes alone: this survives a push that finds the heap full. */
  predicate ClosedStored(s: State, parents: seq<int>) {
    && Nodes(s) <= |parents|
    && forall i :: 0 <= i < Nodes(s) && At(s, i) in s.closed ==> ParentStored(s, i, parents[i])
  }

  /** A heap entry was the score of its node once; it is stale if the node was closed or has improved. */
  predicate EntrySound(q: Query, s: State, e: HeapNode) {
    && e.pos < Nodes(s) && At(s, e.pos) in s.g
    && e.score >= F(q, s, At(s, e.pos))
    && (At(s, e.pos) in s.closed ==> e.score > F(q, s, At(s, e.pos)))
  }

  /** Lazy deletion is exact: every open node has one live entry, and all other entries are stale. */
  predicate Queued(q: Query, s: State, entries: multiset<HeapNode>) {
    && (forall e :: e in entries ==> EntrySound(q, s, e))
    && forall i :: 0 <= i < Nodes(s) && s.IsOpen(At(s, i)) ==> entries[HeapNode(i, F(q, s, At(s, i)))] == 1
  }

  /** The node of an admitted tile. */
  lemma NodeOf(s: State, room: nat, p: Pos)
    requires 0 < room <= |s.rooms| && p.InWorld() && s.rooms[room - 1] == RoomOf(p)
    ensures PosIndex(room, p) < Nodes(s) && At(s, PosIndex(room, p)) == p
  {
    IndexRoundTrip(s.rooms, room, p);
  }

  lemma SameNode(s: State, i: nat, j: nat)
    requires ValidRooms(s.rooms) && i < Nodes(s) && j < Nodes(s) && At(s, i) == At(s, j)
    ensures i == j
  {
    NoCollisions(s.rooms, i, j);
  }

  // Pushing

  /** A node improves, or is opened: what changes in each array. */
  lemma PushStored(q: Query, s: State, s': State, scores: seq<int>, parents: seq<int>, i: nat, from: nat, g: int)
    requires ValidRooms(s.rooms) && Stored(q, s, scores, parents) && i < Nodes(s) && from < Nodes(s)
    requires s' == s.(g := s.g[At(s, i) := g], parent := s.parent[At(s, i) := At(s, from)])
    ensures Stored(q, s', scores[i := g + q.WeightedH(At(s, i))], parents[i := from])
  {
    hide PosAt, Query.WeightedH;
    var scores', parents' := scores[i := g + q.WeightedH(At(s, i))], parents[i := from];
    forall j | 0 <= j < Nodes(s') && At(s', j) in s'.g ensures NodeStored(q, s', scores', parents', j) {
      if j != i {
        if At(s, j) == At(s, i) { SameNode(s, i, j); }
        assert NodeStored(q, s, scores, parents, j);
      }
    }
  }

  lemma {:induction false} PushStamped(s: State, s': State, list: seq<nat>, marker: nat, i: nat, from: Pos, g: int)
    requires ValidRooms(s.rooms) && Stamped(s, list, marker) && i < Nodes(s) && At(s, i) !in s.closed
    requires s' == s.(g := s.g[At(s, i) := g], parent := s.parent[At(s, i) := from])
    ensures Stamped(s', list[i := marker], marker)
  {
    hide PosAt;
    forall j | 0 <= j < Nodes(s) && j != i ensures At(s, j) != At(s, i) {
      if At(s, j) == At(s, i) { SameNode(s, i, j); }
    }
  }

  lemma PushQueued(q: Query, s: State, s': State, entries: multiset<HeapNode>, i: nat, from: Pos, g: int)
    requires ValidRooms(s.rooms) && Queued(q, s, entries) && i < Nodes(s) && At(s, i) !in s.closed
    requires At(s, i) in s.g ==> g < s.g[At(s, i)]
    requires s' == s.(g := s.g[At(s, i) := g], parent := s.parent[At(s, i) := from])
    ensures Queued(q, s', entries + multiset{HeapNode(i, g + q.WeightedH(At(s, i)))})
  {
    hide PosAt, Query.WeightedH;
    var added := HeapNode(i, g + q.WeightedH(At(s, i)));
    var entries' := entries + multiset{added};
    forall j | 0 <= j < Nodes(s) && j != i ensures At(s, j) != At(s, i) {
      if At(s, j) == At(s, i) { SameNode(s, i, j); }
    }
    forall e | e in entries' ensures EntrySound(q, s', e) {
      if e in entries {
        assert EntrySound(q, s, e);
      }
    }
    assert added !in entries by {
      assert !EntrySound(q, s, added);
    }
    forall j | 0 <= j < Nodes(s') && s'.IsOpen(At(s', j)) ensures entries'[HeapNode(j, F(q, s', At(s', j)))] == 1 {
      if j != i {
        assert s.IsOpen(At(s, j));
      }
    }
  }

  /** Scores of nodes that are not closed do not matter to what closed nodes store. */
  lemma StoredImpliesClosed(q: Query, s: State, scores: seq<int>, parents: seq<int>)
    requires Stored(q, s, scores, parents) && s.closed <= s.g.Keys
    ensures ClosedStored(s, parents)
  {
    hide PosAt;
    forall i | 0 <= i < Nodes(s) && At(s, i) in s.closed ensures ParentStored(s, i, parents[i]) {
      assert NodeStored(q, s, scores, parents, i);
    }
  }

  // Closing

  lemma CloseStamped(s: State, list: seq<nat>, marker: nat, i: nat)
    requires ValidRooms(s.rooms) && Stamped(s, list, marker) && i < Nodes(s) && s.IsOpen(At(s, i))
    ensures Stamped(Close(s, At(s, i)), list[i := marker + 1], marker)
  {
    hide PosAt;
    forall j | 0 <= j < Nodes(s) && j != i ensures At(s, j) != At(s, i) {
      if At(s, j) == At(s, i) { SameNode(s, i, j); }
    }
  }

  lemma CloseStored(q: Query, s: State, scores: seq<int>, parents: seq<int>, p: Pos)
    requires Stored(q, s, scores, parents)
    ensures Stored(q, Close(s, p), scores, parents)
  {
    hide PosAt;
    forall j | 0 <= j < Nodes(s) && At(s, j) in s.g ensures NodeStored(q, Close(s, p), scores, parents, j) {
      assert NodeStored(q, s, scores, parents, j);
    }
  }

  /** Closing the node of the entry just taken off leaves only stale entries for it. */
  lemma CloseQueued(q: Query, s: State, entries: multiset<HeapNode>, top: HeapNode)
    requires ValidRooms(s.rooms) && Queued(q, s, entries) && top in entries && top.pos < Nodes(s)
    requires s.IsOpen(At(s, top.pos)) && top.score == F(q, s, At(s, top.pos))
    ensures Queued(q, Close(s, At(s, top.pos)), entries - multiset{top})
  {
    hide PosAt, Query.WeightedH;
    var p, rest := At(s, top.pos), entries - multiset{top};
    var s' := Close(s, p);
    forall j | 0 <= j < Nodes(s) && j != top.pos ensures At(s, j) != p {
      if At(s, j) == p { SameNode(s, top.pos, j); }
    }
    assert entries[top] == 1;
    forall e | e in rest ensures EntrySound(q, s', e) {
      assert e in entries && EntrySound(q, s, e);
    }
    forall j | 0 <= j < Nodes(s') && s'.IsOpen(At(s', j)) ensures rest[HeapNode(j, F(q, s', At(s', j)))] == 1 {
      assert j != top.pos && s.IsOpen(At(s, j));
    }
  }

  /** Taking off a stale entry harms nothing. */
  lemma {:induction false} DiscardQueued(q: Query, s: State, entries: multiset<HeapNode>, top: HeapNode)
    requires Queued(q, s, entries) && top in entries && top.pos < Nodes(s) && At(s, top.pos) in s.g
    requires top.score != F(q, s, At(s, top.pos))
    ensures Queued(q, s, entries - multiset{top})
  {
    hide PosAt, Query.WeightedH;
    var rest := entries - multiset{top};
    forall e | e in rest ensures EntrySound(q, s, e) {
      assert e in entries;
    }
    forall j | 0 <= j < Nodes(s) && s.IsOpen(At(s, j)) ensures rest[HeapNode(j, F(q, s, At(s, j)))] == 1 {
      assert HeapNode(j, F(q, s, At(s, j))) != top;
    }
  }

  // Admitting a room

  lemma AdmitKeepsNodes(s: State, r: Room, i: nat)
    requires i < Nodes(s)
    ensures i < Nodes(AdmitRoom(s, r)) && At(AdmitRoom(s, r), i) == At(s, i)
  {
    IndicesAreStable(s.rooms, s.rooms + [r], i);
  }

  /** No tile of a room just admitted has been seen. */
  lemma {:induction false} AdmittedUnseen(q: Query, s: State, r: Room, i: nat)
    requires q.Valid() && Sound(q, s) && r.InWorld() && r !in s.rooms
    requires Nodes(s) <= i < Nodes(AdmitRoom(s, r))
    ensures At(AdmitRoom(s, r), i) !in s.g
  {
    hide Link;
    var rooms := s.rooms + [r];
    assert ValidRooms(rooms);
    PositionRoundTrip(rooms, i);
    assert i / ROOM_TILES == |s.rooms|;
  }

  lemma AdmitStamped(q: Query, s: State, r: Room, list: seq<nat>, marker: nat)
    requires q.Valid() && Sound(q, s) && r.InWorld() && r !in s.rooms
    requires Stamped(s, list, marker) && Nodes(AdmitRoom(s, r)) <= |list|
    ensures Stamped(AdmitRoom(s, r), list, marker)
  {
    hide PosAt, RoomsAreSound, Link;
    var s' := AdmitRoom(s, r);
    forall i | 0 <= i < Nodes(s')
      ensures list[i] == marker + 1 <==> At(s', i) in s'.closed
      ensures list[i] == marker <==> s'.IsOpen(At(s', i))
    {
      if i < Nodes(s) { AdmitKeepsNodes(s, r, i); } else { AdmittedUnseen(q, s, r, i); }
    }
  }

  lemma AdmitStored(q: Query, s: State, r: Room, scores: seq<int>, parents: seq<int>)
    requires q.Valid() && Sound(q, s) && r.InWorld() && r !in s.rooms
    requires Stored(q, s, scores, parents) && Nodes(AdmitRoom(s, r)) <= |scores|
    ensures Stored(q, AdmitRoom(s, r), scores, parents)
  {
    hide PosAt, RoomsAreSound, Link, Query.WeightedH;
    var s' := AdmitRoom(s, r);
    forall i | 0 <= i < Nodes(s') && At(s', i) in s'.g ensures NodeStored(q, s', scores, parents, i) {
      if i < Nodes(s) {
        AdmitKeepsNodes(s, r, i);
        assert NodeStored(q, s, scores, parents, i);
        if At(s, i) in s.parent { AdmitKeepsNodes(s, r, parents[i]); }
      } else {
        AdmittedUnseen(q, s, r, i);
      }
    }
  }

  lemma AdmitQueued(q: Query, s: State, r: Room, entries: multiset<HeapNode>)
    requires q.Valid() && Sound(q, s) && r.InWorld() && r !in s.rooms
    requires Queued(q, s, entries)
    ensures Queued(q, AdmitRoom(s, r), entries)
  {
    hide PosAt, RoomsAreSound, Link, Query.WeightedH;
    var s' := AdmitRoom(s, r);
    forall e | e in entries ensures EntrySound(q, s', e) {
      assert EntrySound(q, s, e);
      AdmitKeepsNodes(s, r, e.pos);
    }
    forall i | 0 <= i < Nodes(s') && s'.IsOpen(At(s', i)) ensures entries[HeapNode(i, F(q, s', At(s', i)))] == 1 {
      if i < Nodes(s) { AdmitKeepsNodes(s, r, i); } else { AdmittedUnseen(q, s, r, i); }
    }
  }

  lemma BlockKeepsAll(q: Query, s: State, r: Room, list: seq<nat>, marker: nat, scores: seq<int>, parents: seq<int>,
      entries: multiset<HeapNode>)
    requires Stamped(s, list, marker) && Stored(q, s, scores, parents) && Queued(q, s, entries)
    ensures Stamped(BlockRoom(s, r), list, marker) && Stored(q, BlockRoom(s, r), scores, parents)
    ensures Queued(q, BlockRoom(s, r), entries)
  {
    hide PosAt, Query.WeightedH;
    var s' := BlockRoom(s, r);
    forall i | 0 <= i < Nodes(s') && At(s', i) in s'.g ensures NodeStored(q, s', scores, parents, i) {
      assert NodeStored(q, s, scores, parents, i);
    }
    forall e | e in entries ensures EntrySound(q, s', e) {
      assert EntrySound(q, s, e);
    }
  }
}
