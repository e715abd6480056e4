/** One expansion of A*: all eight neighbours, apart from the moves that portal tiles forbid. */
module AStar {
  import opened Positions
  import opened Terrain
  import opened Heaps
  import opened OpenClosed
  import opened RoomTables
  import opened Searches
  import opened Optimality
  import opened Storage
  import opened Pathfinder

  /** From one point of a search to a later one, while the same nodes are closed. */
  ghost predicate Later(q: Query, s: State, s': State) {
    Extends(s, s') && HonoursRefusals(q, s, s')
  }

  lemma LaterTrans(q: Query, a: State, b: State, c: State)
    requires Later(q, a, b) && Later(q, b, c)
    ensures Later(q, a, c)
  {
    hide Extends;
    ExtendsTrans(a, b, c);
    forall r | r in c.rooms && r !in a.rooms ensures !Refuses(q, a, r) {
      if Refuses(q, a, r) {
        RefusalLasts(q, a, b, r);
      }
    }
  }

  /** A refused room stays refused. */
  lemma {:induction false} RefusalLasts(q: Query, s: State, s': State, r: Room)
    requires Later(q, s, s') && Refuses(q, s, r)
    ensures Refuses(q, s', r)
  {
  }

  lemma LookIsLater(q: Query, s: State, s': State, r: Room)
    requires s' == s || s' == AdmitRoom(s, r) || s' == BlockRoom(s, r)
    requires HonoursRefusals(q, s, s')
    ensures Later(q, s, s') && s'.g == s.g && s'.closed == s.closed && s'.parent == s.parent && s'.origin == s.origin
  {
  }

  lemma PushIsLater(q: Query, s: State, p: Pos, from: Pos, g: int)
    requires s.closed <= s.g.Keys
    ensures Later(q, s, Push(s, p, from, g))
  {
    PushExtends(s, p, from, g);
  }

  /** Rooms inside the outer ring have neighbours in the world. */
  lemma {:induction false} NeighboursInWorld(q: Query, s: State, p: Pos, v: Pos)
    requires q.Valid() && Sound(q, s) && s.Admits(p) && Adjacent(p, v)
    ensures v.InWorld()
  {
    hide Link;
    assert q.env.Passable(RoomOf(p));
  }

  /** The moves of the first `count` directions were tried. */
  ghost predicate TriedUpTo(q: Query, s: State, n: Pos, count: nat)
    requires q.Valid() && n in s.g && count <= 8
  {
    forall dir: nat :: dir < count ==> Tried(q, s, n, n.Translate(Delta(dir).0, Delta(dir).1))
  }

  lemma TriedUpToIsStable(q: Query, s: State, s': State, n: Pos, count: nat)
    requires q.Valid() && n in s.closed && n in s.g && n in s'.g && count <= 8
    requires Later(q, s, s') && TriedUpTo(q, s, n, count)
    ensures TriedUpTo(q, s', n, count)
  {
    hide Tried, Extends, HonoursRefusals;
    forall dir: nat | dir < count ensures Tried(q, s', n, n.Translate(Delta(dir).0, Delta(dir).1)) {
      LaterMeans(q, s, s');
      TriedIsStable(q, s, s', n, n.Translate(Delta(dir).0, Delta(dir).1));
    }
  }

  lemma LaterMeans(q: Query, s: State, s': State)
    requires Later(q, s, s')
    ensures Extends(s, s')
    ensures forall r :: r in s'.rooms && r !in s.rooms ==> !Refuses(q, s, r)
  {
  }

  lemma AllTried(q: Query, s: State, n: Pos)
    requires q.Valid() && n in s.g && TriedUpTo(q, s, n, 8)
    ensures Relaxed(q, s, n)
  {
    forall v ensures Tried(q, s, n, v) {
      DirectionsAreAll(n, v);
      if Adjacent(n, v) {
        var dir: nat :| dir < 8 && v == n.Translate(Delta(dir).0, Delta(dir).1);
      }
    }
  }

  /** As Tried, but for any weight: what was closed before is not improved. */
  predicate Met(q: Query, s: State, n: Pos, v: Pos)
    requires q.Valid() && n in s.g
  {
    CanMove(n, v) && q.Cost(v) != OBSTACLE ==>
      && v.InWorld()
      && if RoomOf(v) in s.rooms then v in s.g && (v in s.closed || s.g[v] <= s.g[n] + q.Cost(v))
         else Refuses(q, s, RoomOf(v))
  }

  ghost predicate MetUpTo(q: Query, s: State, n: Pos, count: nat)
    requires q.Valid() && n in s.g && count <= 8
  {
    forall dir: nat :: dir < count ==> Met(q, s, n, n.Translate(Delta(dir).0, Delta(dir).1))
  }

  ghost predicate AllMet(q: Query, s: State, n: Pos)
    requires q.Valid() && n in s.g
  {
    forall v :: Met(q, s, n, v)
  }

  lemma MetIsStable(q: Query, s: State, s': State, n: Pos, v: Pos)
    requires q.Valid() && n in s.g && n in s'.g && s'.g[n] == s.g[n] && Later(q, s, s') && Met(q, s, n, v)
    ensures Met(q, s', n, v)
  {
    hide Query.Cost, CanMove, HonoursRefusals, Refuses;
    if v.InWorld() && RoomOf(v) !in s.rooms && Refuses(q, s, RoomOf(v)) {
      RefusalLasts(q, s, s', RoomOf(v));
      RefusedIsNotAdmitted(q, s', RoomOf(v));
    }
  }

  lemma RefusedIsNotAdmitted(q: Query, s: State, r: Room)
    requires Refuses(q, s, r)
    ensures r !in s.rooms
  {
  }

  lemma MetUpToIsStable(q: Query, s: State, s': State, n: Pos, count: nat)
    requires q.Valid() && n in s.g && n in s'.g && s'.g[n] == s.g[n] && count <= 8
    requires Later(q, s, s') && MetUpTo(q, s, n, count)
    ensures MetUpTo(q, s', n, count)
  {
    hide Met, Later;
    forall dir: nat | dir < count ensures Met(q, s', n, n.Translate(Delta(dir).0, Delta(dir).1)) {
      MetIsStable(q, s, s', n, n.Translate(Delta(dir).0, Delta(dir).1));
    }
  }

  lemma AllDirectionsMet(q: Query, s: State, n: Pos)
    requires q.Valid() && n in s.g && MetUpTo(q, s, n, 8)
    ensures AllMet(q, s, n)
  {
    forall v ensures Met(q, s, n, v) {
      DirectionsAreAll(n, v);
      if Adjacent(n, v) {
        var dir: nat :| dir < 8 && v == n.Translate(Delta(dir).0, Delta(dir).1);
      }
    }
  }

  lemma PushMeets(q: Query, s: State, n: Pos, v: Pos)
    requires q.Valid() && Sound(q, s) && n in s.closed && n in s.g && s.Admits(v)
    ensures var s' := Push(s, v, n, s.g[n] + q.Cost(v));
      n in s'.g && s'.g[n] == s.g[n] && Met(q, s', n, v)
  {
    hide Link, RoomsAreSound, Query.Cost, CanMove;
  }

  /** Whatever got another parent was reached from `n` by one move. */
  ghost predicate NewParents(s0: State, s: State, n: Pos) {
    forall p :: p in s.parent ==> (p in s0.parent && s.parent[p] == s0.parent[p]) || (s.parent[p] == n && CanMove(n, p))
  }

  /** What an expansion of `n` that began at `s0` has established. */
  ghost predicate Expanding(q: Query, s0: State, s: State, n: Pos, count: nat)
    requires q.Valid() && count <= 8
  {
    && Later(q, s0, s) && Sound(q, s) && n in s.closed && n in s0.g && n in s.g && s.g[n] == s0.g[n]
    && NewParents(s0, s, n) && MetUpTo(q, s, n, count)
    && (q.weight == 1.0 && s0.closed <= s0.g.Keys && Frontier(q, s0, F(q, s0, n)) ==>
          s.closed <= s.g.Keys && Frontier(q, s, F(q, s, n)) && TriedUpTo(q, s, n, count))
  }

  lemma ExpandingStarts(q: Query, s: State, n: Pos)
    requires q.Valid() && Sound(q, s) && n in s.closed
    ensures n in s.g && Expanding(q, s, s, n, 0)
  {
    hide Link;
  }

  /** Looking at a tile disturbs nothing. */
  lemma ExpandingLooks(q: Query, s0: State, s: State, s': State, r: Room, n: Pos, count: nat)
    requires q.Valid() && count <= 8 && Expanding(q, s0, s, n, count) && Sound(q, s')
    requires s' == s || s' == AdmitRoom(s, r) || s' == BlockRoom(s, r)
    requires HonoursRefusals(q, s, s')
    ensures Expanding(q, s0, s', n, count)
  {
    hide Link, Tried, TriedUpTo, Query.WeightedH, HonoursRefusals, Extends, Sound, Met, MetUpTo, Query.Cost;
    LookIsLater(q, s, s', r);
    LaterTrans(q, s0, s, s');
    MetUpToIsStable(q, s, s', n, count);
    if q.weight == 1.0 && s0.closed <= s0.g.Keys && Frontier(q, s0, F(q, s0, n)) {
      TriedUpToIsStable(q, s, s', n, count);
      assert forall p :: s'.IsOpen(p) ==> s.IsOpen(p);
    }
  }

  /** A direction without a passable tile, or into a refused room, has been tried. */
  lemma ExpandingSkips(q: Query, s0: State, s: State, n: Pos, count: nat)
    requires q.Valid() && count < 8 && Expanding(q, s0, s, n, count)
    requires var v := n.Translate(Delta(count).0, Delta(count).1);
      Impossible(n, v) || q.Cost(v) == OBSTACLE || (v.InWorld() && Refuses(q, s, RoomOf(v)))
    ensures Expanding(q, s0, s, n, count + 1)
  {
    hide Link, Query.WeightedH, HonoursRefusals, Extends, Sound, Query.Cost, Impossible;
  }

  /** Pushing the neighbour in the next direction. */
  lemma ExpandingPushes(q: Query, s0: State, s: State, n: Pos, count: nat)
    requires q.Valid() && count < 8 && Expanding(q, s0, s, n, count)
    requires var v := n.Translate(Delta(count).0, Delta(count).1);
      s.Admits(v) && q.Cost(v) != OBSTACLE && !Impossible(n, v)
    ensures var v := n.Translate(Delta(count).0, Delta(count).1);
      Expanding(q, s0, Push(s, v, n, s.g[n] + q.Cost(v)), n, count + 1)
  {
    hide Tried, Met, Query.WeightedH, HonoursRefusals, Extends, Sound, Query.Cost, Link, Later, Frontier;
    var v := n.Translate(Delta(count).0, Delta(count).1);
    var s' := Push(s, v, n, s.g[n] + q.Cost(v));
    SoundRooms(q, s);
    StepLinks(q, n, v);
    PushIsSound(q, s, v, n, s.g[n] + q.Cost(v));
    SoundRooms(q, s');
    PushIsLater(q, s, v, n, s.g[n] + q.Cost(v));
    LaterTrans(q, s0, s, s');
    PushMeets(q, s, n, v);
    MetUpToIsStable(q, s, s', n, count);
    if q.weight == 1.0 && s0.closed <= s0.g.Keys && Frontier(q, s0, F(q, s0, n)) {
      PushTries(q, s, n, v);
      TriedUpToIsStable(q, s, s', n, count);
    }
  }

  /** The body of astar. When the heap is full it stops early and reports so. */
  method Expand(pf: Instance, q: Query, pos: IndexedPos, index: nat, gCost: int) returns (ok: bool)
    requires pf.Valid(q) && index < Nodes(pf.s) && At(pf.s, index) == pos.pos
    requires pos.pos in pf.s.closed && pos.pos in pf.s.g && gCost == pf.s.g[pos.pos]
    modifies pf`s, pf`blocked, pf`asked, pf.rooms`table, pf.rooms.reverse
    modifies pf.parents, pf.scores, pf.openClosed.list, pf.heap, pf.heap.data
    ensures pf.Interrupted(q) && (ok ==> pf.Valid(q))
    ensures Later(q, old(pf.s), pf.s) && NewParents(old(pf.s), pf.s, pos.pos)
    ensures old(pf.heap.size) + 8 <= pf.heap.data.Length ==> ok
    ensures ok ==> pos.pos in pf.s.g && AllMet(q, pf.s, pos.pos)
    ensures !ok ==> pf.HeapFull()
    ensures ok && q.weight == 1.0 && old(pf.s).closed <= old(pf.s).g.Keys && Frontier(q, old(pf.s), F(q, old(pf.s), pos.pos)) ==>
      && pos.pos in pf.s.g && Relaxed(q, pf.s, pos.pos)
      && pf.s.closed <= pf.s.g.Keys && Frontier(q, pf.s, F(q, pf.s, pos.pos))
  {
    hide PosAt, Sound, Link, Query.WeightedH, Stamped, Stored, Queued, ClosedStored, Heap.Valid, Numbers, Query.Cost,
         Tried, Frontier, Relaxed, TriedUpTo, Impossible, Instance.Separate, Instance.Sized, Instance.RoomsStored, Instance.AskedOnce,
         Expanding;
    ghost var s0 := pf.s;
    ExpandingStarts(q, s0, pos.pos);
    for dir := 0 to 8
      invariant pf.Valid(q) && index < Nodes(pf.s) && At(pf.s, index) == pos.pos
      invariant Expanding(q, s0, pf.s, pos.pos, dir)
      invariant pf.heap.size <= old(pf.heap.size) + dir
    {
      ok := ExpandTowards(pf, q, pos, index, gCost, dir, s0);
      if !ok {
        return;
      }
    }
    ok := true;
    ExpandedMeans(q, s0, pf.s, pos.pos);
  }

  lemma ExpandedMeans(q: Query, s0: State, s: State, n: Pos)
    requires q.Valid() && Expanding(q, s0, s, n, 8)
    ensures Later(q, s0, s) && NewParents(s0, s, n) && n in s.g && AllMet(q, s, n)
    ensures q.weight == 1.0 && s0.closed <= s0.g.Keys && n in s0.g && Frontier(q, s0, F(q, s0, n)) ==>
      n in s.g && Relaxed(q, s, n) && s.closed <= s.g.Keys && Frontier(q, s, F(q, s, n))
    ensures n in s0.g
  {
    hide Tried, Query.WeightedH, HonoursRefusals, Extends, Sound, Query.Cost, Link, Later, Frontier, Relaxed,
         TriedUpTo, NewParents, Met, MetUpTo, AllMet;
    AllDirectionsMet(q, s, n);
    if q.weight == 1.0 && s0.closed <= s0.g.Keys && n in s0.g && Frontier(q, s0, F(q, s0, n)) {
      AllTried(q, s, n);
    }
  }

  lemma ExpandingMeans(q: Query, s0: State, s: State, n: Pos, count: nat)
    requires q.Valid() && count <= 8 && Expanding(q, s0, s, n, count)
    ensures Later(q, s0, s) && Sound(q, s) && n in s.closed && n in s0.g && n in s.g && s.g[n] == s0.g[n]
    ensures s.Admits(n) && NewParents(s0, s, n)
  {
    hide Tried, Query.WeightedH, HonoursRefusals, Extends, Query.Cost, Link, Later, Frontier, Relaxed, TriedUpTo,
         NewParents, Met, MetUpTo;
  }

  lemma LookKeepsIndex(s: State, s': State, r: Room, index: nat)
    requires s' == s || s' == AdmitRoom(s, r) || s' == BlockRoom(s, r)
    requires index < Nodes(s)
    ensures index < Nodes(s') && At(s', index) == At(s, index)
  {
    IndicesAreStable(s.rooms, s'.rooms, index);
  }

  /** One turn of the loop: the neighbour in direction `dir`. */
  method ExpandTowards(pf: Instance, q: Query, pos: IndexedPos, index: nat, gCost: int, dir: nat,
      ghost s0: State) returns (ok: bool)
    requires pf.Valid(q) && index < Nodes(pf.s) && At(pf.s, index) == pos.pos
    requires dir < 8 && Expanding(q, s0, pf.s, pos.pos, dir) && gCost == s0.g[pos.pos]
    modifies pf`s, pf`blocked, pf`asked, pf.rooms`table, pf.rooms.reverse
    modifies pf.parents, pf.scores, pf.openClosed.list, pf.heap, pf.heap.data
    ensures pf.Interrupted(q) && Later(q, s0, pf.s) && NewParents(s0, pf.s, pos.pos)
    ensures pf.heap.size <= old(pf.heap.size) + 1 && (old(pf.heap.size) < pf.heap.data.Length ==> ok)
    ensures ok ==> pf.Valid(q) && index < Nodes(pf.s) && At(pf.s, index) == pos.pos && Expanding(q, s0, pf.s, pos.pos, dir + 1)
    ensures !ok ==> pf.HeapFull()
  {
    hide PosAt, Sound, Link, Query.WeightedH, Stamped, Stored, Queued, ClosedStored, Heap.Valid, Numbers, Query.Cost,
         Tried, Frontier, Relaxed, TriedUpTo, Impossible, Instance.Separate, Instance.Sized, Instance.RoomsStored, Instance.AskedOnce,
         Expanding, Later, State.Admits, OpenClosedList.InUse, RoomTable.Valid, Refuses;
    ExpandingMeans(q, s0, pf.s, pos.pos, dir);
    var neighbor := pos.pos.Translate(Delta(dir).0, Delta(dir).1);
    if Impossible(pos.pos, neighbor) {
      ExpandingSkips(q, s0, pf.s, pos.pos, dir);
      return true;
    }
    NeighboursInWorld(q, pf.s, pos.pos, neighbor);
    ghost var s1 := pf.s;
    var room, nCost := pf.LookOpen(q, neighbor);
    ExpandingLooks(q, s0, s1, pf.s, RoomOf(neighbor), pos.pos, dir);
    LookKeepsIndex(s1, pf.s, RoomOf(neighbor), index);
    ExpandingMeans(q, s0, pf.s, pos.pos, dir);
    if nCost == OBSTACLE {
      ExpandingSkips(q, s0, pf.s, pos.pos, dir);
      return true;
    }
    IndexedAdmits(pf, IndexedPos(room, neighbor));
    AdmitsIsInRooms(pf.s, pos.pos);
    StepLinks(q, pos.pos, neighbor);
    ExpandingPushes(q, s0, pf.s, pos.pos, dir);
    ghost var s2 := pf.s;
    ok := pf.PushNode(q, IndexedPos(room, neighbor), index, gCost + nCost);
    PushKeepsRooms(s2, neighbor, pos.pos, gCost + nCost);
    if ok {
      ExpandingMeans(q, s0, pf.s, pos.pos, dir + 1);
    }
  }

  lemma IndexedAdmits(pf: Instance, p: IndexedPos)
    requires pf.Indexed(p)
    ensures pf.s.Admits(p.pos)
  {
  }

  lemma PushKeepsRooms(s: State, p: Pos, from: Pos, g: int)
    ensures Push(s, p, from, g).rooms == s.rooms
  {
  }
}
