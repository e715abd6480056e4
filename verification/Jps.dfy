/** One expansion of the jump point search. */
module Jps {
  import opened Positions
  import opened Terrain
  import opened Heuristics
  import opened Heaps
  import opened OpenClosed
  import opened RoomTables
  import opened Searches
  import opened Optimality
  import opened Storage
  import opened Pathfinder
  import opened AStar
  import opened JumpPoints

  /** indexed_position_t{}; positions are compared by their tiles alone. */
  const NO_POSITION := IndexedPos(SENTINEL, NOWHERE)

  // Jumping

  /** translate, which asserts that the tile is off the border. */
  function Translated(p: IndexedPos, dx: int, dy: int): IndexedPos
    requires Interior(p.pos)
  {
    IndexedPos(p.room, p.pos.Translate(dx, dy))
  }

  /** Tiles around an inner tile are in the room that the index names. */
  lemma TranslatedIsIndexed(pf: Instance, p: IndexedPos, dx: int, dy: int)
    requires pf.Indexed(p) && Interior(p.pos) && -1 <= dx <= 1 && -1 <= dy <= 1
    ensures pf.Indexed(Translated(p, dx, dy))
  {
    NeighbourInRoom(p.pos, dx, dy);
  }

  /** look(pos.translate(dx, dy)) */
  method LookBeside(pf: Instance, q: Query, p: IndexedPos, dx: int, dy: int) returns (cost: nat)
    requires q.Valid() && pf.Valid(q) && pf.Indexed(p) && Interior(p.pos) && -1 <= dx <= 1 && -1 <= dy <= 1
    ensures cost == q.Cost(p.pos.Translate(dx, dy))
  {
    hide Instance.Valid, Interior, RoomOf, Query.Cost;
    TranslatedIsIndexed(pf, p, dx, dy);
    cost := pf.Look(q, Translated(p, dx, dy));
  }

  /** jump_x: costs beside the run are looked up once, ahead of it, and carried along. */
  method JumpX(pf: Instance, q: Query, start: IndexedPos, dx: int, cost: nat) returns (r: IndexedPos)
    requires q.Valid() && pf.Valid(q) && pf.Indexed(start) && start.pos.InWorld() && Interior(start.pos) && (dx == 1 || dx == -1)
    ensures r.pos == Jump(q, start.pos, dx, 0, cost) && (r == NO_POSITION || r.room == start.room)
  {
    hide Instance.Valid, Instance.Indexed, Interior, RoomOf, Query.Cost, Query.H, Jump, Left, IsNearBorderCoord;
    var pos := start;
    var prevCostU := LookBeside(pf, q, pos, 0, -1);
    var prevCostD := LookBeside(pf, q, pos, 0, 1);
    while true
      invariant pf.Indexed(pos) && pos.pos.InWorld() && Interior(pos.pos) && pos.room == start.room
      invariant prevCostU == q.Cost(pos.pos.Translate(0, -1)) && prevCostD == q.Cost(pos.pos.Translate(0, 1))
      invariant Jump(q, start.pos, dx, 0, cost) == Jump(q, pos.pos, dx, 0, cost)
      decreases Left(pos.pos, dx, 0)
    {
      if q.H(pos.pos) == 0 || IsNearBorderCoord(pos.pos.xx) {
        JumpEnds(q, pos.pos, dx, 0, cost);
        return pos;
      }
      var costU := LookBeside(pf, q, pos, dx, -1);
      var costD := LookBeside(pf, q, pos, dx, 1);
      if (costU != OBSTACLE && prevCostU != cost) || (costD != OBSTACLE && prevCostD != cost) {
        JumpEnds(q, pos.pos, dx, 0, cost);
        return pos;
      }
      JumpOnward(q, pos.pos, dx, 0, cost);
      StepIsIndexed(pf, pos, dx, 0);
      prevCostU := costU;
      prevCostD := costD;
      pos := Translated(pos, dx, 0);
      var jumpCost := pf.Look(q, pos);
      if jumpCost == OBSTACLE {
        return NO_POSITION;
      } else if jumpCost != cost {
        return pos;
      }
    }
  }

  lemma StepIsIndexed(pf: Instance, p: IndexedPos, dx: int, dy: int)
    requires pf.Indexed(p) && Interior(p.pos) && IsDirection(dx, dy)
    ensures pf.Indexed(Translated(p, dx, dy)) && p.pos.InWorld() && p.pos.Translate(dx, dy).InWorld()
  {
    TranslatedIsIndexed(pf, p, dx, dy);
  }

  /** jump_y */
  method JumpY(pf: Instance, q: Query, start: IndexedPos, dy: int, cost: nat) returns (r: IndexedPos)
    requires q.Valid() && pf.Valid(q) && pf.Indexed(start) && start.pos.InWorld() && Interior(start.pos) && (dy == 1 || dy == -1)
    ensures r.pos == Jump(q, start.pos, 0, dy, cost) && (r == NO_POSITION || r.room == start.room)
  {
    hide Instance.Valid, Instance.Indexed, Interior, RoomOf, Query.Cost, Query.H, Jump, Left, IsNearBorderCoord;
    var pos := start;
    var prevCostL := LookBeside(pf, q, pos, -1, 0);
    var prevCostR := LookBeside(pf, q, pos, 1, 0);
    while true
      invariant pf.Indexed(pos) && pos.pos.InWorld() && Interior(pos.pos) && pos.room == start.room
      invariant prevCostL == q.Cost(pos.pos.Translate(-1, 0)) && prevCostR == q.Cost(pos.pos.Translate(1, 0))
      invariant Jump(q, start.pos, 0, dy, cost) == Jump(q, pos.pos, 0, dy, cost)
      decreases Left(pos.pos, 0, dy)
    {
      if q.H(pos.pos) == 0 || IsNearBorderCoord(pos.pos.yy) {
        JumpEnds(q, pos.pos, 0, dy, cost);
        return pos;
      }
      var costL := LookBeside(pf, q, pos, -1, dy);
      var costR := LookBeside(pf, q, pos, 1, dy);
      if (costL != OBSTACLE && prevCostL != cost) || (costR != OBSTACLE && prevCostR != cost) {
        JumpEnds(q, pos.pos, 0, dy, cost);
        return pos;
      }
      JumpOnward(q, pos.pos, 0, dy, cost);
      StepIsIndexed(pf, pos, 0, dy);
      prevCostL := costL;
      prevCostR := costR;
      pos := Translated(pos, 0, dy);
      var jumpCost := pf.Look(q, pos);
      if jumpCost == OBSTACLE {
        return NO_POSITION;
      } else if jumpCost != cost {
        return pos;
      }
    }
  }

  predicate IsDiagonal(dx: int, dy: int) {
    (dx == 1 || dx == -1) && (dy == 1 || dy == -1)
  }

  /** jump_xy: at each tile it looks for forced neighbours, then for jump points to either side. */
  method JumpXY(pf: Instance, q: Query, start: IndexedPos, dx: int, dy: int, cost: nat) returns (r: IndexedPos)
    requires q.Valid() && pf.Valid(q) && pf.Indexed(start) && start.pos.InWorld() && Interior(start.pos)
    requires IsDiagonal(dx, dy)
    ensures r.pos == Jump(q, start.pos, dx, dy, cost) && (r == NO_POSITION || r.room == start.room)
  {
    hide Instance.Valid, Instance.Indexed, Interior, RoomOf, Query.Cost, Query.H, Jump, JumpPoint, Left,
         IsNearBorderCoord;
    var pos := start;
    var prevCostX := LookBeside(pf, q, pos, -dx, 0);
    var prevCostY := LookBeside(pf, q, pos, 0, -dy);
    while true
      invariant pf.Indexed(pos) && pos.pos.InWorld() && Interior(pos.pos) && pos.room == start.room
      invariant prevCostX == q.Cost(pos.pos.Translate(-dx, 0)) && prevCostY == q.Cost(pos.pos.Translate(0, -dy))
      invariant Jump(q, start.pos, dx, dy, cost) == Jump(q, pos.pos, dx, dy, cost)
      decreases Left(pos.pos, dx, dy)
    {
      ghost var p := pos.pos;
      var isPoint, nextX, nextY := IsDiagonalPoint(pf, q, pos, dx, dy, cost, prevCostX, prevCostY);
      if isPoint {
        JumpEnds(q, p, dx, dy, cost);
        return pos;
      }
      JumpOnward(q, p, dx, dy, cost);
      StepIsIndexed(pf, pos, dx, dy);
      prevCostX := nextX;
      prevCostY := nextY;
      pos := Translated(pos, dx, dy);
      var jumpCost := pf.Look(q, pos);
      if jumpCost == OBSTACLE {
        return NO_POSITION;
      } else if jumpCost != cost {
        return pos;
      }
    }
  }

  /** The tests of one turn of jump_xy. */
  method IsDiagonalPoint(pf: Instance, q: Query, pos: IndexedPos, dx: int, dy: int, cost: nat, prevCostX: nat,
      prevCostY: nat)
    returns (isPoint: bool, nextX: nat, nextY: nat)
    requires q.Valid() && pf.Valid(q) && pf.Indexed(pos) && pos.pos.InWorld() && Interior(pos.pos) && IsDiagonal(dx, dy)
    requires prevCostX == q.Cost(pos.pos.Translate(-dx, 0)) && prevCostY == q.Cost(pos.pos.Translate(0, -dy))
    ensures isPoint == JumpPoint(q, pos.pos, dx, dy, cost)
    ensures !isPoint ==> nextX == q.Cost(pos.pos.Translate(0, dy)) && nextY == q.Cost(pos.pos.Translate(dx, 0))
  {
    hide Instance.Valid, Instance.Indexed, Interior, RoomOf, Query.Cost, Query.H, Jump, Left, IsNearBorderCoord;
    isPoint, nextX, nextY := true, prevCostX, prevCostY;
    if q.H(pos.pos) == 0 || IsNearBorderCoord(pos.pos.xx) || IsNearBorderCoord(pos.pos.yy) {
      return;
    }
    var beyondX := LookBeside(pf, q, pos, -dx, dy);
    var beyondY := LookBeside(pf, q, pos, dx, -dy);
    if (beyondX != OBSTACLE && prevCostX != cost) || (beyondY != OBSTACLE && prevCostY != cost) {
      return;
    }
    nextX := LookBeside(pf, q, pos, 0, dy);
    nextY := LookBeside(pf, q, pos, dx, 0);
    StepIsIndexed(pf, pos, dx, 0);
    StepIsIndexed(pf, pos, 0, dy);
    StepsStayInside(pos.pos);
    if nextY != OBSTACLE {
      var across := JumpX(pf, q, Translated(pos, dx, 0), dx, cost);
      if across.pos != NOWHERE {
        return;
      }
    }
    if nextX != OBSTACLE {
      var along := JumpY(pf, q, Translated(pos, 0, dy), dy, cost);
      if along.pos != NOWHERE {
        return;
      }
    }
    isPoint := false;
  }

  /** jump */
  method JumpTowards(pf: Instance, q: Query, start: IndexedPos, dx: int, dy: int, cost: nat) returns (r: IndexedPos)
    requires q.Valid() && pf.Valid(q) && pf.Indexed(start) && start.pos.InWorld() && Interior(start.pos)
    requires IsDirection(dx, dy)
    ensures r.pos == Jump(q, start.pos, dx, dy, cost) && (r == NO_POSITION || r.room == start.room)
  {
    hide Instance.Valid, Instance.Indexed, Interior, RoomOf, Query.Cost, Query.H, Jump, Left, IsNearBorderCoord;
    if dx != 0 {
      if dy != 0 {
        r := JumpXY(pf, q, start, dx, dy, cost);
      } else {
        r := JumpX(pf, q, start, dx, cost);
      }
    } else {
      r := JumpY(pf, q, start, dy, cost);
    }
  }

  // Expanding

  /** The successor was reached no dearer than through `n`, or closed before; or its room was refused. */
  predicate Reached(q: Query, s: State, n: Pos, st: Step)
    requires n in s.g
  {
    && st.pos.InWorld()
    && if RoomOf(st.pos) in s.rooms then st.pos in s.g && (st.pos in s.closed || s.g[st.pos] <= s.g[n] + st.cost)
       else Refuses(q, s, RoomOf(st.pos))
  }

  ghost predicate AllReached(q: Query, s: State, n: Pos, done: seq<Step>)
    requires n in s.g
  {
    forall st :: st in done ==> Reached(q, s, n, st)
  }

  /** A tile was reached as before, or as a successor of `n`. */
  ghost predicate ReachedBy(s0: State, s: State, n: Pos, done: seq<Step>, p: Pos)
    requires p in s.g && n in s.g
  {
    || (p in s0.g && s.g[p] == s0.g[p] && (p in s.parent ==> p in s0.parent && s.parent[p] == s0.parent[p]))
    || exists st :: st in done && st.pos == p && s.g[p] == s.g[n] + st.cost && p in s.parent && s.parent[p] == n
  }

  ghost predicate OnlyReached(s0: State, s: State, n: Pos, done: seq<Step>)
    requires n in s.g
  {
    forall p :: p in s.g ==> ReachedBy(s0, s, n, done, p)
  }

  /** From `s0` to `s`, the closed node `n` has led to exactly these successors. */
  ghost predicate Explored(q: Query, s0: State, s: State, n: Pos, done: seq<Step>)
    requires q.Valid()
  {
    && Later(q, s0, s) && Sound(q, s) && n in s.closed && n in s0.g && n in s.g && s.g[n] == s0.g[n]
    && AllReached(q, s, n, done) && OnlyReached(s0, s, n, done)
  }

  lemma ExploredMeans(q: Query, s0: State, s: State, n: Pos, done: seq<Step>)
    requires q.Valid() && Explored(q, s0, s, n, done)
    ensures Later(q, s0, s) && Sound(q, s) && n in s.closed && n in s0.g && n in s.g && s.g[n] == s0.g[n]
    ensures s.Admits(n)
  {
    hide Link, Later, AllReached, OnlyReached;
  }

  lemma ExploredStarts(q: Query, s: State, n: Pos)
    requires q.Valid() && Sound(q, s) && n in s.closed
    ensures Explored(q, s, s, n, [])
  {
    hide Link;
    assert n in s.g;
  }

  lemma ReachedIsStable(q: Query, s: State, s': State, n: Pos, st: Step)
    requires Later(q, s, s') && n in s.g && n in s'.g && s'.g[n] == s.g[n] && Reached(q, s, n, st)
    ensures Reached(q, s', n, st)
  {
    hide HonoursRefusals, Refuses;
    if RoomOf(st.pos) !in s.rooms {
      RefusalLasts(q, s, s', RoomOf(st.pos));
      RefusedMeans(q, s', RoomOf(st.pos));
    }
  }

  lemma RefusedMeans(q: Query, s: State, r: Room)
    requires Refuses(q, s, r)
    ensures r !in s.rooms
  {
  }

  /** Looking at a tile disturbs nothing. */
  lemma ExploredLooks(q: Query, s0: State, s: State, s': State, r: Room, n: Pos, done: seq<Step>)
    requires q.Valid() && Explored(q, s0, s, n, done) && Sound(q, s')
    requires s' == s || s' == AdmitRoom(s, r) || s' == BlockRoom(s, r)
    requires HonoursRefusals(q, s, s')
    ensures Explored(q, s0, s', n, done)
  {
    hide Link, HonoursRefusals, Extends, Sound, Reached, Later;
    LookIsLater(q, s, s', r);
    LaterTrans(q, s0, s, s');
    forall st | st in done ensures Reached(q, s', n, st) {
      ReachedIsStable(q, s, s', n, st);
    }
    forall p | p in s'.g ensures ReachedBy(s0, s', n, done, p) {
      assert ReachedBy(s0, s, n, done, p);
    }
  }

  /** A refused room counts as reached. */
  lemma ExploredRefused(q: Query, s0: State, s: State, n: Pos, done: seq<Step>, st: Step)
    requires q.Valid() && Explored(q, s0, s, n, done)
    requires st.pos.InWorld() && Refuses(q, s, RoomOf(st.pos))
    ensures Explored(q, s0, s, n, done + [st])
  {
    hide Link, HonoursRefusals, Extends, Sound, Later;
    forall p | p in s.g ensures ReachedBy(s0, s, n, done + [st], p) {
      assert ReachedBy(s0, s, n, done, p);
      ReachedByMore(s0, s, n, done, st, p);
    }
  }

  lemma ReachedByMore(s0: State, s: State, n: Pos, done: seq<Step>, more: Step, p: Pos)
    requires p in s.g && n in s.g && ReachedBy(s0, s, n, done, p)
    ensures ReachedBy(s0, s, n, done + [more], p)
  {
    if !(p in s0.g && s.g[p] == s0.g[p] && (p in s.parent ==> p in s0.parent && s.parent[p] == s0.parent[p])) {
      var st :| st in done && st.pos == p && s.g[p] == s.g[n] + st.cost && p in s.parent && s.parent[p] == n;
      assert st in done + [more];
    }
  }

  lemma ExploredPushes(q: Query, s0: State, s: State, n: Pos, done: seq<Step>, st: Step)
    requires q.Valid() && Explored(q, s0, s, n, done)
    requires s.Admits(st.pos) && IsSuccessor(q, n, st)
    ensures n in s.g && Explored(q, s0, Push(s, st.pos, n, s.g[n] + st.cost), n, done + [st])
  {
    hide Link, HonoursRefusals, Extends, Sound, Later, Reached, Query.Cost, AllReached, OnlyReached;
    var s' := Push(s, st.pos, n, s.g[n] + st.cost);
    SoundRooms(q, s);
    PushIsSound(q, s, st.pos, n, s.g[n] + st.cost);
    PushIsLater(q, s, st.pos, n, s.g[n] + st.cost);
    LaterTrans(q, s0, s, s');
    PushedIsReached(q, s, n, st);
    PushReachesAll(q, s, s', n, done, st);
    PushReachesOnly(q, s0, s, n, done, st);
  }

  lemma PushedIsReached(q: Query, s: State, n: Pos, st: Step)
    requires q.Valid() && Sound(q, s) && n in s.g && n in s.closed && s.Admits(st.pos)
    ensures var s' := Push(s, st.pos, n, s.g[n] + st.cost);
      n in s'.g && s'.g[n] == s.g[n] && Reached(q, s', n, st)
  {
    hide Link, RoomsAreSound;
  }

  lemma PushReachesAll(q: Query, s: State, s': State, n: Pos, done: seq<Step>, st: Step)
    requires n in s.g && n in s'.g && s'.g[n] == s.g[n] && Later(q, s, s')
    requires AllReached(q, s, n, done) && Reached(q, s', n, st)
    ensures AllReached(q, s', n, done + [st])
  {
    hide Later, Reached;
    forall x | x in done + [st] ensures Reached(q, s', n, x) {
      if x in done { ReachedIsStable(q, s, s', n, x); }
    }
  }

  lemma PushReachesOnly(q: Query, s0: State, s: State, n: Pos, done: seq<Step>, st: Step)
    requires q.Valid() && Sound(q, s) && n in s.g && n in s.closed && OnlyReached(s0, s, n, done)
    ensures var s' := Push(s, st.pos, n, s.g[n] + st.cost);
      n in s'.g && OnlyReached(s0, s', n, done + [st])
  {
    hide Link, RoomsAreSound;
    var s' := Push(s, st.pos, n, s.g[n] + st.cost);
    forall p | p in s'.g ensures ReachedBy(s0, s', n, done + [st], p) {
      if s' != s && p == st.pos {
        assert st in done + [st];
      } else {
        assert ReachedBy(s0, s, n, done, p);
        ReachedByMore(s0, s, n, done, st, p);
        assert p in s'.parent <==> p in s.parent;
      }
    }
  }

  /** An expansion of node `index`, under way since `s0`. */
  ghost predicate Working(pf: Instance, q: Query, s0: State, pos: IndexedPos, index: nat, done: seq<Step>)
    reads pf, pf.rooms, pf.rooms.reverse, pf.parents, pf.scores, pf.openClosed, pf.openClosed.list, pf.heap, pf.heap.data
  {
    && q.Valid() && pf.Valid(q) && index < Nodes(pf.s) && At(pf.s, index) == pos.pos
    && Explored(q, s0, pf.s, pos.pos, done)
  }

  /** An expansion that found the heap full. */
  ghost predicate Stopped(pf: Instance, q: Query, s0: State)
    reads pf, pf.rooms, pf.rooms.reverse, pf.parents, pf.scores, pf.openClosed, pf.openClosed.list, pf.heap, pf.heap.data
  {
    q.Valid() && pf.Interrupted(q) && Later(q, s0, pf.s)
  }

  lemma WorkingStops(pf: Instance, q: Query, s0: State, pos: IndexedPos, index: nat, done: seq<Step>)
    requires Working(pf, q, s0, pos, index, done)
    ensures Stopped(pf, q, s0)
  {
    hide Instance.Interrupted, Stamped, Stored, Queued, PosAt, Explored, Later;
    ExploredMeans(q, s0, pf.s, pos.pos, done);
  }

  /** push_node on a successor. */
  method PushSuccessor(pf: Instance, q: Query, node: IndexedPos, index: nat, gCost: int, ghost st: Step,
                       ghost s0: State, pos: IndexedPos, ghost done: seq<Step>) returns (ok: bool)
    requires Working(pf, q, s0, pos, index, done) && pf.Indexed(node) && node.pos == st.pos
    requires IsSuccessor(q, pos.pos, st) && gCost == s0.g[pos.pos] + st.cost
    modifies pf`s, pf.parents, pf.scores, pf.openClosed.list, pf.heap, pf.heap.data
    ensures Stopped(pf, q, s0) && pf.s.rooms == old(pf.s.rooms)
    ensures !ok ==> pf.HeapFull()
    ensures ok ==> Working(pf, q, s0, pos, index, done + [st])
  {
    hide PosAt, Sound, Link, Query.WeightedH, Stamped, Stored, Queued, ClosedStored, Heap.Valid, Numbers, Query.Cost,
         Instance.Interrupted, Explored, Later, OpenClosedList.InUse, RoomTable.Valid;
    ghost var before := pf.s;
    ExploredMeans(q, s0, before, pos.pos, done);
    IndexedAdmits(pf, node);
    ExploredPushes(q, s0, before, pos.pos, done, st);
    ok := pf.PushNode(q, node, index, gCost);
    PushKeepsRooms(before, node.pos, pos.pos, gCost);
    if ok {
      WorkingStops(pf, q, s0, pos, index, done + [st]);
    }
  }

  lemma WorkingMeans(pf: Instance, q: Query, s0: State, pos: IndexedPos, index: nat, done: seq<Step>)
    requires Working(pf, q, s0, pos, index, done)
    ensures q.Valid() && pf.Valid(q) && pos.pos in s0.g && Sound(q, pf.s) && pf.s.Admits(pos.pos)
  {
    hide Instance.Interrupted, Stamped, Stored, Queued, PosAt, Explored, Later;
    ExploredMeans(q, s0, pf.s, pos.pos, done);
  }

  /** push_node on a neighbour that may be entered, in the same room. */
  method PushPlain(pf: Instance, q: Query, pos: IndexedPos, dx: int, dy: int, index: nat, gCost: int, nCost: nat,
                   ghost s0: State, ghost done: seq<Step>) returns (ok: bool)
    requires Working(pf, q, s0, pos, index, done) && pf.Indexed(pos) && q.Valid() && Inner(q, pos.pos)
    requires IsDirection(dx, dy)
    requires pos.pos in s0.g && gCost == s0.g[pos.pos] && nCost == q.Cost(pos.pos.Translate(dx, dy)) != OBSTACLE
    modifies pf`s, pf.parents, pf.scores, pf.openClosed.list, pf.heap, pf.heap.data
    ensures Stopped(pf, q, s0) && pf.s.rooms == old(pf.s.rooms)
    ensures !ok ==> pf.HeapFull()
    ensures ok ==> Working(pf, q, s0, pos, index, done + PlainStep(q, pos.pos.Translate(dx, dy)))
  {
    hide Working, Stopped, Link, Query.Cost, RoomOf, Instance.Valid;
    ghost var v := pos.pos.Translate(dx, dy);
    NeighbourInRoom(pos.pos, dx, dy);
    TranslatedIsIndexed(pf, pos, dx, dy);
    PlainStepIsSuccessor(q, pos.pos, v, Step(v, nCost));
    ok := PushSuccessor(pf, q, Translated(pos, dx, dy), index, gCost + nCost, Step(v, nCost), s0, pos, done);
  }

  /** jump_neighbor */
  method JumpNeighbor(pf: Instance, q: Query, pos: IndexedPos, dx: int, dy: int, index: nat, gCost: int, cost: nat,
      nCost: nat,
                      ghost s0: State, ghost done: seq<Step>) returns (ok: bool)
    requires Working(pf, q, s0, pos, index, done) && pf.Indexed(pos) && q.Valid() && Inner(q, pos.pos)
    requires IsDirection(dx, dy)
    requires pos.pos in s0.g && gCost == s0.g[pos.pos] && nCost == q.Cost(pos.pos.Translate(dx, dy))
    requires cost == q.Cost(pos.pos)
    modifies pf`s, pf.parents, pf.scores, pf.openClosed.list, pf.heap, pf.heap.data
    ensures Stopped(pf, q, s0) && pf.s.rooms == old(pf.s.rooms)
    ensures !ok ==> pf.HeapFull()
    ensures ok ==> Working(pf, q, s0, pos, index, done + JumpStep(q, pos.pos, dx, dy))
  {
    hide Working, Stopped, Link, Query.Cost, RoomOf, Instance.Valid, Jump, IsBorderCoord;
    WorkingMeans(pf, q, s0, pos, index, done);
    TranslatedIsIndexed(pf, pos, dx, dy);
    var neighbor := Translated(pos, dx, dy);
    if nCost != cost || IsBorderCoord(neighbor.pos.xx) || IsBorderCoord(neighbor.pos.yy) {
      if nCost == OBSTACLE {
        WorkingStops(pf, q, s0, pos, index, done);
        assert done + JumpStep(q, pos.pos, dx, dy) == done;
        return true;
      }
      ok := PushPlain(pf, q, pos, dx, dy, index, gCost, nCost, s0, done);
    } else {
      ok := PushJump(pf, q, pos, dx, dy, index, gCost, nCost, s0, done);
    }
  }

  /** The second branch of jump_neighbor: onto the next jump point. */
  method PushJump(pf: Instance, q: Query, pos: IndexedPos, dx: int, dy: int, index: nat, gCost: int, nCost: nat,
                  ghost s0: State, ghost done: seq<Step>) returns (ok: bool)
    requires Working(pf, q, s0, pos, index, done) && pf.Indexed(pos) && q.Valid() && Inner(q, pos.pos)
    requires IsDirection(dx, dy)
    requires pos.pos in s0.g && gCost == s0.g[pos.pos] && nCost == q.Cost(pos.pos.Translate(dx, dy)) == q.Cost(pos.pos)
    requires Interior(pos.pos.Translate(dx, dy))
    modifies pf`s, pf.parents, pf.scores, pf.openClosed.list, pf.heap, pf.heap.data
    ensures Stopped(pf, q, s0) && pf.s.rooms == old(pf.s.rooms)
    ensures !ok ==> pf.HeapFull()
    ensures ok ==> Working(pf, q, s0, pos, index, done + JumpStep(q, pos.pos, dx, dy))
  {
    hide Working, Stopped, Link, Query.Cost, RoomOf, Instance.Valid, Jump, Interior;
    WorkingMeans(pf, q, s0, pos, index, done);
    TranslatedIsIndexed(pf, pos, dx, dy);
    NeighbourInRoom(pos.pos, dx, dy);
    var neighbor := JumpTowards(pf, q, Translated(pos, dx, dy), dx, dy, nCost);
    if neighbor.pos == NOWHERE {
      WorkingStops(pf, q, s0, pos, index, done);
      assert done + JumpStep(q, pos.pos, dx, dy) == done;
      return true;
    }
    ghost var steps := JumpStep(q, pos.pos, dx, dy);
    JumpStepIsSuccessor(q, pos.pos, dx, dy, steps[0]);
    LandedIsIndexed(pf, pos, neighbor);
    var endCost := pf.Look(q, neighbor);
    ok := PushSuccessor(pf, q, neighbor, index, gCost + nCost * (pos.pos.RangeTo(neighbor.pos) - 1) + endCost, steps[0], s0, pos, done);
  }

  lemma LandedIsIndexed(pf: Instance, p: IndexedPos, r: IndexedPos)
    requires pf.Indexed(p) && r.room == p.room && r.pos.InWorld() && RoomOf(r.pos) == RoomOf(p.pos)
    ensures pf.Indexed(r)
  {
  }

  // From the border

  function OpenSteps(q: Query, tiles: seq<Pos>): seq<Step>
    requires q.Valid()
  {
    if |tiles| == 0 then [] else OpenSteps(q, tiles[..|tiles| - 1]) + PlainStep(q, tiles[|tiles| - 1])
  }

  /** Options are limited on a tile that was jumped to on a border. */
  method BorderNeighbors(p: Pos, dx: int, dy: int) returns (handled: bool, neighbors: seq<Pos>)
    requires IsDirection(dx, dy)
    ensures handled == HeadOn(p, dx, dy)
    ensures handled ==> neighbors == Onward(p, dx, dy)
  {
    BorderCoords(p.xx);
    BorderCoords(p.yy);
    if p.xx % 50 == 0 {
      if dx == -1 {
        return true, [Pos(p.xx - 1, p.yy)];
      } else if dx == 1 {
        return true, [Pos(p.xx + 1, p.yy - 1), Pos(p.xx + 1, p.yy), Pos(p.xx + 1, p.yy + 1)];
      }
    } else if p.xx % 50 == 49 {
      if dx == 1 {
        return true, [Pos(p.xx + 1, p.yy)];
      } else if dx == -1 {
        return true, [Pos(p.xx - 1, p.yy - 1), Pos(p.xx - 1, p.yy), Pos(p.xx - 1, p.yy + 1)];
      }
    } else if p.yy % 50 == 0 {
      if dy == -1 {
        return true, [Pos(p.xx, p.yy - 1)];
      } else if dy == 1 {
        return true, [Pos(p.xx - 1, p.yy + 1), Pos(p.xx, p.yy + 1), Pos(p.xx + 1, p.yy + 1)];
      }
    } else if p.yy % 50 == 49 {
      if dy == 1 {
        return true, [Pos(p.xx, p.yy + 1)];
      } else if dy == -1 {
        return true, [Pos(p.xx - 1, p.yy - 1), Pos(p.xx, p.yy - 1), Pos(p.xx + 1, p.yy - 1)];
      }
    }
    return false, [];
  }

  /** A neighbour that may lie in another room. */
  method PushOpened(pf: Instance, q: Query, neighbor: Pos, pos: IndexedPos, index: nat, gCost: int, ghost s0: State,
      ghost done: seq<Step>)
    returns (ok: bool)
    requires Working(pf, q, s0, pos, index, done) && q.Valid()
    requires pos.pos in s0.g && gCost == s0.g[pos.pos] && CanMove(pos.pos, neighbor)
    modifies pf`s, pf`blocked, pf`asked, pf.rooms`table, pf.rooms.reverse
    modifies pf.parents, pf.scores, pf.openClosed.list, pf.heap, pf.heap.data
    ensures Stopped(pf, q, s0)
    ensures !ok ==> pf.HeapFull()
    ensures ok ==> Working(pf, q, s0, pos, index, done + PlainStep(q, neighbor))
  {
    hide Working, Stopped, Link, Query.Cost, RoomOf, Instance.Valid, State.Admits, Impossible, Refuses, HonoursRefusals;
    WorkingMeans(pf, q, s0, pos, index, done);
    AdmitsIsInRooms(pf.s, pos.pos);
    NeighboursInWorld(q, pf.s, pos.pos, neighbor);
    var room, nCost := OpenBeside(pf, q, neighbor, pos, index, s0, done);
    if nCost != OBSTACLE {
      PlainStepIsSuccessor(q, pos.pos, neighbor, Step(neighbor, nCost));
      ok := PushSuccessor(pf, q, IndexedPos(room, neighbor), index, gCost + nCost, Step(neighbor, nCost), s0, pos, done);
    } else {
      if q.Cost(neighbor) != OBSTACLE {
        WorkingRefused(pf, q, s0, pos, index, done, Step(neighbor, q.Cost(neighbor)));
      } else {
        assert done + PlainStep(q, neighbor) == done;
      }
      WorkingStops(pf, q, s0, pos, index, done);
      ok := true;
    }
  }

  lemma WorkingRefused(pf: Instance, q: Query, s0: State, pos: IndexedPos, index: nat, done: seq<Step>, st: Step)
    requires Working(pf, q, s0, pos, index, done) && st.pos.InWorld() && Refuses(q, pf.s, RoomOf(st.pos))
    ensures Working(pf, q, s0, pos, index, done + [st])
  {
    hide Instance.Valid, PosAt, Explored, Refuses;
    ExploredRefused(q, s0, pf.s, pos.pos, done, st);
  }

  /** look_open during an expansion. */
  method OpenBeside(pf: Instance, q: Query, neighbor: Pos, ghost pos: IndexedPos, ghost index: nat, ghost s0: State,
      ghost done: seq<Step>)
    returns (room: nat, cost: nat)
    requires Working(pf, q, s0, pos, index, done) && q.Valid() && neighbor.InWorld()
    modifies pf`s, pf`blocked, pf`asked, pf.rooms`table, pf.rooms.reverse
    ensures Working(pf, q, s0, pos, index, done)
    ensures room == SENTINEL ==> cost == OBSTACLE && Refuses(q, pf.s, RoomOf(neighbor))
    ensures room != SENTINEL ==> pf.Indexed(IndexedPos(room, neighbor)) && cost == q.Cost(neighbor)
  {
    hide PosAt, Sound, Link, Stamped, Stored, Queued, ClosedStored, Heap.Valid, Numbers, Query.Cost,
         Instance.Separate, Instance.Sized, Instance.RoomsStored, Instance.AskedOnce,
         Explored, Later, OpenClosedList.InUse, RoomTable.Valid, Refuses, HonoursRefusals;
    ghost var before := pf.s;
    room, cost := pf.LookOpen(q, neighbor);
    ExploredLooks(q, s0, before, pf.s, RoomOf(neighbor), pos.pos, done);
    LookKeepsIndex(before, pf.s, RoomOf(neighbor), index);
  }

  /** push_neighbors */
  method PushNeighbors(pf: Instance, q: Query, neighbors: seq<Pos>, pos: IndexedPos, index: nat, gCost: int,
      ghost s0: State)
    returns (ok: bool)
    requires Working(pf, q, s0, pos, index, []) && q.Valid()
    requires pos.pos in s0.g && gCost == s0.g[pos.pos]
    requires forall v :: v in neighbors ==> CanMove(pos.pos, v)
    modifies pf`s, pf`blocked, pf`asked, pf.rooms`table, pf.rooms.reverse
    modifies pf.parents, pf.scores, pf.openClosed.list, pf.heap, pf.heap.data
    ensures Stopped(pf, q, s0)
    ensures !ok ==> pf.HeapFull()
    ensures ok ==> Working(pf, q, s0, pos, index, OpenSteps(q, neighbors))
  {
    hide Working, Stopped, Query.Cost, Instance.Valid, CanMove, PlainStep;
    WorkingStops(pf, q, s0, pos, index, []);
    for i := 0 to |neighbors|
      invariant Working(pf, q, s0, pos, index, OpenSteps(q, neighbors[..i])) && Stopped(pf, q, s0)
    {
      assert neighbors[..i + 1][..|neighbors[..i + 1]| - 1] == neighbors[..i];
      assert neighbors[i] in neighbors;
      ok := PushOpened(pf, q, neighbors[i], pos, index, gCost, s0, OpenSteps(q, neighbors[..i]));
      if !ok {
        return;
      }
    }
    assert neighbors[..|neighbors|] == neighbors;
    ok := true;
  }

  // From inside a room

  /** The straight jumps: along the border, step by step. */
  method PushStraight(pf: Instance, q: Query, pos: IndexedPos, dx: int, dy: int, index: nat, gCost: int, cost: nat,
      ghost s0: State)
    returns (ok: bool)
    requires Working(pf, q, s0, pos, index, []) && pf.Indexed(pos) && q.Valid() && Inner(q, pos.pos)
    requires IsDirection(dx, dy)
    requires pos.pos in s0.g && gCost == s0.g[pos.pos] && cost == q.Cost(pos.pos)
    modifies pf`s, pf.parents, pf.scores, pf.openClosed.list, pf.heap, pf.heap.data
    ensures Stopped(pf, q, s0) && pf.s.rooms == old(pf.s.rooms)
    ensures !ok ==> pf.HeapFull()
    ensures ok ==> Working(pf, q, s0, pos, index, StraightSteps(q, pos.pos, dx, dy))
  {
    hide Working, Stopped, Query.Cost, JumpStep, PlainStep, BorderSide, RoomOf;
    WorkingStops(pf, q, s0, pos, index, []);
    ghost var done: seq<Step> := [];
    ok := true;
    if dx != 0 {
      ok := PushAhead(pf, q, pos, dx, 0, BorderSide(pos.pos.yy) == 0, index, gCost, cost, s0, done);
      if !ok {
        return;
      }
      done := done + AheadStep(q, pos.pos, dx, 0, BorderSide(pos.pos.yy) == 0);
    }
    if dy != 0 {
      ok := PushAhead(pf, q, pos, 0, dy, BorderSide(pos.pos.xx) == 0, index, gCost, cost, s0, done);
      done := done + AheadStep(q, pos.pos, 0, dy, BorderSide(pos.pos.xx) == 0);
    }
    assert done == StraightSteps(q, pos.pos, dx, dy);
  }

  function AheadStep(q: Query, p: Pos, dx: int, dy: int, jumping: bool): seq<Step>
    requires q.Valid() && Inner(q, p) && IsDirection(dx, dy)
  {
    if jumping then JumpStep(q, p, dx, dy) else PlainStep(q, p.Translate(dx, dy))
  }

  method PushAhead(pf: Instance, q: Query, pos: IndexedPos, dx: int, dy: int, jumping: bool, index: nat, gCost: int,
      cost: nat,
                   ghost s0: State, ghost done: seq<Step>) returns (ok: bool)
    requires Working(pf, q, s0, pos, index, done) && pf.Indexed(pos) && q.Valid() && Inner(q, pos.pos)
    requires IsDirection(dx, dy)
    requires pos.pos in s0.g && gCost == s0.g[pos.pos] && cost == q.Cost(pos.pos)
    modifies pf`s, pf.parents, pf.scores, pf.openClosed.list, pf.heap, pf.heap.data
    ensures Stopped(pf, q, s0) && pf.s.rooms == old(pf.s.rooms)
    ensures !ok ==> pf.HeapFull()
    ensures ok ==> Working(pf, q, s0, pos, index, done + AheadStep(q, pos.pos, dx, dy, jumping))
  {
    hide Working, Stopped, Query.Cost, RoomOf, Instance.Valid, Jump;
    WorkingMeans(pf, q, s0, pos, index, done);
    var nCost := LookBeside(pf, q, pos, dx, dy);
    if nCost == OBSTACLE {
      WorkingStops(pf, q, s0, pos, index, done);
      assert done + AheadStep(q, pos.pos, dx, dy, jumping) == done;
      ok := true;
    } else if jumping {
      ok := JumpNeighbor(pf, q, pos, dx, dy, index, gCost, cost, nCost, s0, done);
    } else {
      ok := PushPlain(pf, q, pos, dx, dy, index, gCost, nCost, s0, done);
    }
  }

  /** A jump askew, if it must be made anyway or the tile beside costs something else. */
  method PushSide(pf: Instance, q: Query, pos: IndexedPos, always: bool, beside: (int, int), dx: int, dy: int,
      index: nat, gCost: int, cost: nat,
                  ghost s0: State, ghost done: seq<Step>) returns (ok: bool)
    requires Working(pf, q, s0, pos, index, done) && pf.Indexed(pos) && q.Valid() && Inner(q, pos.pos)
    requires IsDirection(dx, dy)
    requires -1 <= beside.0 <= 1 && -1 <= beside.1 <= 1
    requires pos.pos in s0.g && gCost == s0.g[pos.pos] && cost == q.Cost(pos.pos)
    modifies pf`s, pf.parents, pf.scores, pf.openClosed.list, pf.heap, pf.heap.data
    ensures Stopped(pf, q, s0) && pf.s.rooms == old(pf.s.rooms)
    ensures !ok ==> pf.HeapFull()
    ensures ok ==> Working(pf, q, s0, pos, index,
                     done + (if always then JumpStep(q, pos.pos, dx, dy) else SideStep(q, pos.pos, beside, dx, dy)))
  {
    hide Working, Stopped, Query.Cost, RoomOf, Instance.Valid, JumpStep;
    WorkingMeans(pf, q, s0, pos, index, done);
    var besideCost := LookBeside(pf, q, pos, beside.0, beside.1);
    if always || besideCost != cost {
      var nCost := LookBeside(pf, q, pos, dx, dy);
      ok := JumpNeighbor(pf, q, pos, dx, dy, index, gCost, cost, nCost, s0, done);
    } else {
      WorkingStops(pf, q, s0, pos, index, done);
      assert done + SideStep(q, pos.pos, beside, dx, dy) == done;
      ok := true;
    }
  }

  /** Forced neighbor rules */
  method PushForced(pf: Instance, q: Query, pos: IndexedPos, dx: int, dy: int, index: nat, gCost: int, cost: nat,
                    ghost s0: State, ghost done: seq<Step>) returns (ok: bool)
    requires Working(pf, q, s0, pos, index, done) && pf.Indexed(pos) && q.Valid() && Inner(q, pos.pos)
    requires IsDirection(dx, dy)
    requires pos.pos in s0.g && gCost == s0.g[pos.pos] && cost == q.Cost(pos.pos)
    modifies pf`s, pf.parents, pf.scores, pf.openClosed.list, pf.heap, pf.heap.data
    ensures Stopped(pf, q, s0) && pf.s.rooms == old(pf.s.rooms)
    ensures !ok ==> pf.HeapFull()
    ensures ok ==> Working(pf, q, s0, pos, index, done + ForcedSteps(q, pos.pos, dx, dy))
  {
    hide Working, Stopped, Query.Cost, RoomOf, Instance.Valid, JumpStep, SideStep, BorderSide;
    ghost var p := pos.pos;
    if dx != 0 {
      if dy != 0 {
        ghost var a, b, c := JumpStep(q, p, dx, dy), SideStep(q, p, (-dx, 0), -dx, dy), SideStep(q, p, (0, -dy), dx, -dy);
        ok := PushAhead(pf, q, pos, dx, dy, true, index, gCost, cost, s0, done);
        if !ok { return; }
        ok := PushSide(pf, q, pos, false, (-dx, 0), -dx, dy, index, gCost, cost, s0, done + a);
        if !ok { return; }
        ok := PushSide(pf, q, pos, false, (0, -dy), dx, -dy, index, gCost, cost, s0, done + a + b);
        assert done + a + b + c == done + (a + b + c);
      } else {
        var side := BorderSide(pos.pos.yy);
        ghost var a := if side == 1 then JumpStep(q, p, dx, 1) else SideStep(q, p, (0, 1), dx, 1);
        ghost var b := if side == -1 then JumpStep(q, p, dx, -1) else SideStep(q, p, (0, -1), dx, -1);
        ok := PushSide(pf, q, pos, side == 1, (0, 1), dx, 1, index, gCost, cost, s0, done);
        if !ok { return; }
        ok := PushSide(pf, q, pos, side == -1, (0, -1), dx, -1, index, gCost, cost, s0, done + a);
        assert done + a + b == done + (a + b);
      }
    } else {
      var side := BorderSide(pos.pos.xx);
      ghost var a := if side == 1 then JumpStep(q, p, 1, dy) else SideStep(q, p, (1, 0), 1, dy);
      ghost var b := if side == -1 then JumpStep(q, p, -1, dy) else SideStep(q, p, (-1, 0), -1, dy);
      ok := PushSide(pf, q, pos, side == 1, (1, 0), 1, dy, index, gCost, cost, s0, done);
      if !ok { return; }
      ok := PushSide(pf, q, pos, side == -1, (-1, 0), -1, dy, index, gCost, cost, s0, done + a);
      assert done + a + b == done + (a + b);
    }
  }

  // The expansion

  /** What a tile reached in direction `dx`, `dy` leads to. */
  function Successors(q: Query, p: Pos, dx: int, dy: int): seq<Step>
    requires q.Valid() && IsDirection(dx, dy) && (HeadOn(p, dx, dy) || Inner(q, p))
  {
    if HeadOn(p, dx, dy) then OpenSteps(q, Onward(p, dx, dy))
    else StraightSteps(q, p, dx, dy) + ForcedSteps(q, p, dx, dy)
  }

  /** The direction in which a tile was reached. */
  function Heading(s: State, p: Pos): (int, int)
    requires p in s.parent
  {
    (Sign(p.xx - s.parent[p].xx), Sign(p.yy - s.parent[p].yy))
  }

  /** A seen tile was reached in some direction. Unless that was along a border, it lies inside or was entered head-on. */
  lemma HeadingIsDirection(q: Query, s: State, p: Pos)
    requires q.Valid() && Sound(q, s) && p in s.parent
    ensures var (dx, dy) := Heading(s, p);
      IsDirection(dx, dy) && (HeadOn(p, dx, dy) || Inner(q, p) <==> !Along(s.parent[p], p))
    ensures var (dx, dy) := Heading(s, p); Inner(q, p) <==> Interior(p)
    ensures p in s.g
  {
    hide Query.Cost, RoomsAreSound, RunOpen, RunCost, Along, HeadOn, Interior;
    LinksCost(q, s.parent[p], p, s.g[p] - s.g[s.parent[p]]);
    LinksEnter(q, s.parent[p], p, s.g[p] - s.g[s.parent[p]]);
  }

  /** parent_of: the tile that a seen node was reached from. */
  method ParentOf(pf: Instance, q: Query, index: nat) returns (parent: Pos)
    requires pf.Valid(q) && index < Nodes(pf.s) && At(pf.s, index) in pf.s.parent && At(pf.s, index) in pf.s.g
    ensures parent == pf.s.parent[At(pf.s, index)]
  {
    hide PosAt, Sound, Link, Query.WeightedH, Stamped, Stored, Queued, ClosedStored, Heap.Valid, Numbers,
         OpenClosedList.InUse, NodeStored;
    pf.NodeMeans(q, index);
    parent := PosAt(RoomsOf(pf.rooms.table), pf.parents[index]);
  }

  /** How an expansion ends: with all successors pushed, with a full heap, or at the assertion in translate. */
  datatype Outcome = Done | HeapFull | Aborted

  /**
   * The body of jps. The first translate asserts that the tile is off the border, which fails exactly for
   * tiles that were entered along it. Behind it, every look stays inside the room of its tile.
   */
  method Expand(pf: Instance, q: Query, pos: IndexedPos, index: nat, gCost: int) returns (outcome: Outcome)
    requires pf.Valid(q) && pf.Indexed(pos) && index < Nodes(pf.s) && At(pf.s, index) == pos.pos
    requires pos.pos in pf.s.closed && pos.pos in pf.s.parent && pos.pos in pf.s.g && gCost == pf.s.g[pos.pos]
    requires q.Valid()
    modifies pf`s, pf`blocked, pf`asked, pf.rooms`table, pf.rooms.reverse
    modifies pf.parents, pf.scores, pf.openClosed.list, pf.heap, pf.heap.data
    ensures pf.Interrupted(q) && (outcome == Done ==> pf.Valid(q)) && Later(q, old(pf.s), pf.s)
    ensures outcome == Aborted <==> Along(old(pf.s).parent[pos.pos], pos.pos)
    ensures outcome == Aborted ==> pf.s == old(pf.s)
    ensures outcome == HeapFull ==> pf.HeapFull()
    ensures var (dx, dy) := Heading(old(pf.s), pos.pos);
      outcome != Aborted ==>
        (IsDirection(dx, dy) && (HeadOn(pos.pos, dx, dy) || Inner(q, pos.pos))
        && (outcome == Done ==> Explored(q, old(pf.s), pf.s, pos.pos, Successors(q, pos.pos, dx, dy))))
  {
    hide PosAt, Sound, Stamped, Stored, Queued, ClosedStored, Heap.Valid, Numbers, Query.Cost, RoomOf,
         Instance.Interrupted, Along,
         Explored, Later, OpenClosedList.InUse, RoomTable.Valid, Link, StraightSteps, ForcedSteps, Corner;
    ghost var s0 := pf.s;
    var parent := ParentOf(pf, q, index);
    var dx, dy := Sign(pos.pos.xx - parent.xx), Sign(pos.pos.yy - parent.yy);
    ExpandStarts(pf, q, pos, index);
    HeadingIsDirection(q, s0, pos.pos);
    WorkingStops(pf, q, s0, pos, index, []);
    var ok;
    var handled, neighbors := BorderNeighbors(pos.pos, dx, dy);
    if handled {
      OnwardMoves(pos.pos, dx, dy);
      ok := PushNeighbors(pf, q, neighbors, pos, index, gCost, s0);
    } else if IsBorderCoord(pos.pos.xx) || IsBorderCoord(pos.pos.yy) {
      return Aborted;
    } else {
      ok := PushRegular(pf, q, pos, dx, dy, index, gCost, s0);
    }
    outcome := if ok then Done else HeapFull;
  }

  /** Regular JPS iteration */
  method PushRegular(pf: Instance, q: Query, pos: IndexedPos, dx: int, dy: int, index: nat, gCost: int, ghost s0: State)
    returns (ok: bool)
    requires Working(pf, q, s0, pos, index, []) && pf.Indexed(pos) && q.Valid() && Inner(q, pos.pos)
    requires IsDirection(dx, dy) && pos.pos in s0.g && gCost == s0.g[pos.pos]
    modifies pf`s, pf.parents, pf.scores, pf.openClosed.list, pf.heap, pf.heap.data
    ensures Stopped(pf, q, s0)
    ensures !ok ==> pf.HeapFull()
    ensures ok ==> Working(pf, q, s0, pos, index, StraightSteps(q, pos.pos, dx, dy) + ForcedSteps(q, pos.pos, dx, dy))
  {
    hide Working, Stopped, Instance.Valid, Query.Cost, RoomOf, StraightSteps, ForcedSteps;
    WorkingMeans(pf, q, s0, pos, index, []);
    var cost := pf.Look(q, pos);
    ok := PushStraight(pf, q, pos, dx, dy, index, gCost, cost, s0);
    if ok {
      ok := PushForced(pf, q, pos, dx, dy, index, gCost, cost, s0, StraightSteps(q, pos.pos, dx, dy));
    }
  }

  lemma ExpandStarts(pf: Instance, q: Query, pos: IndexedPos, index: nat)
    requires pf.Valid(q) && q.Valid() && index < Nodes(pf.s) && At(pf.s, index) == pos.pos
    requires pos.pos in pf.s.closed
    ensures Working(pf, q, pf.s, pos, index, []) && Sound(q, pf.s)
  {
    hide PosAt, Explored, Stamped, Stored, Queued, Link, RoomsAreSound;
    ExploredStarts(q, pf.s, pos.pos);
  }

  lemma OnwardMoves(p: Pos, dx: int, dy: int)
    requires IsDirection(dx, dy) && HeadOn(p, dx, dy)
    ensures forall v :: v in Onward(p, dx, dy) ==> CanMove(p, v)
  {
    hide CanMove, Onward;
    forall v | v in Onward(p, dx, dy) ensures CanMove(p, v) {
      OnwardIsForward(p, dx, dy, v);
    }
  }

  // Over a whole search

  /** A closed node has led to all its successors: the neighbours of the origin, and the pruned ones of others. */
  ghost predicate Followed(q: Query, s: State, n: Pos)
    requires q.Valid()
  {
    && n in s.g && (n == s.origin ==> AllMet(q, s, n))
    && (n != s.origin ==> n in s.parent && SuccessorsReached(q, s, n))
  }

  ghost predicate SuccessorsReached(q: Query, s: State, n: Pos)
    requires q.Valid() && n in s.g && n in s.parent
  {
    var (dx, dy) := Heading(s, n);
    IsDirection(dx, dy) && (HeadOn(n, dx, dy) || Inner(q, n)) && AllReached(q, s, n, Successors(q, n, dx, dy))
  }

  lemma FollowedIsStable(q: Query, s: State, s': State, n: Pos)
    requires q.Valid() && Later(q, s, s') && n in s.closed && Followed(q, s, n)
    ensures Followed(q, s', n)
  {
    hide Met, Reached, HonoursRefusals, Successors, HeadOn, Inner;
    if n == s.origin {
      forall v ensures Met(q, s', n, v) {
        MetIsStable(q, s, s', n, v);
      }
    } else {
      var (dx, dy) := Heading(s, n);
      forall st | st in Successors(q, n, dx, dy) ensures Reached(q, s', n, st) {
        ReachedIsStable(q, s, s', n, st);
      }
    }
  }

  /** Closing a node reaches nothing less. */
  lemma FollowedWhenClosing(q: Query, s: State, p: Pos, n: Pos)
    requires q.Valid() && Followed(q, s, n)
    ensures Followed(q, Close(s, p), n)
  {
    hide Successors, HeadOn, Inner, Query.Cost, CanMove;
    var s' := Close(s, p);
    if n == s.origin {
      forall v ensures Met(q, s', n, v) {
        assert Met(q, s, n, v);
      }
    } else {
      var (dx, dy) := Heading(s, n);
      forall st | st in Successors(q, n, dx, dy) ensures Reached(q, s', n, st) {
        assert Reached(q, s, n, st);
      }
    }
  }

  lemma ExploredIsFollowed(q: Query, s0: State, s: State, n: Pos)
    requires q.Valid() && n in s0.parent && n in s0.closed
    requires var (dx, dy) := Heading(s0, n); IsDirection(dx, dy) && (HeadOn(n, dx, dy) || Inner(q, n))
    requires n in s0.parent && n != s0.origin
    requires var (dx, dy) := Heading(s0, n); Explored(q, s0, s, n, Successors(q, n, dx, dy))
    ensures Followed(q, s, n)
  {
    hide Reached, HonoursRefusals, Successors, HeadOn, Inner, Sound, OnlyReached;
  }

  ghost predicate LeadsTo(q: Query, s: State, n: Pos, st: Step)
    requires q.Valid()
  {
    && n in s.parent
    && var (dx, dy) := Heading(s, n);
       IsDirection(dx, dy) && (HeadOn(n, dx, dy) || Inner(q, n)) && st in Successors(q, n, dx, dy)
  }

  /** With nothing open, every successor of a closed node in an admitted room is closed. */
  lemma FollowedToTheEnd(q: Query, s: State, n: Pos, st: Step)
    requires q.Valid() && Followed(q, s, n) && n != s.origin && (forall x :: !s.IsOpen(x))
    requires LeadsTo(q, s, n, st) && s.Admits(st.pos)
    ensures st.pos in s.closed
  {
    hide Successors, HeadOn, Inner, RoomOf;
    assert Reached(q, s, n, st);
    assert !s.IsOpen(st.pos);
  }
}
