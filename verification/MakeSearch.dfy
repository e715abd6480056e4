/** The search as callers see it: defaults, goals, and the complete path. */
module MakeSearch {
  import Wrappers
  import opened Positions
  import opened Terrain
  import opened Heuristics
  import opened Searches
  import opened Optimality
  import opened Pathfinder
  import opened JumpPoints
  import opened CompletePath
  import opened Search

  datatype SearchOptions = SearchOptions(
    flee: Wrappers.Option<bool>, heuristicWeight: Wrappers.Option<real>, plainCost: Wrappers.Option<int>, swampCost: Wrappers.Option<int>,
    maxCost: Wrappers.Option<int>, maxOps: Wrappers.Option<int>, maxRooms: Wrappers.Option<int>)

  function OrElse<T>(o: Wrappers.Option<T>, default: T): T {
    match o case Some(value) => value case None => default
  }

  /** Defaults; a weight of zero counts as none. */
  function Cast(o: SearchOptions): Options {
    var weight := OrElse(o.heuristicWeight, 0.0);
    Options(if weight == 0.0 then 1.2 else weight, OrElse(o.plainCost, 1), OrElse(o.swampCost, 5),
            OrElse(o.maxCost, MAX_INT), OrElse(o.maxOps, MAX_INT), OrElse(o.maxRooms, 16))
  }

  /** An option that is given is taken, but for a weight of zero; each other has its default. */
  lemma OptionsInNumbers(o: SearchOptions)
    ensures var c := Cast(o);
      && c.heuristicWeight == (if o.heuristicWeight.Some? && o.heuristicWeight.value != 0.0 then o.heuristicWeight.value else 1.2)
      && c.plainCost == (if o.plainCost.Some? then o.plainCost.value else 1)
      && c.swampCost == (if o.swampCost.Some? then o.swampCost.value else 5)
      && c.maxCost == (if o.maxCost.Some? then o.maxCost.value else 2147483647)
      && c.maxOps == (if o.maxOps.Some? then o.maxOps.value else 2147483647)
      && c.maxRooms == (if o.maxRooms.Some? then o.maxRooms.value else 16)
  {
  }

  function QueryOf(terrain: map<Room, seq<byte>>, callback: map<Room, CallbackResult>, goals: seq<Goal>,
      o: SearchOptions, capacity: nat): (q: Query)
    requires capacity > 0
    ensures 0 < q.env.maxRooms <= capacity
  {
    MakeQuery(terrain, callback, MakeHeuristic(goals, OrElse(o.flee, false)), Cast(o), capacity)
  }

  /** A search is done where a goal is in range; fleeing, where all of them are out of range. */
  lemma GoalsInNumbers(terrain: map<Room, seq<byte>>, callback: map<Room, CallbackResult>, goals: seq<Goal>,
      o: SearchOptions, capacity: nat, p: Pos)
    requires capacity > 0 && |goals| > 0
    ensures var q := QueryOf(terrain, callback, goals, o, capacity);
      if o.flee == Wrappers.Some(true) then
        q.H(p) == 0 <==> forall i :: 0 <= i < |goals| ==> p.RangeTo(goals[i].pos) >= goals[i].range
      else
        q.H(p) == 0 <==> exists i :: 0 <= i < |goals| && p.RangeTo(goals[i].pos) <= goals[i].range
  {
    hide Heuristic.At;
    DoneMeans(goals, OrElse(o.flee, false), p);
  }

  /**
   * What callers get. With the origin in front, the path is legal in the move graph and as dear as
   * reported; the search is complete if its last tile is a goal; then, for weight 1, no path to any goal
   * is cheaper. For other weights, the path does not turn on the border of a room.
   */
  ghost predicate Promised(q: Query, s: State, origin: Pos, result: Result)
    requires q.Valid()
  {
    var way := [origin] + result.path;
    && IsPath(q, s, way) && PathCost(q, way) == result.cost
    && (result.incomplete <==> q.H(way[|way| - 1]) != 0)
    && EndsNearest(q, s, way[|way| - 1])
    && (q.weight == 1.0 && !result.incomplete ==> NoPathCheaper(q, s, result.cost))
    && (q.weight != 1.0 ==> IsForward(way))
  }

  lemma AnswerIsPromised(q: Query, s: State, raw: Result, status: Status, path: seq<Pos>)
    requires q.Valid() && Sound(q, s) && IsAnswer(q, s, raw, status)
    requires var tiles := Expanded(raw.path); path == Reversed(tiles[..|tiles| - 1])
    ensures Promised(q, s, s.origin, raw.(path := path))
  {
    hide Sound, Trail, Query.Cost, Query.H, Expanded, IsPath, NoPathCheaper, EndsNearest, AllReachableClosed, IsForward,
         ClosedOnward;
    var end := raw.path[0];
    WayIsPath(q, s, end);
    TrailIsWaypoints(q, s, end);
    if q.weight != 1.0 {
      WayIsForward(q, s, end);
    }
    assert [s.origin] + path == WayTo(q, s, end);
  }

  lemma AnswerIsWaypoints(q: Query, s: State, raw: Result, status: Status)
    requires q.Valid() && Sound(q, s) && IsAnswer(q, s, raw, status)
    ensures |raw.path| > 0 && Waypoints(raw.path)
  {
    hide Sound, Trail, Query.Cost, Query.H, Expanded, IsPath, NoPathCheaper, EndsNearest, AllReachableClosed;
    TrailIsWaypoints(q, s, raw.path[0]);
  }

  lemma NoWaypoints()
    ensures Waypoints([])
  {
  }

  /** makeSearch */
  method Find(pf: Instance, terrain: map<Room, seq<byte>>, callback: map<Room, CallbackResult>, origin: Pos,
      goals: seq<Goal>, options: SearchOptions)
    returns (answer: Wrappers.Option<Result>, ghost q: Query)
    requires pf.Ready() && origin.InWorld() && pf.capacity > 0
    requires QueryOf(terrain, callback, goals, options, pf.capacity).Valid()
    modifies pf, pf.rooms`table, pf.rooms.reverse, pf.openClosed, pf.openClosed.list, pf.heap, pf.heap.data, pf.parents, pf.scores
    ensures pf.Ready() && q == QueryOf(terrain, callback, goals, options, pf.capacity)
    ensures |goals| == 0 || q.H(origin) == 0 ==> answer == Wrappers.Some(Result([], 0, 0, false))
    ensures |goals| > 0 && q.H(origin) != 0 && !q.env.Passable(RoomOf(origin)) ==> answer == Wrappers.Some(Result([], 0, 0, true))
    ensures |goals| > 0 && q.H(origin) != 0 && q.env.Passable(RoomOf(origin)) ==>
      && Sound(q, pf.s) && pf.s.origin == origin
      && match answer case Some(result) => Promised(q, pf.s, origin, result) case None => Failed(q, pf.s)
  {
    hide Query.H, Query.Cost, Sound, Instance.Ready, IsAnswer, Failed, Promised, Trail, Expanded,
         Waypoints, Counts, Budgeted,
         MakeQuery, MakeHeuristic, AskedNoneTwice;
    q := QueryOf(terrain, callback, goals, options, pf.capacity);
    if |goals| == 0 {
      return Wrappers.Some(Result([], 0, 0, false)), q;
    }
    ghost var status, last;
    answer, q, status, last := Search.Search(pf, terrain, callback, origin, MakeHeuristic(goals, OrElse(options.flee, false)), Cast(options));
    if answer.None? {
      return;
    }
    var result := answer.value;
    ghost var answered := q.H(origin) != 0 && q.env.Passable(RoomOf(origin));
    NoWaypoints();
    if answered {
      AnswerIsWaypoints(q, pf.s, result, status);
    }
    var path := Complete(result.path);
    if answered {
      AnswerIsPromised(q, pf.s, result, status, path);
    }
    answer := Wrappers.Some(result.(path := path));
  }
}
