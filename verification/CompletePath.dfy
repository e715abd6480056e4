/** From waypoints, last first, to every tile walked, first first and without the origin. */
module CompletePath {
  import opened Positions
  import opened Terrain
  import opened Searches
  import opened Optimality
  import opened JumpPoints

  // Packed positions

  /** (yy << 16) | xx */
  function Pack(p: Pos): int
    requires p.InWorld()
  {
    p.yy * 0x1_0000 + p.xx
  }

  function Unpack(n: nat): Pos {
    Pos(n % 0x1_0000, n / 0x1_0000)
  }

  lemma PackRoundTrip(p: Pos)
    requires p.InWorld()
    ensures Pack(p) >= 0 && Unpack(Pack(p)) == p
  {
  }

  // Stepping

  ghost predicate Arrives(p: Pos, v: Pos, dx: int, dy: int) {
    exists k: nat :: Walk(p, dx, dy, k) == v
  }

  /** Unit steps towards a tile, in a direction chosen once, arrive exactly if it lies straight ahead. */
  lemma StepsArrive(p: Pos, v: Pos)
    ensures Arrives(p, v, Sign(v.xx - p.xx), Sign(v.yy - p.yy)) <==> p == v || Straight(p, v)
  {
    var dx, dy := Sign(v.xx - p.xx), Sign(v.yy - p.yy);
    if p == v {
      assert Walk(p, dx, dy, 0) == v;
    } else if Straight(p, v) {
      WalkToEnd(p, v);
    } else if k: nat :| Walk(p, dx, dy, k) == v {
      WalkGoes(p, dx, dy, k);
    }
  }

  /** The tiles of a run, apart from its first. */
  function Tiles(p: Pos, dx: int, dy: int, k: nat): (tiles: seq<Pos>)
    ensures |tiles| == k
    ensures forall i :: 0 <= i < k ==> tiles[i] == Walk(p, dx, dy, i + 1)
  {
    seq(k, i requires 0 <= i < k => Walk(p, dx, dy, i + 1))
  }

  function RunTo(p: Pos, v: Pos): seq<Pos> {
    Tiles(p, Sign(v.xx - p.xx), Sign(v.yy - p.yy), Max(p.RangeTo(v), 0))
  }

  /** All tiles along a path of waypoints. */
  function Expanded(path: seq<Pos>): (tiles: seq<Pos>)
    requires |path| > 0
    ensures |tiles| > 0 && tiles[0] == path[0]
  {
    if |path| == 1 then path
    else Expanded(path[..|path| - 1]) + RunTo(path[|path| - 2], path[|path| - 1])
  }

  function Reversed(tiles: seq<Pos>): (r: seq<Pos>)
    ensures |r| == |tiles| && forall i :: 0 <= i < |r| ==> r[i] == tiles[|tiles| - 1 - i]
  {
    seq(|tiles|, i requires 0 <= i < |tiles| => tiles[|tiles| - 1 - i])
  }

  predicate Waypoints(path: seq<Pos>) {
    forall i :: 0 <= i < |path| - 1 ==> path[i] == path[i + 1] || Straight(path[i], path[i + 1])
  }

  /** makeCompletePath. The inner loop ends because each waypoint lies straight ahead of the one before. */
  method Complete(path: seq<Pos>) returns (result: seq<Pos>)
    requires Waypoints(path)
    ensures result == if |path| == 0 then [] else Reversed(Expanded(path)[..|Expanded(path)| - 1])
  {
    var tiles := [];
    if |path| > 0 {
      var at := path[0];
      tiles := [at];
      for i := 1 to |path|
        invariant tiles == Expanded(path[..i]) && at == path[i - 1]
      {
        var next := path[i];
        assert path[..i + 1][..i] == path[..i];
        assert path[i - 1] == at && (at == next || Straight(at, next));
        var run := StepTo(at, next);
        tiles := tiles + run;
        at := next;
      }
      assert path[..|path|] == path;
      tiles := tiles[..|tiles| - 1];
    }
    result := Reversed(tiles);
  }

  /** The inner loop: steps until the next waypoint. */
  method StepTo(from: Pos, next: Pos) returns (run: seq<Pos>)
    requires from == next || Straight(from, next)
    ensures run == RunTo(from, next)
  {
    hide Straight;
    var at := from;
    var dx, dy := Sign(next.xx - at.xx), Sign(next.yy - at.yy);
    ghost var range := Max(from.RangeTo(next), 0);
    RunLength(from, next);
    run := [];
    while at != next
      invariant |run| <= range && run == RunTo(from, next)[..|run|] && at == Walk(from, dx, dy, |run|)
      decreases range - |run|
    {
      if |run| == range { assert false; }
      at := at.Translate(dx, dy);
      run := run + [at];
    }
    OnlyAtEnd(from, next, |run|);
    assert run == RunTo(from, next);
  }

  lemma RunLength(p: Pos, v: Pos)
    requires p == v || Straight(p, v)
    ensures Walk(p, Sign(v.xx - p.xx), Sign(v.yy - p.yy), Max(p.RangeTo(v), 0)) == v
  {
    if p != v { WalkToEnd(p, v); }
  }

  /** No tile of the run but its last is the next waypoint. */
  lemma OnlyAtEnd(p: Pos, v: Pos, k: nat)
    requires k <= Max(p.RangeTo(v), 0) && (p == v || Straight(p, v))
    requires Walk(p, Sign(v.xx - p.xx), Sign(v.yy - p.yy), k) == v
    ensures k == Max(p.RangeTo(v), 0)
  {
    if p != v { WalkGoes(p, Sign(v.xx - p.xx), Sign(v.yy - p.yy), k); }
  }

  // The whole path

  lemma {:induction false} ExpandedFront(p: Pos, rest: seq<Pos>)
    requires |rest| > 0
    ensures Expanded([p] + rest) == [p] + RunTo(p, rest[0]) + Expanded(rest)[1..]
    decreases |rest|
  {
    hide RunTo;
    var path := [p] + rest;
    var last := |rest| - 1;
    if last == 0 {
      assert path[..1] == [p];
    } else {
      assert path[..|path| - 1] == [p] + rest[..last];
      ExpandedFront(p, rest[..last]);
      assert Expanded(rest)[1..] == Expanded(rest[..last])[1..] + RunTo(rest[last - 1], rest[last]);
    }
  }

  /** A run walked back is the same tiles in reverse. */
  lemma RunBack(p: Pos, v: Pos)
    requires Straight(p, v)
    ensures Reversed([p] + RunTo(p, v)) == [v] + RunTo(v, p)
  {
    var there, back := [p] + RunTo(p, v), [v] + RunTo(v, p);
    var k := p.RangeTo(v);
    assert v.RangeTo(p) == k;
    forall i | 0 <= i <= k ensures there[k - i] == back[i] {
      TileOfRun(p, v, k - i);
      TileOfRun(v, p, i);
    }
  }

  lemma TileOfRun(p: Pos, v: Pos, i: nat)
    requires Straight(p, v) && i <= p.RangeTo(v)
    ensures var k := p.RangeTo(v); var dx, dy := Sign(v.xx - p.xx), Sign(v.yy - p.yy);
      |RunTo(p, v)| == k && ([p] + RunTo(p, v))[i] == Pos(p.xx + dx * i, p.yy + dy * i)
  {
    var dx, dy := Sign(v.xx - p.xx), Sign(v.yy - p.yy);
    WalkGoes(p, dx, dy, i);
  }

  /** A path goes on along a link: it stays legal, and its cost grows by that of the link. */
  lemma {:induction false} RunExtendsPath(q: Query, s: State, path: seq<Pos>, p: Pos, dx: int, dy: int, k: nat)
    requires q.Valid() && IsPath(q, s, path) && path[|path| - 1] == p && s.Admits(p)
    requires RunLegal(p, dx, dy, k) && RunOpen(q, p, dx, dy, k) && s.Admits(Walk(p, dx, dy, k))
    ensures var longer := path + Tiles(p, dx, dy, k);
      IsPath(q, s, longer) && longer[|longer| - 1] == Walk(p, dx, dy, k) && PathCost(q, longer) == PathCost(q, path) + RunCost(q, p, dx, dy, k)
  {
    hide Query.Cost, CanMove;
    if k == 0 {
      assert path + Tiles(p, dx, dy, 0) == path;
    } else {
      RunExtendsPath(q, s, path, p, dx, dy, k - 1);
      var front, next := path + Tiles(p, dx, dy, k - 1), Walk(p, dx, dy, k);
      assert path + Tiles(p, dx, dy, k) == front + [next];
      StepExtendsPath(q, s, front, next);
    }
  }

  lemma StepExtendsPath(q: Query, s: State, path: seq<Pos>, next: Pos)
    requires q.Valid() && IsPath(q, s, path)
    requires CanMove(path[|path| - 1], next) && q.Cost(next) != OBSTACLE && s.Admits(next)
    ensures IsPath(q, s, path + [next]) && PathCost(q, path + [next]) == PathCost(q, path) + q.Cost(next)
  {
    hide Query.Cost, CanMove, State.Admits;
    var longer := path + [next];
    assert longer[..|longer| - 1] == path;
    forall i | 0 <= i < |longer| - 1 ensures StepAt(q, s, longer, i) {
      if i < |path| - 1 { assert StepAt(q, s, path, i); }
    }
  }

  /** From the origin to a seen tile, along the links that parents stand for. */
  function WayTo(q: Query, s: State, p: Pos): seq<Pos>
    requires q.Valid() && Sound(q, s) && p in s.g
  {
    Reversed(Expanded(Trail(q, s, p)))
  }

  lemma TrailOnward(q: Query, s: State, p: Pos)
    requires q.Valid() && Sound(q, s) && p in s.g
    ensures p == s.origin ==> Trail(q, s, p) == [p]
    ensures p != s.origin ==> p in s.parent && s.parent[p] in s.g && Trail(q, s, p) == [p] + Trail(q, s, s.parent[p])
    ensures p != s.origin ==> Link(q, s.parent[p], p, s.g[p] - s.g[s.parent[p]]) && s.g[s.parent[p]] < s.g[p]
  {
    hide Link, RoomsAreSound, State.Admits;
    ParentOf(q, s, p);
  }

  lemma WayOnward(q: Query, s: State, p: Pos)
    requires q.Valid() && Sound(q, s) && p in s.g && p != s.origin
    ensures p in s.parent && s.parent[p] in s.g && WayTo(q, s, p) == WayTo(q, s, s.parent[p]) + RunTo(s.parent[p], p)
  {
    hide Sound, Trail, RunTo, Query.Cost, RunOpen, RunLegal, RunCost, Expanded;
    TrailOnward(q, s, p);
    var from := s.parent[p];
    var rest := Trail(q, s, from);
    ExpandedFront(p, rest);
    RunBack(p, from);
    var tiles, run := Expanded(rest), RunTo(p, from);
    var all := [p] + run + tiles[1..];
    assert Reversed(all) == Reversed(tiles[1..]) + Reversed([p] + run);
    assert Reversed(tiles) == Reversed(tiles[1..]) + [from];
  }

  /** The cost reported for a tile is the sum over the path, and the path is legal in the move graph of A*. */
  lemma {:induction false} WayIsPath(q: Query, s: State, p: Pos)
    requires q.Valid() && Sound(q, s) && p in s.g
    ensures IsPath(q, s, WayTo(q, s, p)) && PathCost(q, WayTo(q, s, p)) == s.g[p]
    ensures var way := WayTo(q, s, p); way[0] == s.origin && way[|way| - 1] == p
    decreases s.g[p]
  {
    hide Sound, Trail, Query.Cost, RunOpen, RunLegal, RunCost, Expanded, RoomsAreSound, State.Admits;
    TrailOnward(q, s, p);
    ParentOf(q, s, p);
    if p == s.origin {
      OriginCostsNothing(q, s);
      ExpandedOne(p);
      assert WayTo(q, s, p) == [p];
    } else {
      var from := s.parent[p];
      WayIsPath(q, s, from);
      ParentOf(q, s, from);
      WayOnward(q, s, p);
      WalkToEnd(from, p);
      RunExtendsPath(q, s, WayTo(q, s, from), from, Sign(p.xx - from.xx), Sign(p.yy - from.yy), from.RangeTo(p));
    }
  }

  lemma ExpandedOne(p: Pos)
    ensures Expanded([p]) == [p]
  {
  }

  /** Waypoints of a search are straight apart, and completing them gives the path without the origin. */
  lemma {:induction false} TrailIsWaypoints(q: Query, s: State, p: Pos)
    requires q.Valid() && Sound(q, s) && p in s.g
    ensures var trail := Trail(q, s, p); var tiles := Expanded(trail);
      Waypoints(trail) && Reversed(tiles[..|tiles| - 1]) == WayTo(q, s, p)[1..]
    decreases s.g[p]
  {
    hide Sound, Trail, Query.Cost, RunOpen, RunLegal, RunCost, Expanded, RoomsAreSound, State.Admits;
    TrailOnward(q, s, p);
    ParentOf(q, s, p);
    if p != s.origin {
      ParentOf(q, s, s.parent[p]);
      TrailIsWaypoints(q, s, s.parent[p]);
    }
  }

  // Borders

  predicate ForwardAt(way: seq<Pos>, i: nat)
    requires 0 < i < |way| - 1
  {
    Forward(way[i - 1], way[i], way[i + 1])
  }

  /** The path turns on no border tile between its ends. */
  predicate IsForward(way: seq<Pos>) {
    forall i :: 0 < i < |way| - 1 ==> ForwardAt(way, i)
  }

  lemma {:induction false} LegalMoves(p: Pos, dx: int, dy: int, k: nat, i: nat)
    requires RunLegal(p, dx, dy, k) && i < k
    ensures CanMove(Walk(p, dx, dy, i), Walk(p, dx, dy, i + 1))
  {
    hide CanMove;
    if i < k - 1 {
      LegalMoves(p, dx, dy, k - 1, i);
    }
  }

  lemma LinkIsForward(q: Query, a: Pos, b: Pos, d: int)
    requires q.Valid() && Link(q, a, b, d)
    ensures IsForward([a] + RunTo(a, b)) && |RunTo(a, b)| > 0
  {
    hide Query.Cost, RunLegal, RunOpen, RunCost, CanMove, Forward;
    var dx, dy, k := Sign(b.xx - a.xx), Sign(b.yy - a.yy), a.RangeTo(b);
    var way := [a] + RunTo(a, b);
    assert Walk(a, dx, dy, 0) == a;
    WalkToEnd(a, b);
    forall i | 0 < i < |way| - 1 ensures ForwardAt(way, i) {
      LegalMoves(a, dx, dy, k, i - 1);
      LegalMoves(a, dx, dy, k, i);
      WalkGoes(a, dx, dy, i - 1);
      WalkGoes(a, dx, dy, i);
      WalkGoes(a, dx, dy, i + 1);
      StraightIsForward(way[i - 1], way[i], way[i + 1]);
    }
  }

  lemma JoinIsForward(front: seq<Pos>, run: seq<Pos>)
    requires |front| > 0 && |run| > 0 && IsForward(front) && IsForward([front[|front| - 1]] + run)
    requires |front| > 1 ==> Forward(front[|front| - 2], front[|front| - 1], run[0])
    ensures IsForward(front + run)
  {
    hide Forward;
    var way, n, tail := front + run, |front|, [front[|front| - 1]] + run;
    forall i | 0 < i < |way| - 1 ensures ForwardAt(way, i) {
      if i < n - 1 {
        assert ForwardAt(front, i);
      } else if i >= n {
        assert ForwardAt(tail, i - n + 1);
      }
    }
  }

  /** The direction in which a way comes to its end. */
  predicate ComesFrom(way: seq<Pos>, from: Pos) {
    |way| > 1
    && var w, p := way[|way| - 2], way[|way| - 1];
       Sign(p.xx - w.xx) == Sign(p.xx - from.xx) && Sign(p.yy - w.yy) == Sign(p.yy - from.yy)
  }

  lemma RunComesFrom(front: seq<Pos>, a: Pos, b: Pos)
    requires |front| > 0 && front[|front| - 1] == a && Straight(a, b)
    ensures ComesFrom(front + RunTo(a, b), a)
  {
    var dx, dy, k := Sign(b.xx - a.xx), Sign(b.yy - a.yy), a.RangeTo(b);
    WalkToEnd(a, b);
    WalkGoes(a, dx, dy, k);
    WalkGoes(a, dx, dy, k - 1);
    assert (front + RunTo(a, b))[|front| + k - 2] == Walk(a, dx, dy, k - 1);
  }

  /** On from the border the run is one step, straight on. */
  lemma RunGoesOn(way: seq<Pos>, from: Pos, a: Pos, b: Pos)
    requires ComesFrom(way, from) && way[|way| - 1] == a && Straight(a, b) && Forward(from, a, b)
    ensures |RunTo(a, b)| > 0 && Forward(way[|way| - 2], a, RunTo(a, b)[0])
  {
    var dx, dy := Sign(b.xx - a.xx), Sign(b.yy - a.yy);
    WalkToEnd(a, b);
    WalkGoes(a, dx, dy, 1);
    if !Interior(a) {
      assert a.RangeTo(b) == 1;
      WalkGoes(a, dx, dy, a.RangeTo(b));
    }
  }

  /** The way of a jump point search goes straight on from every border tile but the origin. */
  lemma {:induction false} WayIsForward(q: Query, s: State, p: Pos)
    requires q.Valid() && Sound(q, s) && p in s.g && p in s.closed && ClosedOnward(s)
    ensures var way := WayTo(q, s, p);
      IsForward(way) && way[|way| - 1] == p && (p != s.origin ==> p in s.parent && ComesFrom(way, s.parent[p]))
    decreases s.g[p]
  {
    hide Sound, Trail, Link, Expanded, RoomsAreSound, State.Admits, WayTo, Forward, ComesFrom, IsForward, RunTo;
    TrailOnward(q, s, p);
    ParentOf(q, s, p);
    WayIsPath(q, s, p);
    if p == s.origin {
      WayToOrigin(q, s);
    } else {
      var from := s.parent[p];
      var front := WayTo(q, s, from);
      WayIsPath(q, s, from);
      WayIsForward(q, s, from);
      WayOnward(q, s, p);
      LinkIsForward(q, from, p, s.g[p] - s.g[from]);
      LinkIsStraight(q, from, p, s.g[p] - s.g[from]);
      RunComesFrom(front, from, p);
      assert GoesOnward(s, p);
      if from != s.origin {
        RunGoesOn(front, s.parent[from], from, p);
      } else {
        WayToOrigin(q, s);
      }
      JoinIsForward(front, RunTo(from, p));
    }
  }

  lemma LinkIsStraight(q: Query, a: Pos, b: Pos, d: int)
    requires q.Valid() && Link(q, a, b, d)
    ensures Straight(a, b)
  {
  }

  lemma WayToOrigin(q: Query, s: State)
    requires q.Valid() && Sound(q, s) && s.origin in s.g
    ensures WayTo(q, s, s.origin) == [s.origin] && IsForward([s.origin])
  {
    hide Sound, Expanded, Forward;
    TrailOnward(q, s, s.origin);
    ExpandedOne(s.origin);
  }

  lemma OriginCostsNothing(q: Query, s: State)
    requires q.Valid() && Sound(q, s)
    ensures s.origin in s.g && s.g[s.origin] == 0
  {
    hide Link, RoomsAreSound;
  }
}
