/**
 * The search graph that a run builds, apart from the arrays that store it: rooms admitted so far,
 * tiles seen and closed, the cost at which each was reached, and from where.
 */
module Searches {
  import opened Positions
  import opened Terrain
  import opened Heuristics

  datatype Query = Query(env: Env, heuristic: Heuristic, weight: real) {
    predicate Valid() {
      env.Valid() && 1.0 <= weight <= 9.0
    }

    function Cost(p: Pos): nat
      requires Valid()
    {
      env.Cost(p)
    }

    function H(p: Pos): (h: nat) {
      NeverNegative(heuristic, p);
      heuristic.At(p)
    }

    /** static_cast<cost_t>(h * heuristic_weight) */
    function WeightedH(p: Pos): int {
      (H(p) as real * weight).Floor
    }
  }

  /** The weighted heuristic is the product, rounded down. */
  lemma WeightedInNumbers(q: Query, p: Pos)
    ensures var product := q.H(p) as real * q.weight; product - 1.0 < q.WeightedH(p) as real <= product
    ensures q.weight == 1.0 ==> q.WeightedH(p) == q.H(p)
  {
  }

  // Runs of tiles

  /** The cost of the tiles entered by `k` steps in one direction. */
  function RunCost(q: Query, p: Pos, dx: int, dy: int, k: nat): nat
    requires q.Valid()
  {
    if k == 0 then 0 else RunCost(q, p, dx, dy, k - 1) + q.Cost(Walk(p, dx, dy, k))
  }

  /** None of the tiles entered is an obstacle. */
  predicate RunOpen(q: Query, p: Pos, dx: int, dy: int, k: nat)
    requires q.Valid()
  {
    k == 0 || (RunOpen(q, p, dx, dy, k - 1) && q.Cost(Walk(p, dx, dy, k)) != OBSTACLE)
  }

  predicate SameRoom(p: Pos, v: Pos) {
    p.InWorld() && v.InWorld() && RoomOf(v) == RoomOf(p)
  }

  /** Every step is a legal move, and all but the last stay in the room. */
  predicate RunLegal(p: Pos, dx: int, dy: int, k: nat) {
    k == 0 || (RunLegal(p, dx, dy, k - 1) && SameRoom(p, Walk(p, dx, dy, k - 1)) && CanMove(Walk(p, dx, dy, k - 1), Walk(p, dx, dy, k)))
  }

  /** `b` is reached from `a` by legal moves in one direction, over passable tiles that cost `d` to enter. */
  predicate Link(q: Query, a: Pos, b: Pos, d: int)
    requires q.Valid()
  {
    var dx, dy, k := Sign(b.xx - a.xx), Sign(b.yy - a.yy), a.RangeTo(b);
    Straight(a, b) && k > 0 && RunLegal(a, dx, dy, k) && RunOpen(q, a, dx, dy, k) && d == RunCost(q, a, dx, dy, k)
  }

  lemma {:induction false} OpenRunsCost(q: Query, p: Pos, dx: int, dy: int, k: nat)
    requires q.Valid() && RunOpen(q, p, dx, dy, k)
    ensures RunCost(q, p, dx, dy, k) >= k
  {
    if k > 0 {
      OpenRunsCost(q, p, dx, dy, k - 1);
    }
  }

  lemma LinksCost(q: Query, a: Pos, b: Pos, d: int)
    requires q.Valid() && Link(q, a, b, d)
    ensures d >= 1 && q.Cost(b) > 0
  {
    hide Query.Cost;
    OpenRunsCost(q, a, Sign(b.xx - a.xx), Sign(b.yy - a.yy), a.RangeTo(b));
    WalkToEnd(a, b);
  }

  /** One step onto a passable tile is a link. */
  lemma StepLinks(q: Query, a: Pos, b: Pos)
    requires q.Valid() && a.InWorld() && CanMove(a, b) && q.Cost(b) != OBSTACLE
    ensures Link(q, a, b, q.Cost(b))
  {
    hide Query.Cost, Impossible;
    var dx, dy := b.xx - a.xx, b.yy - a.yy;
    assert Walk(a, dx, dy, 1) == Walk(a, dx, dy, 0).Translate(dx, dy) == b;
    WalkIsStraight(a, dx, dy, 1);
    assert RunOpen(q, a, dx, dy, 0) && RunCost(q, a, dx, dy, 0) == 0 && RunLegal(a, dx, dy, 0);
  }

  // The graph

  datatype State = State(origin: Pos, rooms: seq<Room>, blocked: set<Room>, closed: set<Pos>, g: map<Pos, int>, parent: map<Pos, Pos>) {
    /** The tile lies in an admitted room. */
    predicate Admits(p: Pos) {
      p.InWorld() && RoomOf(p) in rooms
    }

    predicate IsOpen(p: Pos) {
      p in g && p !in closed
    }
  }

  /** Rooms are admitted once, up to their limit, and only if they may be entered. */
  predicate RoomsAreSound(q: Query, rooms: seq<Room>, blocked: set<Room>)
    requires q.Valid()
  {
    && ValidRooms(rooms) && |rooms| <= q.env.maxRooms
    && (forall r :: r in rooms ==> q.env.Passable(r))
    && forall r :: r in blocked ==> !q.env.Passable(r)
  }

  /** What holds at every point of a search, whatever expands its nodes. */
  predicate Sound(q: Query, s: State)
    requires q.Valid()
  {
    && RoomsAreSound(q, s.rooms, s.blocked)
    && s.origin in s.closed && s.closed <= s.g.Keys && s.g[s.origin] == 0
    && s.parent.Keys == s.g.Keys - {s.origin}
    && (forall p :: p in s.g ==> s.Admits(p) && s.g[p] >= 0)
    && forall p :: p in s.parent ==> s.parent[p] in s.closed && Link(q, s.parent[p], p, s.g[p] - s.g[s.parent[p]])
  }

  /** f = g + h */
  function F(q: Query, s: State, p: Pos): int
    requires p in s.g
  {
    s.g[p] + q.WeightedH(p)
  }

  // Steps

  function Start(origin: Pos, rooms: seq<Room>, blocked: set<Room>): State {
    State(origin, rooms, blocked, {origin}, map[origin := 0], map[])
  }

  /** push_node: a closed node is left alone, an open one only improves. */
  function Push(s: State, p: Pos, from: Pos, g: int): State {
    if p in s.closed || (p in s.g && s.g[p] <= g) then s
    else s.(g := s.g[p := g], parent := s.parent[p := from])
  }

  function Close(s: State, p: Pos): State {
    s.(closed := s.closed + {p})
  }

  function AdmitRoom(s: State, r: Room): State {
    s.(rooms := s.rooms + [r])
  }

  function BlockRoom(s: State, r: Room): State {
    s.(blocked := s.blocked + {r})
  }

  lemma StartIsSound(q: Query, origin: Pos, rooms: seq<Room>, blocked: set<Room>)
    requires q.Valid() && origin.InWorld() && RoomOf(origin) in rooms
    requires RoomsAreSound(q, rooms, blocked)
    ensures Sound(q, Start(origin, rooms, blocked))
  {
  }

  lemma PushIsSound(q: Query, s: State, p: Pos, from: Pos, g: int)
    requires q.Valid() && Sound(q, s) && s.Admits(p) && from in s.closed && Link(q, from, p, g - s.g[from])
    ensures Sound(q, Push(s, p, from, g))
  {
    hide Link, RoomsAreSound, RoomOf;
    LinksCost(q, from, p, g - s.g[from]);
    var s' := Push(s, p, from, g);
    if s' != s {
      assert p != s.origin && s'.parent.Keys == s'.g.Keys - {s.origin};
      forall x | x in s'.parent ensures s'.parent[x] in s.closed && Link(q, s'.parent[x], x, s'.g[x] - s'.g[s'.parent[x]]) {
        assert s'.parent[x] == if x == p then from else s.parent[x];
      }
    }
  }

  lemma {:induction false} CloseIsSound(q: Query, s: State, p: Pos)
    requires q.Valid() && Sound(q, s) && p in s.g
    ensures Sound(q, Close(s, p))
  {
    hide Link;
  }

  lemma AdmitIsSound(q: Query, s: State, r: Room)
    requires q.Valid() && Sound(q, s) && r.InWorld() && q.env.Passable(r) && r !in s.rooms && |s.rooms| < q.env.maxRooms
    ensures Sound(q, AdmitRoom(s, r))
  {
    hide Link;
  }

  lemma BlockIsSound(q: Query, s: State, r: Room)
    requires q.Valid() && Sound(q, s) && !q.env.Passable(r)
    ensures Sound(q, BlockRoom(s, r))
  {
    hide Link;
  }

  // Progress

  /** What expanding nodes leaves as it was: everything closed, every room; open nodes only improve. */
  predicate Extends(s: State, s': State) {
    && s'.origin == s.origin && s'.closed == s.closed
    && s.rooms <= s'.rooms && s.blocked <= s'.blocked
    && s.g.Keys <= s'.g.Keys
    && (forall p :: p in s.g ==> s'.g[p] <= s.g[p])
    && (forall p :: p in s.closed && p in s.g ==> s'.g[p] == s.g[p])
    && forall p :: p in s.closed && p in s.parent ==> p in s'.parent && s'.parent[p] == s.parent[p]
  }

  lemma ExtendsTrans(a: State, b: State, c: State)
    requires Extends(a, b) && Extends(b, c)
    ensures Extends(a, c)
  {
    assert forall p :: p in a.g ==> p in b.g;
    assert forall p :: p in a.closed ==> p in b.closed;
  }

  lemma PushExtends(s: State, p: Pos, from: Pos, g: int)
    requires s.closed <= s.g.Keys
    ensures Extends(s, Push(s, p, from, g))
  {
  }

  // Paths

  /** Every seen tile but the origin was reached from a closed one, at a lower cost. */
  lemma ParentOf(q: Query, s: State, p: Pos)
    requires q.Valid() && Sound(q, s) && p in s.g
    ensures s.g[p] >= 0 && s.Admits(p) && s.origin in s.g
    ensures p != s.origin ==> p in s.parent && s.parent[p] in s.closed && s.parent[p] in s.g
    ensures p != s.origin ==> Link(q, s.parent[p], p, s.g[p] - s.g[s.parent[p]]) && s.g[s.parent[p]] < s.g[p]
  {
    hide Link, RoomsAreSound, State.Admits;
    if p != s.origin {
      LinksCost(q, s.parent[p], p, s.g[p] - s.g[s.parent[p]]);
    }
  }

  /** The tiles that parents lead through, from `p` back to the origin. */
  function Trail(q: Query, s: State, p: Pos): (trail: seq<Pos>)
    requires q.Valid() && Sound(q, s) && p in s.g
    ensures |trail| > 0 && trail[0] == p && trail[|trail| - 1] == s.origin
    decreases s.g[p]
  {
    ParentOf(q, s, p);
    if p == s.origin then [p]
    else
      [p] + Trail(q, s, s.parent[p])
  }

  /** Behind an open or closed node, parents lead only through closed ones, by links, at the recorded cost. */
  predicate IsTrail(q: Query, s: State, trail: seq<Pos>)
    requires q.Valid()
  {
    && |trail| > 0 && trail[|trail| - 1] == s.origin
    && (forall i :: 0 <= i < |trail| ==> trail[i] in s.g)
    && (forall i :: 0 < i < |trail| ==> trail[i] in s.closed)
    && forall i :: 0 <= i < |trail| - 1 ==> Link(q, trail[i + 1], trail[i], s.g[trail[i]] - s.g[trail[i + 1]])
  }

  lemma {:induction false} TrailIsTrail(q: Query, s: State, p: Pos)
    requires q.Valid() && Sound(q, s) && p in s.g
    ensures IsTrail(q, s, Trail(q, s, p))
    decreases s.g[p]
  {
    hide Link, Sound;
    ParentOf(q, s, p);
    if p != s.origin {
      TrailIsTrail(q, s, s.parent[p]);
    }
  }

  /** Later steps leave the trail of a closed node alone. */
  lemma {:induction false} TrailIsStable(q: Query, s: State, s': State, p: Pos)
    requires q.Valid() && Sound(q, s) && Sound(q, s') && p in s.closed && p in s.g && p in s'.g
    requires s'.origin == s.origin && s.closed <= s'.closed
    requires forall x :: x in s.closed && x in s.g ==> x in s'.g && s'.g[x] == s.g[x] && (x in s.parent ==> x in s'.parent && s'.parent[x] == s.parent[x])
    ensures Trail(q, s', p) == Trail(q, s, p)
    decreases s.g[p]
  {
    hide Link, Sound;
    ParentOf(q, s, p);
    if p != s.origin {
      TrailIsStable(q, s, s', s.parent[p]);
    }
  }
}
