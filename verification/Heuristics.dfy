/** Distance still to go, towards goals or away from them. */
module Heuristics {
  import opened Positions

  datatype Goal = Goal(range: int, pos: Pos)

  datatype Heuristic =
    | ForwardOne(goal: Goal)
    | ForwardMany(goals: seq<Goal>)
    | FleeOne(goal: Goal)
    | FleeMany(goals: seq<Goal>)
  {
    function At(p: Pos): int {
      match this
      case ForwardOne(goal) => Max(p.RangeTo(goal.pos) - goal.range, 0)
      case ForwardMany(goals) => ForwardFold(goals, p)
      case FleeOne(goal) => Max(goal.range - p.RangeTo(goal.pos), 0)
      case FleeMany(goals) => FleeFold(goals, p)
    }
  }

  /** numeric_limits<cost_t>::max() */
  const INFINITE := 0x7fff_ffff

  function ForwardFold(goals: seq<Goal>, p: Pos): int {
    if |goals| == 0 then INFINITE
    else
      var goal := goals[|goals| - 1];
      var cost := ForwardFold(goals[..|goals| - 1], p);
      var dist := p.RangeTo(goal.pos);
      if dist > goal.range then Min(cost, dist - goal.range) else 0
  }

  function FleeFold(goals: seq<Goal>, p: Pos): int {
    if |goals| == 0 then 0
    else
      var goal := goals[|goals| - 1];
      var cost := FleeFold(goals[..|goals| - 1], p);
      var dist := p.RangeTo(goal.pos);
      if dist < goal.range then Max(cost, goal.range - dist) else cost
  }

  // In numbers

  /** The larger of the distances along the two axes. */
  predicate IsRange(p: Pos, q: Pos, range: int) {
    && (range == q.xx - p.xx || range == p.xx - q.xx || range == q.yy - p.yy || range == p.yy - q.yy)
    && q.xx - p.xx <= range && p.xx - q.xx <= range && q.yy - p.yy <= range && p.yy - q.yy <= range
  }

  lemma RangeIsLarger(p: Pos, q: Pos)
    ensures IsRange(p, q, p.RangeTo(q))
  {
  }

  /** Still to go until the goal is in range. */
  ghost predicate ToGo(goal: Goal, p: Pos, cost: int) {
    exists range: int :: IsRange(p, goal.pos, range) && cost == if range > goal.range then range - goal.range else 0
  }

  /** Still to go until it is out of range. */
  ghost predicate ToFlee(goal: Goal, p: Pos, cost: int) {
    exists range: int :: IsRange(p, goal.pos, range) && cost == if range < goal.range then goal.range - range else 0
  }

  /** The goal that is nearest, or 2147483647 if that is nearer still. */
  ghost predicate IsNearest(goals: seq<Goal>, p: Pos, cost: int) {
    && cost <= 2147483647 && (forall i, c :: 0 <= i < |goals| && ToGo(goals[i], p, c) ==> cost <= c)
    && (cost == 2147483647 || exists i :: 0 <= i < |goals| && ToGo(goals[i], p, cost))
  }

  /** The goal that is furthest from being fled, or 0. */
  ghost predicate IsWorst(goals: seq<Goal>, p: Pos, cost: int) {
    && 0 <= cost && (forall i, c :: 0 <= i < |goals| && ToFlee(goals[i], p, c) ==> c <= cost)
    && (cost == 0 || exists i :: 0 <= i < |goals| && ToFlee(goals[i], p, cost))
  }

  lemma {:induction false} HeuristicInNumbers(h: Heuristic, p: Pos)
    ensures h.ForwardOne? ==> ToGo(h.goal, p, h.At(p))
    ensures h.FleeOne? ==> ToFlee(h.goal, p, h.At(p))
    ensures h.ForwardMany? ==> IsNearest(h.goals, p, h.At(p))
    ensures h.FleeMany? ==> IsWorst(h.goals, p, h.At(p))
  {
    hide IsRange;
    match h
    case ForwardOne(goal) => RangeIsLarger(p, goal.pos);
    case FleeOne(goal) => RangeIsLarger(p, goal.pos);
    case ForwardMany(goals) => NearestOfMany(goals, p);
    case FleeMany(goals) => WorstOfMany(goals, p);
  }

  lemma RangeIsUnique(p: Pos, q: Pos, a: int)
    requires IsRange(p, q, a)
    ensures a == p.RangeTo(q)
  {
  }

  lemma ToGoIs(goal: Goal, p: Pos, c: int)
    ensures ToGo(goal, p, c) <==> c == if p.RangeTo(goal.pos) > goal.range then p.RangeTo(goal.pos) - goal.range else 0
  {
    hide IsRange;
    RangeIsLarger(p, goal.pos);
    forall range: int | IsRange(p, goal.pos, range) ensures range == p.RangeTo(goal.pos) {
      RangeIsUnique(p, goal.pos, range);
    }
  }

  lemma ToFleeIs(goal: Goal, p: Pos, c: int)
    ensures ToFlee(goal, p, c) <==> c == if p.RangeTo(goal.pos) < goal.range then goal.range - p.RangeTo(goal.pos) else 0
  {
    hide IsRange;
    RangeIsLarger(p, goal.pos);
    forall range: int | IsRange(p, goal.pos, range) ensures range == p.RangeTo(goal.pos) {
      RangeIsUnique(p, goal.pos, range);
    }
  }

  lemma {:induction false} NearestOfMany(goals: seq<Goal>, p: Pos)
    ensures IsNearest(goals, p, ForwardFold(goals, p))
  {
    hide ToGo, Pos.RangeTo;
    if |goals| > 0 {
      var n := |goals| - 1;
      var front, cost := goals[..n], ForwardFold(goals, p);
      NearestOfMany(front, p);
      ForwardNeverNegative(front, p);
      forall c ensures ToGo(goals[n], p, c) <==> c == (if p.RangeTo(goals[n].pos) > goals[n].range then p.RangeTo(goals[n].pos) - goals[n].range else 0) {
        ToGoIs(goals[n], p, c);
      }
      forall i, c | 0 <= i < |goals| && ToGo(goals[i], p, c) ensures cost <= c {
        if i < n { assert front[i] == goals[i]; }
        if p.RangeTo(goals[n].pos) <= goals[n].range { ToGoIs(goals[i], p, c); }
      }
      if cost != 2147483647 && !ToGo(goals[n], p, cost) {
        var i :| 0 <= i < |front| && ToGo(front[i], p, cost);
        assert goals[i] == front[i];
      }
    }
  }

  lemma {:induction false} WorstOfMany(goals: seq<Goal>, p: Pos)
    ensures IsWorst(goals, p, FleeFold(goals, p))
  {
    hide ToFlee, Pos.RangeTo;
    if |goals| > 0 {
      var n := |goals| - 1;
      var front, cost := goals[..n], FleeFold(goals, p);
      WorstOfMany(front, p);
      forall c ensures ToFlee(goals[n], p, c) <==> c == (if p.RangeTo(goals[n].pos) < goals[n].range then goals[n].range - p.RangeTo(goals[n].pos) else 0) {
        ToFleeIs(goals[n], p, c);
      }
      forall i, c | 0 <= i < |goals| && ToFlee(goals[i], p, c) ensures c <= cost {
        if i < n { assert front[i] == goals[i]; }
      }
      if cost != 0 && !ToFlee(goals[n], p, cost) {
        var i :| 0 <= i < |front| && ToFlee(front[i], p, cost);
        assert goals[i] == front[i];
      }
    }
  }

  /** Negative costs never arise. */
  lemma {:induction false} NeverNegative(h: Heuristic, p: Pos)
    ensures h.At(p) >= 0
  {
    match h
    case ForwardMany(goals) => ForwardNeverNegative(goals, p);
    case FleeMany(goals) => FleeNeverNegative(goals, p);
    case _ =>
  }

  lemma {:induction false} ForwardNeverNegative(goals: seq<Goal>, p: Pos)
    ensures ForwardFold(goals, p) >= 0
  {
    if |goals| > 0 { ForwardNeverNegative(goals[..|goals| - 1], p); }
  }

  lemma {:induction false} FleeNeverNegative(goals: seq<Goal>, p: Pos)
    ensures FleeFold(goals, p) >= 0
  {
    if |goals| > 0 { FleeNeverNegative(goals[..|goals| - 1], p); }
  }

  lemma RangeIsLipschitz(p: Pos, q: Pos, goal: Pos)
    ensures p.RangeTo(goal) <= p.RangeTo(q) + q.RangeTo(goal)
    ensures p.RangeTo(q) == q.RangeTo(p) >= 0
  {
  }

  /** One step changes a heuristic by at most the distance stepped: with costs of 1 or more it is consistent. */
  lemma {:induction false} Lipschitz(h: Heuristic, p: Pos, q: Pos)
    ensures h.At(p) <= p.RangeTo(q) + h.At(q)
  {
    match h
    case ForwardOne(goal) => RangeIsLipschitz(p, q, goal.pos);
    case FleeOne(goal) => RangeIsLipschitz(q, p, goal.pos);
    case ForwardMany(goals) => ForwardLipschitz(goals, p, q);
    case FleeMany(goals) => FleeLipschitz(goals, p, q);
  }

  lemma {:induction false} ForwardLipschitz(goals: seq<Goal>, p: Pos, q: Pos)
    ensures ForwardFold(goals, p) <= p.RangeTo(q) + ForwardFold(goals, q)
  {
    RangeIsLipschitz(p, q, q);
    if |goals| > 0 {
      ForwardLipschitz(goals[..|goals| - 1], p, q);
      ForwardNeverNegative(goals[..|goals| - 1], q);
      RangeIsLipschitz(p, q, goals[|goals| - 1].pos);
    }
  }

  lemma {:induction false} FleeLipschitz(goals: seq<Goal>, p: Pos, q: Pos)
    ensures FleeFold(goals, p) <= p.RangeTo(q) + FleeFold(goals, q)
  {
    RangeIsLipschitz(p, q, q);
    if |goals| > 0 {
      FleeLipschitz(goals[..|goals| - 1], p, q);
      FleeNeverNegative(goals[..|goals| - 1], q);
      RangeIsLipschitz(q, p, goals[|goals| - 1].pos);
    }
  }

  /** A goal is reached. */
  predicate Reached(goal: Goal, p: Pos) {
    p.RangeTo(goal.pos) <= goal.range
  }

  /** Nothing is left to go exactly when some goal is reached, or when all of them are fled. */
  lemma {:induction false} ZeroMeansDone(h: Heuristic, p: Pos)
    ensures h.ForwardOne? ==> (h.At(p) == 0 <==> Reached(h.goal, p))
    ensures h.ForwardMany? ==> (h.At(p) == 0 <==> exists i :: 0 <= i < |h.goals| && Reached(h.goals[i], p))
    ensures h.FleeOne? ==> (h.At(p) == 0 <==> p.RangeTo(h.goal.pos) >= h.goal.range)
    ensures h.FleeMany? ==> (h.At(p) == 0 <==> forall i :: 0 <= i < |h.goals| ==> p.RangeTo(h.goals[i].pos) >= h.goals[i].range)
  {
    match h
    case ForwardMany(goals) => ForwardZero(goals, p);
    case FleeMany(goals) => FleeZero(goals, p);
    case _ =>
  }

  lemma {:induction false} ForwardZero(goals: seq<Goal>, p: Pos)
    ensures ForwardFold(goals, p) == 0 <==> exists i :: 0 <= i < |goals| && Reached(goals[i], p)
  {
    if |goals| > 0 {
      var front := goals[..|goals| - 1];
      ForwardZero(front, p);
      ForwardNeverNegative(front, p);
      assert forall i :: 0 <= i < |front| ==> front[i] == goals[i];
      if i :| 0 <= i < |goals| && Reached(goals[i], p) {
        assert i == |goals| - 1 || Reached(front[i], p);
      }
    }
  }

  lemma {:induction false} FleeZero(goals: seq<Goal>, p: Pos)
    ensures FleeFold(goals, p) == 0 <==> forall i :: 0 <= i < |goals| ==> p.RangeTo(goals[i].pos) >= goals[i].range
  {
    if |goals| > 0 {
      var front := goals[..|goals| - 1];
      FleeZero(front, p);
      FleeNeverNegative(front, p);
      assert forall i :: 0 <= i < |front| ==> front[i] == goals[i];
    }
  }

  /** heuristic_t::make_from_runtime: a single goal has a form of its own. */
  function MakeHeuristic(goals: seq<Goal>, flee: bool): Heuristic {
    if |goals| == 1 then if flee then FleeOne(goals[0]) else ForwardOne(goals[0])
    else if flee then FleeMany(goals) else ForwardMany(goals)
  }

  /** The form for a single goal gives what the fold would, within the range of costs. */
  lemma OneGoalIsFold(goals: seq<Goal>, flee: bool, p: Pos)
    requires |goals| == 1 && p.RangeTo(goals[0].pos) - goals[0].range <= INFINITE
    ensures MakeHeuristic(goals, flee).At(p) == (if flee then FleeMany(goals) else ForwardMany(goals)).At(p)
  {
    assert goals[..0] == [];
    assert ForwardFold([], p) == INFINITE && FleeFold([], p) == 0;
  }

  /** A search for goals is done where it reaches one of them, and a flight where it is far enough from all. */
  lemma DoneMeans(goals: seq<Goal>, flee: bool, p: Pos)
    ensures MakeHeuristic(goals, flee).At(p) == 0 <==>
      (if flee then forall i :: 0 <= i < |goals| ==> p.RangeTo(goals[i].pos) >= goals[i].range
       else exists i :: 0 <= i < |goals| && Reached(goals[i], p))
  {
    ZeroMeansDone(MakeHeuristic(goals, flee), p);
    if |goals| == 1 {
      assert goals[0] == goals[0] && (Reached(goals[0], p) <==> p.RangeTo(goals[0].pos) <= goals[0].range);
    }
  }
}
