/**
 * The gravity solver `compute_gravity_system` (src/main.rs): for every unordered
 * pair i < j it adds equal and opposite accelerations into both bodies'
 * accumulators. The square root is a parameter (see README).
 */
module Gravity {
  import opened Bodies
  import opened Pairs
  import opened Totals

  const GRAVITY_CONST: real := 0.0005

  /** Floor under the distance used as a divisor. */
  const MIN_DISTANCE: real := 0.0001

  /** `powi(2)`: never negative, and at least MIN_DISTANCE² on a floored distance. */
  function Square(v: real): (r: real)
    ensures r >= 0.0
    ensures v >= MIN_DISTANCE ==> r >= MIN_DISTANCE * MIN_DISTANCE
  {
    v * v
  }

  /** The distance after flooring: never below MIN_DISTANCE, unchanged above it. */
  function Floored(d: real): (r: real)
    ensures r >= MIN_DISTANCE
    ensures r == d || (d < MIN_DISTANCE && r == MIN_DISTANCE)
  {
    if d < MIN_DISTANCE then MIN_DISTANCE else d
  }

  /** The acceleration body1 receives from body2 and the one body2 receives from body1. */
  datatype Pull = Pull(ax1: real, ay1: real, ax2: real, ay2: real)

  /** Masses the solver divides by: both nonzero. */
  predicate Massive(b1: Body, b2: Body) {
    b1.mass != 0.0 && b2.mass != 0.0
  }

  /** The magnitude of the attraction between masses m1 and m2 at distance d. */
  function ForceScalar(m1: real, m2: real, d: real): real
    requires d >= MIN_DISTANCE
  {
    GRAVITY_CONST * m1 * m2 / Square(d)
  }

  lemma CancelMass(m: real, u: real, f: real)
    requires m != 0.0
    ensures m * (u * (f / m)) == u * f
  {
    assert m * (f / m) == f;
    assert m * (u * (f / m)) == u * (m * (f / m));
  }

  /**
   * The contributions of one pair, body1 at (x1, y1) with mass m1 and body2 at
   * (x2, y2) with mass m2, whose (floored) centre distance is `distance`.
   * Newton's third law: m1 times body1's contribution is minus m2 times
   * body2's contribution.
   */
  function PullAt(x1: real, y1: real, m1: real, x2: real, y2: real, m2: real, distance: real): (p: Pull)
    requires m1 != 0.0 && m2 != 0.0 && distance >= MIN_DISTANCE
    ensures m1 * p.ax1 == -(m2 * p.ax2)
    ensures m1 * p.ay1 == -(m2 * p.ay2)
  {
    var ux, uy := (x2 - x1) / distance, (y2 - y1) / distance;
    var force := ForceScalar(m1, m2, distance);
    CancelMass(m1, ux, force);
    CancelMass(m2, ux, force);
    CancelMass(m1, uy, force);
    CancelMass(m2, uy, force);
    Pull(ux * (force / m1), uy * (force / m1), -(ux * (force / m2)), -(uy * (force / m2)))
  }

  lemma OwnMassCancels(m1: real, m2: real, d: real)
    requires m1 != 0.0 && d >= MIN_DISTANCE
    ensures ForceScalar(m1, m2, d) / m1 == GRAVITY_CONST * m2 / Square(d)
    ensures ForceScalar(m2, m1, d) / m1 == GRAVITY_CONST * m2 / Square(d)
  {
    assert GRAVITY_CONST * m1 * m2 / Square(d) == m1 * (GRAVITY_CONST * m2 / Square(d));
    assert GRAVITY_CONST * m2 * m1 / Square(d) == m1 * (GRAVITY_CONST * m2 / Square(d));
  }

  /**
   * The inverse-square law the solver implements: body1 accelerates towards
   * body2 by G·m2·(dx, dy)/d³, independently of its own mass, and body2
   * towards body1 by G·m1·(−dx, −dy)/d³.
   */
  lemma InverseSquare(x1: real, y1: real, m1: real, x2: real, y2: real, m2: real, distance: real)
    requires m1 != 0.0 && m2 != 0.0 && distance >= MIN_DISTANCE
    ensures var p := PullAt(x1, y1, m1, x2, y2, m2, distance);
      && p.ax1 == (x2 - x1) / distance * (GRAVITY_CONST * m2 / Square(distance))
      && p.ay1 == (y2 - y1) / distance * (GRAVITY_CONST * m2 / Square(distance))
      && p.ax2 == (x1 - x2) / distance * (GRAVITY_CONST * m1 / Square(distance))
      && p.ay2 == (y1 - y2) / distance * (GRAVITY_CONST * m1 / Square(distance))
  {
    OwnMassCancels(m1, m2, distance);
    OwnMassCancels(m2, m1, distance);
    Negate((x2 - x1) / distance, GRAVITY_CONST * m1 / Square(distance));
    Negate((y2 - y1) / distance, GRAVITY_CONST * m1 / Square(distance));
    assert -((x2 - x1) / distance) == (x1 - x2) / distance;
    assert -((y2 - y1) / distance) == (y1 - y2) / distance;
  }

  lemma Negate(u: real, k: real)
    ensures -(u * k) == (-u) * k
  {
  }

  /**
   * Gravity attracts: for positive masses each body's contribution points
   * towards the other body along each axis (and is zero on an axis where
   * the two coincide).
   */
  lemma PullAttracts(x1: real, y1: real, m1: real, x2: real, y2: real, m2: real, distance: real)
    requires m1 > 0.0 && m2 > 0.0 && distance >= MIN_DISTANCE
    ensures var p := PullAt(x1, y1, m1, x2, y2, m2, distance);
      && (x2 > x1 <==> p.ax1 > 0.0) && (x2 < x1 <==> p.ax1 < 0.0)
      && (y2 > y1 <==> p.ay1 > 0.0) && (y2 < y1 <==> p.ay1 < 0.0)
      && (x2 > x1 <==> p.ax2 < 0.0) && (x2 < x1 <==> p.ax2 > 0.0)
      && (y2 > y1 <==> p.ay2 < 0.0) && (y2 < y1 <==> p.ay2 > 0.0)
  {
    InverseSquare(x1, y1, m1, x2, y2, m2, distance);
    var q := Square(distance);
    PositiveRatio(GRAVITY_CONST * m2, q);
    PositiveRatio(GRAVITY_CONST * m1, q);
    SignOfScaled(x2 - x1, distance, GRAVITY_CONST * m2 / q);
    SignOfScaled(y2 - y1, distance, GRAVITY_CONST * m2 / q);
    SignOfScaled(x1 - x2, distance, GRAVITY_CONST * m1 / q);
    SignOfScaled(y1 - y2, distance, GRAVITY_CONST * m1 / q);
  }

  lemma PositiveRatio(a: real, q: real)
    requires a > 0.0 && q > 0.0
    ensures a / q > 0.0
  {
  }

  lemma MulPositive(a: real, b: real)
    requires a > 0.0 && b > 0.0
    ensures a * b > 0.0
  {
  }

  lemma SignOfScaled(v: real, d: real, k: real)
    requires d > 0.0 && k > 0.0
    ensures (v > 0.0 <==> v / d * k > 0.0) && (v < 0.0 <==> v / d * k < 0.0)
  {
    if v > 0.0 {
      assert v / d > 0.0;
      MulPositive(v / d, k);
    } else if v < 0.0 {
      assert -v / d > 0.0;
      MulPositive(-v / d, k);
      assert v / d * k == -(-v / d * k);
    } else {
      assert v / d * k == 0.0;
    }
  }

  /** The distance the solver divides by: the root of the squared separation, floored. */
  function PairDistance(x1: real, y1: real, x2: real, y2: real, sqrt: real -> real): (d: real)
    ensures d >= MIN_DISTANCE
  {
    Floored(sqrt(Square(x2 - x1) + Square(y2 - y1)))
  }

  /** The contributions of one pair of bodies at their floored distance. */
  function PairPull(b1: Body, b2: Body, sqrt: real -> real): (p: Pull)
    requires Massive(b1, b2)
    ensures b1.mass * p.ax1 == -(b2.mass * p.ax2)
    ensures b1.mass * p.ay1 == -(b2.mass * p.ay2)
  {
    PullAt(b1.x, b1.y, b1.mass, b2.x, b2.y, b2.mass, PairDistance(b1.x, b1.y, b2.x, b2.y, sqrt))
  }

  /** Adds a contribution into a body's accumulator: the old value is kept and grows by (ax, ay); nothing else changes. */
  function Accumulate(b: Body, ax: real, ay: real): (r: Body)
    ensures r.ax - b.ax == ax && r.ay - b.ay == ay
    ensures r.(ax := b.ax, ay := b.ay) == b
  {
    b.(ax := b.ax + ax, ay := b.ay + ay)
  }

  /** Every body of the store has a mass the solver may divide by. */
  predicate AllMassive(s: seq<Body>) {
    forall k :: 0 <= k < |s| ==> s[k].mass != 0.0
  }

  /** The store after the loop iteration for pair p. */
  function VisitPair(s: seq<Body>, p: Pair, sqrt: real -> real): (r: seq<Body>)
    requires 0 <= p.i < p.j < |s| && AllMassive(s)
    ensures |r| == |s| && AllMassive(r)
  {
    var pull := PairPull(s[p.i], s[p.j], sqrt);
    s[p.i := Accumulate(s[p.i], pull.ax1, pull.ay1)][p.j := Accumulate(s[p.j], pull.ax2, pull.ay2)]
  }

  /**
   * The inner-loop body as one step of the pass. Outside its domain (an index
   * out of range, a zero mass) the step leaves the store as it is; the
   * solver's precondition keeps every step of the pass inside it.
   */
  function GravityStep(sqrt: real -> real): (seq<Body>, Pair) -> seq<Body> {
    (t: seq<Body>, p: Pair) => if 0 <= p.i < p.j < |t| && AllMassive(t) then VisitPair(t, p, sqrt) else t
  }

  /** The store after the solver has visited the pairs ps, in order. */
  function ApplyGravity(s: seq<Body>, ps: seq<Pair>, sqrt: real -> real): seq<Body> {
    Fold(s, ps, GravityStep(sqrt))
  }

  lemma StepVisits(t: seq<Body>, p: Pair, sqrt: real -> real)
    ensures GravityStep(sqrt)(t, p) == if 0 <= p.i < p.j < |t| && AllMassive(t) then VisitPair(t, p, sqrt) else t
  {
  }

  /** `r` is `s` with, at most, different acceleration accumulators. */
  predicate OnlyAccumulatorsDiffer(s: seq<Body>, r: seq<Body>) {
    |r| == |s| && forall k :: 0 <= k < |s| ==> r[k] == s[k].(ax := r[k].ax, ay := r[k].ay)
  }

  /**
   * The solver writes nothing but the accumulators: positions, velocities,
   * the past-step fields, mass, size and density of every body are kept.
   */
  lemma {:induction false} GravityTouchesOnlyAccumulators(s: seq<Body>, ps: seq<Pair>, sqrt: real -> real)
    ensures OnlyAccumulatorsDiffer(s, ApplyGravity(s, ps, sqrt))
    decreases |ps|
  {
    if ps != [] {
      var init, p := ps[..|ps| - 1], ps[|ps| - 1];
      GravityTouchesOnlyAccumulators(s, init, sqrt);
      var before := ApplyGravity(s, init, sqrt);
      var after := ApplyGravity(s, ps, sqrt);
      StepVisits(before, p, sqrt);
      forall k | 0 <= k < |s|
        ensures after[k] == s[k].(ax := after[k].ax, ay := after[k].ay)
      {
        assert after[k] == before[k].(ax := after[k].ax, ay := after[k].ay);
      }
    }
  }

  /** The solver keeps every mass, so a store it may divide by stays one. */
  lemma GravityKeepsMassive(s: seq<Body>, ps: seq<Pair>, sqrt: real -> real)
    requires AllMassive(s)
    ensures AllMassive(ApplyGravity(s, ps, sqrt))
  {
    GravityTouchesOnlyAccumulators(s, ps, sqrt);
    var r := ApplyGravity(s, ps, sqrt);
    forall k | 0 <= k < |r|
      ensures r[k].mass != 0.0
    {
      assert r[k].mass == s[k].mass;
    }
  }

  /** A store of at most one body has no pair, so the solver leaves it as it is. */
  lemma LoneBodyUntouched(s: seq<Body>, sqrt: real -> real)
    requires |s| <= 1
    ensures ApplyGravity(s, AllPairs(|s|), sqrt) == s
  {
    NoPairsForLoneBody(|s|);
  }

  /** Pulls depend on the positions and masses of the two bodies only. */
  lemma SamePlacesSamePull(b1: Body, b2: Body, c1: Body, c2: Body, sqrt: real -> real)
    requires Massive(b1, b2)
    requires b1.x == c1.x && b1.y == c1.y && b1.mass == c1.mass
    requires b2.x == c2.x && b2.y == c2.y && b2.mass == c2.mass
    ensures Massive(c1, c2) && PairPull(b1, b2, sqrt) == PairPull(c1, c2, sqrt)
  {
  }

  /** What body k receives from the visit of pair p, with the pull computed from the bodies of s. */
  function PullOn(s: seq<Body>, p: Pair, k: int, sqrt: real -> real): (real, real)
    requires 0 <= p.i < p.j < |s| && AllMassive(s)
  {
    var pull := PairPull(s[p.i], s[p.j], sqrt);
    if k == p.i then (pull.ax1, pull.ay1) else if k == p.j then (pull.ax2, pull.ay2) else (0.0, 0.0)
  }

  lemma InRangePrefix(ps: seq<Pair>, n: nat, m: nat)
    requires InRange(ps, n) && m <= |ps|
    ensures InRange(ps[..m], n)
  {
    assert forall k :: 0 <= k < m ==> ps[..m][k] == ps[k];
  }

  /** The sum of what body k receives from the visits of the pairs ps, each pull computed from s. */
  function Received(s: seq<Body>, ps: seq<Pair>, k: int, sqrt: real -> real): (real, real)
    requires InRange(ps, |s|) && AllMassive(s)
  {
    if ps == [] then (0.0, 0.0)
    else
      InRangePrefix(ps, |s|, |ps| - 1);
      var before, now := Received(s, ps[..|ps| - 1], k, sqrt), PullOn(s, ps[|ps| - 1], k, sqrt);
      (before.0 + now.0, before.1 + now.1)
  }

  /**
   * Contributions add up: after the pairs ps every accumulator holds its
   * initial value plus the sum of the pulls of the pairs that name its body,
   * each pull computed from the positions and masses at the start of the
   * pass (the solver never moves a body, so no later pull sees an earlier one).
   */
  lemma {:induction false} GravityAddsPulls(s: seq<Body>, ps: seq<Pair>, sqrt: real -> real)
    requires InRange(ps, |s|) && AllMassive(s)
    ensures var r := ApplyGravity(s, ps, sqrt);
      |r| == |s| && forall k :: 0 <= k < |s| ==>
        r[k].ax == s[k].ax + Received(s, ps, k, sqrt).0 && r[k].ay == s[k].ay + Received(s, ps, k, sqrt).1
    decreases |ps|
  {
    if ps != [] {
      var init, p := ps[..|ps| - 1], ps[|ps| - 1];
      InRangePrefix(ps, |s|, |ps| - 1);
      GravityAddsPulls(s, init, sqrt);
      GravityTouchesOnlyAccumulators(s, init, sqrt);
      GravityKeepsMassive(s, init, sqrt);
      var before := ApplyGravity(s, init, sqrt);
      var after := ApplyGravity(s, ps, sqrt);
      StepVisits(before, p, sqrt);
      assert after == VisitPair(before, p, sqrt);
      SamePlacesSamePull(before[p.i], before[p.j], s[p.i], s[p.j], sqrt);
      forall k | 0 <= k < |s|
        ensures after[k].ax == s[k].ax + Received(s, ps, k, sqrt).0
        ensures after[k].ay == s[k].ay + Received(s, ps, k, sqrt).1
      {
        assert after[k].ax == before[k].ax + PullOn(s, p, k, sqrt).0;
        assert after[k].ay == before[k].ay + PullOn(s, p, k, sqrt).1;
      }
    }
  }

  /** Equal and opposite momentum changes leave the sum of two bodies' quantities as it was. */
  lemma OppositeChangesCancel(m1: real, a1: real, d1: real, m2: real, a2: real, d2: real)
    requires m1 * d1 == -(m2 * d2)
    ensures m1 * (a1 + d1) + m2 * (a2 + d2) == m1 * a1 + m2 * a2
  {
  }

  /** Adding contributions that obey Newton's third law to two bodies keeps the store's total force. */
  lemma OpposedPullKeepsForce(t: seq<Body>, i: nat, j: nat, pull: Pull)
    requires i < j < |t|
    requires t[i].mass * pull.ax1 == -(t[j].mass * pull.ax2)
    requires t[i].mass * pull.ay1 == -(t[j].mass * pull.ay2)
    ensures var r := t[i := Accumulate(t[i], pull.ax1, pull.ay1)][j := Accumulate(t[j], pull.ax2, pull.ay2)];
      Total(r, ForceX) == Total(t, ForceX) && Total(r, ForceY) == Total(t, ForceY)
  {
    var c1, c2 := t[i], t[j];
    var b1 := Accumulate(c1, pull.ax1, pull.ay1);
    var b2 := Accumulate(c2, pull.ax2, pull.ay2);
    OppositeChangesCancel(c1.mass, c1.ax, pull.ax1, c2.mass, c2.ax, pull.ax2);
    OppositeChangesCancel(c1.mass, c1.ay, pull.ay1, c2.mass, c2.ay, pull.ay2);
    PairUpdateKeepsTotal(t, i, j, b1, b2, ForceX);
    PairUpdateKeepsTotal(t, i, j, b1, b2, ForceY);
  }

  /** One visit keeps the store's total force (mass times accumulator), by Newton's third law. */
  lemma VisitKeepsForce(t: seq<Body>, p: Pair, sqrt: real -> real)
    requires 0 <= p.i < p.j < |t| && AllMassive(t)
    ensures Total(VisitPair(t, p, sqrt), ForceX) == Total(t, ForceX)
    ensures Total(VisitPair(t, p, sqrt), ForceY) == Total(t, ForceY)
  {
    OpposedPullKeepsForce(t, p.i, p.j, PairPull(t[p.i], t[p.j], sqrt));
  }

  /** A whole pass adds no net force to the store: the total of mass times acceleration is kept. */
  lemma {:induction false} GravityConservesForce(s: seq<Body>, ps: seq<Pair>, sqrt: real -> real)
    ensures Total(ApplyGravity(s, ps, sqrt), ForceX) == Total(s, ForceX)
    ensures Total(ApplyGravity(s, ps, sqrt), ForceY) == Total(s, ForceY)
    decreases |ps|
  {
    if ps != [] {
      var init, p := ps[..|ps| - 1], ps[|ps| - 1];
      GravityConservesForce(s, init, sqrt);
      var before := ApplyGravity(s, init, sqrt);
      StepVisits(before, p, sqrt);
      if 0 <= p.i < p.j < |before| && AllMassive(before) {
        VisitKeepsForce(before, p, sqrt);
      }
    }
  }

  /** One iteration of the solver's inner loop: bodies i and j attract each other in place. */
  method AttractPair(bodies: array<Body>, i: int, j: int, sqrt: real -> real)
    requires 0 <= i < j < bodies.Length && AllMassive(bodies[..])
    modifies bodies
    ensures bodies[..] == VisitPair(old(bodies[..]), Pair(i, j), sqrt)
  {
    var body1, body2 := bodies[i], bodies[j];
    var distance := sqrt(Square(body2.x - body1.x) + Square(body2.y - body1.y));
    if distance < MIN_DISTANCE {
      distance := MIN_DISTANCE;
    }
    var pull := PullAt(body1.x, body1.y, body1.mass, body2.x, body2.y, body2.mass, distance);
    bodies[i] := Accumulate(body1, pull.ax1, pull.ay1);
    bodies[j] := Accumulate(body2, pull.ax2, pull.ay2);
  }

  /** The inner loop for row i: body i attracts every later body j in turn. */
  method AttractRow(bodies: array<Body>, i: nat, sqrt: real -> real)
    requires i < bodies.Length && AllMassive(bodies[..])
    modifies bodies
    ensures bodies[..] == RowPass(old(bodies[..]), i, bodies.Length, GravityStep(sqrt))
    ensures AllMassive(bodies[..])
  {
    ghost var t := bodies[..];
    for j := i + 1 to bodies.Length
      invariant bodies[..] == RowPass(t, i, j, GravityStep(sqrt))
      invariant AllMassive(bodies[..])
    {
      StepVisits(bodies[..], Pair(i, j), sqrt);
      AttractPair(bodies, i, j, sqrt);
    }
  }

  /** `compute_gravity_system`: the nested loop over i < j, updating the two bodies in place. */
  method ComputeGravity(bodies: array<Body>, sqrt: real -> real)
    requires AllMassive(bodies[..])
    modifies bodies
    ensures bodies[..] == ApplyGravity(old(bodies[..]), AllPairs(bodies.Length), sqrt)
  {
    ghost var s := bodies[..];
    for i := 0 to bodies.Length
      invariant bodies[..] == RowsPass(s, i, bodies.Length, GravityStep(sqrt))
      invariant AllMassive(bodies[..])
    {
      AttractRow(bodies, i, sqrt);
    }
    RowsPassVisitsPairs(s, bodies.Length, bodies.Length, GravityStep(sqrt));
  }
}
