/**
 * The motion integrator `update_bodies` (src/main.rs): one pass over every body
 * that advances position and velocity from the acceleration accumulated on the
 * previous tick, then resets the accumulator.
 */
module Integrator {
  import opened Bodies

  /** The step multiplier is the frame time in seconds times this factor. */
  const TIME_SCALE: real := 400.0

  /** Position update: p + v·mult + ½·a·mult². */
  function Drift(p: real, v: real, a: real, mult: real): real {
    p + v * mult + 0.5 * a * (mult * mult)
  }

  /** Velocity update from the current and the stored acceleration: v + (a + pastA)·mult·½. */
  function Kick(v: real, a: real, pastA: real, mult: real): real {
    v + (a + pastA) * mult * 0.5
  }

  /**
   * The state of one body after one step with multiplier `mult`. The velocity
   * update mixes the unscaled accumulator with the stored, already scaled,
   * previous acceleration, exactly as the source does.
   */
  function Step(b: Body, mult: real): (r: Body)
    ensures SameMatter(r, b)
    ensures r.pastX == b.x && r.pastY == b.y
    ensures r.pastAx == b.ax * mult && r.pastAy == b.ay * mult
    ensures r.ax == 0.0 && r.ay == 0.0
  {
    b.(pastX := b.x, pastY := b.y,
       x := Drift(b.x, b.vx, b.ax, mult), y := Drift(b.y, b.vy, b.ay, mult),
       vx := Kick(b.vx, b.ax, b.pastAx, mult), vy := Kick(b.vy, b.ay, b.pastAy, mult),
       pastAx := b.ax * mult, pastAy := b.ay * mult,
       ax := 0.0, ay := 0.0)
  }

  /** The body of the loop of `update_bodies`, field by field in the source's order. */
  method AdvanceBody(b: Body, mult: real) returns (body: Body)
    ensures body == Step(b, mult)
  {
    body := b;
    body := body.(pastX := body.x, pastY := body.y);
    body := body.(x := Drift(body.x, body.vx, body.ax, mult));
    body := body.(y := Drift(body.y, body.vy, body.ay, mult));
    body := body.(vx := Kick(body.vx, body.ax, body.pastAx, mult));
    body := body.(vy := Kick(body.vy, body.ay, body.pastAy, mult));
    body := body.(pastAx := body.ax * mult, pastAy := body.ay * mult);
    body := body.(ax := 0.0, ay := 0.0);
  }

  /** `update_bodies`: every body is advanced by Step, in place. */
  method UpdateBodies(bodies: array<Body>, dt: real)
    modifies bodies
    ensures forall k :: 0 <= k < bodies.Length ==> bodies[k] == Step(old(bodies[k]), dt * TIME_SCALE)
  {
    var mult := dt * TIME_SCALE;
    for k := 0 to bodies.Length
      invariant forall m :: 0 <= m < k ==> bodies[m] == Step(old(bodies[m]), mult)
      invariant forall m :: k <= m < bodies.Length ==> bodies[m] == old(bodies[m])
    {
      var body := AdvanceBody(bodies[k], mult);
      bodies[k] := body;
    }
  }

  /** A zero time step moves no body and changes no velocity. */
  lemma ZeroStepKeepsMotion(b: Body)
    ensures var r := Step(b, 0.0); r.x == b.x && r.y == b.y && r.vx == b.vx && r.vy == b.vy
  {
  }

  lemma ZeroProduct(x: real, y: real)
    ensures x * y == 0.0 <==> x == 0.0 || y == 0.0
  {
  }

  /** `k` consecutive steps with the same multiplier. */
  function Steps(b: Body, mult: real, k: nat): Body {
    if k == 0 then b else Step(Steps(b, mult, k - 1), mult)
  }

  /** A body with no acceleration, now or stored, is unforced. */
  predicate Unforced(b: Body) {
    b.ax == 0.0 && b.ay == 0.0 && b.pastAx == 0.0 && b.pastAy == 0.0
  }

  lemma DriftWithoutAcceleration(p: real, v: real, mult: real)
    ensures Drift(p, v, 0.0, mult) == p + v * mult
  {
  }

  lemma OneMoreStride(c: real, mult: real, v: real)
    ensures c * mult * v + v * mult == (c + 1.0) * mult * v
  {
  }

  /**
   * A body that no other body pulls moves in a straight line at constant
   * velocity: after k steps it has travelled k·mult times its velocity.
   */
  lemma {:induction false} UnforcedBodyDrifts(b: Body, mult: real, k: nat)
    requires Unforced(b)
    ensures var r := Steps(b, mult, k);
      && Unforced(r)
      && r.vx == b.vx && r.vy == b.vy
      && r.x == b.x + (k as real) * mult * b.vx
      && r.y == b.y + (k as real) * mult * b.vy
  {
    if k > 0 {
      UnforcedBodyDrifts(b, mult, k - 1);
      var p := Steps(b, mult, k - 1);
      var c := (k - 1) as real;
      assert Steps(b, mult, k) == Step(p, mult);
      DriftWithoutAcceleration(p.x, p.vx, mult);
      DriftWithoutAcceleration(p.y, p.vy, mult);
      OneMoreStride(c, mult, b.vx);
      OneMoreStride(c, mult, b.vy);
    }
  }

  /**
   * Two steps around one gravity pass that leaves acceleration `a` on the body:
   * the second velocity increment is (a + mult·a0)·mult/2, where a0 is the
   * acceleration consumed by the first step. It agrees with the trapezoidal
   * (velocity Verlet) increment (a + a0)·mult/2 exactly when mult is 0 or 1 or a0 is 0.
   */
  lemma ScaledPastAcceleration(b: Body, mult: real, a: real)
    ensures var second := Step(Step(b, mult).(ax := a), mult);
      && second.vx == Step(b, mult).vx + (a + mult * b.ax) * mult * 0.5
      && (second.vx == Step(b, mult).vx + (a + b.ax) * mult * 0.5
          <==> mult == 0.0 || mult == 1.0 || b.ax == 0.0)
  {
    var first := Step(b, mult);
    var trapezoid := first.vx + (a + b.ax) * mult * 0.5;
    var actual := first.vx + (a + mult * b.ax) * mult * 0.5;
    assert actual - trapezoid == (mult - 1.0) * b.ax * mult * 0.5;
    ZeroProduct(mult - 1.0, b.ax * mult);
    ZeroProduct(b.ax, mult);
  }
}
