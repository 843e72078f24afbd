/**
 * The plane-vector arithmetic of the collision response, on plain reals:
 * `normalize`, the elastic impulse along a normal and the push that separates
 * two centres. Each operation is a named function so that the body-level
 * proofs only have to match applications; the facts about them are proved
 * here, one small identity at a time.
 */
module Algebra {

  function Square(v: real): real {
    v * v
  }

  /** `Vec2::length_squared` of (dx, dy). */
  function LengthSquared(dx: real, dy: real): real {
    dx * dx + dy * dy
  }

  predicate Unit(nx: real, ny: real) {
    LengthSquared(nx, ny) == 1.0
  }

  /** The momentum m·v of a mass m at speed v on one axis. */
  function Momentum(m: real, v: real): real {
    m * v
  }

  /** The component along n of the relative velocity u − w, `relative_velocity.dot(normal)`. */
  function RelativeNormal(u1: real, u2: real, w1: real, w2: real, n1: real, n2: real): real {
    (u1 - w1) * n1 + (u2 - w2) * n2
  }

  /** Twice the kinetic energy of two masses with velocities u and w. */
  function Energy(m1: real, u1: real, u2: real, m2: real, w1: real, w2: real): real {
    m1 * (u1 * u1 + u2 * u2) + m2 * (w1 * w1 + w2 * w2)
  }

  /** `normalize` of (dx, dy) whose length is d. */
  function Direction(dx: real, dy: real, d: real): (real, real)
    requires d != 0.0
  {
    (dx / d, dy / d)
  }

  /** `impulse_magnitude`: 2·((u − w)·n)/(m1 + m2). */
  function Magnitude(u1: real, u2: real, w1: real, w2: real, m1: real, m2: real, n1: real, n2: real): real
    requires m1 + m2 != 0.0
  {
    2.0 * RelativeNormal(u1, u2, w1, w2, n1, n2) / (m1 + m2)
  }

  /** The velocities (u1, u2, w1, w2) after the impulse k along n: u −= k·m2·n, w += k·m1·n. */
  function Exchange(u1: real, u2: real, w1: real, w2: real, m1: real, m2: real, n1: real, n2: real): (real, real, real, real)
    requires m1 + m2 != 0.0
  {
    var k := Magnitude(u1, u2, w1, w2, m1, m2, n1, n2);
    (u1 - k * m2 * n1, u2 - k * m2 * n2, w1 + k * m1 * n1, w2 + k * m1 * n2)
  }

  /** The centres (x1, y1, x2, y2) after `separation_vector = normal * overlap * 0.5` moves them apart. */
  function Push(x1: real, y1: real, x2: real, y2: real, n1: real, n2: real, overlap: real): (real, real, real, real) {
    var s1, s2 := n1 * overlap * 0.5, n2 * overlap * 0.5;
    (x1 - s1, y1 - s2, x2 + s1, y2 + s2)
  }

  lemma QuotientTimes(v: real, d: real)
    requires d > 0.0
    ensures (v / d) * d == v
  {
  }

  lemma ZeroFactor(a: real, q: real)
    requires q > 0.0 && a * q == 0.0
    ensures a == 0.0
  {
  }

  lemma ZeroSquareFactor(a: real, d: real)
    requires d > 0.0 && a * (d * d) == 0.0
    ensures a == 0.0
  {
    ZeroFactor(a * d, d);
    ZeroFactor(a, d);
  }

  lemma NormalDefect(nx: real, ny: real, dx: real, dy: real, d: real)
    requires dx == nx * d && dy == ny * d && d * d == dx * dx + dy * dy
    ensures (nx * nx + ny * ny - 1.0) * (d * d) == 0.0
  {
  }

  /** A vector (dx, dy) = d·n whose exact length is d > 0 has a unit direction n. */
  lemma UnitNormal(nx: real, ny: real, dx: real, dy: real, d: real)
    requires d > 0.0 && dx == nx * d && dy == ny * d && d * d == dx * dx + dy * dy
    ensures nx * nx + ny * ny == 1.0
  {
    NormalDefect(nx, ny, dx, dy, d);
    ZeroSquareFactor(nx * nx + ny * ny - 1.0, d);
  }

  /**
   * `normalize` of a vector whose exact length d is positive has length 1,
   * and scaling it back by d gives the vector.
   */
  lemma DirectionIsUnit(dx: real, dy: real, d: real)
    requires d > 0.0 && Square(d) == LengthSquared(dx, dy)
    ensures var n := Direction(dx, dy, d);
      && Unit(n.0, n.1)
      && n.0 * d == dx && n.1 * d == dy
  {
    QuotientTimes(dx, d);
    QuotientTimes(dy, d);
    UnitNormal(dx / d, dy / d, dx, dy, d);
  }

  /** A step h along a unit vector has squared length h². */
  lemma ScaledUnit(nx: real, ny: real, h: real)
    requires nx * nx + ny * ny == 1.0
    ensures (nx * h) * (nx * h) + (ny * h) * (ny * h) == h * h
  {
  }

  /** A gap d·n widened by twice half of the overlap along n becomes (d + overlap)·n. */
  lemma WidenedGap(dx: real, nx: real, d: real, overlap: real)
    requires dx == nx * d
    ensures dx + 2.0 * (nx * overlap * 0.5) == nx * (d + overlap)
  {
  }

  /**
   * Pushing two centres whose gap (dx, dy) has exact length d > 0 apart along
   * its direction by half the overlap each: each centre moves a distance
   * |overlap|/2, and the new gap has length |d + overlap|.
   */
  lemma PushSeparates(x1: real, y1: real, x2: real, y2: real, dx: real, dy: real, d: real, overlap: real)
    requires dx == x2 - x1 && dy == y2 - y1
    requires d > 0.0 && Square(d) == LengthSquared(dx, dy)
    ensures var n := Direction(dx, dy, d);
      var p := Push(x1, y1, x2, y2, n.0, n.1, overlap);
      && LengthSquared(p.0 - x1, p.1 - y1) == Square(overlap * 0.5)
      && LengthSquared(p.2 - p.0, p.3 - p.1) == Square(d + overlap)
  {
    DirectionIsUnit(dx, dy, d);
    var n := Direction(dx, dy, d);
    ScaledUnit(n.0, n.1, overlap * 0.5);
    ScaledUnit(n.0, n.1, d + overlap);
    WidenedGap(dx, n.0, d, overlap);
    WidenedGap(dy, n.1, d, overlap);
  }

  lemma NonzeroProduct(a: real, h: real)
    requires a != 0.0 && h > 0.0
    ensures a * h != 0.0
  {
  }

  /** A positive push along a unit vector moves the first centre. */
  lemma PushMoves(x1: real, y1: real, x2: real, y2: real, n1: real, n2: real, overlap: real)
    requires Unit(n1, n2) && overlap > 0.0
    ensures var p := Push(x1, y1, x2, y2, n1, n2, overlap);
      p.0 != x1 || p.1 != y1
  {
    if n1 != 0.0 {
      NonzeroProduct(n1, overlap * 0.5);
      assert n1 * overlap * 0.5 == n1 * (overlap * 0.5);
    } else {
      assert n2 != 0.0;
      NonzeroProduct(n2, overlap * 0.5);
      assert n2 * overlap * 0.5 == n2 * (overlap * 0.5);
    }
  }

  /** Opposite impulses k·m2·n and k·m1·n keep m1·u + m2·w on one axis. */
  lemma OppositeImpulses(m1: real, u: real, m2: real, w: real, k: real, n: real)
    ensures m1 * (u - k * m2 * n) + m2 * (w + k * m1 * n) == m1 * u + m2 * w
  {
    assert m1 * (k * m2 * n) == m2 * (k * m1 * n);
  }

  /** The impulse keeps the momentum m1·u + m2·w on both axes, for any normal. */
  lemma ExchangeKeepsMomentum(u1: real, u2: real, w1: real, w2: real, m1: real, m2: real, n1: real, n2: real)
    requires m1 + m2 != 0.0
    ensures var v := Exchange(u1, u2, w1, w2, m1, m2, n1, n2);
      && Momentum(m1, v.0) + Momentum(m2, v.2) == Momentum(m1, u1) + Momentum(m2, w1)
      && Momentum(m1, v.1) + Momentum(m2, v.3) == Momentum(m1, u2) + Momentum(m2, w2)
  {
    var k := Magnitude(u1, u2, w1, w2, m1, m2, n1, n2);
    OppositeImpulses(m1, u1, m2, w1, k, n1);
    OppositeImpulses(m1, u2, m2, w2, k, n2);
  }

  /** The magnitude k solves k·(m1 + m2) = 2·((u − w)·n). */
  lemma MagnitudeScaled(u1: real, u2: real, w1: real, w2: real, m1: real, m2: real, n1: real, n2: real)
    requires m1 + m2 != 0.0
    ensures Magnitude(u1, u2, w1, w2, m1, m2, n1, n2) * (m1 + m2) == 2.0 * ((u1 - w1) * n1 + (u2 - w2) * n2)
  {
  }

  lemma EnergyChange(u1: real, u2: real, w1: real, w2: real, m1: real, m2: real, n1: real, n2: real, k: real)
    ensures m1 * ((u1 - k * m2 * n1) * (u1 - k * m2 * n1) + (u2 - k * m2 * n2) * (u2 - k * m2 * n2))
          + m2 * ((w1 + k * m1 * n1) * (w1 + k * m1 * n1) + (w2 + k * m1 * n2) * (w2 + k * m1 * n2))
          - (m1 * (u1 * u1 + u2 * u2) + m2 * (w1 * w1 + w2 * w2))
         == k * m1 * m2 * (k * (m1 + m2) * (n1 * n1 + n2 * n2) - 2.0 * ((u1 - w1) * n1 + (u2 - w2) * n2))
  {
  }

  lemma NormalChange(u1: real, u2: real, w1: real, w2: real, m1: real, m2: real, n1: real, n2: real, k: real)
    ensures ((u1 - k * m2 * n1) - (w1 + k * m1 * n1)) * n1 + ((u2 - k * m2 * n2) - (w2 + k * m1 * n2)) * n2
         == ((u1 - w1) * n1 + (u2 - w2) * n2) - k * (m1 + m2) * (n1 * n1 + n2 * n2)
  {
  }

  lemma Vanishes(a: real, kk: real, nn: real, q: real)
    requires nn == 1.0 && kk == 2.0 * q
    ensures a * (kk * nn - 2.0 * q) == 0.0
  {
  }

  lemma Flips(kk: real, nn: real, q: real)
    requires nn == 1.0 && kk == 2.0 * q
    ensures q - kk * nn == -q
  {
  }

  /** An impulse k along a unit normal with k·(m1 + m2) = 2·((u − w)·n) keeps m1·|u|² + m2·|w|². */
  lemma KeepsEnergy(u1: real, u2: real, w1: real, w2: real, m1: real, m2: real, n1: real, n2: real, k: real)
    requires n1 * n1 + n2 * n2 == 1.0
    requires k * (m1 + m2) == 2.0 * ((u1 - w1) * n1 + (u2 - w2) * n2)
    ensures m1 * ((u1 - k * m2 * n1) * (u1 - k * m2 * n1) + (u2 - k * m2 * n2) * (u2 - k * m2 * n2))
          + m2 * ((w1 + k * m1 * n1) * (w1 + k * m1 * n1) + (w2 + k * m1 * n2) * (w2 + k * m1 * n2))
         == m1 * (u1 * u1 + u2 * u2) + m2 * (w1 * w1 + w2 * w2)
  {
    EnergyChange(u1, u2, w1, w2, m1, m2, n1, n2, k);
    Vanishes(k * m1 * m2, k * (m1 + m2), n1 * n1 + n2 * n2, (u1 - w1) * n1 + (u2 - w2) * n2);
  }

  /** The same impulse reverses the normal component of the relative velocity u − w. */
  lemma ReflectNormal(u1: real, u2: real, w1: real, w2: real, m1: real, m2: real, n1: real, n2: real, k: real)
    requires n1 * n1 + n2 * n2 == 1.0
    requires k * (m1 + m2) == 2.0 * ((u1 - w1) * n1 + (u2 - w2) * n2)
    ensures ((u1 - k * m2 * n1) - (w1 + k * m1 * n1)) * n1 + ((u2 - k * m2 * n2) - (w2 + k * m1 * n2)) * n2
         == -((u1 - w1) * n1 + (u2 - w2) * n2)
  {
    NormalChange(u1, u2, w1, w2, m1, m2, n1, n2, k);
    Flips(k * (m1 + m2), n1 * n1 + n2 * n2, (u1 - w1) * n1 + (u2 - w2) * n2);
  }

  /** Along a unit normal the impulse reverses the normal component of the relative velocity. */
  lemma ExchangeReflects(u1: real, u2: real, w1: real, w2: real, m1: real, m2: real, n1: real, n2: real)
    requires m1 + m2 != 0.0 && Unit(n1, n2)
    ensures var v := Exchange(u1, u2, w1, w2, m1, m2, n1, n2);
      RelativeNormal(v.0, v.1, v.2, v.3, n1, n2) == -RelativeNormal(u1, u2, w1, w2, n1, n2)
  {
    MagnitudeScaled(u1, u2, w1, w2, m1, m2, n1, n2);
    ReflectNormal(u1, u2, w1, w2, m1, m2, n1, n2, Magnitude(u1, u2, w1, w2, m1, m2, n1, n2));
  }

  /** Along a unit normal the impulse keeps the kinetic energy. */
  lemma ExchangeKeepsEnergy(u1: real, u2: real, w1: real, w2: real, m1: real, m2: real, n1: real, n2: real)
    requires m1 + m2 != 0.0 && Unit(n1, n2)
    ensures var v := Exchange(u1, u2, w1, w2, m1, m2, n1, n2);
      Energy(m1, v.0, v.1, m2, v.2, v.3) == Energy(m1, u1, u2, m2, w1, w2)
  {
    MagnitudeScaled(u1, u2, w1, w2, m1, m2, n1, n2);
    KeepsEnergy(u1, u2, w1, w2, m1, m2, n1, n2, Magnitude(u1, u2, w1, w2, m1, m2, n1, n2));
  }
}
