/**
 * The collision resolver `elastic_collision_system` (src/main.rs): when the
 * collision switch is on, every unordered pair i < j whose circles overlap
 * exchanges an impulse along the line of centres and is pushed apart by half
 * the overlap each. Unlike the gravity solver it moves bodies, so a later pair
 * sees the positions an earlier pair left behind.
 */
module Collision {
  import opened Wrappers
  import opened Bodies
  import opened Pairs
  import opened Totals
  import opened Algebra

  /** The resource `ElasticCollisionsEnabled`: the switch the editor toggles and the resolver reads. */
  class ElasticCollisionsEnabled {
    var enabled: bool

    /** The derived Default: collisions start switched off. */
    constructor ()
      ensures !enabled
    {
      enabled := false;
    }
  }

  /** `sqrt` is the exact square root at v. */
  predicate RootAt(sqrt: real -> real, v: real) {
    sqrt(v) >= 0.0 && Square(sqrt(v)) == v
  }

  /** `Vec2::length`, with the square root supplied by the caller. */
  function Length(dx: real, dy: real, sqrt: real -> real): real {
    sqrt(LengthSquared(dx, dy))
  }

  /** The length of the vector from body1's centre to body2's. */
  function CentreDistance(b1: Body, b2: Body, sqrt: real -> real): real {
    Length(b2.x - b1.x, b2.y - b1.y, sqrt)
  }

  /** `sqrt` is exact at the squared centre distance of b1 and b2. */
  predicate ExactGap(b1: Body, b2: Body, sqrt: real -> real) {
    RootAt(sqrt, LengthSquared(b2.x - b1.x, b2.y - b1.y))
  }

  /** The two circles overlap: their centre distance is below the sum of their radii. */
  predicate Overlap(b1: Body, b2: Body, sqrt: real -> real) {
    CentreDistance(b1, b2, sqrt) < b1.size + b2.size
  }

  /**
   * An overlapping pair whose response the source computes without NaN: the
   * centres are apart (`normalize` of the zero vector is NaN) and the masses do
   * not sum to zero (the impulse divides by that sum).
   */
  predicate Resolvable(b1: Body, b2: Body, sqrt: real -> real) {
    Overlap(b1, b2, sqrt) && CentreDistance(b1, b2, sqrt) != 0.0 && b1.mass + b2.mass != 0.0
  }

  /** `distance_vec.normalize()`: the gap vector divided by its length. */
  function Normal(b1: Body, b2: Body, sqrt: real -> real): (real, real)
    requires CentreDistance(b1, b2, sqrt) != 0.0
  {
    Direction(b2.x - b1.x, b2.y - b1.y, CentreDistance(b1, b2, sqrt))
  }

  /** The velocity update: the impulse along the normal n changes only v_x and v_y. */
  function Impulse(b1: Body, b2: Body, nx: real, ny: real): (Body, Body)
    requires b1.mass + b2.mass != 0.0
  {
    var v := Exchange(b1.vx, b1.vy, b2.vx, b2.vy, b1.mass, b2.mass, nx, ny);
    (b1.(vx := v.0, vy := v.1), b2.(vx := v.2, vy := v.3))
  }

  /** The position update: each centre moves along n by half the overlap, away from the other. */
  function Separate(b1: Body, b2: Body, nx: real, ny: real, overlap: real): (Body, Body) {
    var p := Push(b1.x, b1.y, b2.x, b2.y, nx, ny, overlap);
    (b1.(x := p.0, y := p.1), b2.(x := p.2, y := p.3))
  }

  /**
   * The response to a detected collision: the impulse along the normal, then
   * the separation by half of overlap = min_distance − distance each. Only
   * velocities and positions are written.
   */
  function Collide(b1: Body, b2: Body, sqrt: real -> real): (r: (Body, Body))
    requires Resolvable(b1, b2, sqrt)
    ensures SameMatter(r.0, b1) && SameMatter(r.1, b2)
    ensures r.0.ax == b1.ax && r.0.ay == b1.ay && r.1.ax == b2.ax && r.1.ay == b2.ay
  {
    var n := Normal(b1, b2, sqrt);
    var moved := Impulse(b1, b2, n.0, n.1);
    Separate(moved.0, moved.1, n.0, n.1, b1.size + b2.size - CentreDistance(b1, b2, sqrt))
  }

  /**
   * The loop body for one pair: unchanged unless the circles overlap. None
   * marks the inputs for which the source computes NaN.
   */
  function CollidePair(b1: Body, b2: Body, sqrt: real -> real): (r: Option<(Body, Body)>)
    ensures r.None? <==> Overlap(b1, b2, sqrt) && !Resolvable(b1, b2, sqrt)
    ensures r.Some? ==> SameMatter(r.value.0, b1) && SameMatter(r.value.1, b2)
  {
    if !Overlap(b1, b2, sqrt) then
      Some((b1, b2))
    else if !Resolvable(b1, b2, sqrt) then
      None
    else
      Some(Collide(b1, b2, sqrt))
  }

  /** The separation step moves positions only: a collision leaves the velocities the impulse gave. */
  lemma CollideVelocities(b1: Body, b2: Body, sqrt: real -> real)
    requires Resolvable(b1, b2, sqrt)
    ensures var (c1, c2) := Collide(b1, b2, sqrt);
      var n := Normal(b1, b2, sqrt);
      var (m1, m2) := Impulse(b1, b2, n.0, n.1);
      && c1.vx == m1.vx && c1.vy == m1.vy && c2.vx == m2.vx && c2.vy == m2.vy
  {
  }

  /** The impulse keeps the pair's momentum m1·v1 + m2·v2 on both axes, for any normal. */
  lemma ImpulseKeepsMomentum(b1: Body, b2: Body, nx: real, ny: real)
    requires b1.mass + b2.mass != 0.0
    ensures var (c1, c2) := Impulse(b1, b2, nx, ny);
      && MomentumX(c1) + MomentumX(c2) == MomentumX(b1) + MomentumX(b2)
      && MomentumY(c1) + MomentumY(c2) == MomentumY(b1) + MomentumY(b2)
  {
    ExchangeKeepsMomentum(b1.vx, b1.vy, b2.vx, b2.vy, b1.mass, b2.mass, nx, ny);
  }

  /** A collision keeps the pair's momentum m1·v1 + m2·v2 on both axes, whatever the square root. */
  lemma CollisionKeepsMomentum(b1: Body, b2: Body, sqrt: real -> real)
    requires Resolvable(b1, b2, sqrt)
    ensures var (c1, c2) := Collide(b1, b2, sqrt);
      && MomentumX(c1) + MomentumX(c2) == MomentumX(b1) + MomentumX(b2)
      && MomentumY(c1) + MomentumY(c2) == MomentumY(b1) + MomentumY(b2)
  {
    var n := Normal(b1, b2, sqrt);
    CollideVelocities(b1, b2, sqrt);
    ImpulseKeepsMomentum(b1, b2, n.0, n.1);
  }

  /** A collision moves the two by opposite vectors, so x1 + x2 and y1 + y2 are kept. */
  lemma CollisionKeepsPositionSum(b1: Body, b2: Body, sqrt: real -> real)
    requires Resolvable(b1, b2, sqrt)
    ensures var (c1, c2) := Collide(b1, b2, sqrt);
      && c1.x - b1.x == -(c2.x - b2.x) && c1.y - b1.y == -(c2.y - b2.y)
      && PositionX(c1) + PositionX(c2) == PositionX(b1) + PositionX(b2)
      && PositionY(c1) + PositionY(c2) == PositionY(b1) + PositionY(b2)
  {
  }

  /**
   * The normal of a colliding pair: with an exact root the centre distance d
   * is positive, the normal has length 1 and d times the normal is the gap
   * vector.
   */
  lemma NormalOf(b1: Body, b2: Body, sqrt: real -> real)
    requires ExactGap(b1, b2, sqrt) && Resolvable(b1, b2, sqrt)
    ensures var d := CentreDistance(b1, b2, sqrt);
      var n := Normal(b1, b2, sqrt);
      && d > 0.0 && Unit(n.0, n.1)
      && n.0 * d == b2.x - b1.x && n.1 * d == b2.y - b1.y
  {
    DirectionIsUnit(b2.x - b1.x, b2.y - b1.y, CentreDistance(b1, b2, sqrt));
  }

  /**
   * Separation by half the overlap: with an exact root, each body of a
   * colliding pair moves by a vector of length (min_distance − distance)/2,
   * and the two end up exactly touching, their new centre distance equal to
   * the sum of the radii.
   */
  lemma SeparationIsHalfOverlap(b1: Body, b2: Body, sqrt: real -> real)
    requires ExactGap(b1, b2, sqrt) && Resolvable(b1, b2, sqrt)
    ensures var (c1, c2) := Collide(b1, b2, sqrt);
      var overlap := b1.size + b2.size - CentreDistance(b1, b2, sqrt);
      && LengthSquared(c1.x - b1.x, c1.y - b1.y) == Square(overlap * 0.5)
      && LengthSquared(c2.x - c1.x, c2.y - c1.y) == Square(CentreDistance(b1, b2, sqrt) + overlap)
      && CentreDistance(b1, b2, sqrt) + overlap == b1.size + b2.size
  {
    var n := Normal(b1, b2, sqrt);
    var moved := Impulse(b1, b2, n.0, n.1);
    var d := CentreDistance(b1, b2, sqrt);
    PushSeparates(moved.0.x, moved.0.y, moved.1.x, moved.1.y, b2.x - b1.x, b2.y - b1.y, d, b1.size + b2.size - d);
  }

  /**
   * Along a unit normal the impulse is an elastic reflection: the component
   * of the relative velocity along the normal changes sign, and the kinetic
   * energy m1·|v1|² + m2·|v2|² is kept.
   */
  lemma ImpulseReflects(b1: Body, b2: Body, nx: real, ny: real)
    requires b1.mass + b2.mass != 0.0 && Unit(nx, ny)
    ensures var (c1, c2) := Impulse(b1, b2, nx, ny);
      && RelativeNormal(c1.vx, c1.vy, c2.vx, c2.vy, nx, ny) == -RelativeNormal(b1.vx, b1.vy, b2.vx, b2.vy, nx, ny)
      && Energy(c1.mass, c1.vx, c1.vy, c2.mass, c2.vx, c2.vy) == Energy(b1.mass, b1.vx, b1.vy, b2.mass, b2.vx, b2.vy)
  {
    ExchangeReflects(b1.vx, b1.vy, b2.vx, b2.vy, b1.mass, b2.mass, nx, ny);
    ExchangeKeepsEnergy(b1.vx, b1.vy, b2.vx, b2.vy, b1.mass, b2.mass, nx, ny);
  }

  /**
   * With an exact root a colliding pair is reflected: the relative velocity
   * along the line of centres changes sign and the kinetic energy is kept.
   * The source applies the impulse to every overlapping pair, whether the two
   * are approaching or already separating.
   */
  lemma CollisionReflects(b1: Body, b2: Body, sqrt: real -> real)
    requires ExactGap(b1, b2, sqrt) && Resolvable(b1, b2, sqrt)
    ensures var (c1, c2) := Collide(b1, b2, sqrt);
      var n := Normal(b1, b2, sqrt);
      && RelativeNormal(c1.vx, c1.vy, c2.vx, c2.vy, n.0, n.1) == -RelativeNormal(b1.vx, b1.vy, b2.vx, b2.vy, n.0, n.1)
      && Energy(c1.mass, c1.vx, c1.vy, c2.mass, c2.vx, c2.vy) == Energy(b1.mass, b1.vx, b1.vy, b2.mass, b2.vx, b2.vy)
  {
    NormalOf(b1, b2, sqrt);
    CollideVelocities(b1, b2, sqrt);
    var n := Normal(b1, b2, sqrt);
    ImpulseReflects(b1, b2, n.0, n.1);
  }

  /**
   * The gate: with an exact root, a pair is left exactly as it was if and only
   * if the two circles do not overlap; an overlapping pair is always moved
   * (or, at coincident centres, undefined).
   */
  lemma CollisionGate(b1: Body, b2: Body, sqrt: real -> real)
    requires ExactGap(b1, b2, sqrt)
    ensures CollidePair(b1, b2, sqrt) == Some((b1, b2)) <==> !Overlap(b1, b2, sqrt)
  {
    if Resolvable(b1, b2, sqrt) {
      NormalOf(b1, b2, sqrt);
      var n := Normal(b1, b2, sqrt);
      var moved := Impulse(b1, b2, n.0, n.1);
      PushMoves(moved.0.x, moved.0.y, moved.1.x, moved.1.y, n.0, n.1, b1.size + b2.size - CentreDistance(b1, b2, sqrt));
    }
  }

  /** Every defined outcome for one pair keeps matter, momentum sums and position sums. */
  lemma PairOutcomeKeeps(b1: Body, b2: Body, sqrt: real -> real)
    requires CollidePair(b1, b2, sqrt).Some?
    ensures var (c1, c2) := CollidePair(b1, b2, sqrt).value;
      && SameMatter(c1, b1) && SameMatter(c2, b2)
      && MomentumX(c1) + MomentumX(c2) == MomentumX(b1) + MomentumX(b2)
      && MomentumY(c1) + MomentumY(c2) == MomentumY(b1) + MomentumY(b2)
      && PositionX(c1) + PositionX(c2) == PositionX(b1) + PositionX(b2)
      && PositionY(c1) + PositionY(c2) == PositionY(b1) + PositionY(b2)
  {
    if Resolvable(b1, b2, sqrt) {
      CollisionKeepsMomentum(b1, b2, sqrt);
      CollisionKeepsPositionSum(b1, b2, sqrt);
    }
  }

  /** The store during a pass: Undefined once the source would have computed NaN. */
  datatype Pass = Undefined | Defined(store: seq<Body>)

  /** The resolver's step for one pair of the pass; Undefined stays Undefined. */
  function ResolvePair(o: Pass, p: Pair, sqrt: real -> real): Pass {
    if o.Undefined? then Undefined
    else if !(0 <= p.i < p.j < |o.store|) then o
    else
      var r := CollidePair(o.store[p.i], o.store[p.j], sqrt);
      if r.None? then Undefined else Defined(o.store[p.i := r.value.0][p.j := r.value.1])
  }

  /** ResolvePair as the step of a pass over pairs. */
  function CollisionStep(sqrt: real -> real): (Pass, Pair) -> Pass {
    (o: Pass, p: Pair) => ResolvePair(o, p, sqrt)
  }

  /** The store after the resolver has visited the pairs ps, in order, starting from s. */
  function ResolveCollisions(s: seq<Body>, ps: seq<Pair>, sqrt: real -> real): Pass {
    Fold(Defined(s), ps, CollisionStep(sqrt))
  }

  /** An undefined state stays undefined. */
  lemma UndefinedStays(sqrt: real -> real)
    ensures forall p :: CollisionStep(sqrt)(Undefined, p) == Undefined
  {
  }

  /** What a pass keeps of its starting store s: the matter of every body and the momentum and position totals. */
  predicate Conserved(s: seq<Body>, t: seq<Body>) {
    && SameMatterAll(t, s)
    && Total(t, MomentumX) == Total(s, MomentumX) && Total(t, MomentumY) == Total(s, MomentumY)
    && Total(t, PositionX) == Total(s, PositionX) && Total(t, PositionY) == Total(s, PositionY)
  }

  /** One defined step of the pass keeps what the pass keeps. */
  lemma StepConserves(s: seq<Body>, t: seq<Body>, p: Pair, sqrt: real -> real)
    requires Conserved(s, t) && CollisionStep(sqrt)(Defined(t), p).Defined?
    ensures Conserved(s, CollisionStep(sqrt)(Defined(t), p).store)
  {
    if 0 <= p.i < p.j < |t| {
      var r := CollidePair(t[p.i], t[p.j], sqrt).value;
      PairOutcomeKeeps(t[p.i], t[p.j], sqrt);
      PairUpdateKeepsTotal(t, p.i, p.j, r.0, r.1, MomentumX);
      PairUpdateKeepsTotal(t, p.i, p.j, r.0, r.1, MomentumY);
      PairUpdateKeepsTotal(t, p.i, p.j, r.0, r.1, PositionX);
      PairUpdateKeepsTotal(t, p.i, p.j, r.0, r.1, PositionY);
    }
  }

  /**
   * A defined pass keeps every body's mass, size and density, and the totals
   * of momentum and of position on both axes: each pair exchanges equal and
   * opposite changes.
   */
  lemma CollisionsConserve(s: seq<Body>, ps: seq<Pair>, sqrt: real -> real)
    requires ResolveCollisions(s, ps, sqrt).Defined?
    ensures |ResolveCollisions(s, ps, sqrt).store| == |s|
    ensures Conserved(s, ResolveCollisions(s, ps, sqrt).store)
  {
    var good := (o: Pass) => o.Undefined? || Conserved(s, o.store);
    forall o, p | good(o) ensures good(CollisionStep(sqrt)(o, p)) {
      if o.Defined? && CollisionStep(sqrt)(o, p).Defined? {
        StepConserves(s, o.store, p, sqrt);
      }
    }
    FoldPreserves(Defined(s), ps, CollisionStep(sqrt), good);
  }

  /** A store in which no two circles overlap is left exactly as it was by the whole pass. */
  lemma ApartStoreUntouched(s: seq<Body>, sqrt: real -> real)
    requires forall i, j :: 0 <= i < j < |s| ==> !Overlap(s[i], s[j], sqrt)
    ensures ResolveCollisions(s, AllPairs(|s|), sqrt) == Defined(s)
  {
    var ps := AllPairs(|s|);
    assert InRange(ps, |s|);
    forall k | 0 <= k < |ps| ensures CollisionStep(sqrt)(Defined(s), ps[k]) == Defined(s) {
      assert s[ps[k].i := s[ps[k].i]][ps[k].j := s[ps[k].j]] == s;
    }
    FoldFixed(Defined(s), ps, CollisionStep(sqrt));
  }

  /**
   * One iteration of the resolver's inner loop: bodies i and j collide in
   * place if they overlap, which is the resolver's step for the pair (i, j).
   */
  method CollideAt(bodies: array<Body>, i: int, j: int, sqrt: real -> real)
    requires 0 <= i < j < bodies.Length && ResolvePair(Defined(bodies[..]), Pair(i, j), sqrt).Defined?
    modifies bodies
    ensures Defined(bodies[..]) == ResolvePair(Defined(old(bodies[..])), Pair(i, j), sqrt)
  {
    ghost var before := bodies[..];
    var body1, body2 := bodies[i], bodies[j];
    var distance := CentreDistance(body1, body2, sqrt);
    var minDistance := body1.size + body2.size;
    if distance < minDistance {
      var normal := Normal(body1, body2, sqrt);
      var moved := Impulse(body1, body2, normal.0, normal.1);
      var separated := Separate(moved.0, moved.1, normal.0, normal.1, minDistance - distance);
      bodies[i] := separated.0;
      bodies[j] := separated.1;
    } else {
      assert before[i := body1][j := body2] == before;
    }
  }

  /** The inner loop for row i, on a store for which the whole row is defined. */
  method CollideRow(bodies: array<Body>, i: nat, sqrt: real -> real)
    requires i < bodies.Length && RowPass(Defined(bodies[..]), i, bodies.Length, CollisionStep(sqrt)).Defined?
    modifies bodies
    ensures Defined(bodies[..]) == RowPass(Defined(old(bodies[..])), i, bodies.Length, CollisionStep(sqrt))
  {
    ghost var t := bodies[..];
    UndefinedStays(sqrt);
    for j := i + 1 to bodies.Length
      invariant Defined(bodies[..]) == RowPass(Defined(t), i, j, CollisionStep(sqrt))
    {
      RowPassPrefixLive(Defined(t), i, j + 1, bodies.Length, CollisionStep(sqrt), Undefined);
      RowPassNext(Defined(t), i, j, CollisionStep(sqrt));
      CollideAt(bodies, i, j, sqrt);
    }
  }

  /** The nested loop over i < j, on a store for which the whole pass is defined. */
  method CollideAll(bodies: array<Body>, sqrt: real -> real)
    requires ResolveCollisions(bodies[..], AllPairs(bodies.Length), sqrt).Defined?
    modifies bodies
    ensures Defined(bodies[..]) == ResolveCollisions(old(bodies[..]), AllPairs(bodies.Length), sqrt)
  {
    ghost var s := bodies[..];
    UndefinedStays(sqrt);
    RowsPassVisitsPairs(Defined(s), bodies.Length, bodies.Length, CollisionStep(sqrt));
    for i := 0 to bodies.Length
      invariant Defined(bodies[..]) == RowsPass(Defined(s), i, bodies.Length, CollisionStep(sqrt))
    {
      RowsPassPrefixLive(Defined(s), i + 1, bodies.Length, bodies.Length, CollisionStep(sqrt), Undefined);
      RowsPassNext(Defined(s), i, bodies.Length, CollisionStep(sqrt));
      CollideRow(bodies, i, sqrt);
    }
  }

  /**
   * `elastic_collision_system`: nothing when the switch is off, otherwise the
   * nested loop over i < j. The store must be one for which the source stays
   * free of NaN (see CollidePair).
   */
  method ElasticCollisions(bodies: array<Body>, switch: ElasticCollisionsEnabled, sqrt: real -> real)
    requires switch.enabled ==> ResolveCollisions(bodies[..], AllPairs(bodies.Length), sqrt).Defined?
    modifies bodies
    ensures !switch.enabled ==> bodies[..] == old(bodies[..])
    ensures switch.enabled ==> Defined(bodies[..]) == ResolveCollisions(old(bodies[..]), AllPairs(bodies.Length), sqrt)
  {
    if !switch.enabled {
      return;
    }
    CollideAll(bodies, sqrt);
  }
}
