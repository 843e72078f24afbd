/**
 * The physical body record (src/body.rs) and its constructor.
 * Floats are exact reals; the colour field belongs to presentation and is omitted.
 */
module Bodies {

  /** std::f32::consts::PI, the exact value of the f32 constant. */
  const PI: real := 3.1415927410125732421875

  /** One circular body. Accelerations are per-tick accumulators; mass is derived once. */
  datatype Body = Body(
    pastAx: real, pastAy: real,
    pastX: real, pastY: real,
    x: real, y: real,
    ax: real, ay: real,
    vx: real, vy: real,
    mass: real,
    size: real,
    density: real)

  /** The fields no physics pass may write: mass, size and density. */
  predicate SameMatter(a: Body, b: Body) {
    a.mass == b.mass && a.size == b.size && a.density == b.density
  }

  /** Every body of `t` keeps the matter of the body at the same index of `s`. */
  predicate SameMatterAll(s: seq<Body>, t: seq<Body>) {
    |s| == |t| && forall k :: 0 <= k < |s| ==> SameMatter(s[k], t[k])
  }

  /** The accumulators a freshly built body starts with. */
  predicate Resting(b: Body) {
    b.ax == 0.0 && b.ay == 0.0 && b.pastAx == 0.0 && b.pastAy == 0.0 && b.pastX == 0.0 && b.pastY == 0.0
  }

  /** Mass of a sphere of radius `size` and the given density: (4/3)·π·size³·density. */
  function MassOf(size: real, density: real): (m: real)
    ensures size > 0.0 && density > 0.0 ==> m > 0.0
    ensures size == 0.0 || density == 0.0 ==> m == 0.0
    ensures size >= 1.0 && density >= 1.0 ==> m >= (4.0 / 3.0) * PI
  {
    var cube := size * size * size;
    assert size >= 1.0 ==> cube >= 1.0 by {
      if size >= 1.0 {
        assert size * size >= 1.0;
        assert cube == (size * size) * size;
      }
    }
    assert size > 0.0 ==> cube > 0.0 by {
      if size > 0.0 {
        assert size * size > 0.0;
      }
    }
    (4.0 / 3.0) * PI * cube * density
  }

  /** Body::new: stores the arguments, zeroes every accumulator and derives the mass. */
  function NewBody(x: real, y: real, vx: real, vy: real, density: real, size: real): (b: Body)
    ensures b.x == x && b.y == y && b.vx == vx && b.vy == vy
    ensures b.size == size && b.density == density
    ensures Resting(b)
    ensures b.mass == MassOf(size, density)
  {
    Body(0.0, 0.0, 0.0, 0.0, x, y, 0.0, 0.0, vx, vy, MassOf(size, density), size, density)
  }
}
