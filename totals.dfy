/** Sums of a per-body quantity over a body store: momentum, mass-weighted acceleration, position. */
module Totals {
  import opened Bodies
  import Algebra

  function Total(s: seq<Body>, f: Body -> real): real {
    if s == [] then 0.0 else Total(s[..|s| - 1], f) + f(s[|s| - 1])
  }

  /** Replacing one body changes the total by exactly that body's change. */
  lemma {:induction false} TotalUpdate(s: seq<Body>, k: nat, b: Body, f: Body -> real)
    requires k < |s|
    ensures Total(s[k := b], f) == Total(s, f) - f(s[k]) + f(b)
    decreases |s|
  {
    var last := |s| - 1;
    assert s[k := b][..last] == if k == last then s[..last] else s[..last][k := b];
    if k < last {
      TotalUpdate(s[..last], k, b, f);
    }
  }

  /** Replacing two distinct bodies whose combined quantity is unchanged keeps the total. */
  lemma PairUpdateKeepsTotal(s: seq<Body>, i: nat, j: nat, b1: Body, b2: Body, f: Body -> real)
    requires i < |s| && j < |s| && i != j
    requires f(b1) + f(b2) == f(s[i]) + f(s[j])
    ensures Total(s[i := b1][j := b2], f) == Total(s, f)
  {
    TotalUpdate(s, i, b1, f);
    TotalUpdate(s[i := b1], j, b2, f);
  }

  function MomentumX(b: Body): real { Algebra.Momentum(b.mass, b.vx) }
  function MomentumY(b: Body): real { Algebra.Momentum(b.mass, b.vy) }
  function ForceX(b: Body): real { b.mass * b.ax }
  function ForceY(b: Body): real { b.mass * b.ay }
  function PositionX(b: Body): real { b.x }
  function PositionY(b: Body): real { b.y }
}
