/**
 * The visiting order of the nested loops `for i in 0..n { for j in (i + 1)..n }`
 * shared by the gravity and collision passes (src/main.rs), as an explicit
 * sequence of index pairs.
 */
module Pairs {

  /** Indices of the two bodies a loop iteration visits; the Rust loop variables are usize. */
  datatype Pair = Pair(i: int, j: int)

  /** All pairs of `ps` name two distinct bodies of a store of `n`, lower index first. */
  predicate InRange(ps: seq<Pair>, n: nat) {
    forall k :: 0 <= k < |ps| ==> 0 <= ps[k].i < ps[k].j < n
  }

  /** The pairs (i, lo), (i, lo + 1), ..., (i, hi - 1): the inner loop run from lo up to hi. */
  function Row(i: int, lo: int, hi: int): (r: seq<Pair>)
    ensures |r| == if lo <= hi then hi - lo else 0
    ensures forall k :: 0 <= k < |r| ==> r[k] == Pair(i, lo + k)
    decreases hi - lo
  {
    if hi <= lo then [] else Row(i, lo, hi - 1) + [Pair(i, hi - 1)]
  }

  /** The pairs the outer loop has visited once rows 0..i-1 are complete. */
  function PairsBefore(i: nat, n: int): (r: seq<Pair>)
    ensures i <= n ==> InRange(r, n)
  {
    if i == 0 then [] else PairsBefore(i - 1, n) + Row(i - 1, i, n)
  }

  /** The full visiting order of a pass over `n` bodies. */
  function AllPairs(n: nat): seq<Pair> {
    PairsBefore(n, n)
  }

  /** How often the row (i, lo..hi-1) holds p: once if p lies in it, else never. */
  function RowHits(i: int, lo: int, hi: int, p: Pair): nat {
    if p.i == i && lo <= p.j < hi then 1 else 0
  }

  /** How often rows 0..i-1 of an n-body pass hold p. */
  function RowsHits(i: int, n: int, p: Pair): nat {
    if 0 <= p.i < i && p.i < p.j < n then 1 else 0
  }

  /** How many times the visiting order `ps` holds the pair `p`. */
  function Occurrences(ps: seq<Pair>, p: Pair): nat {
    if ps == [] then 0 else Occurrences(ps[..|ps| - 1], p) + (if ps[|ps| - 1] == p then 1 else 0)
  }

  lemma {:induction false} OccurrencesAppend(a: seq<Pair>, b: seq<Pair>, p: Pair)
    ensures Occurrences(a + b, p) == Occurrences(a, p) + Occurrences(b, p)
    decreases |b|
  {
    if b != [] {
      var init := b[..|b| - 1];
      OccurrencesAppend(a, init, p);
      assert (a + b)[..|a + b| - 1] == a + init;
      assert (a + b)[|a + b| - 1] == b[|b| - 1];
      assert Occurrences(a + b, p) == Occurrences(a + init, p) + (if b[|b| - 1] == p then 1 else 0);
    } else {
      assert a + b == a;
    }
  }

  /** Occurrences is the multiplicity of the multiset of the sequence. */
  lemma {:induction false} OccurrencesIsMultiplicity(ps: seq<Pair>, p: Pair)
    ensures Occurrences(ps, p) == multiset(ps)[p]
    decreases |ps|
  {
    if ps != [] {
      var init := ps[..|ps| - 1];
      OccurrencesIsMultiplicity(init, p);
      assert ps == init + [ps[|ps| - 1]];
      assert multiset(ps) == multiset(init) + multiset{ps[|ps| - 1]};
    }
  }

  /** Rows 0..i-1 hold p exactly as often as rows 0..i-2 and row i-1 together. */
  lemma RowsHitsSplit(i: nat, n: int, p: Pair)
    requires 0 < i <= n
    ensures RowsHits(i, n, p) == RowsHits(i - 1, n, p) + RowHits(i - 1, i, n, p)
  {
  }

  /** Row lo..hi holds p as often as row lo..hi-1 and the single pair (i, hi - 1) together. */
  lemma RowHitsSplit(i: int, lo: int, hi: int, p: Pair)
    requires lo < hi
    ensures RowHits(i, lo, hi, p) == RowHits(i, lo, hi - 1, p) + (if Pair(i, hi - 1) == p then 1 else 0)
  {
  }

  lemma {:induction false} RowCount(i: int, lo: int, hi: int, p: Pair)
    ensures Occurrences(Row(i, lo, hi), p) == RowHits(i, lo, hi, p)
    decreases hi - lo
  {
    if lo < hi {
      var last := Pair(i, hi - 1);
      RowCount(i, lo, hi - 1, p);
      OccurrencesAppend(Row(i, lo, hi - 1), [last], p);
      assert [last][..0] == [];
      RowHitsSplit(i, lo, hi, p);
    }
  }

  /** Counts add up over a concatenation. */
  lemma CountsJoin(before: seq<Pair>, row: seq<Pair>, all: seq<Pair>, p: Pair, a: nat, b: nat)
    requires all == before + row && Occurrences(before, p) == a && Occurrences(row, p) == b
    ensures Occurrences(all, p) == a + b
  {
    OccurrencesAppend(before, row, p);
  }

  lemma {:induction false} PairsBeforeCount(i: nat, n: int, p: Pair)
    requires i <= n
    ensures Occurrences(PairsBefore(i, n), p) == RowsHits(i, n, p)
  {
    if i > 0 {
      PairsBeforeCount(i - 1, n, p);
      RowCount(i - 1, i, n, p);
      CountsJoin(PairsBefore(i - 1, n), Row(i - 1, i, n), PairsBefore(i, n), p, RowsHits(i - 1, n, p), RowHits(i - 1, i, n, p));
      RowsHitsSplit(i, n, p);
    }
  }

  /**
   * Each unordered pair i < j of an n-body store is visited exactly once,
   * and no body is ever paired with itself.
   */
  lemma AllPairsExactlyOnce(n: nat, p: Pair)
    ensures multiset(AllPairs(n))[p] == if 0 <= p.i < p.j < n then 1 else 0
    ensures p.i == p.j ==> p !in AllPairs(n)
  {
    PairsBeforeCount(n, n, p);
    OccurrencesIsMultiplicity(AllPairs(n), p);
  }

  lemma TriangleStep(i: int, n: int)
    ensures (i - 1) * (2 * n - i) + 2 * (n - i) == i * (2 * n - i - 1)
  {
  }

  lemma {:induction false} PairsBeforeLength(i: nat, n: nat)
    requires i <= n
    ensures 2 * |PairsBefore(i, n)| == i * (2 * n - i - 1)
  {
    if i > 0 {
      PairsBeforeLength(i - 1, n);
      assert |PairsBefore(i, n)| == |PairsBefore(i - 1, n)| + (n - i);
      TriangleStep(i, n);
    }
  }

  /** A pass over n bodies performs n·(n−1)/2 pair visits. */
  lemma AllPairsLength(n: nat)
    ensures 2 * |AllPairs(n)| == n * (n - 1)
  {
    PairsBeforeLength(n, n);
  }

  /** A store of at most one body has no pair to visit. */
  lemma NoPairsForLoneBody(n: nat)
    requires n <= 1
    ensures AllPairs(n) == []
  {
    AllPairsLength(n);
  }

  /**
   * The state reached from `s` when the loop body `step` runs once for each
   * pair of `ps`, in order.
   */
  function Fold<T>(s: T, ps: seq<Pair>, step: (T, Pair) -> T): T {
    if ps == [] then s else step(Fold(s, ps[..|ps| - 1], step), ps[|ps| - 1])
  }

  /** Running the pairs ps and then p is running ps + [p]. */
  lemma FoldSnoc<T>(s: T, ps: seq<Pair>, p: Pair, step: (T, Pair) -> T)
    ensures Fold(s, ps + [p], step) == step(Fold(s, ps, step), p)
  {
    assert (ps + [p])[..|ps|] == ps;
  }

  /** Running the pairs a and then the pairs b is running a + b. */
  lemma {:induction false} FoldAppend<T>(s: T, a: seq<Pair>, b: seq<Pair>, step: (T, Pair) -> T)
    ensures Fold(s, a + b, step) == Fold(Fold(s, a, step), b, step)
    decreases |b|
  {
    if b == [] {
      assert a + b == a;
    } else {
      var init, last := b[..|b| - 1], b[|b| - 1];
      assert b == init + [last];
      assert a + b == (a + init) + [last];
      FoldAppend(s, a, init, step);
      FoldSnoc(s, a + init, last, step);
      FoldSnoc(Fold(s, a, step), init, last, step);
    }
  }

  /** A state that every visited step leaves alone is the result of the whole run. */
  lemma {:induction false} FoldFixed<T>(z: T, ps: seq<Pair>, step: (T, Pair) -> T)
    requires forall k :: 0 <= k < |ps| ==> step(z, ps[k]) == z
    ensures Fold(z, ps, step) == z
  {
    if ps != [] {
      FoldFixed(z, ps[..|ps| - 1], step);
    }
  }

  /** A property of states that every step keeps holds after any run that starts in it. */
  lemma {:induction false} FoldPreserves<T>(s: T, ps: seq<Pair>, step: (T, Pair) -> T, good: T -> bool)
    requires good(s)
    requires forall t, p :: good(t) ==> good(step(t, p))
    ensures good(Fold(s, ps, step))
  {
    if ps != [] {
      FoldPreserves(s, ps[..|ps| - 1], step, good);
    }
  }

  /**
   * The state once the inner loop of row i has run for j' = i+1 .. j-1,
   * starting from t: the loop as the source writes it, counter by counter.
   */
  function RowPass<T>(t: T, i: int, j: int, step: (T, Pair) -> T): T
    decreases j - i
  {
    if j <= i + 1 then t else step(RowPass(t, i, j - 1, step), Pair(i, j - 1))
  }

  /** One more iteration of the inner loop of row i applies the step to the pair (i, j). */
  lemma RowPassNext<T>(t: T, i: int, j: int, step: (T, Pair) -> T)
    requires i + 1 <= j
    ensures RowPass(t, i, j + 1, step) == step(RowPass(t, i, j, step), Pair(i, j))
  {
  }

  /** The inner loop of row i, which starts at lo = i + 1, runs exactly the row (i, lo) .. (i, j-1). */
  lemma {:induction false} RowPassVisitsRow<T>(t: T, i: int, lo: int, j: int, step: (T, Pair) -> T)
    requires lo == i + 1
    ensures RowPass(t, i, j, step) == Fold(t, Row(i, lo, j), step)
    decreases j - i
  {
    if j > lo {
      RowPassVisitsRow(t, i, lo, j - 1, step);
      var row := Row(i, lo, j - 1);
      assert Row(i, lo, j) == row + [Pair(i, j - 1)];
      FoldSnoc(t, row, Pair(i, j - 1), step);
    }
  }

  /** The state once the outer loop over n bodies has completed rows 0..i-1. */
  function RowsPass<T>(s: T, i: nat, n: int, step: (T, Pair) -> T): T {
    if i == 0 then s else RowPass(RowsPass(s, i - 1, n, step), i - 1, n, step)
  }

  /** One more iteration of the outer loop runs row i. */
  lemma RowsPassNext<T>(s: T, i: nat, n: int, step: (T, Pair) -> T)
    ensures RowsPass(s, i + 1, n, step) == RowPass(RowsPass(s, i, n, step), i, n, step)
  {
  }

  /** A state reached by running `before` and then `row` is the one reached by running all = before + row. */
  lemma FoldJoin<T>(s: T, before: seq<Pair>, row: seq<Pair>, all: seq<Pair>, mid: T, after: T, step: (T, Pair) -> T)
    requires all == before + row
    requires mid == Fold(s, before, step)
    requires after == Fold(mid, row, step)
    ensures after == Fold(s, all, step)
  {
    FoldAppend(s, before, row, step);
  }

  /** Completing rows 0..i-1 runs exactly the pairs of those rows, in loop order. */
  lemma {:induction false} RowsPassVisitsPairs<T>(s: T, i: nat, n: int, step: (T, Pair) -> T)
    ensures RowsPass(s, i, n, step) == Fold(s, PairsBefore(i, n), step)
  {
    if i > 0 {
      var done := RowsPass(s, i - 1, n, step);
      RowsPassVisitsPairs(s, i - 1, n, step);
      RowPassVisitsRow(done, i - 1, i, n, step);
      FoldJoin(s, PairsBefore(i - 1, n), Row(i - 1, i, n), PairsBefore(i, n), done, RowsPass(s, i, n, step), step);
    }
  }

  /** A state that every step leaves alone stays through a whole inner loop. */
  lemma {:induction false} RowPassFromFixed<T>(z: T, i: int, j: int, step: (T, Pair) -> T)
    requires forall p :: step(z, p) == z
    ensures RowPass(z, i, j, step) == z
    decreases j - i
  {
    if j > i + 1 {
      RowPassFromFixed(z, i, j - 1, step);
    }
  }

  /**
   * For a step that never leaves a sink state, an inner loop that ends away
   * from the sink is away from it at every earlier counter value.
   */
  lemma {:induction false} RowPassPrefixLive<T>(o: T, i: int, j: int, k: int, step: (T, Pair) -> T, sink: T)
    requires forall p :: step(sink, p) == sink
    requires i < j <= k && RowPass(o, i, k, step) != sink
    ensures RowPass(o, i, j, step) != sink
    decreases k - j
  {
    if j < k {
      assert RowPass(o, i, k - 1, step) != sink;
      RowPassPrefixLive(o, i, j, k - 1, step, sink);
    }
  }

  /** Likewise an outer loop that ends away from the sink is away from it after every earlier row. */
  lemma {:induction false} RowsPassPrefixLive<T>(o: T, i: nat, k: nat, n: int, step: (T, Pair) -> T, sink: T)
    requires forall p :: step(sink, p) == sink
    requires i <= k && RowsPass(o, k, n, step) != sink
    ensures RowsPass(o, i, n, step) != sink
    decreases k - i
  {
    if i < k {
      if RowsPass(o, k - 1, n, step) == sink {
        RowPassFromFixed(sink, k - 1, n, step);
      }
      RowsPassPrefixLive(o, i, k - 1, n, step, sink);
    }
  }
}
