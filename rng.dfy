/** The pseudo-random generator the genetic algorithm draws from (Python's
    `random` module). Each draw is a method whose callers see nothing but the
    range the library promises; the body picks an arbitrary value in that
    range, so every property proved about a caller holds for every value the
    generator could produce, whatever the seed. */
module Rng {

  /** `x` lies in the closed interval spanned by `a` and `b`, in either order
      (`uniform(a, b)` computes `a + (b - a) * random()`, which also works when
      `b < a`). */
  predicate Between(x: real, a: real, b: real) {
    (a <= x <= b) || (b <= x <= a)
  }

  /** `s` is what `random.sample(range(n), k)` can return: `k` distinct
      indices below `n`, in sample order. */
  predicate IsSample(s: seq<nat>, n: nat, k: nat) {
    && |s| == k
    && (forall i :: 0 <= i < |s| ==> s[i] < n)
    && (forall i, j :: 0 <= i < j < |s| ==> s[i] != s[j])
  }

  /** `random.random()`: a value in [0, 1). */
  method Random() returns (r: real)
    ensures 0.0 <= r < 1.0
  {
    r :| 0.0 <= r < 1.0;
  }

  /** `random.uniform(a, b)`: a value between `a` and `b`. */
  method Uniform(a: real, b: real) returns (r: real)
    ensures Between(r, a, b)
  {
    assert Between(a, a, b);
    r :| Between(r, a, b);
  }

  /** `random.gauss(mu, sigma)`: any real at all; nothing about the normal
      distribution is used. */
  method Gauss(mu: real, sigma: real) returns (r: real)
  {
    r :| true;
  }

  /** `random.sample(range(n), k)`; Python raises `ValueError` when `k > n`. */
  method Sample(n: nat, k: nat) returns (s: seq<nat>)
    requires k <= n
    ensures IsSample(s, n, k)
  {
    var first: seq<nat> := seq(k, i requires 0 <= i => i as nat);
    assert IsSample(first, n, k);
    s :| IsSample(s, n, k);
  }
}
