/** The search domain and the repair of individuals: per-dimension bounds,
    clamping a gene into its interval (`clamp_individual`) and drawing a fresh
    individual inside the box (`random_individual`). */
module Genes {
  import Rng

  /** The admissible interval of one dimension, `(lo, hi)`. */
  datatype Bound = Bound(lo: real, hi: real)

  type Bounds = seq<Bound>

  /** Every interval is non-empty. The source does not check this; the
      bounds invariant of the algorithm holds only under it. */
  predicate Ordered(bounds: Bounds) {
    forall i :: 0 <= i < |bounds| ==> bounds[i].lo <= bounds[i].hi
  }

  /** Gene `i` lies in `[lo_i, hi_i]` for every dimension `i` of `bounds`. */
  predicate WithinBounds(genes: seq<real>, bounds: Bounds) {
    && |bounds| <= |genes|
    && forall i :: 0 <= i < |bounds| ==> bounds[i].lo <= genes[i] <= bounds[i].hi
  }

  /** One step of `clamp_individual`: below `lo` becomes `lo`, otherwise
      above `hi` becomes `hi`. */
  function ClampGene(x: real, b: Bound): (r: real)
    ensures b.lo <= b.hi ==> b.lo <= r <= b.hi
    ensures b.lo <= x <= b.hi ==> r == x
    ensures x < b.lo ==> r == b.lo
    ensures b.lo <= x && b.hi < x ==> r == b.hi
  {
    if x < b.lo then b.lo else if x > b.hi then b.hi else x
  }

  /** The genes after `clamp_individual`: the first `|bounds|` genes are
      clamped, any further genes are left as they were. */
  function Clamp(genes: seq<real>, bounds: Bounds): seq<real>
    requires |bounds| <= |genes|
  {
    seq(|genes|, i requires 0 <= i < |genes| =>
      if i < |bounds| then ClampGene(genes[i], bounds[i]) else genes[i])
  }

  /** Clamping keeps the length and puts every gene inside its bounds. */
  lemma ClampWithinBounds(genes: seq<real>, bounds: Bounds)
    requires |bounds| <= |genes|
    requires Ordered(bounds)
    ensures |Clamp(genes, bounds)| == |genes|
    ensures WithinBounds(Clamp(genes, bounds), bounds)
  {
  }

  /** Genes already inside their bounds are left untouched. */
  lemma ClampKeepsAdmissible(genes: seq<real>, bounds: Bounds)
    requires WithinBounds(genes, bounds)
    ensures Clamp(genes, bounds) == genes
  {
  }

  /** Clamping twice is the same as clamping once. */
  lemma ClampIdempotent(genes: seq<real>, bounds: Bounds)
    requires |bounds| <= |genes|
    requires Ordered(bounds)
    ensures Clamp(Clamp(genes, bounds), bounds) == Clamp(genes, bounds)
  {
  }

  /** `clamp_individual(ind, bounds)`, in place. Python raises `IndexError`
      when `ind` is shorter than `bounds`. */
  method ClampIndividual(ind: array<real>, bounds: Bounds)
    requires |bounds| <= ind.Length
    modifies ind
    ensures ind[..] == Clamp(old(ind[..]), bounds)
  {
    for i := 0 to |bounds|
      invariant forall j :: 0 <= j < i ==> ind[j] == ClampGene(old(ind[j]), bounds[j])
      invariant forall j :: i <= j < ind.Length ==> ind[j] == old(ind[j])
    {
      if ind[i] < bounds[i].lo {
        ind[i] := bounds[i].lo;
      } else if ind[i] > bounds[i].hi {
        ind[i] := bounds[i].hi;
      }
    }
  }

  /** `random_individual(bounds)`: one `uniform(lo, hi)` draw per dimension,
      as a new list. */
  method RandomIndividual(bounds: Bounds) returns (ind: array<real>)
    ensures fresh(ind)
    ensures ind.Length == |bounds|
    ensures forall i :: 0 <= i < |bounds| ==> Rng.Between(ind[i], bounds[i].lo, bounds[i].hi)
  {
    ind := new real[|bounds|];
    for i := 0 to |bounds|
      invariant forall j :: 0 <= j < i ==> Rng.Between(ind[j], bounds[j].lo, bounds[j].hi)
    {
      ind[i] := Rng.Uniform(bounds[i].lo, bounds[i].hi);
    }
  }

  /** With ordered bounds a drawn individual is inside the box. */
  lemma DrawnWithinBounds(genes: seq<real>, bounds: Bounds)
    requires Ordered(bounds)
    requires |genes| == |bounds|
    requires forall i :: 0 <= i < |bounds| ==> Rng.Between(genes[i], bounds[i].lo, bounds[i].hi)
    ensures WithinBounds(genes, bounds)
  {
  }
}
