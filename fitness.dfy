/** The example objective shipped with the optimizer: the Sphere function,
    negated so that the genetic algorithm, which maximizes, drives every gene
    towards 0. The algorithm itself takes any `seq<real> -> real` instead. */
module Fitness {

  function Square(x: real): real {
    x * x
  }

  /** A square is never negative, and positive away from 0. */
  lemma SquareSign(x: real)
    ensures Square(x) >= 0.0
    ensures x != 0.0 ==> Square(x) > 0.0
  {
    if x < 0.0 {
      SquareOfNegation(x);
      PositiveSquare(-x);
    } else if x > 0.0 {
      PositiveSquare(x);
    }
  }

  lemma PositiveSquare(a: real)
    requires a > 0.0
    ensures Square(a) > 0.0
  {
    calc {
      Square(a);
    ==
      a * a;
    >
      0.0;
    }
  }

  lemma SquareOfNegation(a: real)
    ensures Square(-a) == Square(a)
  {
  }

  /** `sum(x * x for x in ind)`, never negative. */
  function SumOfSquares(ind: seq<real>): (r: real)
    ensures r >= 0.0
  {
    if ind == [] then 0.0
    else
      SquareSign(ind[0]);
      Square(ind[0]) + SumOfSquares(ind[1..])
  }

  /** `fitness(ind)`: minus the sum of squares, never above 0. */
  function Sphere(ind: seq<real>): (r: real)
    ensures r <= 0.0
  {
    -SumOfSquares(ind)
  }

  /** The optimum 0 is reached exactly at the origin. */
  lemma {:induction false} SphereOptimum(ind: seq<real>)
    ensures Sphere(ind) == 0.0 <==> forall i :: 0 <= i < |ind| ==> ind[i] == 0.0
  {
    if ind != [] {
      SphereOptimum(ind[1..]);
      assert forall i :: 1 <= i < |ind| ==> ind[i] == ind[1..][i - 1];
      SquareSign(ind[0]);
    }
  }
}
