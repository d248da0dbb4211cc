/**
 * The structure behind the builder's text, and what it means.
 *
 * The text the builder concatenates is the rendering of a list of summands
 * ` + y * (L)`, where each basis term L is a run of juxtaposed factors
 * `(x - r)` followed by ` / ` and one number. This module names that
 * structure, renders it, and evaluates it over exact reals with the
 * juxtaposed factors read as a product.
 */
module LagrangeForm {
  import opened Points
  import opened Polynomial

  /** A basis term: the product of (x − r) over `roots`, divided by `denominator`. */
  datatype Basis = Basis(roots: seq<real>, denominator: real)

  /** One summand `weight · basis` of the composed polynomial. */
  datatype Summand = Summand(weight: real, basis: Basis)

  /** The result of evaluating the polynomial: a number, or a division by a zero denominator. */
  datatype Outcome = Value(v: real) | DivisionByZero

  /**
   * The basis term the builder writes for sample `n`: one factor per other
   * sample, in order, over the product of (x_n − x_j) for those samples.
   */
  function BasisOf(ps: seq<Point>, n: int): (b: Basis)
    requires 0 <= n < |ps|
    ensures |b.roots| == |ps| - 1
  {
    var others := Xs(Without(ps, n));
    Basis(others, LinearProduct(others, ps[n].x))
  }

  /** Every other sample's x is a root of L(n); x_n is one only when another sample shares it. */
  lemma BasisRoots(ps: seq<Point>, n: int)
    requires 0 <= n < |ps|
    ensures forall j :: 0 <= j < |ps| && j != n ==> ps[j].x in BasisOf(ps, n).roots
    ensures ps[n].x in BasisOf(ps, n).roots <==> exists j :: 0 <= j < |ps| && j != n && ps[j].x == ps[n].x
  {
    forall j | 0 <= j < |ps| && j != n
      ensures ps[j].x in BasisOf(ps, n).roots
    {
      OtherXs(ps, n, ps[j].x);
    }
    OtherXs(ps, n, ps[n].x);
  }

  /** The summands the builder writes, one per sample, in sample order. */
  function FormOf(ps: seq<Point>): seq<Summand>
  {
    seq(|ps|, i requires 0 <= i < |ps| => Summand(ps[i].y, BasisOf(ps, i)))
  }

  // Rendering: the exact text of each piece, with the number format `show` left abstract.

  function RenderRoots(show: real -> string, rs: seq<real>): string
  {
    if rs == [] then "" else "(x - " + show(rs[0]) + ")" + RenderRoots(show, rs[1..])
  }

  function RenderBasis(show: real -> string, b: Basis): string
  {
    RenderRoots(show, b.roots) + " / " + show(b.denominator)
  }

  function RenderSum(show: real -> string, ts: seq<Summand>): string
  {
    if ts == [] then ""
    else " + " + show(ts[0].weight) + " * (" + RenderBasis(show, ts[0].basis) + ")" + RenderSum(show, ts[1..])
  }

  // Meaning: juxtaposition is a product, ` / ` a real division, ` + ` a sum.

  function EvalBasis(b: Basis, x: real): Outcome
  {
    if b.denominator == 0.0 then DivisionByZero
    else Value(LinearProduct(b.roots, x) / b.denominator)
  }

  function EvalSummand(t: Summand, x: real): Outcome
  {
    match EvalBasis(t.basis, x)
    case Value(l) => Value(t.weight * l)
    case DivisionByZero => DivisionByZero
  }

  /** The sum of the summands at `x`; the empty sum is 0. */
  function EvalSum(ts: seq<Summand>, x: real): Outcome
  {
    if ts == [] then Value(0.0)
    else match (EvalSummand(ts[0], x), EvalSum(ts[1..], x))
      case (Value(head), Value(rest)) => Value(head + rest)
      case _ => DivisionByZero
  }

  /** No summand divides by zero. */
  predicate Defined(ts: seq<Summand>)
  {
    forall i :: 0 <= i < |ts| ==> ts[i].basis.denominator != 0.0
  }

  /** A sum fails, wherever it is evaluated, exactly when one of its denominators is zero. */
  lemma {:induction false} EvalSumFails(ts: seq<Summand>, x: real)
    ensures EvalSum(ts, x) == DivisionByZero <==> !Defined(ts)
  {
    if ts != [] {
      EvalSumFails(ts[1..], x);
      assert Defined(ts) <==> ts[0].basis.denominator != 0.0 && Defined(ts[1..]) by {
        if ts[0].basis.denominator != 0.0 && Defined(ts[1..]) {
          forall i | 0 < i < |ts| ensures ts[i].basis.denominator != 0.0 {
            assert ts[i] == ts[1..][i - 1];
          }
        }
      }
    }
  }

  /** The builder's denominators are all nonzero exactly when the samples have distinct x values. */
  lemma DefinedIffDistinct(ps: seq<Point>)
    ensures Defined(FormOf(ps)) <==> DistinctX(ps)
  {
    var ts := FormOf(ps);
    forall n | 0 <= n < |ps|
      ensures ts[n].basis.denominator == 0.0 <==> exists j :: 0 <= j < |ps| && j != n && ps[j].x == ps[n].x
    {
      BasisRoots(ps, n);
      LinearProductZero(ts[n].basis.roots, ps[n].x);
    }
    if !DistinctX(ps) {
      var i, j :| 0 <= i < |ps| && 0 <= j < |ps| && i != j && ps[i].x == ps[j].x;
      assert ts[i].basis.denominator == 0.0;
    }
  }

  /** Duplicate x values make the composed polynomial divide by zero at every x, and only they do. */
  lemma DuplicateXDividesByZero(ps: seq<Point>, x: real)
    ensures EvalSum(FormOf(ps), x) == DivisionByZero <==> !DistinctX(ps)
  {
    EvalSumFails(FormOf(ps), x);
    DefinedIffDistinct(ps);
  }

  /** The defining Lagrange property: L(n) is 1 at x_n and 0 at every other sample's x. */
  lemma BasisIsKronecker(ps: seq<Point>, n: int, k: int)
    requires DistinctX(ps)
    requires 0 <= n < |ps| && 0 <= k < |ps|
    ensures EvalBasis(BasisOf(ps, n), ps[k].x) == Value(if k == n then 1.0 else 0.0)
  {
    var b := BasisOf(ps, n);
    BasisRoots(ps, n);
    LinearProductZero(b.roots, ps[n].x);
    LinearProductZero(b.roots, ps[k].x);
  }

  /** A sum whose summands are all 0 at `x` except the one at position `k` adds up to that one. */
  lemma {:induction false} SumOfOneNonzero(ts: seq<Summand>, x: real, k: int, w: real)
    requires forall i :: 0 <= i < |ts| ==> EvalSummand(ts[i], x) == Value(if i == k then w else 0.0)
    ensures EvalSum(ts, x) == Value(if 0 <= k < |ts| then w else 0.0)
  {
    if ts != [] {
      forall i | 0 <= i < |ts| - 1
        ensures EvalSummand(ts[1..][i], x) == Value(if i == k - 1 then w else 0.0)
      {
        assert ts[1..][i] == ts[i + 1];
      }
      SumOfOneNonzero(ts[1..], x, k - 1, w);
    }
  }

  /** Interpolation: with distinct x values, Σ y_i·L(i) at x_k is y_k. */
  lemma Interpolates(ps: seq<Point>, k: int)
    requires DistinctX(ps)
    requires 0 <= k < |ps|
    ensures EvalSum(FormOf(ps), ps[k].x) == Value(ps[k].y)
  {
    var ts := FormOf(ps);
    forall i | 0 <= i < |ts|
      ensures EvalSummand(ts[i], ps[k].x) == Value(if i == k then ps[k].y else 0.0)
    {
      BasisIsKronecker(ps, i, k);
    }
    SumOfOneNonzero(ts, ps[k].x, k, ps[k].y);
  }

  // Degree: the same meaning as an expanded coefficient list.

  function BasisCoefficients(b: Basis): seq<real>
    requires b.denominator != 0.0
  {
    Scale(1.0 / b.denominator, FromRoots(b.roots))
  }

  lemma EvalBasisCoefficients(b: Basis, x: real)
    requires b.denominator != 0.0
    ensures EvalBasis(b, x) == Value(Eval(BasisCoefficients(b), x))
  {
    var k, p := 1.0 / b.denominator, LinearProduct(b.roots, x);
    assert Eval(BasisCoefficients(b), x) == k * p by {
      EvalScale(k, FromRoots(b.roots), x);
      EvalFromRoots(b.roots, x);
    }
    assert EvalBasis(b, x) == Value(k * p) by {
      assert p / b.denominator == (1.0 / b.denominator) * p;
    }
  }

  /** With distinct x values, L(n) is a polynomial of degree exactly len − 1. */
  lemma BasisDegree(ps: seq<Point>, n: int)
    requires DistinctX(ps)
    requires 0 <= n < |ps|
    ensures BasisOf(ps, n).denominator != 0.0
    ensures |BasisCoefficients(BasisOf(ps, n))| == |ps|
    ensures BasisCoefficients(BasisOf(ps, n))[|ps| - 1] != 0.0
    ensures forall x :: EvalBasis(BasisOf(ps, n), x) == Value(Eval(BasisCoefficients(BasisOf(ps, n)), x))
  {
    var b := BasisOf(ps, n);
    BasisRoots(ps, n);
    LinearProductZero(b.roots, ps[n].x);
    ScaleAt(1.0 / b.denominator, FromRoots(b.roots), |b.roots|);
    forall x ensures EvalBasis(b, x) == Value(Eval(BasisCoefficients(b), x)) {
      EvalBasisCoefficients(b, x);
    }
  }

  /** The expanded coefficients of a sum with no zero denominator. */
  function Coefficients(ts: seq<Summand>): seq<real>
    requires Defined(ts)
  {
    if ts == [] then []
    else Add(Scale(ts[0].weight, BasisCoefficients(ts[0].basis)), Coefficients(ts[1..]))
  }

  lemma EvalSummandCoefficients(t: Summand, x: real)
    requires t.basis.denominator != 0.0
    ensures EvalSummand(t, x) == Value(Eval(Scale(t.weight, BasisCoefficients(t.basis)), x))
  {
    EvalScale(t.weight, BasisCoefficients(t.basis), x);
    EvalBasisCoefficients(t.basis, x);
  }

  lemma {:induction false} EvalCoefficients(ts: seq<Summand>, x: real)
    requires Defined(ts)
    ensures EvalSum(ts, x) == Value(Eval(Coefficients(ts), x))
  {
    if ts != [] {
      var head, rest := Scale(ts[0].weight, BasisCoefficients(ts[0].basis)), Coefficients(ts[1..]);
      assert EvalSum(ts[1..], x) == Value(Eval(rest, x)) by {
        assert Defined(ts[1..]);
        EvalCoefficients(ts[1..], x);
      }
      assert EvalSummand(ts[0], x) == Value(Eval(head, x)) by {
        EvalSummandCoefficients(ts[0], x);
      }
      assert Eval(Coefficients(ts), x) == Eval(head, x) + Eval(rest, x) by {
        assert Coefficients(ts) == Add(head, rest);
        EvalAdd(head, rest, x);
      }
    }
  }

  lemma {:induction false} CoefficientsLength(ts: seq<Summand>, m: nat)
    requires Defined(ts)
    requires forall i :: 0 <= i < |ts| ==> |ts[i].basis.roots| < m
    ensures |Coefficients(ts)| <= m
  {
    if ts != [] {
      CoefficientsLength(ts[1..], m);
    }
  }

  /** With distinct x values the composed polynomial has degree at most len − 1. */
  lemma InterpolantDegree(ps: seq<Point>)
    requires DistinctX(ps)
    ensures Defined(FormOf(ps))
    ensures |Coefficients(FormOf(ps))| <= |ps|
    ensures forall x :: EvalSum(FormOf(ps), x) == Value(Eval(Coefficients(FormOf(ps)), x))
  {
    var ts := FormOf(ps);
    DefinedIffDistinct(ps);
    CoefficientsLength(ts, |ps|);
    forall x ensures EvalSum(ts, x) == Value(Eval(Coefficients(ts), x)) {
      EvalCoefficients(ts, x);
    }
  }
}
