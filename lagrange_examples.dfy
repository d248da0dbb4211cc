/** Small inputs worked through the model: what the composed polynomial means for them. */
module LagrangeExamples {
  import opened Points
  import opened Polynomial
  import opened LagrangeForm

  /** One sample: L(0) has no factors and denominator 1, so the polynomial is the constant y_0 everywhere. */
  lemma SinglePointIsConstant(p: Point, x: real)
    ensures EvalSum(FormOf([p]), x) == Value(p.y)
  {
    var ts := FormOf([p]);
    assert Without([p], 0) == [];
    assert ts[0].basis == Basis([], 1.0);
    assert ts[1..] == [];
  }

  /** (0, 0) and (1, 1) give the line through them: the identity. */
  lemma TwoPointsGiveLine(x: real)
    ensures EvalSum(FormOf([Point(0.0, 0.0), Point(1.0, 1.0)]), x) == Value(x)
  {
    var ps := [Point(0.0, 0.0), Point(1.0, 1.0)];
    var ts := FormOf(ps);
    assert Without(ps, 0) == [ps[1]];
    assert Without(ps, 1) == [ps[0]];
    assert ts[0].basis == Basis([1.0], -1.0);
    assert ts[1].basis == Basis([0.0], 1.0);
    assert EvalSummand(ts[0], x) == Value(0.0);
    assert EvalSummand(ts[1], x) == Value(x) by {
      assert LinearProduct([0.0], x) == x;
    }
    assert ts[1..][0] == ts[1] && ts[1..][1..] == [];
    assert EvalSum(ts[1..], x) == Value(x);
  }

  function SquareSamples(): seq<Point>
  {
    [Point(0.0, 0.0), Point(1.0, 1.0), Point(2.0, 4.0)]
  }

  /** The summand y_i·L(i) for the samples of y = x², evaluated at x = 3. */
  lemma SquareSummandAtThree(i: int)
    requires 0 <= i < 3
    ensures EvalSummand(FormOf(SquareSamples())[i], 3.0) == Value([0.0, -3.0, 12.0][i])
  {
    var ps := SquareSamples();
    var ts := FormOf(ps);
    if i == 0 {
      assert Without(ps, 0) == [ps[1], ps[2]];
      assert ts[0] == Summand(0.0, Basis([1.0, 2.0], 2.0));
    } else if i == 1 {
      assert Without(ps, 1) == [ps[0], ps[2]];
      assert ts[1] == Summand(1.0, Basis([0.0, 2.0], -1.0));
      assert LinearProduct([0.0, 2.0], 3.0) == 3.0;
    } else {
      assert Without(ps, 2) == [ps[0], ps[1]];
      assert ts[2] == Summand(4.0, Basis([0.0, 1.0], 2.0));
      assert LinearProduct([0.0, 1.0], 3.0) == 6.0;
    }
  }

  /** The samples of y = x² at 0, 1 and 2 give a polynomial that is 9 at x = 3. */
  lemma ThreePointsGiveSquare()
    ensures EvalSum(FormOf(SquareSamples()), 3.0) == Value(9.0)
  {
    var ts := FormOf(SquareSamples());
    SquareSummandAtThree(0);
    SquareSummandAtThree(1);
    SquareSummandAtThree(2);
    var t2 := ts[1..][1..];
    assert t2[0] == ts[2] && t2[1..] == [];
    assert EvalSum(t2, 3.0) == Value(12.0);
    assert ts[1..][0] == ts[1];
    assert EvalSum(ts[1..], 3.0) == Value(9.0);
  }

  /** Two samples at x = 1 make every evaluation divide by zero. */
  lemma DuplicatePointsFail(x: real)
    ensures EvalSum(FormOf([Point(1.0, 1.0), Point(1.0, 2.0)]), x) == DivisionByZero
  {
    var ps := [Point(1.0, 1.0), Point(1.0, 2.0)];
    assert !DistinctX(ps) by {
      assert ps[0].x == ps[1].x;
    }
    DuplicateXDividesByZero(ps, x);
  }
}
