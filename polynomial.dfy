/** Polynomials in one variable as coefficient lists, lowest degree first. */
module Polynomial {

  /** c[0] + c[1]·x + c[2]·x² + …, by Horner's rule; the empty list is the zero polynomial. */
  function Eval(c: seq<real>, x: real): real
  {
    if c == [] then 0.0 else c[0] + x * Eval(c[1..], x)
  }

  /** Coefficient-wise sum. */
  function Add(a: seq<real>, b: seq<real>): (r: seq<real>)
    ensures |r| == if |a| < |b| then |b| else |a|
  {
    if a == [] then b
    else if b == [] then a
    else [a[0] + b[0]] + Add(a[1..], b[1..])
  }

  /** Adding a polynomial of lower degree keeps the leading coefficient. */
  lemma {:induction false} AddKeepsLeading(a: seq<real>, b: seq<real>)
    requires |b| < |a|
    ensures Add(a, b)[|a| - 1] == a[|a| - 1]
  {
    if b != [] {
      AddKeepsLeading(a[1..], b[1..]);
    }
  }

  /** Every coefficient multiplied by `k`. */
  function Scale(k: real, a: seq<real>): (r: seq<real>)
    ensures |r| == |a|
  {
    if a == [] then [] else [k * a[0]] + Scale(k, a[1..])
  }

  lemma {:induction false} ScaleAt(k: real, a: seq<real>, i: int)
    requires 0 <= i < |a|
    ensures Scale(k, a)[i] == k * a[i]
  {
    if i > 0 {
      ScaleAt(k, a[1..], i - 1);
    }
  }

  lemma {:induction false} EvalAdd(a: seq<real>, b: seq<real>, x: real)
    ensures Eval(Add(a, b), x) == Eval(a, x) + Eval(b, x)
  {
    if a != [] && b != [] {
      EvalAdd(a[1..], b[1..], x);
      assert Add(a, b)[1..] == Add(a[1..], b[1..]);
    }
  }

  lemma {:induction false} EvalScale(k: real, a: seq<real>, x: real)
    ensures Eval(Scale(k, a), x) == k * Eval(a, x)
  {
    if a != [] {
      EvalScale(k, a[1..], x);
      assert Scale(k, a)[1..] == Scale(k, a[1..]);
      calc {
        Eval(Scale(k, a), x);
        k * a[0] + x * (k * Eval(a[1..], x));
        k * (a[0] + x * Eval(a[1..], x));
      }
    }
  }

  /** Π over `rs` of (x − r), the value of the juxtaposed factors; the empty product is 1. */
  function LinearProduct(rs: seq<real>, x: real): real
  {
    if rs == [] then 1.0 else (x - rs[0]) * LinearProduct(rs[1..], x)
  }

  /** Over exact reals the product vanishes exactly at its roots. */
  lemma {:induction false} LinearProductZero(rs: seq<real>, x: real)
    ensures LinearProduct(rs, x) == 0.0 <==> x in rs
  {
    if rs != [] {
      LinearProductZero(rs[1..], x);
      assert x in rs <==> x == rs[0] || x in rs[1..];
      var a, b := x - rs[0], LinearProduct(rs[1..], x);
      if a != 0.0 && b != 0.0 {
        assert a * b != 0.0;
      }
    }
  }

  /** Coefficients of (x − r)·c(x). */
  function MulLinear(c: seq<real>, r: real): seq<real>
  {
    Add([0.0] + c, Scale(-r, c))
  }

  lemma EvalMulLinear(c: seq<real>, r: real, x: real)
    ensures Eval(MulLinear(c, r), x) == (x - r) * Eval(c, x)
  {
    EvalAdd([0.0] + c, Scale(-r, c), x);
    EvalScale(-r, c, x);
    assert ([0.0] + c)[1..] == c;
  }

  /** The expanded form of Π (x − r) over `rs`: a monic polynomial of degree |rs|. */
  function FromRoots(rs: seq<real>): (c: seq<real>)
    ensures |c| == |rs| + 1
    ensures c[|rs|] == 1.0
  {
    if rs == [] then [1.0]
    else
      var c' := FromRoots(rs[1..]);
      AddKeepsLeading([0.0] + c', Scale(-rs[0], c'));
      MulLinear(c', rs[0])
  }

  /** Expanding the factors does not change their value anywhere. */
  lemma {:induction false} EvalFromRoots(rs: seq<real>, x: real)
    ensures Eval(FromRoots(rs), x) == LinearProduct(rs, x)
  {
    if rs != [] {
      EvalFromRoots(rs[1..], x);
      EvalMulLinear(FromRoots(rs[1..]), rs[0], x);
    }
  }
}
