/**
 * The string the builder hands to the computer-algebra library, reproduced
 * character for character: the three `reduce` folds of the POST handler,
 * each proved equal to the rendering of the structured form it writes.
 *
 * The number-to-text conversion of the runtime is the parameter `show`.
 */
module LagrangeText {
  import opened Points
  import opened Polynomial
  import opened LagrangeForm

  /**
   * The denominator fold: starting from `acc`, multiply by (x_n − x_j) for
   * each remaining point, left to right. From 1 it is the product over the
   * remaining points.
   */
  function DenominatorFold(xn: real, others: seq<Point>, acc: real): (r: real)
    ensures r == acc * LinearProduct(Xs(others), xn)
  {
    if others == [] then acc
    else DenominatorFold(xn, others[1..], acc * (xn - others[0].x))
  }

  /**
   * The numerator fold: starting from `acc`, append `(x - x_j)` for each
   * remaining point, with nothing between two factors.
   */
  function NumeratorFold(show: real -> string, others: seq<Point>, acc: string): (r: string)
    ensures r == acc + RenderRoots(show, Xs(others))
  {
    if others == [] then acc
    else NumeratorFold(show, others[1..], acc + "(x - " + show(others[0].x) + ")")
  }

  /** The text of the basis term L(n): numerator, ` / `, denominator. */
  function LnText(show: real -> string, n: int, ps: seq<Point>): (r: string)
    requires 0 <= n < |ps|
    ensures r == RenderBasis(show, BasisOf(ps, n))
  {
    var others := Without(ps, n);
    var denominator := DenominatorFold(ps[n].x, others, 1.0);
    var numerator := NumeratorFold(show, others, "");
    numerator + " / " + show(denominator)
  }

  /**
   * The outer fold from sample `i` on: append ` + y_i * (L(i))` for every
   * remaining sample, in order.
   */
  function ComposedFold(show: real -> string, ps: seq<Point>, i: nat, acc: string): (r: string)
    requires i <= |ps|
    ensures r == acc + RenderSum(show, FormOf(ps)[i..])
    decreases |ps| - i
  {
    if i == |ps| then
      assert FormOf(ps)[i..] == [];
      acc
    else
      var term := " + " + show(ps[i].y) + " * (" + LnText(show, i, ps) + ")";
      RenderSumStep(show, ps, i);
      assert (acc + term) + RenderSum(show, FormOf(ps)[i + 1..])
          == acc + (term + RenderSum(show, FormOf(ps)[i + 1..]));
      ComposedFold(show, ps, i + 1, acc + term)
  }

  lemma RenderSumStep(show: real -> string, ps: seq<Point>, i: nat)
    requires i < |ps|
    ensures RenderSum(show, FormOf(ps)[i..])
            == " + " + show(ps[i].y) + " * (" + RenderBasis(show, BasisOf(ps, i)) + ")" + RenderSum(show, FormOf(ps)[i + 1..])
  {
    var ts := FormOf(ps)[i..];
    assert ts[0] == Summand(ps[i].y, BasisOf(ps, i));
    assert ts[1..] == FormOf(ps)[i + 1..];
  }

  /**
   * The composed polynomial text, before simplification: the outer fold from
   * sample 0 and the empty string. It is exactly the rendering of one summand
   * y_i·L(i) per sample, in sample order.
   */
  function Composed(show: real -> string, ps: seq<Point>): (r: string)
    ensures r == RenderSum(show, FormOf(ps))
  {
    assert FormOf(ps)[0..] == FormOf(ps);
    ComposedFold(show, ps, 0, "")
  }

  /** The text denominator of L(n) is zero exactly when another sample shares x_n. */
  lemma DenominatorZeroIffDuplicate(ps: seq<Point>, n: int)
    requires 0 <= n < |ps|
    ensures DenominatorFold(ps[n].x, Without(ps, n), 1.0) == 0.0
            <==> exists j :: 0 <= j < |ps| && j != n && ps[j].x == ps[n].x
  {
    LinearProductZero(Xs(Without(ps, n)), ps[n].x);
    OtherXs(ps, n, ps[n].x);
  }

  /** With pairwise distinct x values no denominator is zero. */
  lemma DistinctDenominatorsNonzero(ps: seq<Point>, n: int)
    requires DistinctX(ps)
    requires 0 <= n < |ps|
    ensures DenominatorFold(ps[n].x, Without(ps, n), 1.0) != 0.0
  {
    DenominatorZeroIffDuplicate(ps, n);
  }

  /** One sample: no factors, so L(0) is ` / ` followed by the empty product 1. */
  lemma SinglePointText(show: real -> string, p: Point)
    ensures DenominatorFold(p.x, Without([p], 0), 1.0) == 1.0
    ensures NumeratorFold(show, Without([p], 0), "") == ""
    ensures LnText(show, 0, [p]) == " / " + show(1.0)
    ensures Composed(show, [p]) == " + " + show(p.y) + " * ( / " + show(1.0) + ")"
  {
    assert Without([p], 0) == [];
  }

  /** No samples, no text. */
  lemma EmptyInputText(show: real -> string)
    ensures Composed(show, []) == ""
  {
  }

  /** Any nonempty input produces text that begins with ` + `. */
  lemma ComposedLeadingPlus(show: real -> string, ps: seq<Point>)
    requires ps != []
    ensures |Composed(show, ps)| >= 3 && Composed(show, ps)[..3] == " + "
  {
  }

  /** Occurrences of `c` in `s`. */
  function Count(c: char, s: string): nat
  {
    if s == [] then 0 else (if s[0] == c then 1 else 0) + Count(c, s[1..])
  }

  lemma {:induction false} CountConcat(c: char, a: string, b: string)
    ensures Count(c, a + b) == Count(c, a) + Count(c, b)
  {
    if a == [] {
      assert a + b == b;
    } else {
      assert (a + b)[0] == a[0];
      assert (a + b)[1..] == a[1..] + b;
      CountConcat(c, a[1..], b);
    }
  }

  lemma {:induction false} CountAbsent(c: char, s: string)
    requires c !in s
    ensures Count(c, s) == 0
  {
    if s != [] {
      CountAbsent(c, s[1..]);
    }
  }

  /** The `+` signs the number format writes into the printed roots. */
  function RootsShownPlus(show: real -> string, rs: seq<real>): nat
  {
    if rs == [] then 0 else Count('+', show(rs[0])) + RootsShownPlus(show, rs[1..])
  }

  /** The `+` signs the number format writes into the printed weights, roots and denominators. */
  function ShownPlus(show: real -> string, ts: seq<Summand>): nat
  {
    if ts == [] then 0
    else Count('+', show(ts[0].weight)) + RootsShownPlus(show, ts[0].basis.roots)
         + Count('+', show(ts[0].basis.denominator)) + ShownPlus(show, ts[1..])
  }

  /** The numerator text adds no `+` of its own. */
  lemma {:induction false} RootsPlusCount(show: real -> string, rs: seq<real>)
    ensures Count('+', RenderRoots(show, rs)) == RootsShownPlus(show, rs)
  {
    if rs != [] {
      var a, b, c := "(x - ", show(rs[0]), ")";
      assert Count('+', a) == 0;
      assert Count('+', c) == 0;
      RootsPlusCount(show, rs[1..]);
      CountConcat('+', a, b);
      CountConcat('+', a + b, c);
      CountConcat('+', a + b + c, RenderRoots(show, rs[1..]));
    }
  }

  /** A summand adds exactly one `+` of its own: the separator in front of it. */
  lemma SummandPlusCount(show: real -> string, t: Summand)
    ensures Count('+', " + " + show(t.weight) + " * (" + RenderBasis(show, t.basis) + ")")
            == 1 + Count('+', show(t.weight)) + RootsShownPlus(show, t.basis.roots)
               + Count('+', show(t.basis.denominator))
  {
    var a, b, c, d, e := " + ", show(t.weight), " * (", RenderBasis(show, t.basis), ")";
    assert Count('+', a) == 1;
    assert Count('+', c) == 0;
    assert Count('+', e) == 0;
    assert Count('+', " / ") == 0;
    RootsPlusCount(show, t.basis.roots);
    CountConcat('+', RenderRoots(show, t.basis.roots), " / ");
    CountConcat('+', RenderRoots(show, t.basis.roots) + " / ", show(t.basis.denominator));
    CountConcat('+', a, b);
    CountConcat('+', a + b, c);
    CountConcat('+', a + b + c, d);
    CountConcat('+', a + b + c + d, e);
  }

  lemma {:induction false} RenderSumPlusCount(show: real -> string, ts: seq<Summand>)
    ensures Count('+', RenderSum(show, ts)) == |ts| + ShownPlus(show, ts)
  {
    if ts != [] {
      var t := ts[0];
      SummandPlusCount(show, t);
      RenderSumPlusCount(show, ts[1..]);
      CountConcat('+', " + " + show(t.weight) + " * (" + RenderBasis(show, t.basis) + ")", RenderSum(show, ts[1..]));
    }
  }

  /**
   * Every `+` in the composed text is either one of the separators, one per
   * sample, or a sign the number format printed (JavaScript prints `1e+21`).
   */
  lemma ComposedPlusCount(show: real -> string, ps: seq<Point>)
    ensures Count('+', Composed(show, ps)) == |ps| + ShownPlus(show, FormOf(ps))
  {
    RenderSumPlusCount(show, FormOf(ps));
  }

  lemma {:induction false} NoShownPlus(show: real -> string, ts: seq<Summand>)
    requires forall r :: '+' !in show(r)
    ensures ShownPlus(show, ts) == 0
  {
    if ts != [] {
      var t := ts[0];
      CountAbsent('+', show(t.weight));
      CountAbsent('+', show(t.basis.denominator));
      NoRootsShownPlus(show, t.basis.roots);
      NoShownPlus(show, ts[1..]);
    }
  }

  lemma {:induction false} NoRootsShownPlus(show: real -> string, rs: seq<real>)
    requires forall r :: '+' !in show(r)
    ensures RootsShownPlus(show, rs) == 0
  {
    if rs != [] {
      var r := rs[0];
      assert '+' !in show(r);
      CountAbsent('+', show(r));
      NoRootsShownPlus(show, rs[1..]);
    }
  }

  /** When numbers print without a plus sign, the composed text holds exactly one `+` per sample. */
  lemma SeparatorsOnlyPlusCount(show: real -> string, ps: seq<Point>)
    requires forall r :: '+' !in show(r)
    ensures Count('+', Composed(show, ps)) == |ps|
  {
    ComposedPlusCount(show, ps);
    NoShownPlus(show, FormOf(ps));
  }
}
