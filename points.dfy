/** Sample points and the exclusion by position that each Lagrange basis term starts from. */
module Points {

  /** One user-supplied sample. JavaScript numbers are modelled as exact reals. */
  datatype Point = Point(x: real, y: real)

  /** The x-coordinates of `ps`, in order. */
  function Xs(ps: seq<Point>): (r: seq<real>)
    ensures |r| == |ps|
    ensures forall i :: 0 <= i < |ps| ==> r[i] == ps[i].x
  {
    if ps == [] then [] else [ps[0].x] + Xs(ps[1..])
  }

  /** The interpolation precondition the builder never checks: no two samples share an x. */
  predicate DistinctX(ps: seq<Point>)
  {
    forall i, j :: 0 <= i < |ps| && 0 <= j < |ps| && i != j ==> ps[i].x != ps[j].x
  }

  /**
   * Every element except the one at position `n`, the others in their
   * original order. An `n` outside the indices removes nothing.
   */
  function Without(ps: seq<Point>, n: int): (r: seq<Point>)
    ensures |r| == if 0 <= n < |ps| then |ps| - 1 else |ps|
  {
    if ps == [] then []
    else (if n == 0 then [] else [ps[0]]) + Without(ps[1..], n - 1)
  }

  /** The filter keeps the other elements in their original order. */
  lemma {:induction false} WithoutKeepsOrder(ps: seq<Point>, n: int)
    ensures Without(ps, n) == if 0 <= n < |ps| then ps[..n] + ps[n + 1..] else ps
  {
    if ps != [] {
      WithoutKeepsOrder(ps[1..], n - 1);
      if 0 < n < |ps| {
        assert ps[..n] + ps[n + 1..] == [ps[0]] + (ps[1..][..n - 1] + ps[1..][n..]);
      } else if n != 0 {
        assert ps == [ps[0]] + ps[1..];
      }
    }
  }

  /** Position `i` of the filtered sequence holds original position `i` before `n`, `i + 1` from `n` on. */
  lemma WithoutAt(ps: seq<Point>, n: int, i: int)
    requires 0 <= n < |ps| && 0 <= i < |ps| - 1
    ensures Without(ps, n)[i] == ps[if i < n then i else i + 1]
  {
    WithoutKeepsOrder(ps, n);
  }

  /** A value is an x of the remaining points exactly when some sample other than `n` has that x. */
  lemma OtherXs(ps: seq<Point>, n: int, t: real)
    requires 0 <= n < |ps|
    ensures t in Xs(Without(ps, n)) <==> exists j :: 0 <= j < |ps| && j != n && ps[j].x == t
  {
    var others := Without(ps, n);
    if t in Xs(others) {
      var i :| 0 <= i < |others| && Xs(others)[i] == t;
      var j := if i < n then i else i + 1;
      assert others[i] == ps[j] by {
        WithoutAt(ps, n, i);
      }
      assert ps[j].x == t;
      assert j != n;
    }
    if j :| 0 <= j < |ps| && j != n && ps[j].x == t {
      var i := if j < n then j else j - 1;
      assert 0 <= i < |others| && (if i < n then i else i + 1) == j;
      assert others[i] == ps[j] by {
        WithoutAt(ps, n, i);
      }
      assert Xs(others)[i] == t;
    }
  }
}
