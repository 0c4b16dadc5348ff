/** Gaussian elimination on values: the steps of my_dgesv as functions on a system a x = b with
    several right-hand sides, over exact reals. */
module Elimination {

  type Matrix = seq<seq<real>>

  datatype System = System(a: Matrix, b: Matrix)

  ghost predicate Shaped(s: System, n: nat, m: nat) {
    && |s.a| == |s.b| == n
    && (forall i :: 0 <= i < n ==> |s.a[i]| == n)
    && (forall i :: 0 <= i < n ==> |s.b[i]| == m)
  }

  /** A pivot smaller than this makes the solver give up. */
  const EPS: real := 0.0000000001

  function Abs(x: real): (r: real)
    ensures r >= 0.0
  {
    if x < 0.0 then -x else x
  }

  // ----- what a solution is

  /** The sum of r[k] * x[k] over k >= i. */
  ghost function SumFrom(r: seq<real>, x: seq<real>, i: nat): real
    requires i <= |r| == |x|
    decreases |r| - i
  {
    if i == |r| then 0.0 else r[i] * x[i] + SumFrom(r, x, i + 1)
  }

  ghost function Dot(r: seq<real>, x: seq<real>): real
    requires |r| == |x|
  {
    SumFrom(r, x, 0)
  }

  /** x satisfies equation i of column j. */
  ghost predicate Holds(s: System, n: nat, m: nat, x: seq<real>, j: nat, i: nat)
    requires Shaped(s, n, m) && |x| == n && j < m && i < n
  {
    Dot(s.a[i], x) == s.b[i][j]
  }

  /** x solves a x = column j of b. */
  ghost predicate Solves(s: System, n: nat, m: nat, x: seq<real>, j: nat)
    requires Shaped(s, n, m) && |x| == n && j < m
  {
    forall i :: 0 <= i < n ==> Holds(s, n, m, x, j, i)
  }

  ghost predicate SameSolutions(s: System, s': System, n: nat, m: nat)
    requires Shaped(s, n, m) && Shaped(s', n, m)
  {
    forall x: seq<real>, j: nat :: |x| == n && j < m ==> (Solves(s, n, m, x, j) <==> Solves(s', n, m, x, j))
  }

  // ----- one elimination step

  /** Columns 0 .. k - 1 are zero below the diagonal. */
  ghost predicate Triangular(a: Matrix, n: nat, k: nat)
    requires |a| == n && forall i :: 0 <= i < n ==> |a[i]| == n
  {
    forall i, c :: 0 <= c < k && c < i < n ==> a[i][c] == 0.0
  }

  /** The first row of the largest magnitude in column k among best and the rows from i on. */
  function PivotFrom(a: Matrix, n: nat, k: nat, i: nat, best: nat): (p: nat)
    requires |a| == n && (forall i :: 0 <= i < n ==> |a[i]| == n) && k < n && k <= best < i <= n
    ensures k <= p < n
    ensures Abs(a[best][k]) <= Abs(a[p][k]) && forall r :: i <= r < n ==> Abs(a[r][k]) <= Abs(a[p][k])
    decreases n - i
  {
    if i == n then best
    else PivotFrom(a, n, k, i + 1, if Abs(a[i][k]) > Abs(a[best][k]) then i else best)
  }

  function Swapped(x: Matrix, k: nat, p: nat): (y: Matrix)
    requires k < |x| && p < |x|
    ensures |y| == |x|
  {
    x[k := x[p]][p := x[k]]
  }

  /** r[j] + t * q[j] from column c on; the columns before are left alone. */
  function AddScaled(r: seq<real>, t: real, q: seq<real>, c: nat): (r': seq<real>)
    requires |r| == |q|
    ensures |r'| == |r|
    ensures forall j :: 0 <= j < |r| ==> r'[j] == if j < c then r[j] else r[j] + t * q[j]
  {
    seq(|r|, j requires 0 <= j < |r| => if j < c then r[j] else r[j] + t * q[j])
  }

  function Multiplier(a: Matrix, n: nat, k: nat, i: nat): real
    requires |a| == n && (forall i :: 0 <= i < n ==> |a[i]| == n) && k < n && i < n && a[k][k] != 0.0
  {
    -a[i][k] / a[k][k]
  }

  /** Column k is eliminated from every row below k. */
  function Updated(s: System, n: nat, m: nat, k: nat): (s': System)
    requires Shaped(s, n, m) && k < n && s.a[k][k] != 0.0
    ensures Shaped(s', n, m)
  {
    System(
      seq(n, i requires 0 <= i < n => if i <= k then s.a[i] else AddScaled(s.a[i], Multiplier(s.a, n, k, i), s.a[k], k)),
      seq(n, i requires 0 <= i < n => if i <= k then s.b[i] else AddScaled(s.b[i], Multiplier(s.a, n, k, i), s.b[k], 0)))
  }

  function PivotOf(pivoting: bool, s: System, n: nat, m: nat, k: nat): (p: nat)
    requires Shaped(s, n, m) && k < n
    ensures k <= p < n
  {
    if pivoting then PivotFrom(s.a, n, k, k + 1, k) else k
  }

  function Pivoted(pivoting: bool, s: System, n: nat, m: nat, k: nat): (s': System)
    requires Shaped(s, n, m) && k < n
    ensures Shaped(s', n, m)
  {
    var p := PivotOf(pivoting, s, n, m, k);
    System(Swapped(s.a, k, p), Swapped(s.b, k, p))
  }

  datatype Elim = Ok(s: System) | Singular(s: System)

  /** Step k: choose a pivot, give up when it is too small, eliminate. */
  function ElimStep(pivoting: bool, s: System, n: nat, m: nat, k: nat): (e: Elim)
    requires Shaped(s, n, m) && k < n
    ensures Shaped(e.s, n, m)
  {
    var p := Pivoted(pivoting, s, n, m, k);
    if Abs(p.a[k][k]) < EPS then Singular(p) else Ok(Updated(p, n, m, k))
  }

  /** The system after k elimination steps, or the one in which the pivot was found too small. */
  function Eliminated(pivoting: bool, s: System, n: nat, m: nat, k: nat): (e: Elim)
    requires Shaped(s, n, m) && k <= n
    ensures Shaped(e.s, n, m)
  {
    if k == 0 then Ok(s)
    else
      var e := Eliminated(pivoting, s, n, m, k - 1);
      if e.Singular? then e else ElimStep(pivoting, e.s, n, m, k - 1)
  }

  // ----- row operations keep the solutions

  lemma {:induction false} SumZeros(r: seq<real>, x: seq<real>, i: nat, k: nat)
    requires i <= k <= |r| == |x| && forall c :: i <= c < k ==> r[c] == 0.0
    ensures SumFrom(r, x, i) == SumFrom(r, x, k)
    decreases k - i
  {
    if i < k {
      SumZeros(r, x, i + 1, k);
    }
  }

  lemma {:induction false} SumLinear(r: seq<real>, t: real, q: seq<real>, x: seq<real>, i: nat)
    requires i <= |r| == |q| == |x|
    ensures SumFrom(AddScaled(r, t, q, 0), x, i) == SumFrom(r, x, i) + t * SumFrom(q, x, i)
    decreases |r| - i
  {
    if i < |r| {
      SumLinear(r, t, q, x, i + 1);
      assert (r[i] + t * q[i]) * x[i] == r[i] * x[i] + t * (q[i] * x[i]);
    }
  }

  /** Where the pivot row is zero, leaving the columns alone is the same as updating them. */
  lemma SkippedColumns(r: seq<real>, t: real, q: seq<real>, k: nat)
    requires |r| == |q| && forall c :: 0 <= c < k && c < |q| ==> q[c] == 0.0
    ensures AddScaled(r, t, q, k) == AddScaled(r, t, q, 0)
  {
  }

  lemma UpdatedRow(s: System, n: nat, m: nat, k: nat, x: seq<real>, j: nat, i: nat)
    requires Shaped(s, n, m) && k < i < n && s.a[k][k] != 0.0 && Triangular(s.a, n, k) && |x| == n && j < m
    ensures var s', t := Updated(s, n, m, k), Multiplier(s.a, n, k, i);
            && Dot(s'.a[i], x) == Dot(s.a[i], x) + t * Dot(s.a[k], x)
            && s'.b[i][j] == s.b[i][j] + t * s.b[k][j]
  {
    var t := Multiplier(s.a, n, k, i);
    SkippedColumns(s.a[i], t, s.a[k], k);
    SumLinear(s.a[i], t, s.a[k], x, 0);
  }

  lemma UpdateKeepsSolution(s: System, n: nat, m: nat, k: nat, x: seq<real>, j: nat)
    requires Shaped(s, n, m) && k < n && s.a[k][k] != 0.0 && Triangular(s.a, n, k) && |x| == n && j < m
    ensures Solves(s, n, m, x, j) <==> Solves(Updated(s, n, m, k), n, m, x, j)
  {
    hide Dot, Multiplier, AddScaled;
    var s' := Updated(s, n, m, k);
    assert Holds(s, n, m, x, j, k) <==> Holds(s', n, m, x, j, k);
    if Holds(s, n, m, x, j, k) {
      forall i | 0 <= i < n
        ensures Holds(s, n, m, x, j, i) <==> Holds(s', n, m, x, j, i)
      {
        if i > k {
          UpdatedRow(s, n, m, k, x, j, i);
        }
      }
    }
  }

  lemma SwapKeepsSolution(s: System, n: nat, m: nat, k: nat, p: nat, x: seq<real>, j: nat)
    requires Shaped(s, n, m) && k < n && p < n && |x| == n && j < m
    ensures var s' := System(Swapped(s.a, k, p), Swapped(s.b, k, p));
            Solves(s, n, m, x, j) <==> Solves(s', n, m, x, j)
  {
    var s' := System(Swapped(s.a, k, p), Swapped(s.b, k, p));
    forall i | 0 <= i < n
      ensures Holds(s', n, m, x, j, i) <==> Holds(s, n, m, x, j, if i == k then p else if i == p then k else i)
    {
    }
    if Solves(s', n, m, x, j) {
      forall i | 0 <= i < n
        ensures Holds(s, n, m, x, j, i)
      {
        var i' := if i == k then p else if i == p then k else i;
        assert Holds(s', n, m, x, j, i');
      }
    }
  }

  // ----- what every step keeps

  /** Eliminating column k makes it zero below the diagonal and leaves the earlier zeros. */
  lemma UpdateIsTriangular(s: System, n: nat, m: nat, k: nat)
    requires Shaped(s, n, m) && k < n && s.a[k][k] != 0.0 && Triangular(s.a, n, k)
    ensures Triangular(Updated(s, n, m, k).a, n, k + 1)
  {
    var a' := Updated(s, n, m, k).a;
    forall i, c | 0 <= c < k + 1 && c < i < n
      ensures a'[i][c] == 0.0
    {
      if i > k && c == k {
        var t := Multiplier(s.a, n, k, i);
        assert t * s.a[k][k] == -s.a[i][k];
      }
    }
  }

  /** The pivots taken so far are not small. */
  ghost predicate Pivots(a: Matrix, n: nat, k: nat)
    requires |a| == n && (forall i :: 0 <= i < n ==> |a[i]| == n) && k <= n
  {
    forall c :: 0 <= c < k ==> Abs(a[c][c]) >= EPS
  }

  lemma PivotKeeps(pivoting: bool, s: System, n: nat, m: nat, k: nat)
    requires Shaped(s, n, m) && k < n && Triangular(s.a, n, k) && Pivots(s.a, n, k)
    ensures var s' := Pivoted(pivoting, s, n, m, k);
            SameSolutions(s, s', n, m) && Triangular(s'.a, n, k) && Pivots(s'.a, n, k)
  {
    forall x: seq<real>, j: nat | |x| == n && j < m
      ensures Solves(s, n, m, x, j) <==> Solves(Pivoted(pivoting, s, n, m, k), n, m, x, j)
    {
      SwapKeepsSolution(s, n, m, k, PivotOf(pivoting, s, n, m, k), x, j);
    }
  }

  lemma UpdateKeeps(s: System, n: nat, m: nat, k: nat)
    requires Shaped(s, n, m) && k < n && Triangular(s.a, n, k) && Pivots(s.a, n, k) && Abs(s.a[k][k]) >= EPS
    ensures var s' := Updated(s, n, m, k);
            SameSolutions(s, s', n, m) && Triangular(s'.a, n, k + 1) && Pivots(s'.a, n, k + 1)
  {
    UpdateIsTriangular(s, n, m, k);
    forall x: seq<real>, j: nat | |x| == n && j < m
      ensures Solves(s, n, m, x, j) <==> Solves(Updated(s, n, m, k), n, m, x, j)
    {
      UpdateKeepsSolution(s, n, m, k, x, j);
    }
  }

  lemma SameSolutionsTrans(s: System, s': System, s'': System, n: nat, m: nat)
    requires Shaped(s, n, m) && Shaped(s', n, m) && Shaped(s'', n, m)
    requires SameSolutions(s, s', n, m) && SameSolutions(s', s'', n, m)
    ensures SameSolutions(s, s'', n, m)
  {
    forall x: seq<real>, j: nat | |x| == n && j < m
      ensures Solves(s, n, m, x, j) <==> Solves(s'', n, m, x, j)
    {
      assert Solves(s, n, m, x, j) <==> Solves(s', n, m, x, j);
    }
  }

  lemma NothingEliminated(s: System, n: nat, m: nat)
    requires Shaped(s, n, m)
    ensures SameSolutions(s, s, n, m) && Triangular(s.a, n, 0) && Pivots(s.a, n, 0)
  {
  }

  /** Every elimination step keeps the solution set, the zeros below the diagonal and the pivots. */
  lemma {:induction false} EliminationKeeps(pivoting: bool, s: System, n: nat, m: nat, k: nat)
    requires Shaped(s, n, m) && k <= n && Eliminated(pivoting, s, n, m, k).Ok?
    ensures var s' := Eliminated(pivoting, s, n, m, k).s;
            SameSolutions(s, s', n, m) && Triangular(s'.a, n, k) && Pivots(s'.a, n, k)
  {
    hide SameSolutions, Triangular, Pivots, ElimStep;
    if k == 0 {
      NothingEliminated(s, n, m);
    } else {
      EliminationKeeps(pivoting, s, n, m, k - 1);
      var e := Eliminated(pivoting, s, n, m, k - 1);
      assert Eliminated(pivoting, s, n, m, k) == ElimStep(pivoting, e.s, n, m, k - 1);
      StepKeeps(pivoting, e.s, n, m, k - 1);
      SameSolutionsTrans(s, e.s, Eliminated(pivoting, s, n, m, k).s, n, m);
    }
  }

  lemma StepKeeps(pivoting: bool, s: System, n: nat, m: nat, k: nat)
    requires Shaped(s, n, m) && k < n && Triangular(s.a, n, k) && Pivots(s.a, n, k) && ElimStep(pivoting, s, n, m, k).Ok?
    ensures var s' := ElimStep(pivoting, s, n, m, k).s;
            SameSolutions(s, s', n, m) && Triangular(s'.a, n, k + 1) && Pivots(s'.a, n, k + 1)
  {
    var s1 := Pivoted(pivoting, s, n, m, k);
    PivotKeeps(pivoting, s, n, m, k);
    UpdateKeeps(s1, n, m, k);
    SameSolutionsTrans(s, s1, Updated(s1, n, m, k), n, m);
  }

  // ----- growth

  function Pow2(k: nat): (r: real)
    ensures r >= 1.0
  {
    if k == 0 then 1.0 else 2.0 * Pow2(k - 1)
  }

  ghost predicate Bounded(a: Matrix, bound: real) {
    forall i, j :: 0 <= i < |a| && 0 <= j < |a[i]| ==> Abs(a[i][j]) <= bound
  }

  /** With partial pivoting every multiplier has magnitude at most 1. */
  lemma MultiplierBound(s: System, n: nat, m: nat, k: nat, i: nat)
    requires Shaped(s, n, m) && k < i < n && Pivoted(true, s, n, m, k).a[k][k] != 0.0
    ensures Abs(Multiplier(Pivoted(true, s, n, m, k).a, n, k, i)) <= 1.0
  {
    var p := PivotOf(true, s, n, m, k);
    var a := Pivoted(true, s, n, m, k).a;
    assert Abs(a[i][k]) <= Abs(a[k][k]);
    QuotientBound(a[i][k], a[k][k]);
  }

  lemma AbsMul(x: real, y: real)
    ensures Abs(x * y) == Abs(x) * Abs(y)
  {
  }

  lemma MulOrder(u: real, v: real)
    requires u >= 0.0 && v >= 0.0
    ensures u <= 1.0 ==> u * v <= v
    ensures u > 1.0 && v > 0.0 ==> u * v > v
  {
    if u > 1.0 && v > 0.0 {
      assert (u - 1.0) * v > 0.0;
    }
  }

  lemma AtMostOne(u: real, v: real, w: real)
    requires u >= 0.0 && v > 0.0 && u * v == w && w <= v
    ensures u <= 1.0
  {
    MulOrder(u, v);
  }

  lemma QuotientBound(x: real, y: real)
    requires y != 0.0 && Abs(x) <= Abs(y)
    ensures Abs(-x / y) <= 1.0
  {
    var q := -x / y;
    assert q * y == -x;
    AbsMul(q, y);
    AtMostOne(Abs(q), Abs(y), Abs(-x));
  }

  lemma EntryBound(x: real, t: real, y: real, bound: real)
    requires Abs(x) <= bound && Abs(y) <= bound && Abs(t) <= 1.0
    ensures Abs(x + t * y) <= 2.0 * bound
  {
    MulBound(t, y);
    AddBound(x, t * y, Abs(y), bound);
  }

  lemma MulBound(t: real, y: real)
    requires Abs(t) <= 1.0
    ensures Abs(t * y) <= Abs(y)
  {
    AbsMul(t, y);
    MulOrder(Abs(t), Abs(y));
  }

  lemma AddBound(x: real, z: real, y: real, bound: real)
    requires Abs(x) <= bound && Abs(z) <= y <= bound
    ensures Abs(x + z) <= 2.0 * bound
  {
  }

  /** bound doubled k times. */
  ghost function Doubled(k: nat, bound: real): (r: real)
    ensures bound >= 0.0 ==> r >= 0.0
  {
    if k == 0 then bound else 2.0 * Doubled(k - 1, bound)
  }

  lemma {:induction false} DoubledIsPow2(k: nat, bound: real)
    ensures Doubled(k, bound) == Pow2(k) * bound
  {
    if k > 0 {
      DoubledIsPow2(k - 1, bound);
    }
  }

  lemma {:induction false} GrowthDoubles(s: System, n: nat, m: nat, k: nat, bound: real)
    requires Shaped(s, n, m) && k <= n && Bounded(s.a, bound) && bound >= 0.0
    ensures Bounded(Eliminated(true, s, n, m, k).s.a, Doubled(k, bound))
  {
    hide Bounded, Shaped, ElimStep;
    if k > 0 {
      GrowthDoubles(s, n, m, k - 1, bound);
      var e, b := Eliminated(true, s, n, m, k - 1), Doubled(k - 1, bound);
      assert Doubled(k, bound) == 2.0 * b;
      if e.Ok? {
        StepGrows(e.s, n, m, k - 1, b);
      } else {
        assert Eliminated(true, s, n, m, k) == e;
        BoundedWeaker(e.s.a, b);
      }
    }
  }

  lemma StepGrows(s: System, n: nat, m: nat, k: nat, bound: real)
    requires Shaped(s, n, m) && k < n && Bounded(s.a, bound) && bound >= 0.0
    ensures Bounded(ElimStep(true, s, n, m, k).s.a, 2.0 * bound)
  {
    var p := Pivoted(true, s, n, m, k);
    PivotBounded(s, n, m, k, bound);
    if Abs(p.a[k][k]) < EPS {
      BoundedWeaker(p.a, bound);
    } else {
      StepBound(s, n, m, k, bound);
    }
  }

  lemma BoundedWeaker(a: Matrix, bound: real)
    requires Bounded(a, bound) && bound >= 0.0
    ensures Bounded(a, 2.0 * bound)
  {
  }

  lemma PivotBounded(s: System, n: nat, m: nat, k: nat, bound: real)
    requires Shaped(s, n, m) && k < n && Bounded(s.a, bound)
    ensures Bounded(Pivoted(true, s, n, m, k).a, bound)
  {
  }

  /** Pivot growth: after k steps no entry exceeds 2^k times the largest magnitude of the matrix. */
  lemma GrowthBound(s: System, n: nat, m: nat, k: nat, bound: real)
    requires Shaped(s, n, m) && k <= n && Bounded(s.a, bound) && bound >= 0.0
    ensures Bounded(Eliminated(true, s, n, m, k).s.a, Pow2(k) * bound)
  {
    GrowthDoubles(s, n, m, k, bound);
    DoubledIsPow2(k, bound);
  }

  lemma RowBound(r: seq<real>, t: real, q: seq<real>, c: nat, bound: real)
    requires |r| == |q| && Abs(t) <= 1.0 && bound >= 0.0
    requires forall j :: 0 <= j < |r| ==> Abs(r[j]) <= bound && Abs(q[j]) <= bound
    ensures forall j :: 0 <= j < |r| ==> Abs(AddScaled(r, t, q, c)[j]) <= 2.0 * bound
  {
    hide Abs;
    forall j | 0 <= j < |r|
      ensures Abs(AddScaled(r, t, q, c)[j]) <= 2.0 * bound
    {
      if j < c {
        assert AddScaled(r, t, q, c)[j] == r[j];
      } else {
        assert AddScaled(r, t, q, c)[j] == r[j] + t * q[j];
        EntryBound(r[j], t, q[j], bound);
      }
    }
  }

  lemma StepBound(s: System, n: nat, m: nat, k: nat, bound: real)
    requires Shaped(s, n, m) && k < n && Bounded(s.a, bound) && bound >= 0.0
    requires Pivoted(true, s, n, m, k).a[k][k] != 0.0
    ensures Bounded(Updated(Pivoted(true, s, n, m, k), n, m, k).a, 2.0 * bound)
  {
    var p := Pivoted(true, s, n, m, k);
    assert Bounded(p.a, bound);
    forall i | 0 <= i < n
      ensures forall j :: 0 <= j < n ==> Abs(Updated(p, n, m, k).a[i][j]) <= 2.0 * bound
    {
      if i > k {
        MultiplierBound(s, n, m, k, i);
        RowBound(p.a[i], Multiplier(p.a, n, k, i), p.a[k], k, bound);
      }
    }
  }
}
