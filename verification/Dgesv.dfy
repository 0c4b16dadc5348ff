/** dgesv.c and task1/dgesv.c: the two solvers, in place on row-major matrices, over exact reals. */
module Dgesv {
  import opened Elimination
  import opened BackSubstitution

  ghost function Mat(x: array2<real>): (m: Matrix)
    reads x
    ensures |m| == x.Length0 && forall i :: 0 <= i < x.Length0 ==> |m[i]| == x.Length1
    ensures forall i, j :: 0 <= i < x.Length0 && 0 <= j < x.Length1 ==> m[i][j] == x[i, j]
  {
    seq(x.Length0, i requires 0 <= i < x.Length0 reads x =>
      seq(x.Length1, j requires 0 <= j < x.Length1 reads x => x[i, j]))
  }

  ghost function Sys(a: array2<real>, b: array2<real>): System
    reads a, b
  {
    System(Mat(a), Mat(b))
  }

  ghost predicate Sized(a: array2<real>, b: array2<real>, n: nat, nrhs: nat) {
    a != b && a.Length0 == a.Length1 == b.Length0 == n && b.Length1 == nrhs
  }

  lemma MatrixEqual(x: Matrix, y: Matrix)
    requires |x| == |y| && forall i :: 0 <= i < |x| ==> |x[i]| == |y[i]|
    requires forall i, j :: 0 <= i < |x| && 0 <= j < |x[i]| ==> x[i][j] == y[i][j]
    ensures x == y
  {
    assert forall i :: 0 <= i < |x| ==> x[i] == y[i];
  }

  // ----- elimination

  /** The search for the pivot row: the first one of the largest magnitude. */
  method PivotIndex(a: array2<real>, n: nat, k: nat) returns (maxIndex: nat)
    requires a.Length0 == a.Length1 == n && k < n
    ensures maxIndex == PivotFrom(Mat(a), n, k, k + 1, k)
  {
    hide Mat, PivotFrom, Abs;
    ghost var m := Mat(a);
    maxIndex := k;
    var maxVal := Abs(a[k, k]);
    var i := k + 1;
    while i < n
      invariant k <= maxIndex < i <= n && maxVal == Abs(m[maxIndex][k])
      invariant PivotFrom(m, n, k, i, maxIndex) == PivotFrom(m, n, k, k + 1, k)
    {
      PivotNext(m, n, k, i, maxIndex);
      assert a[i, k] == m[i][k];
      if Abs(a[i, k]) > maxVal {
        maxVal := Abs(a[i, k]);
        maxIndex := i;
      }
      i := i + 1;
    }
    PivotNext(m, n, k, n, maxIndex);
  }

  lemma PivotNext(m: Matrix, n: nat, k: nat, i: nat, best: nat)
    requires |m| == n && (forall i :: 0 <= i < n ==> |m[i]| == n) && k < n && k <= best < i <= n
    ensures PivotFrom(m, n, k, i, best)
         == if i == n then best else PivotFrom(m, n, k, i + 1, if Abs(m[i][k]) > Abs(m[best][k]) then i else best)
  {
  }

  method SwapRows(x: array2<real>, k: nat, p: nat)
    requires k < x.Length0 && p < x.Length0 && k != p
    modifies x
    ensures Mat(x) == Swapped(old(Mat(x)), k, p)
  {
    ghost var m := Mat(x);
    var j := 0;
    while j < x.Length1
      invariant 0 <= j <= x.Length1
      invariant forall r, c :: 0 <= r < x.Length0 && 0 <= c < x.Length1 ==>
                  x[r, c] == if c < j then Swapped(m, k, p)[r][c] else m[r][c]
    {
      var tmp := x[k, j];
      x[k, j] := x[p, j];
      x[p, j] := tmp;
      j := j + 1;
    }
    MatrixEqual(Mat(x), Swapped(m, k, p));
  }

  /** Row i receives t times row k, from column c on. */
  method AddRow(x: array2<real>, i: nat, k: nat, t: real, c: nat)
    requires i < x.Length0 && k < x.Length0 && i != k && c <= x.Length1
    modifies x
    ensures Mat(x) == old(Mat(x))[i := AddScaled(old(Mat(x))[i], t, old(Mat(x))[k], c)]
  {
    ghost var m := Mat(x);
    ghost var m' := m[i := AddScaled(m[i], t, m[k], c)];
    var j := c;
    while j < x.Length1
      invariant c <= j <= x.Length1
      invariant forall r, l :: 0 <= r < x.Length0 && 0 <= l < x.Length1 ==>
                  x[r, l] == if l < j then m'[r][l] else m[r][l]
    {
      x[i, j] := x[i, j] + t * x[k, j];
      j := j + 1;
    }
    MatrixEqual(Mat(x), m');
  }

  /** Rows k + 1 .. i - 1 have been updated. */
  ghost function PartlyUpdated(s: System, n: nat, m: nat, k: nat, i: nat): (s': System)
    requires Shaped(s, n, m) && k < i <= n && s.a[k][k] != 0.0
    ensures Shaped(s', n, m)
  {
    var u := Updated(s, n, m, k);
    System(u.a[..i] + s.a[i..], u.b[..i] + s.b[i..])
  }

  lemma PartlyUpdatedEnds(s: System, n: nat, m: nat, k: nat)
    requires Shaped(s, n, m) && k < n && s.a[k][k] != 0.0
    ensures PartlyUpdated(s, n, m, k, k + 1) == s && PartlyUpdated(s, n, m, k, n) == Updated(s, n, m, k)
  {
    var u := Updated(s, n, m, k);
    assert u.a[..k + 1] == s.a[..k + 1] && u.b[..k + 1] == s.b[..k + 1];
  }

  method EliminateColumn(a: array2<real>, b: array2<real>, n: nat, nrhs: nat, k: nat)
    requires Sized(a, b, n, nrhs) && k < n && a[k, k] != 0.0
    modifies a, b
    ensures Sys(a, b) == Updated(old(Sys(a, b)), n, nrhs, k)
  {
    hide Mat, Updated, PartlyUpdated, AddScaled;
    ghost var s := Sys(a, b);
    PartlyUpdatedEnds(s, n, nrhs, k);
    var i := k + 1;
    while i < n
      invariant k < i <= n
      invariant Mat(a) == PartlyUpdated(s, n, nrhs, k, i).a
      invariant Mat(b) == PartlyUpdated(s, n, nrhs, k, i).b
    {
      RowsOfPartlyUpdated(s, n, nrhs, k, i);
      assert a[i, k] == Mat(a)[i][k] && a[k, k] == Mat(a)[k][k];
      var t := -a[i, k] / a[k, k];
      AddRow(a, i, k, t, k);
      AddRow(b, i, k, t, 0);
      i := i + 1;
    }
  }

  lemma RowsOfPartlyUpdated(s: System, n: nat, m: nat, k: nat, i: nat)
    requires Shaped(s, n, m) && k < i < n && s.a[k][k] != 0.0
    ensures var p, t := PartlyUpdated(s, n, m, k, i), Multiplier(s.a, n, k, i);
            && p.a[k] == s.a[k] && p.b[k] == s.b[k] && p.a[i] == s.a[i] && p.b[i] == s.b[i]
            && PartlyUpdated(s, n, m, k, i + 1) == System(p.a[i := AddScaled(s.a[i], t, s.a[k], k)],
                                                          p.b[i := AddScaled(s.b[i], t, s.b[k], 0)])
  {
  }

  lemma {:induction false} SingularStays(pivoting: bool, s: System, n: nat, m: nat, k: nat, l: nat)
    requires Shaped(s, n, m) && k <= l <= n && Eliminated(pivoting, s, n, m, k).Singular?
    ensures Eliminated(pivoting, s, n, m, l) == Eliminated(pivoting, s, n, m, k)
  {
    hide ElimStep;
    if k < l {
      SingularStays(pivoting, s, n, m, k, l - 1);
    }
  }

  /** The pivot exchange of step k: nothing happens when the pivot is already in place. */
  method Exchange(a: array2<real>, b: array2<real>, n: nat, nrhs: nat, k: nat)
    requires Sized(a, b, n, nrhs) && k < n
    modifies a, b
    ensures Sys(a, b) == Pivoted(true, old(Sys(a, b)), n, nrhs, k)
  {
    var maxIndex := PivotIndex(a, n, k);
    if maxIndex != k {
      SwapRows(a, k, maxIndex);
      SwapRows(b, k, maxIndex);
    }
  }

  // ----- back substitution

  lemma SmallDiagonalFrom(a: Matrix, n: nat, i: nat)
    requires Square(a, n) && i < n
    ensures SmallDiagonal(a, n, i) <==> Abs(a[i][i]) < EPS || SmallDiagonal(a, n, i + 1)
  {
  }

  /** One row of one column.  What the division gives for a zero divisor is left open. */
  method SolveRow(a: array2<real>, b: array2<real>, n: nat, nrhs: nat, i: nat, j: nat, ghost q: Division) returns (small: bool)
    requires Sized(a, b, n, nrhs) && i < n && j < nrhs && Exact(q)
    modifies b
    ensures small == (Abs(Mat(a)[i][i]) < EPS)
    ensures !small ==> Column(Mat(b), j) == BackStep(q, Mat(a), n, Column(old(Mat(b)), j), i)
    ensures SameExcept(old(Mat(b)), Mat(b), n, nrhs, j)
  {
    var t := PartialSum(a, b, n, nrhs, i, j);
    small := Abs(a[i, i]) < EPS;
    if a[i, i] != 0.0 {
      b[i, j] := t / a[i, i];
    } else {
      b[i, j] := *;
    }
  }

  /** Only column j differs. */
  ghost predicate SameExcept(x: Matrix, y: Matrix, n: nat, m: nat, j: nat)
    requires |x| == |y| == n && forall i :: 0 <= i < n ==> |x[i]| == |y[i]| == m
  {
    forall r, c :: 0 <= r < n && 0 <= c < m && c != j ==> x[r][c] == y[r][c]
  }

  /** One column of b, bottom row first; a small diagonal entry is reported and the loop goes on. */
  method SolveColumn(a: array2<real>, b: array2<real>, n: nat, nrhs: nat, j: nat, ghost q: Division) returns (error: bool)
    requires Sized(a, b, n, nrhs) && j < nrhs && Exact(q)
    modifies b
    ensures error == SmallDiagonal(Mat(a), n, 0)
    ensures !error ==> Column(Mat(b), j) == BackSub(q, Mat(a), n, Column(old(Mat(b)), j), 0)
    ensures SameExcept(old(Mat(b)), Mat(b), n, nrhs, j)
  {
    error := false;
    ghost var m, c := Mat(a), Column(Mat(b), j);
    var i := n;
    while i > 0
      invariant 0 <= i <= n
      invariant error == SmallDiagonal(m, n, i)
      invariant !error ==> Column(Mat(b), j) == BackSub(q, m, n, c, i)
      invariant SameExcept(old(Mat(b)), Mat(b), n, nrhs, j)
    {
      i := i - 1;
      SmallDiagonalFrom(m, n, i);
      var small := SolveRow(a, b, n, nrhs, i, j, q);
      if small {
        error := true;
      }
    }
  }

  /** The same, but the first small diagonal entry ends the run (task1). */
  method SolveColumnPlain(a: array2<real>, b: array2<real>, n: nat, nrhs: nat, j: nat, ghost q: Division) returns (error: bool)
    requires Sized(a, b, n, nrhs) && j < nrhs && Exact(q)
    modifies b
    ensures error == SmallDiagonal(Mat(a), n, 0)
    ensures !error ==> Column(Mat(b), j) == BackSub(q, Mat(a), n, Column(old(Mat(b)), j), 0)
    ensures SameExcept(old(Mat(b)), Mat(b), n, nrhs, j)
  {
    ghost var m, c := Mat(a), Column(Mat(b), j);
    var i := n;
    while i > 0
      invariant 0 <= i <= n
      invariant !SmallDiagonal(m, n, i)
      invariant Column(Mat(b), j) == BackSub(q, m, n, c, i)
      invariant SameExcept(old(Mat(b)), Mat(b), n, nrhs, j)
    {
      i := i - 1;
      SmallDiagonalFrom(m, n, i);
      error := SolveRow(a, b, n, nrhs, i, j, q);
      if error {
        return;
      }
    }
    return false;
  }

  /** The loop that subtracts the known unknowns from the right-hand side. */
  method PartialSum(a: array2<real>, b: array2<real>, n: nat, nrhs: nat, i: nat, j: nat) returns (t: real)
    requires Sized(a, b, n, nrhs) && i < n && j < nrhs
    ensures t == b[i, j] - SumFrom(Mat(a)[i], Column(Mat(b), j), i + 1)
  {
    ghost var r, c := Mat(a)[i], Column(Mat(b), j);
    t := b[i, j];
    var k := i + 1;
    while k < n
      invariant i < k <= n
      invariant t - SumFrom(r, c, k) == b[i, j] - SumFrom(r, c, i + 1)
    {
      t := t - a[i, k] * b[k, j];
      k := k + 1;
    }
  }

  lemma OtherColumns(x: Matrix, y: Matrix, n: nat, m: nat, j: nat)
    requires |x| == |y| == n && forall i :: 0 <= i < n ==> |x[i]| == |y[i]| == m
    requires SameExcept(x, y, n, m, j)
    ensures forall c :: 0 <= c < m && c != j ==> Column(x, c) == Column(y, c)
  {
  }

  // ----- the solvers

  /** The loop over k: with or without the exchange of rows, it stops at the first small pivot. */
  method ForwardElimination(pivoting: bool, a: array2<real>, b: array2<real>, n: nat, nrhs: nat) returns (ok: bool)
    requires Sized(a, b, n, nrhs)
    modifies a, b
    ensures var e := Eliminated(pivoting, old(Sys(a, b)), n, nrhs, Steps(n)); ok == e.Ok? && Sys(a, b) == e.s
  {
    ghost var s := Sys(a, b);
    var k := 0;
    while k < n - 1
      invariant 0 <= k <= Steps(n)
      invariant Eliminated(pivoting, s, n, nrhs, k) == Ok(Sys(a, b))
    {
      EliminatedNext(pivoting, s, n, nrhs, k, Sys(a, b));
      ok := Step(pivoting, a, b, n, nrhs, k);
      if !ok {
        SingularStays(pivoting, s, n, nrhs, k + 1, Steps(n));
        return;
      }
      k := k + 1;
    }
    return true;
  }

  lemma EliminatedNext(pivoting: bool, s: System, n: nat, m: nat, k: nat, s': System)
    requires Shaped(s, n, m) && k < n && Eliminated(pivoting, s, n, m, k) == Ok(s')
    ensures Eliminated(pivoting, s, n, m, k + 1) == ElimStep(pivoting, s', n, m, k)
  {
  }

  lemma NoExchange(s: System, n: nat, m: nat, k: nat)
    requires Shaped(s, n, m) && k < n
    ensures Pivoted(false, s, n, m, k) == s
  {
  }

  method Step(pivoting: bool, a: array2<real>, b: array2<real>, n: nat, nrhs: nat, k: nat) returns (ok: bool)
    requires Sized(a, b, n, nrhs) && k < n
    modifies a, b
    ensures ElimStep(pivoting, old(Sys(a, b)), n, nrhs, k) == if ok then Ok(Sys(a, b)) else Singular(Sys(a, b))
  {
    hide Mat, Updated, Pivoted;
    if pivoting {
      Exchange(a, b, n, nrhs, k);
    } else {
      NoExchange(Sys(a, b), n, nrhs, k);
    }
    assert a[k, k] == Mat(a)[k][k];
    if Abs(a[k, k]) < EPS {
      return false;
    }
    EliminateColumn(a, b, n, nrhs, k);
    return true;
  }

  /** The columns l in lo .. hi - 1 hold the result of back substitution. */
  ghost predicate ColumnsSolved(q: Division, a: Matrix, n: nat, m: nat, c: Matrix, x: Matrix, hi: nat)
    requires Square(a, n) && |c| == |x| == n && hi <= m && forall i :: 0 <= i < n ==> |c[i]| == |x[i]| == m
  {
    forall l :: 0 <= l < hi ==> Column(x, l) == BackSub(q, a, n, Column(c, l), 0)
  }

  /** Every column of x solves the system for the same column of b. */
  ghost predicate AllSolved(s: System, n: nat, m: nat, x: Matrix)
    requires Shaped(s, n, m) && |x| == n && forall i :: 0 <= i < n ==> |x[i]| == m
  {
    forall j :: 0 <= j < m ==> Solves(s, n, m, Column(x, j), j)
  }

  lemma AnswerSolves(pivoting: bool, s: System, n: nat, m: nat, q: Division, x: Matrix)
    requires Shaped(s, n, m) && Exact(q) && Answer(pivoting, s, n, m, q, x)
    ensures AllSolved(s, n, m, x)
  {
    forall j | 0 <= j < m
      ensures Solves(s, n, m, Column(x, j), j)
    {
      SolverSound(pivoting, s, n, m, q, x, j);
    }
  }

  /** dgesv.c: partial pivoting, and every column is processed even after an error.  The columns may be
      processed in parallel; see BackSubstitution.ScheduleIndependent. */
  method MyDgesv(a: array2<real>, b: array2<real>, n: nat, nrhs: nat, ghost q: Division) returns (info: int)
    requires Sized(a, b, n, nrhs) && Exact(q)
    modifies a, b
    ensures info == if Accepts(true, old(Sys(a, b)), n, nrhs) then 0 else -1
    ensures info == 0 ==> Answer(true, old(Sys(a, b)), n, nrhs, q, Mat(b))
    ensures info == 0 ==> AllSolved(old(Sys(a, b)), n, nrhs, Mat(b))
    ensures Mat(a) == Eliminated(true, old(Sys(a, b)), n, nrhs, Steps(n)).s.a
  {
    var ok := ForwardElimination(true, a, b, n, nrhs);
    if !ok {
      return -1;
    }
    var errorFlag := false;
    ghost var m, c := Mat(a), Mat(b);
    var j := 0;
    while j < nrhs
      invariant 0 <= j <= nrhs && Mat(a) == m
      invariant errorFlag == (j > 0 && SmallDiagonal(m, n, 0))
      invariant !errorFlag ==> ColumnsSolved(q, m, n, nrhs, c, Mat(b), j)
      invariant forall l :: j <= l < nrhs ==> Column(Mat(b), l) == Column(c, l)
    {
      ghost var before := Mat(b);
      var error := SolveColumn(a, b, n, nrhs, j, q);
      OtherColumns(before, Mat(b), n, nrhs, j);
      if error {
        errorFlag := true;
      }
      j := j + 1;
    }
    if errorFlag {
      return -1;
    }
    AnswerSolves(true, old(Sys(a, b)), n, nrhs, q, Mat(b));
    return 0;
  }

  /** task1/dgesv.c: no pivoting, and the first small pivot ends the run. */
  method MyDgesvPlain(a: array2<real>, b: array2<real>, n: nat, nrhs: nat, ghost q: Division) returns (info: int)
    requires Sized(a, b, n, nrhs) && Exact(q)
    modifies a, b
    ensures info == if Accepts(false, old(Sys(a, b)), n, nrhs) then 0 else -1
    ensures info == 0 ==> Answer(false, old(Sys(a, b)), n, nrhs, q, Mat(b))
    ensures info == 0 ==> AllSolved(old(Sys(a, b)), n, nrhs, Mat(b))
    ensures Mat(a) == Eliminated(false, old(Sys(a, b)), n, nrhs, Steps(n)).s.a
  {
    var ok := ForwardElimination(false, a, b, n, nrhs);
    if !ok {
      return -1;
    }
    ghost var m, c := Mat(a), Mat(b);
    var j := 0;
    while j < nrhs
      invariant 0 <= j <= nrhs && Mat(a) == m
      invariant j > 0 ==> !SmallDiagonal(m, n, 0)
      invariant ColumnsSolved(q, m, n, nrhs, c, Mat(b), j)
      invariant forall l :: j <= l < nrhs ==> Column(Mat(b), l) == Column(c, l)
    {
      ghost var before := Mat(b);
      var error := SolveColumnPlain(a, b, n, nrhs, j, q);
      OtherColumns(before, Mat(b), n, nrhs, j);
      if error {
        return -1;
      }
      j := j + 1;
    }
    AnswerSolves(false, old(Sys(a, b)), n, nrhs, q, Mat(b));
    return 0;
  }
}
