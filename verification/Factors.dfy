/** Which systems the solvers of dgesv.c and task1/dgesv.c accept, told from the matrix alone: those that
    factor into a unit lower and an upper triangular matrix without a small diagonal entry. */
module Factors {
  import opened Elimination
  import opened BackSubstitution

  /** At least 10^-10 in magnitude. */
  predicate NotSmall(x: real) {
    x >= 0.0000000001 || x <= -0.0000000001
  }

  ghost predicate UnitLower(l: Matrix, n: nat)
    requires Square(l, n)
  {
    forall i, c :: 0 <= i <= c < n ==> l[i][c] == if i == c then 1.0 else 0.0
  }

  ghost predicate Upper(u: Matrix, n: nat)
    requires Square(u, n)
  {
    forall i, c :: 0 <= c < i < n ==> u[i][c] == 0.0
  }

  ghost predicate Permutes(f: seq<nat>, n: nat) {
    && |f| == n
    && (forall i :: 0 <= i < n ==> f[i] < n)
    && (forall i, j :: 0 <= i < j < n ==> f[i] != f[j])
    && (forall k: nat :: k < n ==> k in f)
  }

  function Exchanged(f: seq<nat>, k: nat, p: nat): (g: seq<nat>)
    requires k < |f| && p < |f|
    ensures |g| == |f|
  {
    f[k := f[p]][p := f[k]]
  }

  /** Where k stands in f. */
  ghost function PlaceOf(f: seq<nat>, n: nat, k: nat): (p: nat)
    requires Permutes(f, n) && k < n
    ensures p < n && f[p] == k
  {
    assert k in f;
    var p: nat :| p < n && f[p] == k;
    p
  }

  lemma ExchangePermutes(f: seq<nat>, n: nat, k: nat, p: nat)
    requires Permutes(f, n) && k < n && p < n
    ensures Permutes(Exchanged(f, k, p), n)
  {
    var g := Exchanged(f, k, p);
    forall x: nat | x < n
      ensures x in g
    {
      assert x in f;
      var i :| 0 <= i < n && f[i] == x;
      assert g[if i == k then p else if i == p then k else i] == x;
    }
  }

  /** Column k of l is what partial pivoting leaves: no multiplier exceeds 1 in magnitude, and those of
      the rows that stood before the pivot row are smaller. */
  ghost predicate FirstLargest(l: Matrix, g: seq<nat>, n: nat, k: nat)
    requires Square(l, n) && Permutes(g, n) && k < n
  {
    && (forall i :: k < i < n ==> -1.0 <= l[i][k] <= 1.0)
    && (forall r :: k <= r < PlaceOf(g, n, k) ==> -1.0 < l[g[r]][k] < 1.0)
  }

  ghost predicate Chosen(pivoting: bool, l: Matrix, g: seq<nat>, n: nat, k: nat)
    requires Square(l, n) && Permutes(g, n) && k < n
  {
    if pivoting then FirstLargest(l, g, n, k) else g[k] == k
  }

  /** The row in position i still has to go to g[i]; each exchange brings the next row to its place. */
  ghost predicate AllChosen(pivoting: bool, l: Matrix, g: seq<nat>, n: nat, k: nat)
    requires Square(l, n) && Permutes(g, n)
    decreases n - k
  {
    k + 1 < n ==>
      && Chosen(pivoting, l, g, n, k)
      && (ExchangePermutes(g, n, k, PlaceOf(g, n, k));
          AllChosen(pivoting, l, Exchanged(g, k, PlaceOf(g, n, k)), n, k + 1))
  }

  /** The last diagonal entry is looked at only when there is a right-hand side. */
  function Tested(n: nat, m: nat): (r: nat)
    ensures r <= n
  {
    if m == 0 && n > 0 then n - 1 else n
  }

  /** Row i of a is row f[i] of l u. */
  ghost predicate IsProduct(a: Matrix, n: nat, f: seq<nat>, l: Matrix, u: Matrix)
    requires Square(a, n) && Permutes(f, n) && Square(l, n) && Square(u, n)
  {
    forall i, j :: 0 <= i < n && 0 <= j < n ==> a[i][j] == Dot(l[f[i]], Column(u, j))
  }

  ghost predicate Factored(pivoting: bool, a: Matrix, n: nat, m: nat, f: seq<nat>, l: Matrix, u: Matrix)
    requires Square(a, n)
  {
    && Permutes(f, n) && Square(l, n) && Square(u, n)
    && UnitLower(l, n) && Upper(u, n) && IsProduct(a, n, f, l, u)
    && (forall k :: 0 <= k < Tested(n, m) ==> NotSmall(u[k][k]))
    && AllChosen(pivoting, l, f, n, 0)
  }

  // ----- between the steps

  function Least(i: nat, k: nat): nat {
    if i < k then i else k
  }

  /** After k steps: rows and columns of l u from k on. */
  ghost predicate Stage(a: Matrix, n: nat, k: nat, g: seq<nat>, l: Matrix, u: Matrix)
    requires Square(a, n) && Permutes(g, n) && Square(l, n) && Square(u, n) && k <= n
  {
    && (forall i :: 0 <= i < k ==> g[i] == i)
    && (forall i, j :: 0 <= i < n && 0 <= j < n ==> Entry(a, n, k, g, l, u, i, j))
  }

  ghost predicate Entry(a: Matrix, n: nat, k: nat, g: seq<nat>, l: Matrix, u: Matrix, i: nat, j: nat)
    requires Square(a, n) && Permutes(g, n) && Square(l, n) && Square(u, n) && k <= n && i < n && j < n
  {
    a[i][j] == SumFrom(l[g[i]], Column(u, j), Least(i, k))
  }

  lemma {:induction false} SumOfZeros(r: seq<real>, x: seq<real>, i: nat)
    requires i <= |r| == |x| && forall c :: i <= c < |r| ==> r[c] == 0.0 || x[c] == 0.0
    ensures SumFrom(r, x, i) == 0.0
    decreases |r| - i
  {
    if i < |r| {
      SumOfZeros(r, x, i + 1);
    }
  }

  lemma {:induction false} SumSame(r: seq<real>, r': seq<real>, x: seq<real>, i: nat)
    requires i <= |r| == |r'| == |x| && forall c :: i <= c < |r| ==> r[c] == r'[c]
    ensures SumFrom(r, x, i) == SumFrom(r', x, i)
    decreases |r| - i
  {
    if i < |r| {
      SumSame(r, r', x, i + 1);
    }
  }

  /** Row i of l from its diagonal on is that of the unit matrix. */
  lemma OwnRow(l: Matrix, u: Matrix, n: nat, i: nat, j: nat)
    requires Square(l, n) && Square(u, n) && UnitLower(l, n) && i < n && j < n
    ensures SumFrom(l[i], Column(u, j), i) == u[i][j]
  {
    SumOfZeros(l[i], Column(u, j), i + 1);
  }

  /** Column k of u ends at its diagonal. */
  lemma OwnColumnEnds(l: Matrix, u: Matrix, n: nat, r: nat, k: nat)
    requires Square(l, n) && Square(u, n) && Upper(u, n) && r < n && k < n
    ensures SumFrom(l[r], Column(u, k), k) == l[r][k] * u[k][k]
  {
    assert forall c :: k < c < n ==> Column(u, k)[c] == 0.0;
    SumOfZeros(l[r], Column(u, k), k + 1);
    assert SumFrom(l[r], Column(u, k), k) == l[r][k] * Column(u, k)[k] + SumFrom(l[r], Column(u, k), k + 1);
  }

  /** The rows that are not yet in place go to later places. */
  lemma LaterPlace(g: seq<nat>, n: nat, k: nat, r: nat)
    requires Permutes(g, n) && k <= r < n && forall i :: 0 <= i < k ==> g[i] == i
    ensures g[r] >= k
  {
    var there := g[g[r]];
    forall c: nat | c < k
      ensures g[c] == c != g[r]
    {
      assert g[c] != g[r];
    }
  }

  lemma PivotColumn(a: Matrix, n: nat, k: nat, g: seq<nat>, l: Matrix, u: Matrix, r: nat)
    requires Square(a, n) && Permutes(g, n) && Square(l, n) && Square(u, n) && k <= r < n
    requires Stage(a, n, k, g, l, u) && Upper(u, n)
    ensures a[r][k] == l[g[r]][k] * u[k][k]
  {
    assert Entry(a, n, k, g, l, u, r, k);
    OwnColumnEnds(l, u, n, g[r], k);
  }

  // ----- an exchange

  lemma StageExchanged(a: Matrix, n: nat, k: nat, g: seq<nat>, l: Matrix, u: Matrix, p: nat)
    requires Square(a, n) && Permutes(g, n) && Square(l, n) && Square(u, n) && k <= p < n && Stage(a, n, k, g, l, u)
    ensures Square(Swapped(a, k, p), n) && Permutes(Exchanged(g, k, p), n)
    ensures Stage(Swapped(a, k, p), n, k, Exchanged(g, k, p), l, u)
  {
    var b, h := Swapped(a, k, p), Exchanged(g, k, p);
    ExchangePermutes(g, n, k, p);
    forall i, j | 0 <= i < n && 0 <= j < n
      ensures Entry(b, n, k, h, l, u, i, j)
    {
      assert Entry(a, n, k, g, l, u, if i == k then p else if i == p then k else i, j);
    }
  }

  lemma PlaceIs(g: seq<nat>, n: nat, k: nat, p: nat)
    requires Permutes(g, n) && k < n && p < n && g[p] == k
    ensures PlaceOf(g, n, k) == p
  {
  }

  // ----- an update

  /** Eliminating column k from row i takes one product away from a sum for which -r[k] is the multiplier. */
  lemma TakesAway(s: System, n: nat, m: nat, k: nat, i: nat, j: nat, r: seq<real>, x: seq<real>)
    requires Shaped(s, n, m) && k < i < n && j < n && s.a[k][k] != 0.0 && |r| == |x| == n
    requires -r[k] == Multiplier(s.a, n, k, i) && x[k] == s.a[k][j] && (j < k ==> x[k] == 0.0)
    ensures Updated(s, n, m, k).a[i][j] - s.a[i][j] == SumFrom(r, x, k + 1) - SumFrom(r, x, k)
  {
    hide Multiplier, SumFrom, AddScaled, Updated, Product;
    var t := Multiplier(s.a, n, k, i);
    UpdatedRowIs(s, n, m, k, i);
    var taken := ScaledAt(s.a[i], t, s.a[k], k, j);
    SumHead(r, x, k, t, taken);
  }

  lemma UpdatedRowIs(s: System, n: nat, m: nat, k: nat, i: nat)
    requires Shaped(s, n, m) && k < i < n && s.a[k][k] != 0.0
    ensures Updated(s, n, m, k).a[i] == AddScaled(s.a[i], Multiplier(s.a, n, k, i), s.a[k], k)
  {
  }

  lemma ScaledAt(r: seq<real>, t: real, q: seq<real>, k: nat, j: nat) returns (added: real)
    requires j < |r| == |q|
    ensures AddScaled(r, t, q, k)[j] == r[j] + (if j < k then 0.0 else added) && Product(t, q[j], added)
  {
    added := t * q[j];
  }

  ghost predicate Product(t: real, y: real, z: real) {
    z == t * y
  }

  lemma SumHead(r: seq<real>, x: seq<real>, k: nat, t: real, z: real)
    requires k < |r| == |x| && r[k] == -t && Product(t, x[k], z)
    ensures SumFrom(r, x, k) == SumFrom(r, x, k + 1) - z
    ensures x[k] == 0.0 ==> z == 0.0
  {
    var y := x[k];
    assert (-t) * y == -(t * y);
  }

  lemma MultiplierIs(x: real, y: real, d: real)
    requires d != 0.0 && x == y * d
    ensures -x / d == -y
  {
    assert (-y) * d == -x;
  }

  /** With the pivot row in place, eliminating column k takes the next row and column of l u away. */
  lemma StageUp(s: System, n: nat, m: nat, k: nat, g: seq<nat>, l: Matrix, u: Matrix)
    requires Shaped(s, n, m) && Permutes(g, n) && Square(l, n) && Square(u, n) && k < n
    requires UnitLower(l, n) && Upper(u, n) && Stage(s.a, n, k, g, l, u) && g[k] == k && s.a[k][k] != 0.0
    ensures Stage(Updated(s, n, m, k).a, n, k + 1, g, l, u)
  {
    hide Multiplier;
    var a', next := Updated(s, n, m, k).a, k + 1;
    forall i, j | 0 <= i < n && 0 <= j < n
      ensures Entry(a', n, next, g, l, u, i, j)
    {
      assert Entry(s.a, n, k, g, l, u, i, j);
      if i > k {
        StageUpEntry(s, n, m, k, g, l, u, i, j);
      }
    }
  }

  lemma StageUpEntry(s: System, n: nat, m: nat, k: nat, g: seq<nat>, l: Matrix, u: Matrix, i: nat, j: nat)
    requires Shaped(s, n, m) && Permutes(g, n) && Square(l, n) && Square(u, n) && k < i < n && j < n
    requires UnitLower(l, n) && Upper(u, n) && Stage(s.a, n, k, g, l, u) && g[k] == k && s.a[k][k] != 0.0
    ensures Entry(Updated(s, n, m, k).a, n, k + 1, g, l, u, i, j)
  {
    hide Stage, Multiplier, UnitLower, Upper, SumFrom, Updated;
    StageAt(s.a, n, k, g, l, u, i, j);
    StageAt(s.a, n, k, g, l, u, k, j);
    PivotColumn(s.a, n, k, g, l, u, i);
    PivotColumn(s.a, n, k, g, l, u, k);
    OwnRow(l, u, n, k, j);
    Diagonal(l, u, n, k);
    MultiplierIs(s.a[i][k], l[g[i]][k], s.a[k][k]);
    MultiplierAt(s.a, n, k, i);
    TakesAway(s, n, m, k, i, j, l[g[i]], Column(u, j));
  }

  lemma StageAt(a: Matrix, n: nat, k: nat, g: seq<nat>, l: Matrix, u: Matrix, i: nat, j: nat)
    requires Square(a, n) && Permutes(g, n) && Square(l, n) && Square(u, n) && k <= n && i < n && j < n && Stage(a, n, k, g, l, u)
    ensures Entry(a, n, k, g, l, u, i, j)
  {
  }

  lemma Diagonal(l: Matrix, u: Matrix, n: nat, k: nat)
    requires Square(l, n) && Square(u, n) && UnitLower(l, n) && Upper(u, n) && k < n
    ensures l[k][k] == 1.0 && forall j :: 0 <= j < k ==> u[k][j] == 0.0
  {
  }

  lemma MultiplierAt(a: Matrix, n: nat, k: nat, i: nat)
    requires Square(a, n) && k < n && i < n && a[k][k] != 0.0
    ensures Multiplier(a, n, k, i) == -a[i][k] / a[k][k]
  {
  }

  /** l with the multipliers of step k in column k, each in the row where its row will be. */
  ghost function WithColumn(l: Matrix, a: Matrix, n: nat, k: nat, g: seq<nat>): (l': Matrix)
    requires Square(l, n) && Square(a, n) && Permutes(g, n) && k < n && a[k][k] != 0.0
    ensures Square(l', n)
  {
    seq(n, r requires 0 <= r < n => if r <= k then l[r] else l[r][k := -Multiplier(a, n, k, PlaceOf(g, n, r))])
  }

  lemma WithColumnAt(l: Matrix, a: Matrix, n: nat, k: nat, g: seq<nat>, i: nat)
    requires Square(l, n) && Square(a, n) && Permutes(g, n) && k < i < n && a[k][k] != 0.0
    requires forall c :: 0 <= c <= k ==> g[c] == c
    ensures g[i] > k && WithColumn(l, a, n, k, g)[g[i]] == l[g[i]][k := -Multiplier(a, n, k, i)]
  {
    LaterPlace(g, n, k + 1, i);
    PlaceIs(g, n, g[i], i);
  }

  /** And back: the matrix before the update has one row and column more. */
  lemma StageDown(s: System, n: nat, m: nat, k: nat, g: seq<nat>, l: Matrix, u: Matrix)
    requires Shaped(s, n, m) && Permutes(g, n) && Square(l, n) && Square(u, n) && k < n && s.a[k][k] != 0.0
    requires UnitLower(l, n) && Upper(u, n) && Stage(Updated(s, n, m, k).a, n, k + 1, g, l, u)
    ensures UnitLower(WithColumn(l, s.a, n, k, g), n) && u[k][k] == s.a[k][k]
    ensures Stage(s.a, n, k, g, WithColumn(l, s.a, n, k, g), u)
  {
    hide Multiplier, UnitLower, Upper, Stage, Updated, WithColumn, SumFrom, Entry;
    var l' := WithColumn(l, s.a, n, k, g);
    WithColumnUnit(l, s.a, n, k, g);
    StagePlaces(Updated(s, n, m, k).a, n, k + 1, g, l, u);
    forall i, j | 0 <= i < n && 0 <= j < n
      ensures s.a[k][j] == u[k][j] && Entry(s.a, n, k, g, l', u, i, j)
    {
      StageDownEntry(s, n, m, k, g, l, u, i, j);
    }
    EntriesAreStage(s.a, n, k, g, l', u);
    StageDownEntry(s, n, m, k, g, l, u, k, k);
  }

  lemma EntriesAreStage(a: Matrix, n: nat, k: nat, g: seq<nat>, l: Matrix, u: Matrix)
    requires Square(a, n) && Permutes(g, n) && Square(l, n) && Square(u, n) && k <= n
    requires (forall i :: 0 <= i < k ==> g[i] == i) && forall i, j :: 0 <= i < n && 0 <= j < n ==> Entry(a, n, k, g, l, u, i, j)
    ensures Stage(a, n, k, g, l, u)
  {
  }

  lemma StageDownEntry(s: System, n: nat, m: nat, k: nat, g: seq<nat>, l: Matrix, u: Matrix, i: nat, j: nat)
    requires Shaped(s, n, m) && Permutes(g, n) && Square(l, n) && Square(u, n) && k < n && s.a[k][k] != 0.0 && i < n && j < n
    requires UnitLower(l, n) && Upper(u, n) && Stage(Updated(s, n, m, k).a, n, k + 1, g, l, u)
    ensures s.a[k][j] == u[k][j] && Entry(s.a, n, k, g, WithColumn(l, s.a, n, k, g), u, i, j)
  {
    hide Stage, Multiplier, UnitLower, Upper, SumFrom, WithColumn, Updated;
    var l', a' := WithColumn(l, s.a, n, k, g), Updated(s, n, m, k).a;
    StagePlaces(a', n, k + 1, g, l, u);
    StageAt(a', n, k + 1, g, l, u, i, j);
    StageAt(a', n, k + 1, g, l, u, k, j);
    UpperRows(s, n, m, k);
    OwnRow(l, u, n, k, j);
    Diagonal(l, u, n, k);
    if i > k {
      WithColumnAt(l, s.a, n, k, g, i);
      TakesAway(s, n, m, k, i, j, l'[g[i]], Column(u, j));
      SumSame(l[g[i]], l'[g[i]], Column(u, j), k + 1);
    } else {
      WithColumnAbove(l, s.a, n, k, g, i);
    }
  }

  lemma UpperRows(s: System, n: nat, m: nat, k: nat)
    requires Shaped(s, n, m) && k < n && s.a[k][k] != 0.0
    ensures forall i :: 0 <= i <= k ==> Updated(s, n, m, k).a[i] == s.a[i]
  {
  }

  lemma WithColumnAbove(l: Matrix, a: Matrix, n: nat, k: nat, g: seq<nat>, i: nat)
    requires Square(l, n) && Square(a, n) && Permutes(g, n) && i <= k < n && a[k][k] != 0.0
    ensures WithColumn(l, a, n, k, g)[i] == l[i]
  {
  }

  lemma WithColumnUnit(l: Matrix, a: Matrix, n: nat, k: nat, g: seq<nat>)
    requires Square(l, n) && Square(a, n) && Permutes(g, n) && k < n && a[k][k] != 0.0 && UnitLower(l, n)
    ensures UnitLower(WithColumn(l, a, n, k, g), n)
  {
  }

  // ----- the choice of the pivot

  /** The pivot row is the first of the largest magnitude. */
  lemma {:induction false} PivotFromFirst(a: Matrix, n: nat, k: nat, i: nat, best: nat)
    requires Square(a, n) && k < n && k <= best < i <= n
    ensures var p := PivotFrom(a, n, k, i, best);
            && (p == best || (p >= i && Abs(a[best][k]) < Abs(a[p][k])))
            && forall r :: i <= r < p ==> Abs(a[r][k]) < Abs(a[p][k])
    decreases n - i
  {
    hide Abs;
    if i < n {
      var best' := if Abs(a[i][k]) > Abs(a[best][k]) then i else best;
      PivotFromFirst(a, n, k, i + 1, best');
    }
  }

  /** p is in position to be the pivot row of step k. */
  ghost predicate FirstMax(a: Matrix, n: nat, k: nat, p: nat)
    requires Square(a, n) && k <= p < n
  {
    && (forall r :: k <= r < n ==> Abs(a[r][k]) <= Abs(a[p][k]))
    && (forall r :: k <= r < p ==> Abs(a[r][k]) < Abs(a[p][k]))
  }

  lemma PivotIsFirstMax(s: System, n: nat, m: nat, k: nat, p: nat)
    requires Shaped(s, n, m) && k <= p < n
    ensures PivotOf(true, s, n, m, k) == p <==> FirstMax(s.a, n, k, p)
  {
    hide FirstMax, PivotFrom;
    var c := PivotFrom(s.a, n, k, k + 1, k);
    PivotFromIsFirstMax(s.a, n, k);
    if FirstMax(s.a, n, k, p) {
      OneFirstMax(s.a, n, k, p, c);
    }
  }

  lemma PivotFromIsFirstMax(a: Matrix, n: nat, k: nat)
    requires Square(a, n) && k < n
    ensures FirstMax(a, n, k, PivotFrom(a, n, k, k + 1, k))
  {
    hide Abs, PivotFrom;
    PivotFromFirst(a, n, k, k + 1, k);
  }

  lemma OneFirstMax(a: Matrix, n: nat, k: nat, p: nat, c: nat)
    requires Square(a, n) && k <= p < n && k <= c < n && FirstMax(a, n, k, p) && FirstMax(a, n, k, c)
    ensures p == c
  {
    hide Abs;
    var x, y := Abs(a[p][k]), Abs(a[c][k]);
  }

  lemma NotSmallIs(x: real)
    ensures NotSmall(x) <==> Abs(x) >= EPS
    ensures NotSmall(x) ==> x != 0.0
  {
  }

  /** A fraction of d is at most d in magnitude when it is at most 1, and smaller when it is smaller. */
  lemma FractionOf(x: real, y: real, d: real)
    requires d != 0.0 && x == y * d
    ensures Abs(x) <= Abs(d) <==> -1.0 <= y <= 1.0
    ensures Abs(x) < Abs(d) <==> -1.0 < y < 1.0
  {
    hide Abs;
    AbsMul(y, d);
    AbsPositive(d);
    Scaled(Abs(y), Abs(d));
    assert Abs(y) <= 1.0 <==> -1.0 <= y <= 1.0 by { AbsUnit(y); }
    assert Abs(y) < 1.0 <==> -1.0 < y < 1.0 by { AbsUnit(y); }
  }

  lemma AbsPositive(d: real)
    requires d != 0.0
    ensures Abs(d) > 0.0
  {
  }

  lemma AbsUnit(y: real)
    ensures Abs(y) <= 1.0 <==> -1.0 <= y <= 1.0
    ensures Abs(y) < 1.0 <==> -1.0 < y < 1.0
  {
  }

  lemma Scaled(v: real, d: real)
    requires d > 0.0
    ensures v * d <= d <==> v <= 1.0
    ensures v * d < d <==> v < 1.0
  {
    assert (v - 1.0) * d == v * d - d;
    if v > 1.0 { assert (v - 1.0) * d > 0.0; }
    if v < 1.0 { assert (1.0 - v) * d > 0.0; }
  }

  /** The row that has to go to place k next is the pivot row exactly when column k of l is that of partial
      pivoting. */
  lemma ChosenIffPivot(pivoting: bool, s: System, n: nat, m: nat, k: nat, g: seq<nat>, l: Matrix, u: Matrix)
    requires Shaped(s, n, m) && Permutes(g, n) && Square(l, n) && Square(u, n) && k < n
    requires UnitLower(l, n) && Upper(u, n) && Stage(s.a, n, k, g, l, u) && NotSmall(u[k][k])
    ensures PlaceOf(g, n, k) >= k && s.a[PlaceOf(g, n, k)][k] == u[k][k]
    ensures Chosen(pivoting, l, g, n, k) <==> PivotOf(pivoting, s, n, m, k) == PlaceOf(g, n, k)
  {
    hide Abs, Entry, UnitLower;
    var p := PlaceOf(g, n, k);
    assert p >= k;
    PivotColumn(s.a, n, k, g, l, u, p);
    assert l[k][k] == 1.0 by { Diagonal(l, u, n, k); }
    NotSmallIs(u[k][k]);
    if pivoting {
      PivotIsFirstMax(s, n, m, k, p);
      FirstMaxIs(s.a, n, k, g, l, u);
    }
  }

  lemma FirstMaxIs(a: Matrix, n: nat, k: nat, g: seq<nat>, l: Matrix, u: Matrix)
    requires Square(a, n) && Permutes(g, n) && Square(l, n) && Square(u, n) && k < n && k <= PlaceOf(g, n, k)
    requires UnitLower(l, n) && Upper(u, n) && Stage(a, n, k, g, l, u) && u[k][k] != 0.0
    requires a[PlaceOf(g, n, k)][k] == u[k][k]
    ensures FirstMax(a, n, k, PlaceOf(g, n, k)) <==> FirstLargest(l, g, n, k)
  {
    hide Abs, Entry, Stage, UnitLower, Upper;
    var p, d := PlaceOf(g, n, k), u[k][k];
    forall r | k <= r < n
      ensures g[r] >= k
      ensures Abs(a[r][k]) <= Abs(d) <==> -1.0 <= l[g[r]][k] <= 1.0
      ensures Abs(a[r][k]) < Abs(d) <==> -1.0 < l[g[r]][k] < 1.0
    {
      PivotColumn(a, n, k, g, l, u, r);
      FractionOf(a[r][k], l[g[r]][k], d);
      assert g[r] >= k by { StagePlaces(a, n, k, g, l, u); LaterPlace(g, n, k, r); }
    }
    if FirstMax(a, n, k, p) {
      forall i | k < i < n
        ensures -1.0 <= l[i][k] <= 1.0
      {
        var r := PlaceOf(g, n, i);
        assert r >= k by { StagePlaces(a, n, k, g, l, u); }
        assert Abs(a[r][k]) <= Abs(d);
      }
    }
    if FirstLargest(l, g, n, k) {
      forall r | k <= r < n
        ensures Abs(a[r][k]) <= Abs(d)
      {
        assert g[r] > k || r == p;
      }
    }
  }

  lemma StagePlaces(a: Matrix, n: nat, k: nat, g: seq<nat>, l: Matrix, u: Matrix)
    requires Square(a, n) && Permutes(g, n) && Square(l, n) && Square(u, n) && k <= n && Stage(a, n, k, g, l, u)
    ensures forall i :: 0 <= i < k ==> g[i] == i
  {
  }

  // ----- one step of the solver

  lemma StepUp(pivoting: bool, s: System, n: nat, m: nat, k: nat, g: seq<nat>, l: Matrix, u: Matrix)
    requires Shaped(s, n, m) && Permutes(g, n) && Square(l, n) && Square(u, n) && k < n
    requires UnitLower(l, n) && Upper(u, n) && Stage(s.a, n, k, g, l, u)
    requires NotSmall(u[k][k]) && Chosen(pivoting, l, g, n, k)
    ensures ElimStep(pivoting, s, n, m, k).Ok? && Permutes(Exchanged(g, k, PlaceOf(g, n, k)), n)
    ensures Stage(ElimStep(pivoting, s, n, m, k).s.a, n, k + 1, Exchanged(g, k, PlaceOf(g, n, k)), l, u)
  {
    hide Stage, UnitLower, Upper, Chosen, Updated, Abs, PivotOf;
    var p := PlaceOf(g, n, k);
    ChosenIffPivot(pivoting, s, n, m, k, g, l, u);
    StageExchanged(s.a, n, k, g, l, u, p);
    NotSmallIs(u[k][k]);
    StageUp(Pivoted(pivoting, s, n, m, k), n, m, k, Exchanged(g, k, p), l, u);
  }

  lemma ExchangedBack(g: seq<nat>, n: nat, k: nat, p: nat)
    requires Permutes(g, n) && k < n && p < n
    ensures Exchanged(Exchanged(g, k, p), k, p) == g
  {
  }

  lemma SwappedBack(a: Matrix, k: nat, p: nat)
    requires k < |a| && p < |a|
    ensures Swapped(Swapped(a, k, p), k, p) == a
  {
  }

  lemma StepDown(pivoting: bool, s: System, n: nat, m: nat, k: nat, g': seq<nat>, l: Matrix, u: Matrix) returns (g: seq<nat>, l': Matrix)
    requires Shaped(s, n, m) && Permutes(g', n) && Square(l, n) && Square(u, n) && k < n
    requires UnitLower(l, n) && Upper(u, n) && ElimStep(pivoting, s, n, m, k).Ok?
    requires Stage(ElimStep(pivoting, s, n, m, k).s.a, n, k + 1, g', l, u)
    ensures Permutes(g, n) && Square(l', n) && UnitLower(l', n) && Stage(s.a, n, k, g, l', u)
    ensures NotSmall(u[k][k]) && Chosen(pivoting, l', g, n, k) && Exchanged(g, k, PlaceOf(g, n, k)) == g'
    ensures forall r, c :: 0 <= r < n && k < c < n ==> l'[r][c] == l[r][c]
  {
    hide Stage, UnitLower, Upper, Chosen, Updated, Abs, PivotOf, WithColumn;
    var p, b := PivotOf(pivoting, s, n, m, k), Pivoted(pivoting, s, n, m, k);
    NotSmallIs(b.a[k][k]);
    StageDown(b, n, m, k, g', l, u);
    l' := WithColumn(l, b.a, n, k, g');
    g := Exchanged(g', k, p);
    StageExchanged(b.a, n, k, g', l', u, p);
    ExchangedBack(g', n, k, p);
    SwappedBack(s.a, k, p);
    assert g'[k] == k by { StagePlaces(Updated(b, n, m, k).a, n, k + 1, g', l, u); }
    PlaceIs(g, n, k, p);
    ChosenIffPivot(pivoting, s, n, m, k, g, l', u);
    WithColumnElsewhere(l, b.a, n, k, g');
  }

  lemma WithColumnElsewhere(l: Matrix, a: Matrix, n: nat, k: nat, g: seq<nat>)
    requires Square(l, n) && Square(a, n) && Permutes(g, n) && k < n && a[k][k] != 0.0
    ensures forall r, c :: 0 <= r < n && k < c < n ==> WithColumn(l, a, n, k, g)[r][c] == l[r][c]
  {
  }

  lemma {:induction false} AllChosenLocal(pivoting: bool, l: Matrix, l': Matrix, g: seq<nat>, n: nat, k: nat)
    requires Square(l, n) && Square(l', n) && Permutes(g, n) && AllChosen(pivoting, l, g, n, k)
    requires forall r, c :: 0 <= r < n && k <= c < n ==> l'[r][c] == l[r][c]
    ensures AllChosen(pivoting, l', g, n, k)
    decreases n - k
  {
    if k + 1 < n {
      ExchangePermutes(g, n, k, PlaceOf(g, n, k));
      AllChosenLocal(pivoting, l, l', Exchanged(g, k, PlaceOf(g, n, k)), n, k + 1);
    }
  }

  // ----- the whole elimination

  /** Given factors, every step finds the pivot they prescribe. */
  lemma {:induction false} FactorsUp(pivoting: bool, s: System, n: nat, m: nat, f: seq<nat>, l: Matrix, u: Matrix, k: nat) returns (g: seq<nat>)
    requires Shaped(s, n, m) && Factored(pivoting, s.a, n, m, f, l, u) && k <= Steps(n)
    ensures Eliminated(pivoting, s, n, m, k).Ok? && Permutes(g, n)
    ensures Stage(Eliminated(pivoting, s, n, m, k).s.a, n, k, g, l, u) && AllChosen(pivoting, l, g, n, k)
  {
    hide Stage, UnitLower, Upper, Chosen, ElimStep;
    if k == 0 {
      g := f;
      StartStage(s.a, n, f, l, u);
    } else {
      var h := FactorsUp(pivoting, s, n, m, f, l, u, k - 1);
      StepUp(pivoting, Eliminated(pivoting, s, n, m, k - 1).s, n, m, k - 1, h, l, u);
      g := Exchanged(h, k - 1, PlaceOf(h, n, k - 1));
    }
  }

  lemma StartStage(a: Matrix, n: nat, f: seq<nat>, l: Matrix, u: Matrix)
    requires Square(a, n) && Permutes(f, n) && Square(l, n) && Square(u, n)
    ensures Stage(a, n, 0, f, l, u) <==> IsProduct(a, n, f, l, u)
  {
    if Stage(a, n, 0, f, l, u) {
      forall i, j | 0 <= i < n && 0 <= j < n
        ensures a[i][j] == Dot(l[f[i]], Column(u, j))
      {
        assert Entry(a, n, 0, f, l, u, i, j);
      }
    }
  }

  /** When all steps are done, the diagonal is that of u. */
  lemma EndStage(a: Matrix, n: nat, g: seq<nat>, l: Matrix, u: Matrix)
    requires Square(a, n) && Permutes(g, n) && Square(l, n) && Square(u, n) && UnitLower(l, n) && Stage(a, n, Steps(n), g, l, u)
    ensures forall i :: 0 <= i < n ==> a[i][i] == u[i][i]
  {
    forall i | 0 <= i < n
      ensures a[i][i] == u[i][i]
    {
      if i == n - 1 {
        LaterPlace(g, n, n - 1, i);
      }
      assert Entry(a, n, Steps(n), g, l, u, i, i);
      OwnRow(l, u, n, i, i);
    }
  }

  ghost function Unit(n: nat): (l: Matrix)
    ensures Square(l, n) && UnitLower(l, n)
  {
    seq(n, i requires 0 <= i < n => seq(n, c requires 0 <= c < n => if i == c then 1.0 else 0.0))
  }

  ghost function Identity(n: nat): (f: seq<nat>)
    ensures Permutes(f, n) && forall i :: 0 <= i < n ==> f[i] == i
  {
    var f: seq<nat> := seq(n, i requires 0 <= i < n => i);
    IdentityPermutes(f, n);
    f
  }

  lemma IdentityPermutes(f: seq<nat>, n: nat)
    requires |f| == n && forall i :: 0 <= i < n ==> f[i] == i
    ensures Permutes(f, n)
  {
    forall k: nat | k < n
      ensures k in f
    {
      assert f[k] == k;
    }
  }

  lemma LastStage(a: Matrix, n: nat)
    requires Square(a, n) && Triangular(a, n, Steps(n))
    ensures Upper(a, n) && Stage(a, n, Steps(n), Identity(n), Unit(n), a)
  {
    forall i, j | 0 <= i < n && 0 <= j < n
      ensures Entry(a, n, Steps(n), Identity(n), Unit(n), a, i, j)
    {
      OwnRow(Unit(n), a, n, i, j);
    }
  }

  lemma EliminatedBefore(pivoting: bool, s: System, n: nat, m: nat, k: nat)
    requires Shaped(s, n, m) && k < n && Eliminated(pivoting, s, n, m, k + 1).Ok?
    ensures Eliminated(pivoting, s, n, m, k).Ok?
    ensures Eliminated(pivoting, s, n, m, k + 1) == ElimStep(pivoting, Eliminated(pivoting, s, n, m, k).s, n, m, k)
  {
  }

  /** A finished elimination, read backwards, gives the factors. */
  lemma {:induction false} FactorsDown(pivoting: bool, s: System, n: nat, m: nat, k: nat) returns (g: seq<nat>, l: Matrix, u: Matrix)
    requires Shaped(s, n, m) && k <= Steps(n) && Eliminated(pivoting, s, n, m, Steps(n)).Ok?
    ensures Eliminated(pivoting, s, n, m, k).Ok?
    ensures Permutes(g, n) && Square(l, n) && Square(u, n) && UnitLower(l, n) && Upper(u, n)
    ensures Stage(Eliminated(pivoting, s, n, m, k).s.a, n, k, g, l, u) && AllChosen(pivoting, l, g, n, k)
    ensures forall c :: k <= c < Steps(n) ==> NotSmall(u[c][c])
    ensures u == Eliminated(pivoting, s, n, m, Steps(n)).s.a
    decreases Steps(n) - k
  {
    hide Stage, UnitLower, Upper, Chosen, ElimStep, Eliminated, NotSmall;
    if k == Steps(n) {
      EliminationKeeps(pivoting, s, n, m, k);
      u := Eliminated(pivoting, s, n, m, k).s.a;
      LastStage(u, n);
      g, l := Identity(n), Unit(n);
    } else {
      var h, l1;
      h, l1, u := FactorsDown(pivoting, s, n, m, k + 1);
      EliminatedBefore(pivoting, s, n, m, k);
      g, l := StepDown(pivoting, Eliminated(pivoting, s, n, m, k).s, n, m, k, h, l1, u);
      AllChosenLocal(pivoting, l1, l, h, n, k + 1);
    }
  }

  /** Acceptance: the solver answers 0 exactly when the matrix has such factors. */
  lemma AcceptsIffFactored(pivoting: bool, s: System, n: nat, m: nat)
    requires Shaped(s, n, m)
    ensures Accepts(pivoting, s, n, m) <==> exists f, l, u :: Factored(pivoting, s.a, n, m, f, l, u)
  {
    hide Eliminated, Stage, UnitLower, Upper, AllChosen, IsProduct;
    if f, l, u :| Factored(pivoting, s.a, n, m, f, l, u) {
      var g := FactorsUp(pivoting, s, n, m, f, l, u, Steps(n));
      EndStage(Eliminated(pivoting, s, n, m, Steps(n)).s.a, n, g, l, u);
      forall i | 0 <= i < Tested(n, m)
        ensures Abs(u[i][i]) >= EPS
      {
        NotSmallIs(u[i][i]);
      }
    }
    if Accepts(pivoting, s, n, m) {
      var f, l, u := FactorsDown(pivoting, s, n, m, 0);
      assert Eliminated(pivoting, s, n, m, 0).s == s by { NothingDone(pivoting, s, n, m); }
      StartStage(s.a, n, f, l, u);
      forall i | 0 <= i < Tested(n, m)
        ensures NotSmall(u[i][i])
      {
        if i == n - 1 {
          DiagonalTested(u, n, i);
        }
      }
      assert Factored(pivoting, s.a, n, m, f, l, u);
    }
  }

  lemma DiagonalTested(a: Matrix, n: nat, i: nat)
    requires Square(a, n) && i < n && !SmallDiagonal(a, n, 0)
    ensures NotSmall(a[i][i])
  {
    assert !(Abs(a[i][i]) < EPS);
  }

  lemma NothingDone(pivoting: bool, s: System, n: nat, m: nat)
    requires Shaped(s, n, m)
    ensures Eliminated(pivoting, s, n, m, 0) == Ok(s)
  {
  }

  // ----- without pivoting

  lemma {:induction false} PlainIsIdentity(l: Matrix, g: seq<nat>, n: nat, k: nat)
    requires Square(l, n) && Permutes(g, n) && k <= n && forall i :: 0 <= i < k ==> g[i] == i
    ensures AllChosen(false, l, g, n, k) <==> forall i :: 0 <= i < n ==> g[i] == i
    decreases n - k
  {
    if k + 1 < n {
      var p := PlaceOf(g, n, k);
      ExchangePermutes(g, n, k, p);
      if g[k] == k {
        PlaceIs(g, n, k, k);
        assert p == k && Exchanged(g, k, k) == g;
        PlainIsIdentity(l, g, n, k + 1);
      }
    } else if k < n {
      LaterPlace(g, n, k, k);
    }
  }

  /** The matrix is l u. */
  ghost predicate HasFactors(a: Matrix, n: nat, m: nat, l: Matrix, u: Matrix)
    requires Square(a, n)
  {
    && Square(l, n) && Square(u, n) && UnitLower(l, n) && Upper(u, n)
    && (forall i, j :: 0 <= i < n && 0 <= j < n ==> a[i][j] == Dot(l[i], Column(u, j)))
    && (forall k :: 0 <= k < Tested(n, m) ==> NotSmall(u[k][k]))
  }

  /** The plain solver accepts exactly the matrices l u with no small entry on the diagonal of u. */
  lemma PlainAcceptsIff(s: System, n: nat, m: nat)
    requires Shaped(s, n, m)
    ensures Accepts(false, s, n, m) <==> exists l, u :: HasFactors(s.a, n, m, l, u)
  {
    hide Accepts, AllChosen, UnitLower, Upper, NotSmall, Dot;
    AcceptsIffFactored(false, s, n, m);
    if Accepts(false, s, n, m) {
      var f, l, u :| Factored(false, s.a, n, m, f, l, u);
      PlainIsIdentity(l, f, n, 0);
      assert HasFactors(s.a, n, m, l, u);
    }
    if l, u :| HasFactors(s.a, n, m, l, u) {
      PlainIsIdentity(l, Identity(n), n, 0);
      assert Factored(false, s.a, n, m, Identity(n), l, u);
    }
  }

  // ----- with pivoting

  /** Factors of the matrix with its rows rearranged by f, whose multipliers are at most 1, or smaller. */
  ghost predicate Pivotal(strict: bool, a: Matrix, n: nat, m: nat, f: seq<nat>, l: Matrix, u: Matrix)
    requires Square(a, n)
  {
    && Permutes(f, n) && Square(l, n) && Square(u, n)
    && UnitLower(l, n) && Upper(u, n) && IsProduct(a, n, f, l, u)
    && (forall k :: 0 <= k < Tested(n, m) ==> NotSmall(u[k][k]))
    && (forall i, c :: 0 <= c < i < n ==> -1.0 <= l[i][c] <= 1.0)
    && (strict ==> forall i, c :: 0 <= c < i < n ==> -1.0 < l[i][c] < 1.0)
  }

  lemma {:induction false} ChosenIsBounded(l: Matrix, g: seq<nat>, n: nat, k: nat)
    requires Square(l, n) && Permutes(g, n) && AllChosen(true, l, g, n, k)
    ensures forall i, c :: k <= c < i < n ==> -1.0 <= l[i][c] <= 1.0
    decreases n - k
  {
    if k + 1 < n {
      ExchangePermutes(g, n, k, PlaceOf(g, n, k));
      ChosenIsBounded(l, Exchanged(g, k, PlaceOf(g, n, k)), n, k + 1);
    }
  }

  lemma {:induction false} StrictIsChosen(l: Matrix, g: seq<nat>, n: nat, k: nat)
    requires Square(l, n) && Permutes(g, n) && k <= n && forall i :: 0 <= i < k ==> g[i] == i
    requires forall i, c :: 0 <= c < i < n ==> -1.0 < l[i][c] < 1.0
    ensures AllChosen(true, l, g, n, k)
    decreases n - k
  {
    if k + 1 < n {
      hide Permutes, PlaceOf;
      var p := PlaceOf(g, n, k);
      ExchangePermutes(g, n, k, p);
      NextPlaced(g, n, k);
      assert FirstLargest(l, g, n, k);
      StrictIsChosen(l, Exchanged(g, k, p), n, k + 1);
    }
  }

  lemma NextPlaced(g: seq<nat>, n: nat, k: nat)
    requires Permutes(g, n) && k < n && forall i :: 0 <= i < k ==> g[i] == i
    ensures k <= PlaceOf(g, n, k) && forall i :: 0 <= i <= k ==> Exchanged(g, k, PlaceOf(g, n, k))[i] == i
    ensures forall r :: k <= r < PlaceOf(g, n, k) ==> k < g[r] < n
  {
    forall r | k <= r < PlaceOf(g, n, k)
      ensures k < g[r] < n
    {
      LaterPlace(g, n, k, r);
    }
  }

  /** What the pivoting solver accepts has factors with multipliers of at most 1, and what has factors with
      smaller multipliers it accepts. */
  lemma PivotingAccepts(s: System, n: nat, m: nat)
    requires Shaped(s, n, m)
    ensures Accepts(true, s, n, m) ==> exists f, l, u :: Pivotal(false, s.a, n, m, f, l, u)
    ensures (exists f, l, u :: Pivotal(true, s.a, n, m, f, l, u)) ==> Accepts(true, s, n, m)
  {
    hide Accepts, AllChosen, UnitLower, Upper, NotSmall, IsProduct;
    AcceptsIffFactored(true, s, n, m);
    if Accepts(true, s, n, m) {
      var f, l, u :| Factored(true, s.a, n, m, f, l, u);
      ChosenIsBounded(l, f, n, 0);
      assert Pivotal(false, s.a, n, m, f, l, u);
    }
    if f, l, u :| Pivotal(true, s.a, n, m, f, l, u) {
      StrictIsChosen(l, f, n, 0);
      assert Factored(true, s.a, n, m, f, l, u);
    }
  }

  // ----- ties

  /** 1.2 times the least pivot that is not small. */
  const TINY: real := 0.00000000012

  const TIED: Matrix := [[1.0, 1.0, 0.0], [1.0, 0.0, 0.0], [-0.5, 1.0, TINY]]

  /** Multipliers of at most 1 are not enough: here rows 0 and 1 tie for the first pivot. Taking row 1 leads
      to factors without a small diagonal entry, but the solver takes row 0 and ends at two thirds of TINY. */
  lemma TiesMatter(b: Matrix)
    requires |b| == 3 && forall i :: 0 <= i < 3 ==> |b[i]| == 1
    ensures exists f, l, u :: Pivotal(false, TIED, 3, 1, f, l, u)
    ensures !Accepts(true, System(TIED, b), 3, 1)
  {
    TiedFactors();
    TiedRejected(b);
  }

  lemma Dot3(r: seq<real>, x: seq<real>)
    requires |r| == |x| == 3
    ensures Dot(r, x) == r[0] * x[0] + r[1] * x[1] + r[2] * x[2]
  {
    assert SumFrom(r, x, 2) == r[2] * x[2] + SumFrom(r, x, 3);
    assert SumFrom(r, x, 1) == r[1] * x[1] + SumFrom(r, x, 2);
  }

  lemma TiedFactors()
    ensures exists f, l, u :: Pivotal(false, TIED, 3, 1, f, l, u)
  {
    var f: seq<nat>, l: Matrix := [1, 0, 2], [[1.0, 0.0, 0.0], [1.0, 1.0, 0.0], [-0.5, 1.0, 1.0]];
    var u: Matrix := [[1.0, 0.0, 0.0], [0.0, 1.0, 0.0], [0.0, 0.0, TINY]];
    assert f[0] == 1 && f[1] == 0 && f[2] == 2;
    forall i, j | 0 <= i < 3 && 0 <= j < 3
      ensures TIED[i][j] == Dot(l[f[i]], Column(u, j))
    {
      Dot3(l[f[i]], Column(u, j));
    }
    assert Pivotal(false, TIED, 3, 1, f, l, u);
  }

  lemma TiedRejected(b: Matrix)
    requires |b| == 3 && forall i :: 0 <= i < 3 ==> |b[i]| == 1
    ensures !Accepts(true, System(TIED, b), 3, 1)
  {
    var s := System(TIED, b);
    var e1 := TiedFirst(s);
    var e2 := TiedSecond(e1);
    assert Eliminated(true, s, 3, 1, 0) == Ok(s);
    assert Eliminated(true, s, 3, 1, 1) == Ok(e1);
    assert Eliminated(true, s, 3, 1, 2) == Ok(e2);
    assert Abs(e2.a[2][2]) < EPS;
  }

  lemma TiedFirst(s: System) returns (e: System)
    requires Shaped(s, 3, 1) && s.a == TIED
    ensures Shaped(e, 3, 1) && ElimStep(true, s, 3, 1, 0) == Ok(e)
    ensures e.a == [[1.0, 1.0, 0.0], [0.0, -1.0, 0.0], [0.0, 1.5, TINY]]
  {
    PivotIsFirstMax(s, 3, 1, 0, 0);
    var p := Pivoted(true, s, 3, 1, 0);
    assert p.a == TIED;
    e := Updated(p, 3, 1, 0);
    assert Multiplier(p.a, 3, 0, 1) == -1.0 && Multiplier(p.a, 3, 0, 2) == 0.5;
    assert e.a[1] == AddScaled(p.a[1], -1.0, p.a[0], 0) == [0.0, -1.0, 0.0];
    assert e.a[2] == AddScaled(p.a[2], 0.5, p.a[0], 0) == [0.0, 1.5, TINY];
  }

  lemma TiedSecond(s: System) returns (e: System)
    requires Shaped(s, 3, 1) && s.a == [[1.0, 1.0, 0.0], [0.0, -1.0, 0.0], [0.0, 1.5, TINY]]
    ensures Shaped(e, 3, 1) && ElimStep(true, s, 3, 1, 1) == Ok(e)
    ensures e.a[2][2] == 0.00000000008
  {
    PivotIsFirstMax(s, 3, 1, 1, 2);
    var p := Pivoted(true, s, 3, 1, 1);
    assert p.a == [[1.0, 1.0, 0.0], [0.0, 1.5, TINY], [0.0, -1.0, 0.0]];
    e := Updated(p, 3, 1, 1);
    var t := Multiplier(p.a, 3, 1, 2);
    assert t * 1.5 == 1.0;
    assert e.a[2] == AddScaled(p.a[2], t, p.a[1], 1);
  }
}
