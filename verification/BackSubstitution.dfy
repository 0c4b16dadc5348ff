/** Back substitution on values, and what the whole solver computes: soundness, uniqueness, agreement
    of the two solvers, and independence of the order in which columns are processed. */
module BackSubstitution {
  import opened Elimination

  /** The division of the machine; what it gives for a zero divisor is left open. */
  type Division = (real, real) -> real

  ghost predicate Exact(q: Division) {
    forall t, d :: d != 0.0 ==> q(t, d) == t / d
  }

  ghost predicate Square(a: Matrix, n: nat) {
    |a| == n && forall i :: 0 <= i < n ==> |a[i]| == n
  }

  ghost predicate Regular(a: Matrix, n: nat)
    requires Square(a, n)
  {
    forall i :: 0 <= i < n ==> Abs(a[i][i]) >= EPS
  }

  /** Row i of a column is replaced by its unknown, given the unknowns below it. */
  ghost function BackStep(q: Division, a: Matrix, n: nat, c: seq<real>, i: nat): (x: seq<real>)
    requires Square(a, n) && |c| == n && i < n
    ensures |x| == n
  {
    c[i := q(c[i] - SumFrom(a[i], c, i + 1), a[i][i])]
  }

  /** The column after rows n - 1 down to i. */
  ghost function BackSub(q: Division, a: Matrix, n: nat, c: seq<real>, i: nat): (x: seq<real>)
    requires Square(a, n) && |c| == n && i <= n
    ensures |x| == n
    decreases n - i
  {
    if i == n then c else BackStep(q, a, n, BackSub(q, a, n, c, i + 1), i)
  }

  lemma {:induction false} SumLocal(r: seq<real>, x: seq<real>, y: seq<real>, i: nat)
    requires i <= |r| == |x| == |y| && forall k :: i <= k < |r| ==> x[k] == y[k]
    ensures SumFrom(r, x, i) == SumFrom(r, y, i)
    decreases |r| - i
  {
    if i < |r| {
      SumLocal(r, x, y, i + 1);
    }
  }

  /** The rows from i on are solved; those above are still the right-hand side. */
  lemma {:induction false} BackSubSolves(q: Division, a: Matrix, n: nat, c: seq<real>, i: nat)
    requires Square(a, n) && |c| == n && i <= n && Exact(q) && Regular(a, n)
    ensures var x := BackSub(q, a, n, c, i);
            && (forall r :: i <= r < n ==> SumFrom(a[r], x, r) == c[r])
            && (forall r :: 0 <= r < i ==> x[r] == c[r])
    decreases n - i
  {
    if i < n {
      BackSubSolves(q, a, n, c, i + 1);
      var x := BackSub(q, a, n, c, i + 1);
      var x' := BackStep(q, a, n, x, i);
      forall r | i <= r < n
        ensures SumFrom(a[r], x', r) == c[r]
      {
        if r == i {
          SumLocal(a[i], x', x, i + 1);
          var t, d := c[i] - SumFrom(a[i], x, i + 1), a[i][i];
          assert d * (t / d) == t;
        } else {
          SumLocal(a[r], x', x, r);
        }
      }
    }
  }

  /** Back substitution solves an upper triangular system. */
  lemma TriangularSolved(q: Division, a: Matrix, n: nat, c: seq<real>)
    requires Square(a, n) && |c| == n && Exact(q) && Regular(a, n) && Triangular(a, n, n)
    ensures forall i :: 0 <= i < n ==> Dot(a[i], BackSub(q, a, n, c, 0)) == c[i]
  {
    BackSubSolves(q, a, n, c, 0);
    forall i | 0 <= i < n
      ensures Dot(a[i], BackSub(q, a, n, c, 0)) == c[i]
    {
      SumZeros(a[i], BackSub(q, a, n, c, 0), 0, i);
    }
  }

  lemma DotFrom(a: Matrix, n: nat, x: seq<real>, i: nat)
    requires Square(a, n) && Triangular(a, n, n) && |x| == n && i < n
    ensures Dot(a[i], x) == a[i][i] * x[i] + SumFrom(a[i], x, i + 1)
  {
    SumZeros(a[i], x, 0, i);
  }

  lemma {:induction false} TriangularUnique(a: Matrix, n: nat, x: seq<real>, y: seq<real>, i: nat)
    requires Square(a, n) && Regular(a, n) && Triangular(a, n, n) && |x| == |y| == n && i <= n
    requires forall r :: 0 <= r < n ==> Dot(a[r], x) == Dot(a[r], y)
    ensures forall k :: i <= k < n ==> x[k] == y[k]
    decreases n - i
  {
    hide Dot, SumFrom;
    if i < n {
      TriangularUnique(a, n, x, y, i + 1);
      DotFrom(a, n, x, i);
      DotFrom(a, n, y, i);
      SumLocal(a[i], x, y, i + 1);
      assert Abs(a[i][i]) >= EPS;
      assert SumFrom(a[i], x, i + 1) == SumFrom(a[i], y, i + 1);
      assert Dot(a[i], x) == Dot(a[i], y);
      assert a[i][i] != 0.0;
      Cancel(a[i][i], x[i], y[i], SumFrom(a[i], x, i + 1));
    }
  }

  lemma Cancel(d: real, x: real, y: real, s: real)
    requires d != 0.0 && d * x + s == d * y + s
    ensures x == y
  {
    assert d * (x - y) == 0.0;
  }

  // ----- the whole solver

  function Column(b: Matrix, j: nat): (c: seq<real>)
    requires forall i :: 0 <= i < |b| ==> j < |b[i]|
    ensures |c| == |b| && forall i :: 0 <= i < |b| ==> c[i] == b[i][j]
  {
    seq(|b|, i requires 0 <= i < |b| => b[i][j])
  }

  /** The elimination loop runs for k < n - 1. */
  function Steps(n: nat): nat {
    if n == 0 then 0 else n - 1
  }

  predicate SmallDiagonal(a: Matrix, n: nat, i: nat)
    requires Square(a, n) && i <= n
  {
    exists r :: i <= r < n && Abs(a[r][r]) < EPS
  }

  /** my_dgesv answers 0: no pivot was too small, and no diagonal entry, as far as a column looks at it. */
  ghost predicate Accepts(pivoting: bool, s: System, n: nat, m: nat)
    requires Shaped(s, n, m)
  {
    var e := Eliminated(pivoting, s, n, m, Steps(n));
    e.Ok? && (m == 0 || !SmallDiagonal(e.s.a, n, 0))
  }

  /** x is the content of b when the solver answers 0. */
  ghost predicate Answer(pivoting: bool, s: System, n: nat, m: nat, q: Division, x: Matrix)
    requires Shaped(s, n, m)
  {
    && Accepts(pivoting, s, n, m)
    && |x| == n && (forall i :: 0 <= i < n ==> |x[i]| == m)
    && var s' := Eliminated(pivoting, s, n, m, Steps(n)).s;
       forall j :: 0 <= j < m ==> Column(x, j) == BackSub(q, s'.a, n, Column(s'.b, j), 0)
  }

  lemma AcceptedIsRegular(pivoting: bool, s: System, n: nat, m: nat)
    requires Shaped(s, n, m) && Accepts(pivoting, s, n, m) && m > 0
    ensures var s' := Eliminated(pivoting, s, n, m, Steps(n)).s;
            Regular(s'.a, n) && Triangular(s'.a, n, n) && SameSolutions(s, s', n, m)
  {
    EliminationKeeps(pivoting, s, n, m, Steps(n));
  }

  /** Soundness: whenever the solver answers 0, every column it leaves in b solves the original system. */
  lemma SolverSound(pivoting: bool, s: System, n: nat, m: nat, q: Division, x: Matrix, j: nat)
    requires Shaped(s, n, m) && Exact(q) && Answer(pivoting, s, n, m, q, x) && j < m
    ensures Solves(s, n, m, Column(x, j), j)
  {
    AcceptedIsRegular(pivoting, s, n, m);
    var s' := Eliminated(pivoting, s, n, m, Steps(n)).s;
    TriangularSolved(q, s'.a, n, Column(s'.b, j));
    assert Solves(s', n, m, Column(x, j), j) by {
      forall i | 0 <= i < n
        ensures Holds(s', n, m, Column(x, j), j, i)
      {
      }
    }
  }

  /** Uniqueness: there is no other solution. */
  lemma SolverUnique(pivoting: bool, s: System, n: nat, m: nat, x: seq<real>, y: seq<real>, j: nat)
    requires Shaped(s, n, m) && Accepts(pivoting, s, n, m) && j < m && |x| == |y| == n
    requires Solves(s, n, m, x, j) && Solves(s, n, m, y, j)
    ensures x == y
  {
    AcceptedIsRegular(pivoting, s, n, m);
    var s' := Eliminated(pivoting, s, n, m, Steps(n)).s;
    assert Solves(s', n, m, x, j) && Solves(s', n, m, y, j);
    forall r | 0 <= r < n
      ensures Dot(s'.a[r], x) == Dot(s'.a[r], y)
    {
      assert Holds(s', n, m, x, j, r) && Holds(s', n, m, y, j, r);
    }
    TriangularUnique(s'.a, n, x, y, 0);
  }

  function Plus(x: seq<real>, z: seq<real>): (y: seq<real>)
    requires |x| == |z|
    ensures |y| == |x|
  {
    seq(|x|, k requires 0 <= k < |x| => x[k] + z[k])
  }

  lemma {:induction false} SumPlus(r: seq<real>, x: seq<real>, z: seq<real>, i: nat)
    requires i <= |r| == |x| == |z|
    ensures SumFrom(r, Plus(x, z), i) == SumFrom(r, x, i) + SumFrom(r, z, i)
    decreases |r| - i
  {
    if i < |r| {
      SumPlus(r, x, z, i + 1);
      assert r[i] * (x[i] + z[i]) == r[i] * x[i] + r[i] * z[i];
    }
  }

  /** Division over the reals, with 0 for a zero divisor. */
  function Exactly(): Division {
    (t, d) => if d != 0.0 then t / d else 0.0
  }

  /** An accepted system has an answer, so it has a solution for every right-hand side. */
  lemma AcceptedIsSolvable(pivoting: bool, s: System, n: nat, m: nat, j: nat) returns (c: seq<real>)
    requires Shaped(s, n, m) && Accepts(pivoting, s, n, m) && j < m
    ensures |c| == n && Solves(s, n, m, c, j)
  {
    var q, s' := Exactly(), Eliminated(pivoting, s, n, m, Steps(n)).s;
    var x: Matrix := seq(n, i requires 0 <= i < n => seq(m, j requires 0 <= j < m => BackSub(q, s'.a, n, Column(s'.b, j), 0)[i]));
    forall j | 0 <= j < m
      ensures Column(x, j) == BackSub(q, s'.a, n, Column(s'.b, j), 0)
    {
      assert forall i :: 0 <= i < n ==> Column(x, j)[i] == BackSub(q, s'.a, n, Column(s'.b, j), 0)[i];
    }
    SolverSound(pivoting, s, n, m, q, x, j);
    c := Column(x, j);
  }

  /** With at least one right-hand side, an accepted matrix maps only the zero vector to zero. */
  lemma KernelIsTrivial(pivoting: bool, s: System, n: nat, m: nat, z: seq<real>)
    requires Shaped(s, n, m) && m > 0 && |z| == n && Accepts(pivoting, s, n, m)
    requires forall i :: 0 <= i < n ==> Dot(s.a[i], z) == 0.0
    ensures forall k :: 0 <= k < n ==> z[k] == 0.0
  {
    var x0 := AcceptedIsSolvable(pivoting, s, n, m, 0);
    forall i | 0 <= i < n
      ensures Holds(s, n, m, Plus(x0, z), 0, i)
    {
      assert Holds(s, n, m, x0, 0, i);
      SumPlus(s.a[i], x0, z, 0);
    }
    SolverUnique(pivoting, s, n, m, x0, Plus(x0, z), 0);
    assert forall k :: 0 <= k < n ==> Plus(x0, z)[k] == x0[k] + z[k];
  }

  /** So a singular matrix always gives -1, with or without pivoting. */
  lemma SingularRejected(pivoting: bool, s: System, n: nat, m: nat, z: seq<real>, k: nat)
    requires Shaped(s, n, m) && m > 0 && |z| == n
    requires (forall i :: 0 <= i < n ==> Dot(s.a[i], z) == 0.0) && k < n && z[k] != 0.0
    ensures !Accepts(pivoting, s, n, m)
  {
    if Accepts(pivoting, s, n, m) {
      KernelIsTrivial(pivoting, s, n, m, z);
    }
  }

  /** When the pivoting and the plain solver both answer 0, they leave the same b. */
  lemma SolversAgree(s: System, n: nat, m: nat, q: Division, x: Matrix, y: Matrix)
    requires Shaped(s, n, m) && Exact(q) && Answer(true, s, n, m, q, x) && Answer(false, s, n, m, q, y)
    ensures x == y
  {
    forall i, j | 0 <= i < n && 0 <= j < m
      ensures x[i][j] == y[i][j]
    {
      SolverSound(true, s, n, m, q, x, j);
      SolverSound(false, s, n, m, q, y, j);
      SolverUnique(true, s, n, m, Column(x, j), Column(y, j), j);
      assert Column(x, j)[i] == Column(y, j)[i];
    }
    assert forall i :: 0 <= i < n ==> x[i] == y[i];
  }

  // ----- parallel back substitution

  /** Where the thread of a column is in its row: before the load of t, in the sum or its test, or before
      the store. */
  datatype Stage = Load | Add(k: nat, t: real) | Store(t: real)

  /** The rows still to do, and the stage of the one in work, which is row left - 1. */
  datatype Thread = Thread(left: nat, stage: Stage)

  /** The matrix b and the error flag, which all threads share, and the threads. */
  datatype Shared = Shared(b: Matrix, flag: bool, threads: seq<Thread>)

  ghost predicate Ready(t: Thread, n: nat) {
    t.left <= n && (t.stage.Load? || t.left > 0) && (t.stage.Add? ==> t.left <= t.stage.k <= n)
  }

  ghost predicate InProgress(p: Shared, n: nat, m: nat) {
    && |p.b| == n && (forall i :: 0 <= i < n ==> |p.b[i]| == m)
    && |p.threads| == m && forall j :: 0 <= j < m ==> Ready(p.threads[j], n)
  }

  function LessProduct(t: real, x: real, y: real): real {
    t - x * y
  }

  /** The thread of column j makes one access to b: it loads b[i][j], subtracts one product, leaves the sum
      and raises the flag if the diagonal entry is small, or stores the quotient. */
  ghost function ThreadStep(q: Division, a: Matrix, n: nat, m: nat, p: Shared, j: nat): (p': Shared)
    requires Square(a, n) && InProgress(p, n, m) && j < m
    ensures InProgress(p', n, m)
  {
    var t := p.threads[j];
    if t.left == 0 then p
    else
      var i := t.left - 1;
      match t.stage
      case Load => p.(threads := p.threads[j := Thread(t.left, Add(i + 1, p.b[i][j]))])
      case Add(k, s) =>
        if k < n then p.(threads := p.threads[j := Thread(t.left, Add(k + 1, LessProduct(s, a[i][k], p.b[k][j])))])
        else Shared(p.b, p.flag || Abs(a[i][i]) < EPS, p.threads[j := Thread(t.left, Store(s))])
      case Store(s) => Shared(p.b[i := p.b[i][j := q(s, a[i][i])]], p.flag, p.threads[j := Thread(i, Load)])
  }

  ghost predicate Names(sched: seq<nat>, m: nat) {
    forall k :: 0 <= k < |sched| ==> sched[k] < m
  }

  ghost function Started(b: Matrix, n: nat, m: nat): Shared {
    Shared(b, false, seq(m, _ => Thread(n, Load)))
  }

  /** Any interleaving of the threads: sched names the column of each step. */
  ghost function Schedule(q: Division, a: Matrix, n: nat, m: nat, b: Matrix, sched: seq<nat>): (p: Shared)
    requires Square(a, n) && |b| == n && (forall i :: 0 <= i < n ==> |b[i]| == m) && Names(sched, m)
    ensures InProgress(p, n, m)
  {
    if sched == [] then Started(b, n, m)
    else ThreadStep(q, a, n, m, Schedule(q, a, n, m, b, sched[..|sched| - 1]), sched[|sched| - 1])
  }

  ghost function Turns(sched: seq<nat>, j: nat): nat {
    if sched == [] then 0
    else Turns(sched[..|sched| - 1], j) + if sched[|sched| - 1] == j then 1 else 0
  }

  // one column with nobody else around

  datatype Solo = Solo(c: seq<real>, flag: bool, thread: Thread)

  ghost function SoloStep(q: Division, a: Matrix, n: nat, s: Solo): (s': Solo)
    requires Square(a, n) && |s.c| == n && Ready(s.thread, n)
    ensures |s'.c| == n && Ready(s'.thread, n)
  {
    var t := s.thread;
    if t.left == 0 then s
    else
      var i := t.left - 1;
      match t.stage
      case Load => s.(thread := Thread(t.left, Add(i + 1, s.c[i])))
      case Add(k, u) =>
        if k < n then s.(thread := Thread(t.left, Add(k + 1, LessProduct(u, a[i][k], s.c[k]))))
        else Solo(s.c, s.flag || Abs(a[i][i]) < EPS, Thread(t.left, Store(u)))
      case Store(u) => Solo(s.c[i := q(u, a[i][i])], s.flag, Thread(i, Load))
  }

  ghost function SoloRun(q: Division, a: Matrix, n: nat, c: seq<real>, turns: nat): (s: Solo)
    requires Square(a, n) && |c| == n
    ensures |s.c| == n && Ready(s.thread, n)
  {
    if turns == 0 then Solo(c, false, Thread(n, Load)) else SoloStep(q, a, n, SoloRun(q, a, n, c, turns - 1))
  }

  /** The rows below the one in work are solved, and t is its right-hand side less the products so far. */
  ghost predicate Solving(q: Division, a: Matrix, n: nat, c: seq<real>, s: Solo)
    requires Square(a, n) && |c| == |s.c| == n && Ready(s.thread, n)
  {
    var left := s.thread.left;
    && s.c == BackSub(q, a, n, c, left)
    && (s.flag <==> SmallDiagonal(a, n, if s.thread.stage.Store? then left - 1 else left))
    && match s.thread.stage
       case Load => true
       case Add(k, t) => t - SumFrom(a[left - 1], s.c, k) == s.c[left - 1] - SumFrom(a[left - 1], s.c, left)
       case Store(t) => t == s.c[left - 1] - SumFrom(a[left - 1], s.c, left)
  }

  /** The steps a column still needs. */
  function Work(n: nat, left: nat): nat
    requires left <= n
  {
    if left == 0 then 0 else n - left + 3 + Work(n, left - 1)
  }

  ghost function ToDo(n: nat, t: Thread): nat
    requires Ready(t, n)
  {
    match t.stage
    case Load => Work(n, t.left)
    case Add(k, _) => n - k + 2 + Work(n, t.left - 1)
    case Store(_) => 1 + Work(n, t.left - 1)
  }

  lemma SoloStepKeeps(q: Division, a: Matrix, n: nat, c: seq<real>, s: Solo)
    requires Square(a, n) && |c| == |s.c| == n && Ready(s.thread, n) && Solving(q, a, n, c, s)
    ensures Solving(q, a, n, c, SoloStep(q, a, n, s))
    ensures ToDo(n, SoloStep(q, a, n, s).thread) == if ToDo(n, s.thread) == 0 then 0 else ToDo(n, s.thread) - 1
  {
    hide Regular, Triangular;
    var left := s.thread.left;
    if left > 0 && s.thread.stage.Add? && s.thread.stage.k == n {
      assert SmallDiagonal(a, n, left - 1) <==> SmallDiagonal(a, n, left) || Abs(a[left - 1][left - 1]) < EPS;
    }
  }

  lemma {:induction false} SoloSolves(q: Division, a: Matrix, n: nat, c: seq<real>, turns: nat)
    requires Square(a, n) && |c| == n
    ensures Solving(q, a, n, c, SoloRun(q, a, n, c, turns))
    ensures ToDo(n, SoloRun(q, a, n, c, turns).thread) == if turns < Work(n, n) then Work(n, n) - turns else 0
  {
    hide Solving, SoloStep;
    if turns == 0 {
      SoloStarts(q, a, n, c);
    } else {
      SoloSolves(q, a, n, c, turns - 1);
      SoloStepKeeps(q, a, n, c, SoloRun(q, a, n, c, turns - 1));
    }
  }

  lemma SoloStarts(q: Division, a: Matrix, n: nat, c: seq<real>)
    requires Square(a, n) && |c| == n
    ensures Solving(q, a, n, c, Solo(c, false, Thread(n, Load)))
  {
  }

  /** With enough turns the column is solved, and its part of the flag tells of any small diagonal entry. */
  lemma SoloFinishes(q: Division, a: Matrix, n: nat, c: seq<real>, turns: nat)
    requires Square(a, n) && |c| == n && turns >= Work(n, n)
    ensures SoloRun(q, a, n, c, turns).c == BackSub(q, a, n, c, 0)
    ensures SoloRun(q, a, n, c, turns).flag <==> SmallDiagonal(a, n, 0)
  {
    SoloSolves(q, a, n, c, turns);
    var t := SoloRun(q, a, n, c, turns).thread;
    assert ToDo(n, t) == 0 ==> t.left == 0;
  }

  // all columns together

  /** The next step of t finds a small diagonal entry. */
  ghost predicate Raises(a: Matrix, n: nat, t: Thread)
    requires Square(a, n) && Ready(t, n)
  {
    t.left > 0 && t.stage.Add? && t.stage.k == n && Abs(a[t.left - 1][t.left - 1]) < EPS
  }

  /** A step of one thread is a solo step on its own column of the shared matrix. */
  lemma OwnColumn(q: Division, a: Matrix, n: nat, m: nat, p: Shared, s: Solo, j: nat)
    requires Square(a, n) && InProgress(p, n, m) && j < m && s.c == Column(p.b, j) && s.thread == p.threads[j]
    ensures var p', s' := ThreadStep(q, a, n, m, p, j), SoloStep(q, a, n, s);
            && p'.threads[j] == s'.thread && Column(p'.b, j) == s'.c
            && (p'.flag <==> p.flag || Raises(a, n, s.thread)) && (s'.flag <==> s.flag || Raises(a, n, s.thread))
  {
    hide LessProduct;
    assert Column(ThreadStep(q, a, n, m, p, j).b, j) == SoloStep(q, a, n, s).c;
  }

  /** And it neither writes nor moves anything of another column. */
  lemma OtherColumn(q: Division, a: Matrix, n: nat, m: nat, p: Shared, j: nat, j': nat)
    requires Square(a, n) && InProgress(p, n, m) && j < m && j' < m && j' != j
    ensures var p' := ThreadStep(q, a, n, m, p, j);
            p'.threads[j'] == p.threads[j'] && Column(p'.b, j') == Column(p.b, j')
  {
    assert Column(ThreadStep(q, a, n, m, p, j).b, j') == Column(p.b, j');
  }

  /** The column and the thread of j depend on its own turns only, whatever the others do. */
  lemma {:induction false} ColumnsAreIndependent(q: Division, a: Matrix, n: nat, m: nat, b: Matrix, sched: seq<nat>, j: nat)
    requires Square(a, n) && |b| == n && (forall i :: 0 <= i < n ==> |b[i]| == m) && Names(sched, m) && j < m
    ensures var p, s := Schedule(q, a, n, m, b, sched), SoloRun(q, a, n, Column(b, j), Turns(sched, j));
            p.threads[j] == s.thread && Column(p.b, j) == s.c
  {
    hide ThreadStep, SoloStep, Column;
    if sched != [] {
      var before, t := sched[..|sched| - 1], sched[|sched| - 1];
      ColumnsAreIndependent(q, a, n, m, b, before, j);
      var p, s := Schedule(q, a, n, m, b, before), SoloRun(q, a, n, Column(b, j), Turns(before, j));
      if t == j {
        OwnColumn(q, a, n, m, p, s, j);
      } else {
        OtherColumn(q, a, n, m, p, t, j);
      }
    }
  }

  /** The shared flag is up exactly when one of the columns has raised it. */
  lemma {:induction false} FlagIsShared(q: Division, a: Matrix, n: nat, m: nat, b: Matrix, sched: seq<nat>)
    requires Square(a, n) && |b| == n && (forall i :: 0 <= i < n ==> |b[i]| == m) && Names(sched, m)
    ensures Schedule(q, a, n, m, b, sched).flag
       <==> exists j :: 0 <= j < m && SoloRun(q, a, n, Column(b, j), Turns(sched, j)).flag
  {
    hide ThreadStep, SoloStep, Column;
    if sched != [] {
      var before, t := sched[..|sched| - 1], sched[|sched| - 1];
      FlagIsShared(q, a, n, m, b, before);
      ColumnsAreIndependent(q, a, n, m, b, before, t);
      var p, s := Schedule(q, a, n, m, b, before), SoloRun(q, a, n, Column(b, t), Turns(before, t));
      OwnColumn(q, a, n, m, p, s, t);
      assert SoloRun(q, a, n, Column(b, t), Turns(sched, t)) == SoloStep(q, a, n, s);
      assert forall j :: 0 <= j < m && j != t ==> Turns(sched, j) == Turns(before, j);
      if Schedule(q, a, n, m, b, sched).flag && p.flag {
        var j :| 0 <= j < m && SoloRun(q, a, n, Column(b, j), Turns(before, j)).flag;
        assert SoloRun(q, a, n, Column(b, j), Turns(sched, j)).flag;
      }
    }
  }

  /** Schedule independence: every interleaving of the accesses in which each thread gets to its end leaves
      the same b and the same error flag as processing the columns one after the other. */
  lemma ScheduleIndependent(q: Division, a: Matrix, n: nat, m: nat, b: Matrix, sched: seq<nat>)
    requires Square(a, n) && |b| == n && (forall i :: 0 <= i < n ==> |b[i]| == m) && Names(sched, m)
    requires forall j :: 0 <= j < m ==> Turns(sched, j) >= Work(n, n)
    ensures var p := Schedule(q, a, n, m, b, sched);
            && (forall j :: 0 <= j < m ==> Column(p.b, j) == BackSub(q, a, n, Column(b, j), 0))
            && (p.flag <==> m > 0 && SmallDiagonal(a, n, 0))
  {
    hide Schedule, SoloRun, Column, SmallDiagonal, BackSub;
    forall j | 0 <= j < m
      ensures Column(Schedule(q, a, n, m, b, sched).b, j) == BackSub(q, a, n, Column(b, j), 0)
      ensures SoloRun(q, a, n, Column(b, j), Turns(sched, j)).flag <==> SmallDiagonal(a, n, 0)
    {
      ColumnsAreIndependent(q, a, n, m, b, sched, j);
      SoloFinishes(q, a, n, Column(b, j), Turns(sched, j));
    }
    FlagIsShared(q, a, n, m, b, sched);
    if m > 0 && SmallDiagonal(a, n, 0) {
      assert SoloRun(q, a, n, Column(b, 0), Turns(sched, 0)).flag;
    }
  }

  /** A thread gets to its end in exactly that many turns. */
  lemma DoneIffTurns(q: Division, a: Matrix, n: nat, m: nat, b: Matrix, sched: seq<nat>, j: nat)
    requires Square(a, n) && |b| == n && (forall i :: 0 <= i < n ==> |b[i]| == m) && Names(sched, m) && j < m
    ensures Schedule(q, a, n, m, b, sched).threads[j].left == 0 <==> Turns(sched, j) >= Work(n, n)
  {
    hide Schedule, SoloRun, Column;
    ColumnsAreIndependent(q, a, n, m, b, sched, j);
    SoloSolves(q, a, n, Column(b, j), Turns(sched, j));
  }
}
