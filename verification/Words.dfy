/** Powers of two, as the sources use them for shifts, masks and word sizes.
    x >> k is Shr(x, k) and x & (2^k - 1) is Low(x, k). */
module Words {

  const WORD: nat := 0x1_0000_0000_0000_0000  // 2^64, the range of UWord and Addr
  const UINT: nat := 0x1_0000_0000            // 2^32, the range of UInt

  function Pow2(k: nat): (r: nat)
    ensures r > 0
  {
    if k == 0 then 1 else 2 * Pow2(k - 1)
  }

  function Quot(x: nat, p: nat): nat
    requires p > 0
  {
    x / p
  }

  function Rem(x: nat, p: nat): (r: nat)
    requires p > 0
    ensures r < p
  {
    x % p
  }

  function Shr(x: nat, k: nat): nat {
    Quot(x, Pow2(k))
  }

  function Low(x: nat, k: nat): (r: nat)
    ensures r < Pow2(k)
  {
    Rem(x, Pow2(k))
  }

  lemma {:induction false} Pow2Add(j: nat, k: nat)
    ensures Pow2(j + k) == Pow2(j) * Pow2(k)
  {
    if j > 0 {
      Pow2Add(j - 1, k);
    }
  }

  lemma {:induction false} Pow2Grows(j: nat, k: nat)
    requires j < k
    ensures 2 * Pow2(j) <= Pow2(k)
  {
    if j < k - 1 {
      Pow2Grows(j, k - 1);
    }
  }

  /** Two powers of two are equal only when their exponents are. */
  lemma Pow2Injective(j: nat, k: nat)
    requires Pow2(j) == Pow2(k)
    ensures j == k
  {
    if j < k { Pow2Grows(j, k); }
    if k < j { Pow2Grows(k, j); }
  }

  /** A number is its quotient times the divisor plus its remainder. */
  lemma QuotRem(x: nat, p: nat)
    requires p > 0
    ensures Quot(x, p) * p + Rem(x, p) == x
  {
  }

  lemma RemOfNext(x: nat, p: nat)
    requires p > 1
    ensures Rem(x, p) != Rem(x + 1, p)
  {
    QuotRem(x, p);
    QuotRem(x + 1, p);
    var d: int := Quot(x + 1, p) - Quot(x, p);
    assert d * p == 1 + Rem(x, p) - Rem(x + 1, p);
    MultipleIsFar(d, p);
  }

  lemma Pow2Is32()
    ensures Pow2(32) == UINT
  {
    assert Pow2(4) == 16;
    Pow2Add(4, 4);
    Pow2Add(8, 8);
    Pow2Add(16, 16);
  }

  lemma RemUnique(x: nat, p: nat, q: nat, r: nat)
    requires p > 0 && x == q * p + r && r < p
    ensures Quot(x, p) == q && Rem(x, p) == r
  {
    QuotRem(x, p);
    var d: int := Quot(x, p) - q;
    assert d * p == r - Rem(x, p);
    MultipleIsFar(d, p);
  }

  lemma MultipleIsFar(d: int, p: int)
    requires p > 0
    ensures d > 0 ==> d * p >= p
    ensures d < 0 ==> d * p <= -p
  {
  }

  lemma RemOfRemNext(x: nat, p: nat)
    requires p > 0
    ensures Rem(Rem(x, p) + 1, p) == Rem(x + 1, p)
  {
    var y, q := Rem(x, p) + 1, Quot(x, p);
    QuotRem(x, p);
    QuotRem(y, p);
    assert (q + Quot(y, p)) * p == q * p + Quot(y, p) * p;
    RemUnique(x + 1, p, q + Quot(y, p), Rem(y, p));
  }

  /** The quotient by l of the low part modulo l * v is the quotient modulo v. */
  lemma QuotOfRem(x: nat, l: nat, v: nat)
    requires l > 0 && v > 0
    ensures l * v > 0 && Quot(Rem(x, l * v), l) == Rem(Quot(x, l), v)
  {
    var b, r := Quot(x, l), Rem(x, l);
    var q, m := Quot(b, v), Rem(b, v);
    MulPositive(l, v);
    QuotRem(x, l);
    QuotRem(b, v);
    calc {
      x;
      (q * v + m) * l + r;
      q * v * l + m * l + r;
      { assert q * v * l == q * (l * v) by { MulSwap(q, v, l); } }
      q * (l * v) + (m * l + r);
    }
    assert m * l + r < l * v by { MulBelow(m, r, v, l); }
    RemUnique(x, l * v, q, m * l + r);
    RemUnique(m * l + r, l, m, r);
  }

  lemma QuotOfQuot(x: nat, l: nat, n: nat)
    requires l > 0 && n > 0
    ensures l * n > 0 && Quot(x, l * n) == Quot(Quot(x, l), n)
  {
    var b, r := Quot(x, l), Rem(x, l);
    var q, m := Quot(b, n), Rem(b, n);
    MulPositive(l, n);
    QuotRem(x, l);
    QuotRem(b, n);
    assert q * n * l == q * (l * n) by { MulSwap(q, n, l); }
    assert x == (q * n + m) * l + r == q * n * l + m * l + r;
    assert m * l + r < l * n by { MulBelow(m, r, n, l); }
    RemUnique(x, l * n, q, m * l + r);
  }

  lemma RemOfRem(x: nat, n: nat, w: nat)
    requires n > 0 && w > 0
    ensures n * w > 0 && Rem(Rem(x, n * w), n) == Rem(x, n)
  {
    var p := n * w;
    MulPositive(n, w);
    QuotRem(x, p);
    QuotRem(Rem(x, p), n);
    var q, q' := Quot(x, p), Quot(Rem(x, p), n);
    assert q * p == q * w * n by { MulSwap(q, w, n); }
    assert x == (q * w + q') * n + Rem(Rem(x, p), n);
    RemUnique(x, n, q * w + q', Rem(Rem(x, p), n));
  }

  lemma MulPositive(x: nat, y: nat)
    requires x > 0 && y > 0
    ensures x * y > 0
  {
  }

  lemma MulSwap(x: int, y: int, z: int)
    ensures x * y * z == x * (z * y)
  {
  }

  lemma MulBelow(m: nat, r: nat, v: nat, l: nat)
    requires m < v && r < l
    ensures m * l + r < l * v
  {
    assert (v - 1 - m) * l >= 0;
    assert (v - 1 - m) * l == v * l - l - m * l;
  }

  lemma CancelFactor(x: nat, y: nat, t: nat)
    requires t > 0 && x * t == y * t
    ensures x == y
  {
    assert (x - y) * t == 0;
    MultipleIsFar(x - y, t);
  }

  lemma QuotPositive(x: nat, n: nat)
    requires 0 < n <= x
    ensures Quot(x, n) > 0
  {
    QuotRem(x, n);
  }

  lemma QuotZero(x: nat, n: nat)
    requires x < n
    ensures Quot(x, n) == 0 && Rem(x, n) == x
  {
    RemUnique(x, n, 0, x);
  }

  lemma QuotBounds(x: nat, l: nat, lo: nat, hi: nat)
    requires l > 0
    ensures l * lo <= x ==> lo <= Quot(x, l)
    ensures x < l * hi ==> Quot(x, l) < hi
  {
    QuotRem(x, l);
    MultipleIsFar(Quot(x, l) as int - lo as int, l);
    MultipleIsFar(Quot(x, l) as int - hi as int, l);
    assert (Quot(x, l) - lo) * l == Quot(x, l) * l - lo * l;
    assert (Quot(x, l) - hi) * l == Quot(x, l) * l - hi * l;
    if Quot(x, l) == hi {
      assert Quot(x, l) * l == l * hi;
    }
  }

  lemma QuotNear(x: nat, y: nat, l: nat)
    requires l > 0 && x <= y < x + l
    ensures Quot(y, l) == Quot(x, l) || Quot(y, l) == Quot(x, l) + 1
  {
    QuotRem(x, l);
    QuotRem(y, l);
    var d: int := Quot(y, l) - Quot(x, l);
    assert d * l == y - x + Rem(x, l) - Rem(y, l);
    MultipleIsFar(d - 2, l);
    MultipleIsFar(d, l);
    assert (d - 2) * l == d * l - 2 * l;
  }

  /** A multiple of t below a multiple of t leaves room for t more. */
  lemma AlignedRoom(x: nat, t: nat, u: nat)
    requires t > 0 && Rem(x, t) == 0 && Rem(u, t) == 0 && x < u
    ensures x + t <= u
  {
    QuotRem(x, t);
    QuotRem(u, t);
    var d: int := Quot(u, t) - Quot(x, t);
    assert d * t == u - x;
    MultipleIsFar(d - 1, t);
    assert (d - 1) * t == d * t - t;
    MultipleIsFar(d, t);
  }

  lemma UintAligned(k: nat)
    requires k < 32
    ensures Rem(UINT, Pow2(k)) == 0
  {
    Pow2Is32();
    Pow2Add(32 - k, k);
    RemUnique(UINT, Pow2(k), Pow2(32 - k), 0);
  }
}
